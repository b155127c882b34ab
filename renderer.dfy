/** The isometric level renderer of www/renderer.iso.mjs: each frame it
    queues, row by row, a base sprite for every cell in a square window
    around the camera focus, plus an overlay sprite one unit higher where
    the second tile layer is not empty, and then flushes the batch. */
module Renderer {
  import opened Util
  import opened Camera
  import opened TileImage

  /** The level as the renderer reads it: row-major tile and height layers. */
  datatype Level = Level(rows: nat, cols: nat, tileMap1: seq<nat>, tileMap2: seq<nat>, heightMap: seq<nat>)

  /** Every layer holds one entry per cell. */
  predicate WellFormed(level: Level)
  {
    |level.tileMap1| == level.rows * level.cols &&
    |level.tileMap2| == level.rows * level.cols &&
    |level.heightMap| == level.rows * level.cols
  }

  /** The row-major index of a cell lies inside the layers. */
  lemma CellIndex(i: nat, j: nat, rows: nat, cols: nat)
    requires i < rows && j < cols
    ensures i * cols + j < rows * cols
  {
    assert (i + 1) * cols <= rows * cols;
  }

  /** `clampRow` / `clampCol`: a whole number clamped to `[0, n]` with the
      real-valued `clamp`, which keeps it whole. */
  function ClampIndex(v: int, n: nat): (r: nat)
    ensures r <= n
    ensures 0 <= v <= n ==> r == v
    ensures v < 0 ==> r == 0
    ensures v > n ==> r == n
  {
    var c := Clamp(v as real, 0.0, n as real);
    assert c == v as real || c == 0.0 || c == n as real;
    c.Floor
  }

  /** The half-open range of rows (or columns) a frame visits: `distance`
      either side of the target, cut to the level. */
  function VisibleRange(target: int, distance: nat, n: nat): (range: (nat, nat))
    ensures range.0 <= range.1 <= n
  {
    (ClampIndex(target - distance, n), ClampIndex(target + distance, n))
  }

  /** An index is in the visible range exactly when it is inside the level
      and within `distance` of the target, counting the target's own side
      inclusively and the far side exclusively. */
  lemma VisibleRangeExact(target: int, distance: nat, n: nat, i: int)
    ensures var (lo, hi) := VisibleRange(target, distance, n);
            lo <= i < hi <==> 0 <= i < n && target - distance <= i < target + distance
  {
  }

  /** The cells of row `i` from column `c0` up to (not including) `c`. */
  function RowCells(i: nat, c0: nat, c: nat): (cs: seq<(nat, nat)>)
  {
    seq(if c <= c0 then 0 else c - c0, k requires 0 <= k => (i, c0 + k))
  }

  /** The cells of rows `r0 .. r - 1` and columns `c0 .. c1 - 1`, row by row. */
  function Cells(r0: nat, r: nat, c0: nat, c1: nat): seq<(nat, nat)>
    decreases r
  {
    if r <= r0 then [] else Cells(r0, r - 1, c0, c1) + RowCells(r - 1, c0, c1)
  }

  /** Row-major order: row first, then column, strictly. */
  predicate Before(a: (nat, nat), b: (nat, nat))
  {
    a.0 < b.0 || (a.0 == b.0 && a.1 < b.1)
  }

  lemma RowCellsExact(i: nat, c0: nat, c: nat, cell: (nat, nat))
    ensures cell in RowCells(i, c0, c) <==> cell.0 == i && c0 <= cell.1 < c
  {
    if cell.0 == i && c0 <= cell.1 < c {
      assert RowCells(i, c0, c)[cell.1 - c0] == cell;
    }
  }

  lemma RowCellsSnoc(i: nat, c0: nat, c: nat)
    requires c > c0
    ensures RowCells(i, c0, c) == RowCells(i, c0, c - 1) + [(i, c - 1)]
  {
  }

  /** A window visits exactly the cells inside it. */
  lemma {:induction false} CellsExact(r0: nat, r: nat, c0: nat, c1: nat, cell: (nat, nat))
    ensures cell in Cells(r0, r, c0, c1) <==> r0 <= cell.0 < r && c0 <= cell.1 < c1
    decreases r
  {
    if r > r0 {
      assert Cells(r0, r, c0, c1) == Cells(r0, r - 1, c0, c1) + RowCells(r - 1, c0, c1);
      CellsExact(r0, r - 1, c0, c1, cell);
      RowCellsExact(r - 1, c0, c1, cell);
    }
  }

  /** A window visits its cells in strictly increasing row-major order, so
      each cell once and every row before the rows in front of it. */
  lemma {:induction false} CellsOrdered(r0: nat, r: nat, c0: nat, c1: nat)
    ensures forall a, b :: 0 <= a < b < |Cells(r0, r, c0, c1)| ==> Before(Cells(r0, r, c0, c1)[a], Cells(r0, r, c0, c1)[b])
    decreases r
  {
    if r > r0 {
      CellsOrdered(r0, r - 1, c0, c1);
      var prefix := Cells(r0, r - 1, c0, c1);
      var row := RowCells(r - 1, c0, c1);
      forall a | 0 <= a < |prefix|
        ensures prefix[a].0 < r - 1
      {
        CellsExact(r0, r - 1, c0, c1, prefix[a]);
      }
    }
  }

  /** The row-major position of a cell in the layers. */
  function Index(level: Level, cell: (nat, nat)): (k: nat)
    requires WellFormed(level) && cell.0 < level.rows && cell.1 < level.cols
    ensures k < |level.tileMap1| && k < |level.tileMap2| && k < |level.heightMap|
  {
    CellIndex(cell.0, cell.1, level.rows, level.cols);
    cell.0 * level.cols + cell.1
  }

  /** Cell `(i, j)` is in the level, and its row-major position `k` inside
      every layer. */
  predicate HasCell(level: Level, cell: (nat, nat), k: nat)
  {
    cell.0 < level.rows && cell.1 < level.cols && k == cell.0 * level.cols + cell.1 &&
    k < |level.tileMap1| && k < |level.tileMap2| && k < |level.heightMap|
  }

  /** The one or two quads `render` adds for a cell: the base tile at its
      height, then the overlay one unit higher unless it is empty. A cell
      outside the level adds nothing (`render` never visits one). */
  function CellQuads(level: Level, cell: (nat, nat), cellSize: real, aspect: real, emptyId: nat): seq<Quad>
  {
    var k := cell.0 * level.cols + cell.1;
    if HasCell(level, cell, k) then
      var p := ToIso(Vec2(cell.1 as real * cellSize, cell.0 as real * cellSize));
      var height := level.heightMap[k] as real;
      var base := Quad(p.x, p.y, cellSize, cellSize * aspect, height, level.tileMap1[k]);
      if level.tileMap2[k] != emptyId
      then [base, Quad(p.x, p.y, cellSize, cellSize * aspect, height + 1.0, level.tileMap2[k])]
      else [base]
    else []
  }

  /** A cell of the level draws its base tile at its isometric position and
      height, and an overlay quad on top of it exactly when its overlay is
      not the empty tile: at the same place, one unit higher, carrying the
      overlay. Nothing else draws. */
  lemma CellQuadsShape(level: Level, cell: (nat, nat), cellSize: real, aspect: real, emptyId: nat)
    ensures var r := CellQuads(level, cell, cellSize, aspect, emptyId);
            var p := ToIso(Vec2(cell.1 as real * cellSize, cell.0 as real * cellSize));
            && |r| <= 2
            && (r == [] <==> !HasCell(level, cell, cell.0 * level.cols + cell.1))
            && (r != [] ==> r[0].x == p.x && r[0].y == p.y && r[0].l == cellSize)
            && (|r| == 2 ==> r[1].x == r[0].x && r[1].y == r[0].y && r[1].h == r[0].h + 1.0 && r[1].tile != emptyId)
  ensures var r := CellQuads(level, cell, cellSize, aspect, emptyId);
          var k := cell.0 * level.cols + cell.1;
          HasCell(level, cell, k) ==>
            && r[0].tile == level.tileMap1[k] && r[0].h == level.heightMap[k] as real && r[0].w == cellSize * aspect
            && (|r| == 2 <==> level.tileMap2[k] != emptyId)
            && (|r| == 2 ==> r[1].tile == level.tileMap2[k])
  {
  }

  /** What a frame adds for one cell: `CellQuads` of a fixed level and
      fixed sizes. The functions below take it as a parameter, so that
      their laws hold whatever a cell adds. */
  type CellDraw = ((nat, nat)) -> seq<Quad>

  function DrawOf(level: Level, cellSize: real, aspect: real, emptyId: nat): CellDraw
  {
    cell => CellQuads(level, cell, cellSize, aspect, emptyId)
  }

  /** The quads of a sequence of cells, in order. */
  function QuadsOf(draw: CellDraw, cs: seq<(nat, nat)>): seq<Quad>
  {
    if |cs| == 0 then [] else draw(cs[0]) + QuadsOf(draw, cs[1..])
  }

  lemma {:induction false} QuadsOfAppend(draw: CellDraw, a: seq<(nat, nat)>, b: seq<(nat, nat)>)
    ensures QuadsOf(draw, a + b) == QuadsOf(draw, a) + QuadsOf(draw, b)
    decreases |a|
  {
    if |a| == 0 {
      assert a + b == b;
    } else {
      assert (a + b)[1..] == a[1..] + b;
      QuadsOfAppend(draw, a[1..], b);
    }
  }

  lemma QuadsOfSnoc(draw: CellDraw, cs: seq<(nat, nat)>, cell: (nat, nat))
    ensures QuadsOf(draw, cs + [cell]) == QuadsOf(draw, cs) + draw(cell)
  {
    QuadsOfAppend(draw, cs, [cell]);
    assert QuadsOf(draw, [cell]) == draw(cell) + QuadsOf(draw, []);
  }

  /** Each visited cell adds one quad, plus one for a non-empty overlay. */
  lemma {:induction false} QuadsOfCount(level: Level, cs: seq<(nat, nat)>, cellSize: real, aspect: real, emptyId: nat)
    requires WellFormed(level)
    requires forall k :: 0 <= k < |cs| ==> cs[k].0 < level.rows && cs[k].1 < level.cols
    ensures |cs| <= |QuadsOf(DrawOf(level, cellSize, aspect, emptyId), cs)| <= 2 * |cs|
    ensures (forall k :: 0 <= k < |cs| ==> level.tileMap2[Index(level, cs[k])] == emptyId) ==>
              |QuadsOf(DrawOf(level, cellSize, aspect, emptyId), cs)| == |cs|
    decreases |cs|
  {
    if |cs| > 0 {
      CellIndex(cs[0].0, cs[0].1, level.rows, level.cols);
      QuadsOfCount(level, cs[1..], cellSize, aspect, emptyId);
    }
  }

  /** One more `add` after `n` of them: the counter steps once more, and a
      draw is issued exactly when that step fills the buffers. */
  lemma {:induction false} AfterOneMore(c: nat, n: nat)
    ensures CountAfter(c, n + 1) == Step(CountAfter(c, n))
    ensures DrawsAfter(c, n + 1) == DrawsAfter(c, n) + (if CountAfter(c, n) + 1 == MAX_BATCH_COUNT then 1 else 0)
    decreases n
  {
    if n > 0 {
      AfterOneMore(Step(c), n - 1);
    }
  }

  /** The rows and columns of the frame's window around the camera focus. */
  function Window(level: Level, focus: Vec2, distance: nat, cellSize: real): (w: (nat, nat, nat, nat))
    requires cellSize > 0.0
    ensures w.0 <= w.1 <= level.rows && w.2 <= w.3 <= level.cols
  {
    var target := To2d(focus);
    var targetCol := (target.x / cellSize).Floor;
    var targetRow := (target.y / cellSize).Floor;
    var (rowMin, rowEnd) := VisibleRange(targetRow, distance, level.rows);
    var (colMin, colEnd) := VisibleRange(targetCol, distance, level.cols);
    (rowMin, rowEnd, colMin, colEnd)
  }

  /** A cell of the level is drawn exactly when its row and column are both
      within `distance` of the grid cell under the camera focus. */
  lemma WindowExact(level: Level, focus: Vec2, distance: nat, cellSize: real, cell: (nat, nat))
    requires cellSize > 0.0
    ensures var w := Window(level, focus, distance, cellSize);
            var targetCol := (To2d(focus).x / cellSize).Floor;
            var targetRow := (To2d(focus).y / cellSize).Floor;
            cell in Cells(w.0, w.1, w.2, w.3) <==>
              cell.0 < level.rows && cell.1 < level.cols &&
              targetRow - distance <= cell.0 < targetRow + distance &&
              targetCol - distance <= cell.1 < targetCol + distance
  {
    var w := Window(level, focus, distance, cellSize);
    CellsExact(w.0, w.1, w.2, w.3, cell);
    VisibleRangeExact((To2d(focus).y / cellSize).Floor, distance, level.rows, cell.0);
    VisibleRangeExact((To2d(focus).x / cellSize).Floor, distance, level.cols, cell.1);
  }

  /** The quads of row `i`, columns `c0 .. c - 1`, left to right: what the
      inner loop of `render` adds. */
  function RowQuads(draw: CellDraw, i: nat, c0: nat, c: nat): seq<Quad>
    decreases c
  {
    if c <= c0 then [] else RowQuads(draw, i, c0, c - 1) + draw((i, c - 1))
  }

  /** The quads of rows `r0 .. r - 1`, columns `c0 .. c1 - 1`, row after row:
      what the nested loops of `render` add. */
  function WindowQuads(draw: CellDraw, r0: nat, r: nat, c0: nat, c1: nat): seq<Quad>
    decreases r
  {
    if r <= r0 then [] else WindowQuads(draw, r0, r - 1, c0, c1) + RowQuads(draw, r - 1, c0, c1)
  }

  /** A row's quads are those of its cells, left to right. */
  lemma {:induction false} RowQuadsOfCells(draw: CellDraw, i: nat, c0: nat, c: nat)
    ensures RowQuads(draw, i, c0, c) == QuadsOf(draw, RowCells(i, c0, c))
    decreases c
  {
    if c > c0 {
      RowQuadsOfCells(draw, i, c0, c - 1);
      RowCellsSnoc(i, c0, c);
      QuadsOfSnoc(draw, RowCells(i, c0, c - 1), (i, c - 1));
    }
  }

  /** The window's quads are those of its cells in row-major order. */
  lemma {:induction false} WindowQuadsOfCells(draw: CellDraw, r0: nat, r: nat, c0: nat, c1: nat)
    ensures WindowQuads(draw, r0, r, c0, c1) == QuadsOf(draw, Cells(r0, r, c0, c1))
    decreases r
  {
    if r > r0 {
      var prefix, row := Cells(r0, r - 1, c0, c1), RowCells(r - 1, c0, c1);
      assert Cells(r0, r, c0, c1) == prefix + row;
      WindowQuadsOfCells(draw, r0, r - 1, c0, c1);
      RowQuadsOfCells(draw, r - 1, c0, c1);
      QuadsOfAppend(draw, prefix, row);
    } else {
      assert Cells(r0, r, c0, c1) == [];
    }
  }

  lemma AppendAssoc(a: seq<Quad>, b: seq<Quad>, c: seq<Quad>)
    ensures (a + b) + c == a + (b + c)
  {
  }

  /** The counter and the number of draws are those of `n` calls to `add`
      from a point where the batch held `count0` quads and had issued
      `draws0` draws. */
  ghost predicate Counted(program: TileBatch, count0: nat, n: nat, draws0: nat)
    reads program
  {
    program.batchCount == CountAfter(count0, n) &&
    |program.draws| == draws0 + DrawsAfter(count0, n)
  }

  /** Every draw of `draws` used the matrix `m`. */
  ghost predicate UseMatrix(draws: seq<Draw>, m: Affine)
    decreases |draws|
  {
    draws == [] || (UseMatrix(draws[..|draws| - 1], m) && draws[|draws| - 1].matrix == m)
  }

  lemma {:induction false} UseMatrixAppend(first: seq<Draw>, second: seq<Draw>, m: Affine)
    requires UseMatrix(first, m) && UseMatrix(second, m)
    ensures UseMatrix(first + second, m)
    decreases |second|
  {
    if second == [] {
      assert first + second == first;
    } else {
      var init := second[..|second| - 1];
      assert (first + second)[..|first + second| - 1] == first + init;
      UseMatrixAppend(first, init, m);
    }
  }

  lemma {:induction false} UseMatrixAt(draws: seq<Draw>, m: Affine)
    requires UseMatrix(draws, m)
    ensures forall k :: 0 <= k < |draws| ==> draws[k].matrix == m
    decreases |draws|
  {
    if draws != [] {
      UseMatrixAt(draws[..|draws| - 1], m);
    }
  }

  /** `draws` keeps `draws0` as its prefix, and every draw after it used
      the matrix `m`. */
  ghost predicate Extends(draws: seq<Draw>, draws0: seq<Draw>, m: Affine)
  {
    |draws0| <= |draws| && draws[..|draws0|] == draws0 && UseMatrix(draws[|draws0|..], m)
  }

  lemma ExtendsTrans(draws: seq<Draw>, mid: seq<Draw>, draws0: seq<Draw>, m: Affine)
    requires Extends(mid, draws0, m) && Extends(draws, mid, m)
    ensures Extends(draws, draws0, m)
  {
    assert draws[..|draws0|] == draws[..|mid|][..|draws0|];
    assert draws[|draws0|..] == mid[|draws0|..] + draws[|mid|..];
    UseMatrixAppend(mid[|draws0|..], draws[|mid|..], m);
  }

  /** One call `program.add(x, y, l, w, h, type)` of `render`, with the
      count of calls so far. */
  method AddCounted(program: TileBatch, q: Quad, ghost count0: nat, ghost n: nat, ghost draws0: nat)
    requires program.Valid() && Counted(program, count0, n, draws0)
    modifies program, program.vertArr, program.texArr
    ensures program.Valid() && program.viewProjMatrix == old(program.viewProjMatrix)
    ensures program.added == old(program.added) + [q]
    ensures Counted(program, count0, n + 1, draws0)
    ensures Extends(program.draws, old(program.draws), program.viewProjMatrix)
  {
    AfterOneMore(count0, n);
    program.Add(q.x, q.y, q.l, q.w, q.h, q.tile);
  }

  /** The body of the inner loop of `render`: add the quads of cell `(i, j)`. */
  method DrawCell(program: TileBatch, level: Level, i: nat, j: nat, cellSize: real, aspect: real, emptyId: nat,
                  ghost count0: nat, ghost n: nat, ghost draws0: nat)
    requires program.Valid() && WellFormed(level) && i < level.rows && j < level.cols
    requires Counted(program, count0, n, draws0)
    modifies program, program.vertArr, program.texArr
    ensures program.Valid() && program.viewProjMatrix == old(program.viewProjMatrix)
    ensures program.added == old(program.added) + CellQuads(level, (i, j), cellSize, aspect, emptyId)
    ensures Counted(program, count0, n + |CellQuads(level, (i, j), cellSize, aspect, emptyId)|, draws0)
    ensures Extends(program.draws, old(program.draws), program.viewProjMatrix)
  {
    var p := ToIso(Vec2(j as real * cellSize, i as real * cellSize));
    var k := i * level.cols + j;
    assert k == Index(level, (i, j));
    var tile1 := level.tileMap1[k];
    var tile2 := level.tileMap2[k];
    var height := level.heightMap[k] as real;
    assert HasCell(level, (i, j), k);
    ghost var cq := CellQuads(level, (i, j), cellSize, aspect, emptyId);
    var base := Quad(p.x, p.y, cellSize, cellSize * aspect, height, tile1);
    assert cq[0] == base;
    AddCounted(program, base, count0, n, draws0);
    if tile2 != emptyId {
      var overlay := Quad(p.x, p.y, cellSize, cellSize * aspect, height + 1.0, tile2);
      assert cq == [base, overlay];
      ghost var mid := program.draws;
      AddCounted(program, overlay, count0, n + 1, draws0);
      ExtendsTrans(program.draws, mid, old(program.draws), program.viewProjMatrix);
    } else {
      assert cq == [base];
    }
  }

  /** The inner loop of `render`: the cells of row `i` from `colMin` up to
      `colEnd`, left to right. */
  method DrawRow(program: TileBatch, level: Level, i: nat, colMin: nat, colEnd: nat,
                 cellSize: real, aspect: real, emptyId: nat,
                 ghost count0: nat, ghost n: nat, ghost draws0: nat)
    requires program.Valid() && WellFormed(level) && i < level.rows && colMin <= colEnd <= level.cols
    requires Counted(program, count0, n, draws0)
    modifies program, program.vertArr, program.texArr
    ensures program.Valid() && program.viewProjMatrix == old(program.viewProjMatrix)
    ensures program.added == old(program.added) + RowQuads(DrawOf(level, cellSize, aspect, emptyId), i, colMin, colEnd)
    ensures Counted(program, count0, n + |RowQuads(DrawOf(level, cellSize, aspect, emptyId), i, colMin, colEnd)|, draws0)
    ensures Extends(program.draws, old(program.draws), program.viewProjMatrix)
  {
    ghost var draw := DrawOf(level, cellSize, aspect, emptyId);
    ghost var added0, draws0Seq, m := program.added, program.draws, program.viewProjMatrix;
    var j := colMin;
    ghost var done: seq<Quad> := [];
    while j < colEnd
      invariant colMin <= j <= colEnd
      invariant program.Valid() && program.viewProjMatrix == m
      invariant done == RowQuads(draw, i, colMin, j)
      invariant Counted(program, count0, n + |done|, draws0)
      invariant program.added == added0 + done
      invariant Extends(program.draws, draws0Seq, m)
    {
      ghost var mid := program.draws;
      ghost var cell := CellQuads(level, (i, j), cellSize, aspect, emptyId);
      DrawCell(program, level, i, j, cellSize, aspect, emptyId, count0, n + |done|, draws0);
      ExtendsTrans(program.draws, mid, draws0Seq, m);
      AppendAssoc(added0, done, cell);
      assert |done + cell| == |done| + |cell|;
      assert RowQuads(draw, i, colMin, j + 1) == done + cell;
      done := done + cell;
      j := j + 1;
    }
  }

  /** The outer loop of `render`: rows `rowMin` up to `rowEnd`, top to bottom. */
  method DrawWindow(program: TileBatch, level: Level, rowMin: nat, rowEnd: nat, colMin: nat, colEnd: nat,
                    cellSize: real, aspect: real, emptyId: nat,
                    ghost count0: nat, ghost n: nat, ghost draws0: nat)
    requires program.Valid() && WellFormed(level) && rowMin <= rowEnd <= level.rows && colMin <= colEnd <= level.cols
    requires Counted(program, count0, n, draws0)
    modifies program, program.vertArr, program.texArr
    ensures program.Valid() && program.viewProjMatrix == old(program.viewProjMatrix)
    ensures program.added == old(program.added) + WindowQuads(DrawOf(level, cellSize, aspect, emptyId), rowMin, rowEnd, colMin, colEnd)
    ensures Counted(program, count0, n + |WindowQuads(DrawOf(level, cellSize, aspect, emptyId), rowMin, rowEnd, colMin, colEnd)|, draws0)
    ensures Extends(program.draws, old(program.draws), program.viewProjMatrix)
  {
    ghost var draw := DrawOf(level, cellSize, aspect, emptyId);
    ghost var added0, draws0Seq, m := program.added, program.draws, program.viewProjMatrix;
    ghost var done: seq<Quad> := [];
    var i := rowMin;
    while i < rowEnd
      invariant rowMin <= i <= rowEnd
      invariant program.Valid() && program.viewProjMatrix == m
      invariant done == WindowQuads(draw, rowMin, i, colMin, colEnd)
      invariant Counted(program, count0, n + |done|, draws0)
      invariant program.added == added0 + done
      invariant Extends(program.draws, draws0Seq, m)
    {
      ghost var mid := program.draws;
      ghost var row := RowQuads(draw, i, colMin, colEnd);
      DrawRow(program, level, i, colMin, colEnd, cellSize, aspect, emptyId, count0, n + |done|, draws0);
      ExtendsTrans(program.draws, mid, draws0Seq, m);
      AppendAssoc(added0, done, row);
      assert |done + row| == |done| + |row|;
      assert WindowQuads(draw, rowMin, i + 1, colMin, colEnd) == done + row;
      done := done + row;
      i := i + 1;
    }
  }

  /** The nested loops and the final `flush` of `render`, over the window
      `rowMin .. rowEnd - 1` by `colMin .. colEnd - 1`. */
  method DrawFrame(program: TileBatch, level: Level, rowMin: nat, rowEnd: nat, colMin: nat, colEnd: nat,
                   cellSize: real, aspect: real, emptyId: nat)
    requires program.Valid() && WellFormed(level) && rowMin <= rowEnd <= level.rows && colMin <= colEnd <= level.cols
    modifies program, program.vertArr, program.texArr
    ensures program.Valid() && program.batchCount == 0 && program.viewProjMatrix == old(program.viewProjMatrix)
    ensures program.added == old(program.added) + WindowQuads(DrawOf(level, cellSize, aspect, emptyId), rowMin, rowEnd, colMin, colEnd)
    ensures var n := |program.added| - |old(program.added)|;
            |program.draws| == |old(program.draws)| + DrawsAfter(old(program.batchCount), n) +
                               (if CountAfter(old(program.batchCount), n) != 0 then 1 else 0)
    ensures Extends(program.draws, old(program.draws), program.viewProjMatrix)
    ensures DrawnQuads(program.draws[|old(program.draws)|..]) ==
            old(program.pending) + WindowQuads(DrawOf(level, cellSize, aspect, emptyId), rowMin, rowEnd, colMin, colEnd)
  {
    ghost var windowQuads := WindowQuads(DrawOf(level, cellSize, aspect, emptyId), rowMin, rowEnd, colMin, colEnd);
    DrawWindow(program, level, rowMin, rowEnd, colMin, colEnd, cellSize, aspect, emptyId,
               program.batchCount, 0, |program.draws|);
    ghost var mid, count := program.draws, program.batchCount;
    assert |mid| == |old(program.draws)| + DrawsAfter(old(program.batchCount), |windowQuads|);
    assert count == CountAfter(old(program.batchCount), |windowQuads|);
    program.Flush();
    assert |program.draws| == |mid| + (if count != 0 then 1 else 0);
    assert |program.added| - |old(program.added)| == |windowQuads|;
    ExtendsTrans(program.draws, mid, old(program.draws), program.viewProjMatrix);
    IssuedQuads(old(program.draws), program.draws, old(program.pending), old(program.added), windowQuads, program.viewProjMatrix);
  }

  /** `render(level, camera)`. `distance` is the half-width of the window in
      cells, which the source derives from the viewport diagonal; `cellSize`,
      `aspect` and `emptyId` are `CELL_SIZE`, `SPRITE_ASPECT_RATIO` and
      `Tile.Empty`. The frame adds the window's quads row by row and leaves
      nothing queued. Its draws hold exactly the quads that were queued
      before it followed by the window's quads, all drawn with the camera's
      matrix. */
  method Render(program: TileBatch, level: Level, camera: Camera, distance: nat,
                cellSize: real, aspect: real, emptyId: nat)
      returns (ghost window: (nat, nat, nat, nat))
    requires program.Valid() && WellFormed(level) && cellSize > 0.0
    modifies program, program.vertArr, program.texArr
    ensures program.Valid()
    ensures window == Window(level, camera.Coord(), distance, cellSize)
    ensures program.added == old(program.added) + WindowQuads(DrawOf(level, cellSize, aspect, emptyId), window.0, window.1, window.2, window.3)
    ensures program.batchCount == 0 && program.viewProjMatrix == camera.viewProjMatrix
    ensures var n := |program.added| - |old(program.added)|;
            |program.draws| == |old(program.draws)| + DrawsAfter(old(program.batchCount), n) +
                               (if CountAfter(old(program.batchCount), n) != 0 then 1 else 0)
    ensures program.draws[..|old(program.draws)|] == old(program.draws)
    ensures forall k :: |old(program.draws)| <= k < |program.draws| ==> program.draws[k].matrix == camera.viewProjMatrix
    ensures DrawnQuads(program.draws[|old(program.draws)|..]) ==
            old(program.pending) + WindowQuads(DrawOf(level, cellSize, aspect, emptyId), window.0, window.1, window.2, window.3)
    ensures DrawnQuads(program.draws) == program.added
  {
    program.SetViewProjMatrix(camera.viewProjMatrix);
    var (rowMin, rowEnd, colMin, colEnd) := Window(level, camera.Coord(), distance, cellSize);
    window := (rowMin, rowEnd, colMin, colEnd);
    DrawFrame(program, level, rowMin, rowEnd, colMin, colEnd, cellSize, aspect, emptyId);
    UseMatrixAt(program.draws[|old(program.draws)|..], camera.viewProjMatrix);
  }

  /** What a frame issued: the draws after `draws0` hold the quads that were
      queued before it and the window's quads, all with the matrix `m`. */
  lemma IssuedQuads(draws0: seq<Draw>, draws: seq<Draw>, pending0: seq<Quad>, added0: seq<Quad>,
                    window: seq<Quad>, m: Affine)
    requires DrawnQuads(draws0) + pending0 == added0
    requires DrawnQuads(draws) == added0 + window
    requires Extends(draws, draws0, m)
    ensures DrawnQuads(draws[|draws0|..]) == pending0 + window
  {
    var issued := draws[|draws0|..];
    assert draws == draws0 + issued;
    DrawnQuadsAppend(draws0, issued);
    DrawnPrefixCancels(DrawnQuads(draws0), DrawnQuads(issued), pending0 + window);
  }

  /** Equal sequences with equal prefixes have equal suffixes. */
  lemma DrawnPrefixCancels(prefix: seq<Quad>, rest: seq<Quad>, other: seq<Quad>)
    requires prefix + rest == prefix + other
    ensures rest == other
  {
    assert rest == (prefix + rest)[|prefix|..];
    assert other == (prefix + other)[|prefix|..];
  }
}
