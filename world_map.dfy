/** The cell logic of the world map in src/map.rs: a grid of `row_count`
    rows and `col_count` columns stored row by row in three flat vectors
    (base tiles, overlay tiles and heights), its neighbourhoods, the
    slope and road-corner classifiers, slope-aware walkability, the
    "single line" test and the random placement loop. */
module WorldMap {
  import opened Wrappers

  /** The tiles this file reads or writes. The atlas that declares the full
      tile set is not part of this model; `Other` stands for the rest. */
  datatype Tile = Base | BaseNorth | BaseEast | BaseSouth | BaseWest | Empty | Rocks | GrassPatch | Other

  /** `Direction`: the eight compass points of a road corner, plus the two
      straight road pieces. */
  datatype Direction = North | NorthEast | East | SouthEast | South | SouthWest | West | NorthWest | Lon | Lat

  /** `Slope`: how a cell slopes down towards its lower neighbours. */
  datatype Slope =
    | N | E | S | W
    | NorthEast1 | SouthEast1 | SouthWest1 | NorthWest1
    | NorthEast3 | SouthEast3 | SouthWest3 | NorthWest3
    | SaddleNorthEast | SaddleSouthEast
    | Unknown

  /** Heights are `u8`. */
  type Height = h: int | 0 <= h < 256

  /** `is_base_slope`: one of the four sloped ground tiles. */
  predicate IsBaseSlope(tile: Tile)
  {
    tile == BaseNorth || tile == BaseEast || tile == BaseSouth || tile == BaseWest
  }

  function Abs(x: int): nat
  {
    if x < 0 then -x else x
  }

  /** Manhattan distance between two cells. */
  function Manhattan(a: (nat, nat), b: (nat, nat)): nat
  {
    Abs(a.0 - b.0) + Abs(a.1 - b.1)
  }

  /** The cells of row `r` at columns `col - 1` and `col + 1`, and at
      `col` itself when `mid`. */
  function Line(r: nat, col: nat, mid: bool): set<(nat, nat)>
    requires col > 0
  {
    {(r, col - 1), (r, col + 1)} + (if mid then {(r, col)} else {})
  }

  lemma LineSize(r: nat, col: nat, mid: bool)
    requires col > 0
    ensures |Line(r, col, mid)| == if mid then 3 else 2
    ensures forall x :: x in Line(r, col, mid) ==> x.0 == r
  {
    var two: set<(nat, nat)> := {(r, col - 1)};
    assert (r, col + 1) !in two;
    assert |two + {(r, col + 1)}| == 2;
    assert (r, col) !in two + {(r, col + 1)};
  }

  /** Sets of cells on different rows add up. */
  lemma DisjointCard(a: set<(nat, nat)>, b: set<(nat, nat)>, k: nat)
    requires forall x :: x in a ==> x.0 < k
    requires forall x :: x in b ==> x.0 >= k
    ensures |a + b| == |a| + |b|
  {
    assert a * b == {};
  }

  /** The eight cells around a cell off the first row and column. */
  function Ring(row: nat, col: nat): set<(nat, nat)>
    requires row > 0 && col > 0
  {
    Line(row - 1, col, true) + Line(row, col, false) + Line(row + 1, col, true)
  }

  lemma RingSize(row: nat, col: nat)
    requires row > 0 && col > 0
    ensures |Ring(row, col)| == 8
  {
    var top, mid, bot := Line(row - 1, col, true), Line(row, col, false), Line(row + 1, col, true);
    LineSize(row - 1, col, true);
    LineSize(row, col, false);
    LineSize(row + 1, col, true);
    DisjointCard(top, mid, row);
    DisjointCard(top + mid, bot, row + 1);
  }

  /** The ring is the other cells at most one row and one column away. */
  lemma RingCells(row: nat, col: nat, n: (nat, nat))
    requires row > 0 && col > 0 && n in Ring(row, col)
    ensures n != (row, col) && Abs(n.0 - row) <= 1 && Abs(n.1 - col) <= 1
  {
  }

  /** Flat index `row * cols + col` of a cell of a grid with `cols`
      columns, written as `row` whole rows and then `col` cells. */
  function Offset(cols: nat, row: nat, col: nat): nat
  {
    if row == 0 then col else cols + Offset(cols, row - 1, col)
  }

  lemma {:induction false} OffsetIsProduct(cols: nat, row: nat, col: nat)
    ensures Offset(cols, row, col) == row * cols + col
  {
    if row > 0 {
      OffsetIsProduct(cols, row - 1, col);
    }
  }

  /** The flat index does not check the column: one past the last column
      of a row is the first cell of the next row. */
  lemma UncheckedColumnWraps(cols: nat, row: nat)
    ensures Offset(cols, row, cols) == Offset(cols, row + 1, 0)
  {
    OffsetIsProduct(cols, row, cols);
    OffsetIsProduct(cols, row + 1, 0);
  }

  /** An in-bounds cell has an index inside the vectors. */
  lemma OffsetInRange(rows: nat, cols: nat, row: nat, col: nat)
    requires row < rows && col < cols
    ensures Offset(cols, row, col) < rows * cols
  {
    OffsetIsProduct(cols, row, col);
    calc {
      row * cols + col;
    <  row * cols + cols;
    == (row + 1) * cols;
    <= { MultiplyMonotone(row + 1, rows, cols); }
      rows * cols;
    }
  }

  lemma MultiplyMonotone(a: nat, b: nat, c: nat)
    requires a <= b
    ensures a * c <= b * c
  {
  }

  /** Distinct in-bounds cells have distinct indices, so writing one cell
      never changes another. */
  lemma OffsetInjective(cols: nat, row: nat, col: nat, row': nat, col': nat)
    requires col < cols && col' < cols
    requires (row, col) != (row', col')
    ensures Offset(cols, row, col) != Offset(cols, row', col')
  {
    OffsetIsProduct(cols, row, col);
    OffsetIsProduct(cols, row', col');
    if row < row' {
      calc {
        row * cols + col;
      <  (row + 1) * cols;
      <= { MultiplyMonotone(row + 1, row', cols); }
        row' * cols;
      <= row' * cols + col';
      }
    } else if row' < row {
      calc {
        row' * cols + col';
      <  (row' + 1) * cols;
      <= { MultiplyMonotone(row' + 1, row, cols); }
        row * cols;
      <= row * cols + col;
      }
    }
  }

  /** Writing cell `(row, col)` of a flat grid: that cell reads the new value
      and every other cell keeps its old one. */
  lemma {:induction false} WriteOneCell<T>(s: seq<T>, rows: nat, cols: nat, row: nat, col: nat, v: T, row': nat, col': nat)
    requires |s| == rows * cols && row < rows && col < cols && row' < rows && col' < cols
    ensures Offset(cols, row, col) < |s| && Offset(cols, row', col') < |s|
    ensures s[Offset(cols, row, col) := v][Offset(cols, row', col')] ==
            if (row', col') == (row, col) then v else s[Offset(cols, row', col')]
  {
    OffsetInRange(rows, cols, row, col);
    OffsetInRange(rows, cols, row', col');
    if (row', col') != (row, col) {
      OffsetInjective(cols, row, col, row', col');
    }
  }

  /** The sign of `x`: -1, 0 or 1. */
  function Sign(x: int): int
  {
    if x < 0 then -1 else if x > 0 then 1 else 0
  }

  /** `cell` lies in compass direction `(dr, dc)` from `edge` (rows grow
      southwards, columns eastwards), at any distance. */
  predicate Toward(edge: (nat, nat), cell: (nat, nat), dr: int, dc: int)
  {
    Sign(cell.0 - edge.0) == dr && Sign(cell.1 - edge.1) == dc
  }

  /** Some neighbour lies in direction `(dr, dc)`. */
  predicate Any(edge: (nat, nat), ns: seq<(nat, nat)>, dr: int, dc: int)
  {
    exists i :: 0 <= i < |ns| && Toward(edge, ns[i], dr, dc)
  }

  /** The two flag vectors of `edge_slope`: which of the four cardinal and
      the four diagonal directions hold a lower neighbour. */
  datatype Lower = Lower(n: bool, e: bool, s: bool, w: bool, ne: bool, se: bool, sw: bool, nw: bool)

  /** The flags after marking one neighbour, by the same chain of tests. */
  function Mark(l: Lower, edge: (nat, nat), cell: (nat, nat)): Lower
  {
    var (r, c) := cell;
    if r < edge.0 && c == edge.1 then l.(n := true)
    else if r == edge.0 && c > edge.1 then l.(e := true)
    else if r > edge.0 && c == edge.1 then l.(s := true)
    else if r == edge.0 && c < edge.1 then l.(w := true)
    else if r < edge.0 && c > edge.1 then l.(ne := true)
    else if r > edge.0 && c > edge.1 then l.(se := true)
    else if r > edge.0 && c < edge.1 then l.(sw := true)
    else if r < edge.0 && c < edge.1 then l.(nw := true)
    else l
  }

  /** The flags after marking every neighbour. */
  function Scan(edge: (nat, nat), ns: seq<(nat, nat)>): Lower
  {
    if |ns| == 0 then Lower(false, false, false, false, false, false, false, false)
    else Mark(Scan(edge, ns[1..]), edge, ns[0])
  }

  /** The flags the scan must produce: a flag is set exactly when some
      neighbour lies in its direction. */
  function Flags(edge: (nat, nat), ns: seq<(nat, nat)>): Lower
  {
    Lower(Any(edge, ns, -1, 0), Any(edge, ns, 0, 1), Any(edge, ns, 1, 0), Any(edge, ns, 0, -1),
          Any(edge, ns, -1, 1), Any(edge, ns, 1, 1), Any(edge, ns, 1, -1), Any(edge, ns, -1, -1))
  }

  lemma AnyCons(edge: (nat, nat), ns: seq<(nat, nat)>, dr: int, dc: int)
    requires |ns| > 0
    ensures Any(edge, ns, dr, dc) <==> Toward(edge, ns[0], dr, dc) || Any(edge, ns[1..], dr, dc)
  {
    if Any(edge, ns[1..], dr, dc) {
      var i :| 0 <= i < |ns[1..]| && Toward(edge, ns[1..][i], dr, dc);
      assert ns[i + 1] == ns[1..][i];
    }
    if Any(edge, ns, dr, dc) && !Toward(edge, ns[0], dr, dc) {
      var i :| 0 <= i < |ns| && Toward(edge, ns[i], dr, dc);
      assert ns[1..][i - 1] == ns[i];
    }
  }

  /** Marking a neighbour sets the flag of its direction and no other. */
  lemma MarkExact(l: Lower, edge: (nat, nat), cell: (nat, nat))
    ensures Mark(l, edge, cell) ==
              Lower(l.n || Toward(edge, cell, -1, 0), l.e || Toward(edge, cell, 0, 1),
                    l.s || Toward(edge, cell, 1, 0), l.w || Toward(edge, cell, 0, -1),
                    l.ne || Toward(edge, cell, -1, 1), l.se || Toward(edge, cell, 1, 1),
                    l.sw || Toward(edge, cell, 1, -1), l.nw || Toward(edge, cell, -1, -1))
  {
    var dr, dc := Sign(cell.0 - edge.0), Sign(cell.1 - edge.1);
    assert (dr == -1 <==> cell.0 < edge.0) && (dr == 1 <==> cell.0 > edge.0) && (dr == 0 <==> cell.0 == edge.0);
    assert (dc == -1 <==> cell.1 < edge.1) && (dc == 1 <==> cell.1 > edge.1) && (dc == 0 <==> cell.1 == edge.1);
  }

  /** The scan sets exactly the flags of the directions that hold a
      neighbour, whatever their order. */
  lemma {:induction false} ScanExact(edge: (nat, nat), ns: seq<(nat, nat)>)
    ensures Scan(edge, ns) == Flags(edge, ns)
  {
    if |ns| > 0 {
      ScanExact(edge, ns[1..]);
      MarkExact(Scan(edge, ns[1..]), edge, ns[0]);
      AnyCons(edge, ns, -1, 0);
      AnyCons(edge, ns, 0, 1);
      AnyCons(edge, ns, 1, 0);
      AnyCons(edge, ns, 0, -1);
      AnyCons(edge, ns, -1, 1);
      AnyCons(edge, ns, 1, 1);
      AnyCons(edge, ns, 1, -1);
      AnyCons(edge, ns, -1, -1);
    }
  }

  /** How many of the four cardinal flags are set. */
  function CardinalCount(l: Lower): nat
  {
    (if l.n then 1 else 0) + (if l.e then 1 else 0) + (if l.s then 1 else 0) + (if l.w then 1 else 0)
  }

  /** The slope the match tables of `edge_slope` give for a set of flags:
      one cardinal (possibly turned into a 1-high corner by a diagonal),
      two adjacent cardinals without the diagonal behind them (a 1-high
      corner), or only diagonals (a saddle or a 3-high corner). */
  function SlopeOf(l: Lower): (r: Slope)
    ensures CardinalCount(l) == 1 ==> r in {N, E, S, W, NorthEast1, SouthEast1, SouthWest1, NorthWest1}
    ensures CardinalCount(l) == 2 ==> r in {NorthEast1, SouthEast1, SouthWest1, NorthWest1, Unknown}
    ensures CardinalCount(l) == 0 ==>
              r in {NorthEast3, SouthEast3, SouthWest3, NorthWest3, SaddleNorthEast, SaddleSouthEast, Unknown}
    ensures CardinalCount(l) > 2 ==> r == Unknown
    ensures (r == N ==> l.n) && (r == E ==> l.e) && (r == S ==> l.s) && (r == W ==> l.w)
  {
    var count := CardinalCount(l);
    if count == 1 then
      if l.n && l.se then NorthEast1
      else if l.e && l.nw then NorthEast1
      else if l.e && l.sw then SouthEast1
      else if l.s && l.ne then SouthEast1
      else if l.s && l.nw then SouthWest1
      else if l.w && l.se then SouthWest1
      else if l.w && l.ne then NorthWest1
      else if l.n && l.sw then NorthWest1
      else if l.n then N
      else if l.e then E
      else if l.s then S
      else W
    else if count == 2 then
      if l.n && l.e && !l.sw then NorthEast1
      else if l.e && l.s && !l.nw then SouthEast1
      else if l.s && l.w && !l.ne then SouthWest1
      else if l.n && l.w && !l.se then NorthWest1
      else Unknown
    else if count == 0 then
      if l.ne && l.sw then SaddleSouthEast
      else if l.se && l.nw then SaddleNorthEast
      else if l.ne then NorthEast3
      else if l.se then SouthEast3
      else if l.sw then SouthWest3
      else if l.nw then NorthWest3
      else Unknown
    else Unknown
  }

  /** `edge_slope`: classify the lower neighbours of `edge`. Only the
      directions that hold a neighbour matter, not their order or number. */
  function EdgeSlope(edge: (nat, nat), neighbors: seq<(nat, nat)>): (r: Slope)
    ensures r == SlopeOf(Flags(edge, neighbors))
  {
    ScanExact(edge, neighbors);
    SlopeOf(Scan(edge, neighbors))
  }

  /** A single lower cardinal neighbour gives its own slope, unless a
      diagonal on the far side turns it into a 1-high corner. */
  lemma EdgeSlopeOneCardinal(edge: (nat, nat), ns: seq<(nat, nat)>)
    requires CardinalCount(Flags(edge, ns)) == 1
    ensures var f := Flags(edge, ns);
            EdgeSlope(edge, ns) ==
              if f.n then (if f.se then NorthEast1 else if f.sw then NorthWest1 else N)
              else if f.e then (if f.nw then NorthEast1 else if f.sw then SouthEast1 else E)
              else if f.s then (if f.ne then SouthEast1 else if f.nw then SouthWest1 else S)
              else (if f.se then SouthWest1 else if f.ne then NorthWest1 else W)
  {
    ScanExact(edge, ns);
  }

  /** Two opposite cardinals, or three or four, cannot be sloped. */
  lemma EdgeSlopeUnknown(edge: (nat, nat), ns: seq<(nat, nat)>)
    requires var f := Flags(edge, ns);
             CardinalCount(f) >= 3 || (CardinalCount(f) == 2 && ((f.n && f.s) || (f.e && f.w)))
    ensures EdgeSlope(edge, ns) == Unknown
  {
    ScanExact(edge, ns);
  }

  /** Two adjacent cardinals give the 1-high corner between them exactly
      when the diagonal behind the cell is not lower too. */
  lemma EdgeSlopeTwoCardinals(edge: (nat, nat), ns: seq<(nat, nat)>)
    requires CardinalCount(Flags(edge, ns)) == 2
    ensures var f := Flags(edge, ns);
            (f.n && f.e ==> EdgeSlope(edge, ns) == if f.sw then Unknown else NorthEast1) &&
            (f.e && f.s ==> EdgeSlope(edge, ns) == if f.nw then Unknown else SouthEast1) &&
            (f.s && f.w ==> EdgeSlope(edge, ns) == if f.ne then Unknown else SouthWest1) &&
            (f.w && f.n ==> EdgeSlope(edge, ns) == if f.se then Unknown else NorthWest1)
  {
    ScanExact(edge, ns);
  }

  /** With only diagonal lower neighbours: opposite diagonals make a
      saddle, a single one the 3-high corner towards it. */
  lemma EdgeSlopeDiagonals(edge: (nat, nat), ns: seq<(nat, nat)>)
    requires CardinalCount(Flags(edge, ns)) == 0
    ensures var f := Flags(edge, ns);
            (f.ne && f.sw ==> EdgeSlope(edge, ns) == SaddleSouthEast) &&
            (f.se && f.nw && !(f.ne && f.sw) ==> EdgeSlope(edge, ns) == SaddleNorthEast) &&
            (f.ne && !f.se && !f.sw && !f.nw ==> EdgeSlope(edge, ns) == NorthEast3) &&
            (f.se && !f.ne && !f.sw && !f.nw ==> EdgeSlope(edge, ns) == SouthEast3) &&
            (f.sw && !f.ne && !f.se && !f.nw ==> EdgeSlope(edge, ns) == SouthWest3) &&
            (f.nw && !f.ne && !f.se && !f.sw ==> EdgeSlope(edge, ns) == NorthWest3) &&
            (!f.ne && !f.se && !f.sw && !f.nw ==> EdgeSlope(edge, ns) == Unknown)
  {
    ScanExact(edge, ns);
  }

  /** The table of the `find_edge_slope` unit test, around cell (1, 1). */
  lemma EdgeSlopeExamples()
    ensures EdgeSlope((1, 1), [(2, 0), (2, 1), (2, 2)]) == S
    ensures EdgeSlope((1, 1), [(2, 1)]) == S
    ensures EdgeSlope((1, 1), [(0, 0), (0, 1), (0, 2), (1, 2)]) == NorthEast1
    ensures EdgeSlope((1, 1), [(0, 0), (0, 1), (0, 2), (1, 0)]) == NorthWest1
    ensures EdgeSlope((1, 1), [(1, 0), (2, 0), (2, 1), (2, 2)]) == SouthWest1
    ensures EdgeSlope((1, 1), [(1, 2), (2, 0), (2, 1), (2, 2)]) == SouthEast1
    ensures EdgeSlope((1, 1), [(0, 0), (1, 2)]) == NorthEast1
    ensures EdgeSlope((1, 1), [(1, 2), (2, 0)]) == SouthEast1
    ensures EdgeSlope((1, 1), [(1, 0), (2, 2)]) == SouthWest1
    ensures EdgeSlope((1, 1), [(0, 2), (1, 0)]) == NorthWest1
  {
  }

  /** The rest of that table: corners, saddles and the unslopable cases. */
  lemma EdgeSlopeMoreExamples()
    ensures EdgeSlope((1, 1), [(0, 2)]) == NorthEast3
    ensures EdgeSlope((1, 1), [(2, 2)]) == SouthEast3
    ensures EdgeSlope((1, 1), [(0, 0)]) == NorthWest3
    ensures EdgeSlope((1, 1), [(2, 0)]) == SouthWest3
    ensures EdgeSlope((1, 1), [(0, 1), (2, 1)]) == Unknown
    ensures EdgeSlope((1, 1), [(1, 0), (1, 2)]) == Unknown
    ensures EdgeSlope((1, 1), [(0, 1), (1, 0), (1, 2), (2, 1)]) == Unknown
    ensures EdgeSlope((1, 1), [(0, 2), (2, 0)]) == SaddleSouthEast
    ensures EdgeSlope((1, 1), [(0, 0), (2, 2)]) == SaddleNorthEast
    ensures EdgeSlope((1, 1), [(0, 1), (2, 2)]) == NorthEast1
    ensures EdgeSlope((1, 1), [(0, 1), (2, 0)]) == NorthWest1
    ensures EdgeSlope((1, 1), [(0, 0), (2, 1)]) == SouthWest1
    ensures EdgeSlope((1, 1), [(0, 2), (2, 1)]) == SouthEast1
  {
  }

  /** The vertical half of `path_direction`'s scan: `North` or `South` as
      the last neighbour in another row lies, `None` when there is none. */
  function LastVertical(edge: (nat, nat), ns: seq<(nat, nat)>): Option<Direction>
  {
    if |ns| == 0 then None
    else
      var n := ns[|ns| - 1];
      if n.0 < edge.0 then Some(North)
      else if n.0 > edge.0 then Some(South)
      else LastVertical(edge, ns[..|ns| - 1])
  }

  /** The horizontal half: `West` or `East` as the last neighbour in the
      same row and another column lies. */
  function LastHorizontal(edge: (nat, nat), ns: seq<(nat, nat)>): Option<Direction>
  {
    if |ns| == 0 then None
    else
      var n := ns[|ns| - 1];
      if n.0 == edge.0 && n.1 < edge.1 then Some(West)
      else if n.0 == edge.0 && n.1 > edge.1 then Some(East)
      else LastHorizontal(edge, ns[..|ns| - 1])
  }

  /** The pairs `path_direction` turns into a direction instead of panicking. */
  predicate CornerDefined(v: Option<Direction>, h: Option<Direction>)
  {
    (v == None || v == Some(North) || v == Some(South)) &&
    (h == None || h == Some(East) || h == Some(West)) &&
    (v.Some? || h.Some?)
  }

  /** The final match of `path_direction`: the corner piece points away
      from both neighbours; a straight piece runs north-south (`Lon`) or
      east-west (`Lat`). */
  function Corner(v: Option<Direction>, h: Option<Direction>): Direction
    requires CornerDefined(v, h)
  {
    match (v, h)
    case (Some(North), Some(East)) => SouthWest
    case (Some(North), Some(West)) => SouthEast
    case (Some(South), Some(East)) => NorthWest
    case (Some(South), Some(West)) => NorthEast
    case (Some(_), None) => Lon
    case (None, Some(_)) => Lat
    case _ => assert false; Lat
  }

  /** `path_direction`: scan the neighbours of a road cell on the path,
      each one overwriting the vertical or the horizontal half, then pick
      the piece. It panics unless some neighbour differs from the cell. */
  method PathDirection(edge: (nat, nat), neighbors: seq<(nat, nat)>) returns (d: Direction)
    requires CornerDefined(LastVertical(edge, neighbors), LastHorizontal(edge, neighbors))
    ensures d == Corner(LastVertical(edge, neighbors), LastHorizontal(edge, neighbors))
  {
    var vertical: Option<Direction> := None;
    var horizontal: Option<Direction> := None;
    for k := 0 to |neighbors|
      invariant vertical == LastVertical(edge, neighbors[..k])
      invariant horizontal == LastHorizontal(edge, neighbors[..k])
    {
      var n := neighbors[k];
      assert neighbors[..k + 1][..k] == neighbors[..k];
      if n.0 < edge.0 {
        vertical := Some(North);
      } else if n.0 > edge.0 {
        vertical := Some(South);
      } else if n.1 < edge.1 {
        horizontal := Some(West);
      } else if n.1 > edge.1 {
        horizontal := Some(East);
      }
    }
    assert neighbors[..|neighbors|] == neighbors;
    d := Corner(vertical, horizontal);
  }

  /** The vertical half is only ever north or south, the horizontal half
      only east or west. */
  lemma {:induction false} HalvesInRange(edge: (nat, nat), ns: seq<(nat, nat)>)
    ensures var v, h := LastVertical(edge, ns), LastHorizontal(edge, ns);
            (v == None || v == Some(North) || v == Some(South)) &&
            (h == None || h == Some(East) || h == Some(West))
  {
    if |ns| > 0 {
      HalvesInRange(edge, ns[..|ns| - 1]);
    }
  }

  /** `path_direction` panics exactly when every neighbour is the cell itself. */
  lemma {:induction false} PathDirectionDefined(edge: (nat, nat), ns: seq<(nat, nat)>)
    ensures CornerDefined(LastVertical(edge, ns), LastHorizontal(edge, ns)) <==>
              exists i :: 0 <= i < |ns| && ns[i] != edge
  {
    HalvesInRange(edge, ns);
    if |ns| > 0 {
      var init := ns[..|ns| - 1];
      PathDirectionDefined(edge, init);
      if ns[|ns| - 1] == edge {
        if exists i :: 0 <= i < |init| && init[i] != edge {
          var i :| 0 <= i < |init| && init[i] != edge;
          assert ns[i] == init[i];
        }
        if exists i :: 0 <= i < |ns| && ns[i] != edge {
          var i :| 0 <= i < |ns| && ns[i] != edge;
          assert init[i] == ns[i];
        }
      } else {
        assert ns[|ns| - 1] != edge;
      }
    }
  }

  /** Neighbours all in other rows give a north-south piece; all in the
      same row and other columns, an east-west piece. */
  lemma {:induction false} PathDirectionStraight(edge: (nat, nat), ns: seq<(nat, nat)>)
    requires |ns| > 0
    ensures (forall i :: 0 <= i < |ns| ==> ns[i].0 != edge.0) ==>
              CornerDefined(LastVertical(edge, ns), LastHorizontal(edge, ns)) &&
              Corner(LastVertical(edge, ns), LastHorizontal(edge, ns)) == Lon
    ensures (forall i :: 0 <= i < |ns| ==> ns[i].0 == edge.0 && ns[i].1 != edge.1) ==>
              CornerDefined(LastVertical(edge, ns), LastHorizontal(edge, ns)) &&
              Corner(LastVertical(edge, ns), LastHorizontal(edge, ns)) == Lat
  {
    if |ns| > 1 {
      var init := ns[..|ns| - 1];
      PathDirectionStraight(edge, init);
      assert forall i :: 0 <= i < |init| ==> init[i] == ns[i];
    }
  }

  /** A turn: with one neighbour `a` in another row and one `b` in the same
      row, in either order, the corner piece points away from both. */
  lemma PathDirectionTurn(edge: (nat, nat), a: (nat, nat), b: (nat, nat))
    requires a.0 != edge.0 && b.0 == edge.0 && b.1 != edge.1
    ensures var want := if a.0 < edge.0 then (if b.1 > edge.1 then SouthWest else SouthEast)
                        else (if b.1 > edge.1 then NorthWest else NorthEast);
            CornerDefined(LastVertical(edge, [a, b]), LastHorizontal(edge, [a, b])) &&
            Corner(LastVertical(edge, [a, b]), LastHorizontal(edge, [a, b])) == want &&
            CornerDefined(LastVertical(edge, [b, a]), LastHorizontal(edge, [b, a])) &&
            Corner(LastVertical(edge, [b, a]), LastHorizontal(edge, [b, a])) == want
  {
    assert [a, b][..1] == [a] && [b, a][..1] == [b];
    assert [a][..0] == [] && [b][..0] == [];
  }

  /** Whether `b` may be walked to or from across sloped tile `a`: a
      north-south slope only vertically, an east-west slope only
      horizontally, and only onto flat ground or the same slope. */
  predicate SlopeCheck(a: Tile, b: Tile, nIsNorS: bool, nIsEorW: bool)
    ensures SlopeCheck(a, b, nIsNorS, nIsEorW) ==> IsBaseSlope(a) && (b == Base || b == a) && (nIsNorS || nIsEorW)
  {
    if a == BaseNorth || a == BaseSouth then (b == Base || b == a) && nIsNorS
    else if a == BaseEast || a == BaseWest then (b == Base || b == a) && nIsEorW
    else false
  }

  /** A cell is too close to an earlier placement. */
  predicate Crowded(placed: seq<(nat, nat)>, cell: (nat, nat), minDistance: nat)
  {
    exists i :: 0 <= i < |placed| && Manhattan(placed[i], cell) < minDistance
  }

  /** Every two placements lie at least `minDistance` apart. */
  predicate Spaced(placed: seq<(nat, nat)>, minDistance: nat)
  {
    forall i, j :: 0 <= i < j < |placed| ==> Manhattan(placed[i], placed[j]) >= minDistance
  }

  /** A cell that is not too close to any placement keeps them spaced. */
  lemma SpacedSnoc(placed: seq<(nat, nat)>, cell: (nat, nat), minDistance: nat)
    requires Spaced(placed, minDistance) && !Crowded(placed, cell, minDistance)
    ensures Spaced(placed + [cell], minDistance)
  {
    var placed' := placed + [cell];
    forall i, j | 0 <= i < j < |placed'|
      ensures Manhattan(placed'[i], placed'[j]) >= minDistance
    {
      if j == |placed| {
        assert placed'[i] == placed[i];
      }
    }
  }

  /** `PlaceRandomConfig`, without the seed: the random generator is
      replaced by a sequence of picks. */
  datatype PlaceConfig = PlaceConfig(maxCount: nat, minDistance: nat, maxAttempts: nat, tile: Tile)

  /** The two placement tests `generate` passes to `place_random`. */
  datatype PlaceRule = RocksRule | PatchRule

  /** `Map`: the grid and its three layers. */
  class Map {
    const rowCount: nat
    const colCount: nat
    var tileMap: seq<Tile>
    var tileMap2: seq<Tile>
    var heightMap: seq<Height>

    /** Every layer holds one entry per cell. */
    predicate Valid()
      reads this
    {
      |tileMap| == rowCount * colCount &&
      |tileMap2| == rowCount * colCount &&
      |heightMap| == rowCount * colCount
    }

    /** The cell lies on the grid. */
    predicate Contains(cell: (nat, nat))
    {
      cell.0 < rowCount && cell.1 < colCount
    }

    /** `in_bounds`, over signed coordinates. */
    predicate InBounds(row: int, col: int)
    {
      0 <= row < rowCount && 0 <= col < colCount
    }

    /** The row-major index of an in-bounds cell lies inside the layers. */
    lemma InBoundsIndex(row: int, col: int)
      ensures InBounds(row, col) ==> 0 <= row * colCount + col < rowCount * colCount
    {
      if InBounds(row, col) {
        OffsetInRange(rowCount, colCount, row, col);
        OffsetIsProduct(colCount, row, col);
      }
    }

    function Index(row: nat, col: nat): nat
    {
      Offset(colCount, row, col)
    }

    /** `get_tile`. */
    function GetTile(row: nat, col: nat): (r: Tile)
      reads this`tileMap
      requires |tileMap| == rowCount * colCount && Contains((row, col))
      ensures row * colCount + col < |tileMap| && r == tileMap[row * colCount + col]
    {
      OffsetInRange(rowCount, colCount, row, col);
      OffsetIsProduct(colCount, row, col);
      tileMap[Index(row, col)]
    }

    /** `get_tile_2`. */
    function GetTile2(row: nat, col: nat): (r: Tile)
      reads this`tileMap2
      requires |tileMap2| == rowCount * colCount && Contains((row, col))
      ensures row * colCount + col < |tileMap2| && r == tileMap2[row * colCount + col]
    {
      OffsetInRange(rowCount, colCount, row, col);
      OffsetIsProduct(colCount, row, col);
      tileMap2[Index(row, col)]
    }

    /** `get_height`. */
    function GetHeight(row: nat, col: nat): (r: Height)
      reads this`heightMap
      requires |heightMap| == rowCount * colCount && Contains((row, col))
      ensures row * colCount + col < |heightMap| && r == heightMap[row * colCount + col]
    {
      OffsetInRange(rowCount, colCount, row, col);
      OffsetIsProduct(colCount, row, col);
      heightMap[Index(row, col)]
    }

    /** `Map::new`: flat `Base` ground at height 0 with no overlay. */
    constructor (rowCount: nat, colCount: nat)
      ensures this.rowCount == rowCount && this.colCount == colCount && Valid()
      ensures forall cell :: Contains(cell) ==>
                GetTile(cell.0, cell.1) == Base && GetTile2(cell.0, cell.1) == Empty && GetHeight(cell.0, cell.1) == 0
    {
      this.rowCount, this.colCount := rowCount, colCount;
      heightMap := seq(rowCount * colCount, _ => 0);
      tileMap := seq(rowCount * colCount, _ => Base);
      tileMap2 := seq(rowCount * colCount, _ => Empty);
      new;
      forall cell | Contains(cell)
        ensures GetTile(cell.0, cell.1) == Base && GetTile2(cell.0, cell.1) == Empty && GetHeight(cell.0, cell.1) == 0
      {
        OffsetInRange(rowCount, colCount, cell.0, cell.1);
      }
    }

    /** `set_tile`: only that cell's base tile changes. */
    method SetTile(row: nat, col: nat, tile: Tile)
      requires Valid() && Contains((row, col))
      modifies this
      ensures Valid() && tileMap2 == old(tileMap2) && heightMap == old(heightMap)
      ensures forall cell :: Contains(cell) ==>
                GetTile(cell.0, cell.1) == if cell == (row, col) then tile else old(GetTile(cell.0, cell.1))
    {
      OffsetInRange(rowCount, colCount, row, col);
      tileMap := tileMap[Index(row, col) := tile];
      forall cell | Contains(cell)
        ensures GetTile(cell.0, cell.1) == if cell == (row, col) then tile else old(GetTile(cell.0, cell.1))
      {
        WriteOneCell(old(tileMap), rowCount, colCount, row, col, tile, cell.0, cell.1);
      }
    }

    /** `set_tile_2`: only that cell's overlay tile changes. */
    method SetTile2(row: nat, col: nat, tile: Tile)
      requires Valid() && Contains((row, col))
      modifies this
      ensures Valid() && tileMap == old(tileMap) && heightMap == old(heightMap)
      ensures forall cell :: Contains(cell) ==>
                GetTile2(cell.0, cell.1) == if cell == (row, col) then tile else old(GetTile2(cell.0, cell.1))
    {
      OffsetInRange(rowCount, colCount, row, col);
      tileMap2 := tileMap2[Index(row, col) := tile];
      forall cell | Contains(cell)
        ensures GetTile2(cell.0, cell.1) == if cell == (row, col) then tile else old(GetTile2(cell.0, cell.1))
      {
        WriteOneCell(old(tileMap2), rowCount, colCount, row, col, tile, cell.0, cell.1);
      }
    }

    /** `set_height`: only that cell's height changes. */
    method SetHeight(row: nat, col: nat, height: Height)
      requires Valid() && Contains((row, col))
      modifies this
      ensures Valid() && tileMap == old(tileMap) && tileMap2 == old(tileMap2)
      ensures forall cell :: Contains(cell) ==>
                GetHeight(cell.0, cell.1) == if cell == (row, col) then height else old(GetHeight(cell.0, cell.1))
    {
      OffsetInRange(rowCount, colCount, row, col);
      heightMap := heightMap[Index(row, col) := height];
      forall cell | Contains(cell)
        ensures GetHeight(cell.0, cell.1) == if cell == (row, col) then height else old(GetHeight(cell.0, cell.1))
      {
        WriteOneCell(old(heightMap), rowCount, colCount, row, col, height, cell.0, cell.1);
      }
    }

    /** `neighbors`: the in-bounds entries of a list of signed positions. */
    function Neighbors(indices: seq<(int, int)>): (r: set<(nat, nat)>)
      ensures forall cell :: cell in r <==> Contains(cell) && (cell.0 as int, cell.1 as int) in indices
    {
      set i | i in indices && InBounds(i.0, i.1) :: (i.0 as nat, i.1 as nat)
    }

    /** `neighbors_4`: the in-bounds cells one orthogonal step away. */
    function Neighbors4(row: nat, col: nat): (r: set<(nat, nat)>)
      ensures (row, col) !in r && forall n :: n in r ==> Contains(n)
    {
      var r, c := row as int, col as int;
      Neighbors([(r - 1, c), (r + 1, c), (r, c - 1), (r, c + 1)])
    }

    /** `neighbors_8`: the in-bounds cells one king's step away. */
    function Neighbors8(row: nat, col: nat): (r: set<(nat, nat)>)
      ensures (row, col) !in r && forall n :: n in r ==> Contains(n)
    {
      var r, c := row as int, col as int;
      Neighbors([(r - 1, c), (r - 1, c + 1), (r, c + 1), (r + 1, c + 1),
                 (r + 1, c), (r + 1, c - 1), (r, c - 1), (r - 1, c - 1)])
    }

    /** The 4-neighbourhood is exactly the in-bounds cells at Manhattan
        distance one: never the cell itself. */
    lemma Neighbors4Exact(row: nat, col: nat, cell: (nat, nat))
      ensures cell in Neighbors4(row, col) <==> Contains(cell) && Manhattan(cell, (row, col)) == 1
    {
      RookMember(row, col, (cell.0 as int, cell.1 as int));
    }

    /** The 8-neighbourhood is exactly the other in-bounds cells at most one
        row and one column away. */
    lemma Neighbors8Exact(row: nat, col: nat, cell: (nat, nat))
      ensures cell in Neighbors8(row, col) <==>
                Contains(cell) && cell != (row, col) && Abs(cell.0 - row) <= 1 && Abs(cell.1 - col) <= 1
    {
      KingMember(row, col, (cell.0 as int, cell.1 as int));
    }

    /** The four positions of `neighbors_4` are the rook's unit steps from `(r, c)`. */
    static lemma RookMember(r: int, c: int, p: (int, int))
      ensures p in [(r - 1, c), (r + 1, c), (r, c - 1), (r, c + 1)] <==> Abs(p.0 - r) + Abs(p.1 - c) == 1
    {
      var (x, y) := p;
      if x == r {
        assert p in [(r, c - 1), (r, c + 1)] <==> Abs(y - c) == 1;
      } else if y == c {
        assert p in [(r - 1, c), (r + 1, c)] <==> Abs(x - r) == 1;
      }
    }

    /** The eight positions of `neighbors_8` are the king's steps from `(r, c)`. */
    static lemma KingMember(r: int, c: int, p: (int, int))
      ensures p in [(r - 1, c), (r - 1, c + 1), (r, c + 1), (r + 1, c + 1),
                    (r + 1, c), (r + 1, c - 1), (r, c - 1), (r - 1, c - 1)] <==>
                p != (r, c) && Abs(p.0 - r) <= 1 && Abs(p.1 - c) <= 1
    {
      var (x, y) := p;
      if x == r - 1 {
        assert p in [(r - 1, c), (r - 1, c + 1), (r - 1, c - 1)] <==> -1 <= y - c <= 1;
      } else if x == r {
        assert p in [(r, c + 1), (r, c - 1)] <==> y - c == 1 || y - c == -1;
      } else if x == r + 1 {
        assert p in [(r + 1, c + 1), (r + 1, c), (r + 1, c - 1)] <==> -1 <= y - c <= 1;
      }
    }

    /** How many of the positions are in bounds. */
    function InBoundsCount(indices: seq<(int, int)>): nat
    {
      if |indices| == 0 then 0
      else (if InBounds(indices[0].0, indices[0].1) then 1 else 0) + InBoundsCount(indices[1..])
    }

    /** `neighbors` has at most one cell per in-bounds position. */
    lemma {:induction false} NeighborsCount(indices: seq<(int, int)>)
      ensures |Neighbors(indices)| <= InBoundsCount(indices) <= |indices|
    {
      if |indices| > 0 {
        NeighborsCount(indices[1..]);
        var i := indices[0];
        var head: set<(nat, nat)> := if InBounds(i.0, i.1) then {(i.0 as nat, i.1 as nat)} else {};
        assert Neighbors(indices) == Neighbors(indices[1..]) + head;
      }
    }

    /** At most four and eight neighbours. */
    lemma NeighborhoodSizes(row: nat, col: nat)
      ensures |Neighbors4(row, col)| <= 4 && |Neighbors8(row, col)| <= 8
    {
      var r, c := row as int, col as int;
      NeighborsCount([(r - 1, c), (r + 1, c), (r, c - 1), (r, c + 1)]);
      NeighborsCount([(r - 1, c), (r - 1, c + 1), (r, c + 1), (r + 1, c + 1),
                      (r + 1, c), (r + 1, c - 1), (r, c - 1), (r - 1, c - 1)]);
    }

    /** The filter of `walkable_cells` for neighbour `n` of `(row, col)`:
        across a base slope only along it, otherwise only onto flat ground
        at the same height. */
    predicate Walkable(row: nat, col: nat, n: (nat, nat))
      reads this
      requires Valid() && Contains((row, col)) && Contains(n)
    {
      var nIsNorS := Abs(row - n.0) == 1 && col == n.1;
      var nIsEorW := Abs(col - n.1) == 1 && row == n.0;
      var cTile, nTile := GetTile(row, col), GetTile(n.0, n.1);
      if IsBaseSlope(cTile) then SlopeCheck(cTile, nTile, nIsNorS, nIsEorW)
      else if IsBaseSlope(nTile) then SlopeCheck(nTile, cTile, nIsNorS, nIsEorW)
      else nTile == Base && GetHeight(n.0, n.1) == GetHeight(row, col)
    }

    /** `walkable_cells`: the 4-neighbours one may step to. The source
        collects them from a hash set, in no particular order. */
    function WalkableCells(row: nat, col: nat): (r: set<(nat, nat)>)
      reads this
      requires Valid() && Contains((row, col))
      ensures r <= Neighbors4(row, col)
    {
      set n | n in Neighbors4(row, col) && Walkable(row, col, n)
    }

    /** Between two cells that are not base slopes, a step is possible
        exactly onto an orthogonally adjacent `Base` cell at the same height. */
    lemma WalkableFlat(row: nat, col: nat, n: (nat, nat))
      requires Valid() && Contains((row, col)) && Contains(n)
      requires !IsBaseSlope(GetTile(row, col)) && !IsBaseSlope(GetTile(n.0, n.1))
      ensures n in WalkableCells(row, col) <==>
                Manhattan(n, (row, col)) == 1 && GetTile(n.0, n.1) == Base && GetHeight(n.0, n.1) == GetHeight(row, col)
    {
      Neighbors4Exact(row, col, n);
    }

    /** On or next to a north-south base slope, only the cells directly
        above and below are reachable, and only when flat or the same slope;
        on or next to an east-west slope, only those to the left and right. */
    lemma WalkableSlope(row: nat, col: nat, n: (nat, nat))
      requires Valid() && Contains((row, col)) && Contains(n)
      requires IsBaseSlope(GetTile(row, col)) || IsBaseSlope(GetTile(n.0, n.1))
      ensures var slope := if IsBaseSlope(GetTile(row, col)) then GetTile(row, col) else GetTile(n.0, n.1);
              var other := if IsBaseSlope(GetTile(row, col)) then GetTile(n.0, n.1) else GetTile(row, col);
              n in WalkableCells(row, col) <==>
                (other == Base || other == slope) &&
                if slope == BaseNorth || slope == BaseSouth then n.1 == col && Abs(n.0 - row) == 1
                else n.0 == row && Abs(n.1 - col) == 1
    {
      Neighbors4Exact(row, col, n);
    }

    /** The 4-neighbours lower than the cell. */
    function LowerNeighbors(row: nat, col: nat): (r: set<(nat, nat)>)
      reads this`heightMap
      requires |heightMap| == rowCount * colCount && Contains((row, col))
      ensures r <= Neighbors4(row, col)
    {
      set n | n in Neighbors4(row, col) && GetHeight(n.0, n.1) < GetHeight(row, col)
    }

    /** A cell on the border of the map. */
    predicate OnBorder(row: nat, col: nat)
      requires Contains((row, col))
    {
      row == 0 || row == rowCount - 1 || col == 0 || col == colCount - 1
    }

    /** A cell that lies in a line one cell wide and cannot be sloped: on
        the border, more than one lower neighbour; inside, lower neighbours
        both north and south or both east and west. */
    predicate Invalid(row: nat, col: nat)
      reads this`heightMap
      requires |heightMap| == rowCount * colCount && Contains((row, col))
    {
      if OnBorder(row, col) then |LowerNeighbors(row, col)| > 1
      else
        var h := GetHeight(row, col);
        (GetHeight(row - 1, col) < h && GetHeight(row + 1, col) < h) ||
        (GetHeight(row, col - 1) < h && GetHeight(row, col + 1) < h)
    }

    /** `is_invalid_tile`: mark the side of each lower neighbour, taken
        from the set in whatever order it yields them. */
    method IsInvalidTile(row: nat, col: nat) returns (invalid: bool)
      requires Valid() && Contains((row, col))
      ensures invalid == Invalid(row, col)
    {
      var height := GetHeight(row, col);
      var lowerNeighbors := LowerNeighbors(row, col);
      var n, e, s, w := false, false, false, false;
      var isEdgeTile := row == 0 || row == rowCount - 1 || col == 0 || col == colCount - 1;
      if isEdgeTile {
        return |lowerNeighbors| > 1;
      }
      var north, south, east, west := (row - 1, col), (row + 1, col), (row, col + 1), (row, col - 1);
      var rest := lowerNeighbors;
      while rest != {}
        invariant rest <= lowerNeighbors
        invariant n == (north in lowerNeighbors - rest) && s == (south in lowerNeighbors - rest)
        invariant e == (east in lowerNeighbors - rest) && w == (west in lowerNeighbors - rest)
        decreases |rest|
      {
        var cell :| cell in rest;
        SideOf(row, col, cell);
        var (nRow, nCol) := cell;
        if nRow < row {
          n := true;
        } else if nRow > row {
          s := true;
        } else if nCol > col {
          e := true;
        } else if nCol < col {
          w := true;
        }
        rest := rest - {cell};
      }
      InteriorLower(row, col);
      invalid := (n && s) || (e && w);
    }

    /** A 4-neighbour is told apart by comparing its coordinates with the cell's. */
    lemma SideOf(row: nat, col: nat, cell: (nat, nat))
      requires cell in Neighbors4(row, col)
      ensures cell.0 < row ==> cell == (row - 1, col)
      ensures cell.0 > row ==> cell == (row + 1, col)
      ensures cell.0 == row && cell.1 > col ==> cell == (row, col + 1)
      ensures cell.0 == row && cell.1 < col ==> cell == (row, col - 1)
      ensures cell != (row, col)
    {
      Neighbors4Exact(row, col, cell);
    }

    /** Inside the map, each of the four sides is a lower neighbour exactly
        when its height is below the cell's. */
    lemma InteriorLower(row: nat, col: nat)
      requires |heightMap| == rowCount * colCount && Contains((row, col)) && !OnBorder(row, col)
      ensures var h := GetHeight(row, col);
              ((row - 1, col) in LowerNeighbors(row, col) <==> GetHeight(row - 1, col) < h) &&
              ((row + 1, col) in LowerNeighbors(row, col) <==> GetHeight(row + 1, col) < h) &&
              ((row, col - 1) in LowerNeighbors(row, col) <==> GetHeight(row, col - 1) < h) &&
              ((row, col + 1) in LowerNeighbors(row, col) <==> GetHeight(row, col + 1) < h)
    {
      Neighbors4Exact(row, col, (row - 1, col));
      Neighbors4Exact(row, col, (row + 1, col));
      Neighbors4Exact(row, col, (row, col - 1));
      Neighbors4Exact(row, col, (row, col + 1));
    }

    /** The 8-neighbours with a `Base` tile. */
    function BaseAround(row: nat, col: nat): (r: set<(nat, nat)>)
      reads this`tileMap
      requires |tileMap| == rowCount * colCount
      ensures r <= Neighbors8(row, col)
    {
      set n | n in Neighbors8(row, col) && GetTile(n.0, n.1) == Base
    }

    /** `can_place_rocks`: flat ground with eight flat neighbours. */
    predicate CanPlaceRocks(row: nat, col: nat)
      reads this`tileMap
      requires |tileMap| == rowCount * colCount && Contains((row, col))
    {
      GetTile(row, col) == Base && |BaseAround(row, col)| == 8
    }

    /** `can_place_patch`: flat ground with nothing on it. */
    predicate CanPlacePatch(row: nat, col: nat)
      reads this`tileMap, this`tileMap2
      requires |tileMap| == rowCount * colCount && |tileMap2| == rowCount * colCount && Contains((row, col))
    {
      GetTile(row, col) == Base && GetTile2(row, col) == Empty
    }

    /** The placement test `place_random` is given. */
    predicate CanPlace(rule: PlaceRule, row: nat, col: nat)
      reads this`tileMap, this`tileMap2
      requires |tileMap| == rowCount * colCount && |tileMap2| == rowCount * colCount && Contains((row, col))
    {
      match rule
      case RocksRule => CanPlaceRocks(row, col)
      case PatchRule => CanPlacePatch(row, col)
    }

    /** A subset is no larger than its superset. */
    static lemma {:induction false} SubsetCard(a: set<(nat, nat)>, b: set<(nat, nat)>)
      requires a <= b
      ensures |a| <= |b|
    {
      if a != {} {
        var x :| x in a;
        SubsetCard(a - {x}, b - {x});
      }
    }

    /** A subset as large as its superset is the superset. */
    static lemma SubsetFull(a: set<(nat, nat)>, b: set<(nat, nat)>)
      requires a <= b && |a| >= |b|
      ensures a == b
    {
      if x :| x in b && x !in a {
        SubsetCard(a, b - {x});
      }
    }

    /** A position off the grid leaves fewer in-bounds positions than positions. */
    lemma {:induction false} InBoundsCountMissing(indices: seq<(int, int)>, i: nat)
      requires i < |indices| && !InBounds(indices[i].0, indices[i].1)
      ensures InBoundsCount(indices) < |indices|
    {
      NeighborsCount(indices[1..]);
      if i > 0 {
        InBoundsCountMissing(indices[1..], i - 1);
      }
    }

    /** Rocks go only on interior cells whose eight neighbours are all flat:
        a border cell has fewer than eight neighbours. */
    lemma CanPlaceRocksInterior(row: nat, col: nat)
      requires |tileMap| == rowCount * colCount && Contains((row, col))
      requires CanPlaceRocks(row, col)
      ensures !OnBorder(row, col)
      ensures forall n: (nat, nat) :: Contains(n) && n != (row, col) && Abs(n.0 - row) <= 1 && Abs(n.1 - col) <= 1 ==>
                GetTile(n.0, n.1) == Base
    {
      var r, c := row as int, col as int;
      var king := [(r - 1, c), (r - 1, c + 1), (r, c + 1), (r + 1, c + 1),
                   (r + 1, c), (r + 1, c - 1), (r, c - 1), (r - 1, c - 1)];
      NeighborsCount(king);
      SubsetCard(BaseAround(row, col), Neighbors8(row, col));
      SubsetFull(BaseAround(row, col), Neighbors8(row, col));
      if row == 0 {
        InBoundsCountMissing(king, 0);
      } else if row == rowCount - 1 {
        InBoundsCountMissing(king, 4);
      } else if col == 0 {
        InBoundsCountMissing(king, 6);
      } else if col == colCount - 1 {
        InBoundsCountMissing(king, 2);
      }
      forall n: (nat, nat) | Contains(n) && n != (row, col) && Abs(n.0 - row) <= 1 && Abs(n.1 - col) <= 1
        ensures GetTile(n.0, n.1) == Base
      {
        Neighbors8Exact(row, col, n);
      }
    }

    /** Off the border, the eight cells around a cell are all on the grid. */
    lemma RingInside(row: nat, col: nat)
      requires Contains((row, col)) && !OnBorder(row, col)
      ensures Ring(row, col) <= Neighbors8(row, col)
    {
      forall n | n in Ring(row, col)
        ensures n in Neighbors8(row, col)
      {
        RingCells(row, col, n);
        Neighbors8Exact(row, col, n);
      }
    }

    /** An interior `Base` cell whose eight surrounding cells are all
        `Base` passes `can_place_rocks`. */
    lemma RocksOnFlatInterior(row: nat, col: nat)
      requires |tileMap| == rowCount * colCount && Contains((row, col)) && !OnBorder(row, col)
      requires forall n :: n in Neighbors8(row, col) ==> GetTile(n.0, n.1) == Base
      ensures |BaseAround(row, col)| == 8
    {
      RingSize(row, col);
      RingInside(row, col);
      forall n | n in Ring(row, col)
        ensures n in BaseAround(row, col)
      {
      }
      SubsetCard(Ring(row, col), BaseAround(row, col));
      SubsetCard(BaseAround(row, col), Neighbors8(row, col));
      NeighborhoodSizes(row, col);
    }

    /** `can_place_rocks` holds exactly on an interior `Base` cell whose
        eight surrounding cells are all `Base`. */
    lemma CanPlaceRocksExact(row: nat, col: nat)
      requires |tileMap| == rowCount * colCount && Contains((row, col))
      ensures CanPlaceRocks(row, col) <==>
                GetTile(row, col) == Base && !OnBorder(row, col) &&
                forall n :: n in Neighbors8(row, col) ==> GetTile(n.0, n.1) == Base
    {
      if GetTile(row, col) == Base && !OnBorder(row, col) &&
         forall n :: n in Neighbors8(row, col) ==> GetTile(n.0, n.1) == Base
      {
        RocksOnFlatInterior(row, col);
      }
      if CanPlaceRocks(row, col) {
        CanPlaceRocksInterior(row, col);
        forall n | n in Neighbors8(row, col)
          ensures GetTile(n.0, n.1) == Base
        {
          Neighbors8Exact(row, col, n);
        }
      }
    }

    /** The cell of a flat grid `m`, for overlays held aside. */
    function TileIn(m: seq<Tile>, cell: (nat, nat)): Tile
      requires |m| == rowCount * colCount && Contains(cell)
    {
      OffsetInRange(rowCount, colCount, cell.0, cell.1);
      m[Index(cell.0, cell.1)]
    }

    /** What `place_random` keeps true of the cells placed so far, against
        the overlay `before` it started from: placements keep their distance,
        lie on flat ground, carry the tile and passed the test when placed;
        every other overlay cell is as it was. */
    ghost predicate Placement(rule: PlaceRule, config: PlaceConfig, placed: seq<(nat, nat)>, before: seq<Tile>)
      reads this
      requires Valid() && |before| == rowCount * colCount
    {
      Spaced(placed, config.minDistance) &&
      (forall i :: 0 <= i < |placed| ==>
         Contains(placed[i]) && GetTile(placed[i].0, placed[i].1) == Base &&
         GetTile2(placed[i].0, placed[i].1) == config.tile &&
         match rule
         case RocksRule => CanPlaceRocks(placed[i].0, placed[i].1)
         case PatchRule => TileIn(before, placed[i]) == Empty) &&
      (forall cell :: Contains(cell) && cell !in placed ==> GetTile2(cell.0, cell.1) == TileIn(before, cell))
    }

    /** One successful attempt of `place_random`: the tile goes on the
        overlay and the cell joins the placements. */
    method PlaceAt(rule: PlaceRule, config: PlaceConfig, placed: seq<(nat, nat)>, cell: (nat, nat), ghost before: seq<Tile>)
      returns (placed': seq<(nat, nat)>)
      requires Valid() && |before| == rowCount * colCount && Contains(cell)
      requires Placement(rule, config, placed, before)
      requires !Crowded(placed, cell, config.minDistance) && CanPlace(rule, cell.0, cell.1)
      modifies this
      ensures Valid() && tileMap == old(tileMap) && heightMap == old(heightMap)
      ensures placed' == placed + [cell] && Placement(rule, config, placed', before)
    {
      ghost var tile2 := GetTile2(cell.0, cell.1);
      assert cell !in placed ==> tile2 == TileIn(before, cell);
      SetTile2(cell.0, cell.1, config.tile);
      placed' := placed + [cell];
      SpacedSnoc(placed, cell, config.minDistance);
      forall i | 0 <= i < |placed'|
        ensures Contains(placed'[i]) && GetTile(placed'[i].0, placed'[i].1) == Base &&
                GetTile2(placed'[i].0, placed'[i].1) == config.tile &&
                match rule
                case RocksRule => CanPlaceRocks(placed'[i].0, placed'[i].1)
                case PatchRule => TileIn(before, placed'[i]) == Empty
      {
        if i < |placed| {
          assert placed'[i] == placed[i];
        }
      }
      forall c | Contains(c) && c !in placed'
        ensures GetTile2(c.0, c.1) == TileIn(before, c)
      {
        assert c !in placed;
      }
    }

    /** Whether `place_random` places the tile at `cell` when the cells
        `placed` already carry it over the overlay `before`: the cell keeps
        its distance from them and passes the test on the overlay as it
        then is. */
    predicate Accepts(rule: PlaceRule, config: PlaceConfig, before: seq<Tile>, placed: seq<(nat, nat)>, cell: (nat, nat))
      reads this`tileMap
      requires |tileMap| == rowCount * colCount && |before| == rowCount * colCount && Contains(cell)
    {
      !Crowded(placed, cell, config.minDistance) &&
      match rule
      case RocksRule => CanPlaceRocks(cell.0, cell.1)
      case PatchRule => GetTile(cell.0, cell.1) == Base && (if cell in placed then config.tile else TileIn(before, cell)) == Empty
    }

    /** The placements `place_random` ends with when the cells `placed`
        are placed and `k` attempts are made: while fewer than `maxCount`
        are placed and attempts remain, the next pick is placed when it is
        accepted. `before` is the overlay the run started from. */
    ghost function PlaceRun(rule: PlaceRule, config: PlaceConfig, before: seq<Tile>, picks: seq<(nat, nat)>,
                            placed: seq<(nat, nat)>, k: nat): (r: seq<(nat, nat)>)
      reads this`tileMap
      requires |tileMap| == rowCount * colCount && |before| == rowCount * colCount
      requires k <= config.maxAttempts <= |picks| && forall i :: 0 <= i < |picks| ==> Contains(picks[i])
      ensures |r| <= |placed| + (config.maxAttempts - k)
      ensures |placed| <= config.maxCount ==> |r| <= config.maxCount
      decreases config.maxAttempts - k
    {
      if |placed| < config.maxCount && k < config.maxAttempts then
        var cell := picks[k];
        PlaceRun(rule, config, before, picks,
                 if Accepts(rule, config, before, placed, cell) then placed + [cell] else placed, k + 1)
      else placed
    }

    /** `place_random`: take picks while fewer than `maxCount` are placed
        and attempts remain; skip a pick closer than `minDistance` to an
        earlier placement, and place the tile where the test allows it.
        The random generator is the sequence `picks`, one per attempt. */
    method PlaceRandom(rule: PlaceRule, config: PlaceConfig, picks: seq<(nat, nat)>) returns (placed: seq<(nat, nat)>)
      requires Valid()
      requires |picks| >= config.maxAttempts && forall i :: 0 <= i < |picks| ==> Contains(picks[i])
      modifies this
      ensures Valid() && tileMap == old(tileMap) && heightMap == old(heightMap)
      ensures placed == PlaceRun(rule, config, old(tileMap2), picks, [], 0)
      ensures |placed| <= config.maxCount && |placed| <= config.maxAttempts
      ensures Placement(rule, config, placed, old(tileMap2))
    {
      ghost var before := tileMap2;
      ghost var run := PlaceRun(rule, config, before, picks, [], 0);
      var attempts := 0;
      placed := [];
      forall cell | Contains(cell)
        ensures GetTile2(cell.0, cell.1) == TileIn(before, cell)
      {
      }
      while |placed| < config.maxCount && attempts < config.maxAttempts
        invariant Valid() && tileMap == old(tileMap) && heightMap == old(heightMap)
        invariant attempts <= config.maxAttempts && |placed| <= attempts && |placed| <= config.maxCount
        invariant Placement(rule, config, placed, before)
        invariant PlaceRun(rule, config, before, picks, placed, attempts) == run
        decreases config.maxAttempts - attempts
      {
        placed := Attempt(rule, config, picks, placed, attempts, before, run);
        attempts := attempts + 1;
      }
      RunDone(rule, config, before, picks, placed, attempts);
    }

    /** A run with `maxCount` placements or no attempts left ends there. */
    lemma RunDone(rule: PlaceRule, config: PlaceConfig, before: seq<Tile>, picks: seq<(nat, nat)>,
                  placed: seq<(nat, nat)>, k: nat)
      requires |tileMap| == rowCount * colCount && |before| == rowCount * colCount
      requires k <= config.maxAttempts <= |picks| && forall i :: 0 <= i < |picks| ==> Contains(picks[i])
      requires |placed| >= config.maxCount || k == config.maxAttempts
      ensures PlaceRun(rule, config, before, picks, placed, k) == placed
    {
    }

    /** One pass of the loop of `place_random`, on the pick `picks[k]`: a
        pick too close to an earlier placement is skipped, and one that
        passes the test is placed. */
    method Attempt(rule: PlaceRule, config: PlaceConfig, picks: seq<(nat, nat)>, placed: seq<(nat, nat)>, k: nat,
                   ghost before: seq<Tile>, ghost run: seq<(nat, nat)>)
      returns (placed': seq<(nat, nat)>)
      requires Valid() && |before| == rowCount * colCount
      requires k < config.maxAttempts <= |picks| && forall i :: 0 <= i < |picks| ==> Contains(picks[i])
      requires |placed| < config.maxCount && Placement(rule, config, placed, before)
      requires PlaceRun(rule, config, before, picks, placed, k) == run
      modifies this
      ensures Valid() && tileMap == old(tileMap) && heightMap == old(heightMap)
      ensures placed' == if Accepts(rule, config, before, placed, picks[k]) then placed + [picks[k]] else placed
      ensures PlaceRun(rule, config, before, picks, placed', k + 1) == run
      ensures Placement(rule, config, placed', before)
    {
      var (row, col) := picks[k];
      placed' := placed;
      if Crowded(placed, (row, col), config.minDistance) {
        return;
      }
      PlaceTest(rule, config, placed, before, (row, col));
      if CanPlace(rule, row, col) {
        placed' := PlaceAt(rule, config, placed, (row, col), before);
      }
    }

    /** While the placements so far are those of `place_random`, the test on
        the live overlay is the test on `before` with the placements on it. */
    lemma PlaceTest(rule: PlaceRule, config: PlaceConfig, placed: seq<(nat, nat)>, before: seq<Tile>, cell: (nat, nat))
      requires Valid() && |before| == rowCount * colCount && Contains(cell)
      requires Placement(rule, config, placed, before)
      ensures Accepts(rule, config, before, placed, cell) <==>
              !Crowded(placed, cell, config.minDistance) && CanPlace(rule, cell.0, cell.1)
    {
      if cell in placed {
        var i :| 0 <= i < |placed| && placed[i] == cell;
        assert GetTile2(placed[i].0, placed[i].1) == config.tile;
      }
    }

    /** The grid of the unit test `cannot_walk_up_or_down_without_slope`:
        flat ground around a pit one level deep. */
    predicate PitGrid()
      reads this
    {
      rowCount == 3 && colCount == 3 && |tileMap2| == 9 &&
      tileMap == [Base, Base, Base, Base, Base, Base, Base, Base, Base] &&
      heightMap == [3, 2, 3, 2, 1, 2, 3, 2, 3]
    }

    /** Away from slopes, a cell whose 4-neighbours all lie at other
        heights has nowhere to step. */
    lemma NoLevelStep(row: nat, col: nat)
      requires Valid() && Contains((row, col)) && !IsBaseSlope(GetTile(row, col))
      requires forall n :: n in Neighbors4(row, col) ==>
                 !IsBaseSlope(GetTile(n.0, n.1)) && GetHeight(n.0, n.1) != GetHeight(row, col)
      ensures WalkableCells(row, col) == {}
    {
      forall n | n in WalkableCells(row, col)
        ensures false
      {
        WalkableFlat(row, col, n);
      }
    }

    /** No step leaves the bottom of the pit. */
    lemma PitCenterStuck()
      requires PitGrid()
      ensures WalkableCells(1, 1) == {}
    {
      forall n | n in Neighbors4(1, 1)
        ensures GetTile(n.0, n.1) == Base && GetHeight(n.0, n.1) == 2
      {
        SideOf(1, 1, n);
        if n.0 == 0 {
          assert GetHeight(0, 1) == 2;
        } else if n.0 == 2 {
          assert GetHeight(2, 1) == 2;
        } else if n.1 == 0 {
          assert GetHeight(1, 0) == 2;
        } else {
          assert GetHeight(1, 2) == 2;
        }
      }
      assert GetHeight(1, 1) == 1;
      NoLevelStep(1, 1);
    }

    /** No step leaves the middle of the pit's bottom rim. */
    lemma PitRimStuck()
      requires PitGrid()
      ensures WalkableCells(2, 1) == {}
    {
      forall n | n in Neighbors4(2, 1)
        ensures GetTile(n.0, n.1) == Base && GetHeight(n.0, n.1) != 2
      {
        SideOf(2, 1, n);
        if n.0 == 1 {
          assert GetHeight(1, 1) == 1;
        } else if n.1 == 0 {
          assert GetHeight(2, 0) == 3;
        } else {
          assert GetHeight(2, 2) == 3;
        }
      }
      assert GetHeight(2, 1) == 2;
      NoLevelStep(2, 1);
    }

    /** The unit test `cannot_walk_side_to_side_on_slope`: from a north-facing
        slope only the flat cell up the slope is reachable. */
    lemma CannotWalkSideToSide()
      requires rowCount == 3 && colCount == 3 && |tileMap2| == 9
      requires tileMap == [Base, Base, Base, Base, Base, Base, Base, BaseNorth, BaseNorth]
      requires heightMap == [3, 2, 3, 2, 2, 2, 1, 2, 2]
      ensures WalkableCells(2, 1) == {(1, 1)}
    {
      WalkableSlope(2, 1, (1, 1));
      forall n | n in WalkableCells(2, 1)
        ensures n == (1, 1)
      {
        SideOf(2, 1, n);
        WalkableSlope(2, 1, n);
      }
    }
  }
}
