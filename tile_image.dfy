/** The sprite quad batch of www/tile.image.mjs: two fixed-size float buffers
    (vertex positions and texture coordinates) filled twelve floats per quad,
    and a counter of queued quads. A full buffer is drawn at once; `flush`
    draws whatever is left. The WebGL upload and `drawArrays` call are
    recorded in a ghost log of draws. */
module TileImage {
  import opened Camera

  /** `256 * 256` quads per batch. */
  const MAX_BATCH_COUNT: nat := 65536
  const VERTS_PER_QUAD: nat := 6
  const FLOATS_PER_VERT: nat := 2
  const FLOATS_PER_QUAD: nat := VERTS_PER_QUAD * FLOATS_PER_VERT
  /** The corners of the two triangles (0, 1, 3) and (3, 1, 2). */
  const INDICES: seq<nat> := [0, 1, 3, 3, 1, 2]
  const SPRITES_PER_ROW: nat := 12
  const TEX_X_OFFSET: real := 1.0 / 12.0
  const TEX_Y_OFFSET: real := 1.0 / 5.0

  /** `points`: the corners of the unit quad. */
  function Corner(c: nat): (real, real)
    requires c < 4
  {
    [(0.0, 0.0), (1.0, 0.0), (1.0, 1.0), (0.0, 1.0)][c]
  }

  /** `tex`: the corners of one sprite in the sheet. */
  function TexCorner(c: nat): (real, real)
    requires c < 4
  {
    [(0.0, 0.0), (TEX_X_OFFSET, 0.0), (TEX_X_OFFSET, TEX_Y_OFFSET), (0.0, TEX_Y_OFFSET)][c]
  }

  /** The arguments of one `add(x, y, l, w, h, type)` call. */
  datatype Quad = Quad(x: real, y: real, l: real, w: real, h: real, tile: nat)

  /** Float `k` (0 to 11) of a quad's vertex positions: vertex `k / 2`,
      coordinate `k % 2`, scaled by the tile size and raised by `h` half-lengths. */
  function VertFloat(q: Quad, k: nat): (r: real)
    requires k < FLOATS_PER_QUAD
    ensures k % 2 == 0 ==> r == q.x || r == q.x + 2.0 * q.l
    ensures k % 2 == 1 ==> r == q.y - q.h * (q.l / 2.0) || r == q.y - q.h * (q.l / 2.0) + 2.0 * q.w
  {
    var p := Corner(INDICES[k / 2]);
    if k % 2 == 0 then q.x + q.l * 2.0 * p.0
    else q.y + q.w * 2.0 * p.1 - q.h * (q.l / 2.0)
  }

  /** Float `k` (0 to 11) of a quad's texture coordinates: the sprite of
      `tile` sits at column `tile % 12` and row `tile / 12` of the sheet. */
  function TexFloat(q: Quad, k: nat): (r: real)
    requires k < FLOATS_PER_QUAD
    ensures k % 2 == 0 ==> r == ((q.tile % 12) as real) / 12.0 || r == ((q.tile % 12 + 1) as real) / 12.0
    ensures k % 2 == 1 ==> r == ((q.tile / 12) as real) / 5.0 || r == ((q.tile / 12 + 1) as real) / 5.0
  {
    var t := TexCorner(INDICES[k / 2]);
    if k % 2 == 0 then t.0 + ((q.tile % SPRITES_PER_ROW) as real) * TEX_X_OFFSET
    else t.1 + ((q.tile / SPRITES_PER_ROW) as real) * TEX_Y_OFFSET
  }

  /** The six vertices span the parallelogram with corners `(x, y')` and
      `(x + 2l, y' + 2w)`, where `y' = y - h * l / 2`, as two triangles
      sharing the diagonal from corner 1 to corner 3. */
  lemma QuadVertices(q: Quad)
    ensures var top := q.y - q.h * (q.l / 2.0);
            && VertFloat(q, 0) == q.x && VertFloat(q, 1) == top
            && VertFloat(q, 2) == q.x + 2.0 * q.l && VertFloat(q, 3) == top
            && VertFloat(q, 4) == q.x && VertFloat(q, 5) == top + 2.0 * q.w
            && VertFloat(q, 6) == q.x && VertFloat(q, 7) == top + 2.0 * q.w
            && VertFloat(q, 8) == q.x + 2.0 * q.l && VertFloat(q, 9) == top
            && VertFloat(q, 10) == q.x + 2.0 * q.l && VertFloat(q, 11) == top + 2.0 * q.w
  {
  }

  /** Every texture coordinate of a tile whose sprite is on the 12 x 5 sheet
      stays inside that sprite's cell, and so inside [0, 1]. */
  lemma TexInsideSprite(q: Quad, k: nat)
    requires k < FLOATS_PER_QUAD && q.tile < SPRITES_PER_ROW * 5
    ensures k % 2 == 0 ==> ((q.tile % 12) as real) / 12.0 <= TexFloat(q, k) <= ((q.tile % 12 + 1) as real) / 12.0
    ensures k % 2 == 1 ==> ((q.tile / 12) as real) / 5.0 <= TexFloat(q, k) <= ((q.tile / 12 + 1) as real) / 5.0
    ensures 0.0 <= TexFloat(q, k) <= 1.0
  {
    assert q.tile / 12 < 5;
    assert q.tile % 12 < 12;
  }

  /** One `drawArrays(TRIANGLES, 0, vertexCount)` call: the uniform matrix it
      used and the quads whose floats were at the front of the buffers. */
  datatype Draw = Draw(matrix: Affine, vertexCount: nat, quads: seq<Quad>)

  /** The counter after one `add`: one more quad, or a draw and back to zero
      once the buffers are full. */
  function Step(count: nat): nat
  {
    if count + 1 == MAX_BATCH_COUNT then 0 else count + 1
  }

  /** The counter after `n` calls to `add`. */
  function CountAfter(count: nat, n: nat): nat
    decreases n
  {
    if n == 0 then count else CountAfter(Step(count), n - 1)
  }

  /** The draws issued by `n` calls to `add`. */
  function DrawsAfter(count: nat, n: nat): nat
    decreases n
  {
    if n == 0 then 0
    else (if count + 1 == MAX_BATCH_COUNT then 1 else 0) + DrawsAfter(Step(count), n - 1)
  }

  /** From a counter below capacity, `n` calls to `add` draw once per full
      batch: `(count + n) / MAX_BATCH_COUNT` draws, leaving
      `(count + n) % MAX_BATCH_COUNT` quads queued. */
  lemma {:induction false} AddsFillBatches(count: nat, n: nat)
    requires count < MAX_BATCH_COUNT
    ensures CountAfter(count, n) == (count + n) % MAX_BATCH_COUNT
    ensures DrawsAfter(count, n) == (count + n) / MAX_BATCH_COUNT
    decreases n
  {
    if n > 0 {
      AddsFillBatches(Step(count), n - 1);
      if count + 1 == MAX_BATCH_COUNT {
        assert count + n == MAX_BATCH_COUNT + (n - 1);
        DivModShift(n - 1);
      } else {
        assert Step(count) + (n - 1) == count + n;
      }
    }
  }

  lemma DivModShift(m: nat)
    ensures (MAX_BATCH_COUNT + m) % MAX_BATCH_COUNT == m % MAX_BATCH_COUNT
    ensures (MAX_BATCH_COUNT + m) / MAX_BATCH_COUNT == 1 + m / MAX_BATCH_COUNT
  {
  }

  /** The twelve position floats of one quad. */
  function QuadVerts(q: Quad): seq<real>
  {
    seq(FLOATS_PER_QUAD, k requires 0 <= k < FLOATS_PER_QUAD => VertFloat(q, k))
  }

  /** The twelve texture floats of one quad. */
  function QuadTex(q: Quad): seq<real>
  {
    seq(FLOATS_PER_QUAD, k requires 0 <= k < FLOATS_PER_QUAD => TexFloat(q, k))
  }

  /** The position floats of a run of quads: quad `k / 12` fills float `k`
      with its float `k % 12`. */
  function VertFloats(qs: seq<Quad>): seq<real>
  {
    seq(FLOATS_PER_QUAD * |qs|, k requires 0 <= k < FLOATS_PER_QUAD * |qs| =>
      SlotBound(k, |qs|); VertFloat(qs[k / FLOATS_PER_QUAD], k % FLOATS_PER_QUAD))
  }

  /** The texture floats of a run of quads, laid out as `VertFloats`. */
  function TexFloats(qs: seq<Quad>): seq<real>
  {
    seq(FLOATS_PER_QUAD * |qs|, k requires 0 <= k < FLOATS_PER_QUAD * |qs| =>
      SlotBound(k, |qs|); TexFloat(qs[k / FLOATS_PER_QUAD], k % FLOATS_PER_QUAD))
  }

  lemma SlotBound(k: nat, n: nat)
    requires k < FLOATS_PER_QUAD * n
    ensures k / FLOATS_PER_QUAD < n
  {
  }

  lemma SlotOffset(b: nat, c: nat)
    requires c < FLOATS_PER_QUAD
    ensures (FLOATS_PER_QUAD * b + c) / FLOATS_PER_QUAD == b
    ensures (FLOATS_PER_QUAD * b + c) % FLOATS_PER_QUAD == c
  {
  }

  /** Queuing one more quad appends its twelve floats to each run, leaving
      the floats of the earlier quads where they were. */
  lemma FloatsSnoc(qs: seq<Quad>, q: Quad)
    ensures VertFloats(qs + [q]) == VertFloats(qs) + QuadVerts(q)
    ensures TexFloats(qs + [q]) == TexFloats(qs) + QuadTex(q)
  {
    var n := |qs|;
    forall k | 0 <= k < FLOATS_PER_QUAD * (n + 1)
      ensures VertFloats(qs + [q])[k] == (VertFloats(qs) + QuadVerts(q))[k]
      ensures TexFloats(qs + [q])[k] == (TexFloats(qs) + QuadTex(q))[k]
    {
      if k < FLOATS_PER_QUAD * n {
        SlotBound(k, n);
      } else {
        SlotOffset(n, k - FLOATS_PER_QUAD * n);
      }
    }
  }

  /** The first `|floats|` cells of `a` hold `floats`. */
  ghost predicate Holds(a: array<real>, floats: seq<real>)
    reads a
  {
    |floats| <= a.Length && forall k :: 0 <= k < |floats| ==> a[k] == floats[k]
  }

  /** The quads that `draws` put on screen, draw after draw. */
  function DrawnQuads(draws: seq<Draw>): seq<Quad>
  {
    if draws == [] then [] else DrawnQuads(draws[..|draws| - 1]) + draws[|draws| - 1].quads
  }

  /** The quads of two runs of draws are those of the first, then those of
      the second. */
  lemma {:induction false} DrawnQuadsAppend(first: seq<Draw>, second: seq<Draw>)
    ensures DrawnQuads(first + second) == DrawnQuads(first) + DrawnQuads(second)
    decreases |second|
  {
    if second == [] {
      assert first + second == first;
    } else {
      var init := second[..|second| - 1];
      assert (first + second)[..|first + second| - 1] == first + init;
      DrawnQuadsAppend(first, init);
    }
  }

  /** The module-level buffers and counter, with the uniform matrix of the
      program that draws them. */
  class TileBatch {
    const vertArr: array<real>
    const texArr: array<real>
    var batchCount: nat
    var viewProjMatrix: Affine
    /** Every quad ever added, in order. */
    ghost var added: seq<Quad>
    /** The quads queued since the last draw, in order. */
    ghost var pending: seq<Quad>
    /** Every draw call issued, in order. */
    ghost var draws: seq<Draw>

    /** The buffers hold, slot by slot, the floats of the queued quads, the
        counter is below capacity, and every quad ever added has been drawn
        exactly once, in order, or is still queued. */
    ghost predicate Valid()
      reads this, vertArr, texArr
    {
      Filled() && batchCount < MAX_BATCH_COUNT
    }

    /** As `Valid`, except that the counter may have reached capacity. */
    ghost predicate Filled()
      reads this, vertArr, texArr
    {
      vertArr.Length == MAX_BATCH_COUNT * FLOATS_PER_QUAD &&
      texArr.Length == MAX_BATCH_COUNT * FLOATS_PER_QUAD &&
      vertArr != texArr &&
      batchCount <= MAX_BATCH_COUNT && batchCount == |pending| &&
      DrawnQuads(draws) + pending == added &&

      Holds(vertArr, VertFloats(pending)) && Holds(texArr, TexFloats(pending))
    }

    /** `initTileShader`: empty buffers, the identity matrix. */
    constructor ()
      ensures Valid() && fresh(vertArr) && fresh(texArr)
      ensures batchCount == 0 && added == [] && pending == [] && draws == []
      ensures viewProjMatrix == Identity()
    {
      vertArr := new real[MAX_BATCH_COUNT * FLOATS_PER_QUAD];
      texArr := new real[MAX_BATCH_COUNT * FLOATS_PER_QUAD];
      batchCount := 0;
      viewProjMatrix := Identity();
      added := [];
      pending := [];
      draws := [];
    }

    /** The `viewProjMatrix` setter. */
    method SetViewProjMatrix(m: Affine)
      requires Valid()
      modifies this
      ensures Valid()
      ensures viewProjMatrix == m
      ensures batchCount == old(batchCount) && added == old(added) && pending == old(pending) && draws == old(draws)
    {
      viewProjMatrix := m;
    }

    /** `_flush`: upload both buffers, draw `batchCount * 6` vertices with
        the current matrix, reset the counter. */
    method DrawBatch()
      requires Filled() && batchCount > 0
      modifies this
      ensures Valid()
      ensures batchCount == 0 && pending == [] && added == old(added) && viewProjMatrix == old(viewProjMatrix)
      ensures draws == old(draws) + [Draw(viewProjMatrix, old(batchCount) * VERTS_PER_QUAD, old(pending))]
    {
      ghost var d := Draw(viewProjMatrix, batchCount * VERTS_PER_QUAD, pending);
      assert (draws + [d])[..|draws|] == draws;
      draws := draws + [d];
      pending := [];
      batchCount := 0;
    }

    /** `flush`: draw only when something is queued. */
    method Flush()
      requires Valid()
      modifies this
      ensures Valid()
      ensures batchCount == 0 && pending == [] && added == old(added) && viewProjMatrix == old(viewProjMatrix)
      ensures draws == if old(batchCount) == 0 then old(draws)
                       else old(draws) + [Draw(viewProjMatrix, old(batchCount) * VERTS_PER_QUAD, old(pending))]
    {
      if batchCount != 0 {
        DrawBatch();
      }
    }

    /** The loop of `add`: the twelve position and twelve texture floats of
        `q` go to the slot at `offset1`; every other float stays. */
    method WriteQuad(offset1: nat, q: Quad)
      requires vertArr.Length == texArr.Length && offset1 + FLOATS_PER_QUAD <= vertArr.Length && vertArr != texArr
      modifies vertArr, texArr
      ensures forall k :: 0 <= k < FLOATS_PER_QUAD ==>
                vertArr[offset1 + k] == VertFloat(q, k) && texArr[offset1 + k] == TexFloat(q, k)
      ensures forall k :: 0 <= k < vertArr.Length && !(offset1 <= k < offset1 + FLOATS_PER_QUAD) ==>
                vertArr[k] == old(vertArr[k]) && texArr[k] == old(texArr[k])
    {
      var i, j := 0, 0;
      while i < |INDICES|
        invariant 0 <= i <= |INDICES| && j == 2 * i
        invariant forall k :: 0 <= k < j ==> vertArr[offset1 + k] == VertFloat(q, k) && texArr[offset1 + k] == TexFloat(q, k)
        invariant forall k :: 0 <= k < vertArr.Length && !(offset1 <= k < offset1 + j) ==>
                    vertArr[k] == old(vertArr[k]) && texArr[k] == old(texArr[k])
      {
        var p := Corner(INDICES[i]);
        vertArr[offset1 + j] := q.x + q.l * 2.0 * p.0;
        vertArr[offset1 + j + 1] := q.y + q.w * 2.0 * p.1 - q.h * (q.l / 2.0);
        var t := TexCorner(INDICES[i]);
        var tx := t.0 + ((q.tile % SPRITES_PER_ROW) as real) * TEX_X_OFFSET;
        var ty := t.1 + ((q.tile / SPRITES_PER_ROW) as real) * TEX_Y_OFFSET;
        texArr[offset1 + j] := tx;
        texArr[offset1 + j + 1] := ty;
        i, j := i + 1, j + 2;
      }
    }

    /** `add(x, y, l, w, h, type)`: write the quad's twelve position floats
        and twelve texture floats into slot `batchCount`, leaving every other
        float as it was, then draw if the buffers are full. */
    method Add(x: real, y: real, l: real, w: real, h: real, tile: nat)
      requires Valid()
      modifies this, vertArr, texArr
      ensures Valid()
      ensures added == old(added) + [Quad(x, y, l, w, h, tile)]
      ensures batchCount == Step(old(batchCount)) && viewProjMatrix == old(viewProjMatrix)
      ensures if old(batchCount) + 1 == MAX_BATCH_COUNT
              then pending == [] &&
                   draws == old(draws) + [Draw(viewProjMatrix, MAX_BATCH_COUNT * VERTS_PER_QUAD, old(pending) + [Quad(x, y, l, w, h, tile)])]
              else pending == old(pending) + [Quad(x, y, l, w, h, tile)] && draws == old(draws)
    {
      var q := Quad(x, y, l, w, h, tile);
      var offset1 := batchCount * FLOATS_PER_QUAD;
      WriteQuad(offset1, q);
      FloatsSnoc(pending, q);
      ghost var verts, tex := VertFloats(pending + [q]), TexFloats(pending + [q]);
      forall k | 0 <= k < |verts|
        ensures vertArr[k] == verts[k] && texArr[k] == tex[k]
      {
        if k >= offset1 {
          assert verts[k] == QuadVerts(q)[k - offset1] && tex[k] == QuadTex(q)[k - offset1];
          assert vertArr[offset1 + (k - offset1)] == VertFloat(q, k - offset1);
        }
      }
      added := added + [q];
      pending := pending + [q];
      assert pending[..|pending| - 1] == old(pending);
      batchCount := batchCount + 1;
      if batchCount == MAX_BATCH_COUNT {
        DrawBatch();
      }
    }
  }
}
