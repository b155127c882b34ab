/** Breadth-first path search of src/graph.rs: from a start cell, over a
    neighbour function and a target test supplied by the caller, find a
    shortest chain of neighbouring cells that ends on a target cell. */
module Graph {
  import opened Wrappers

  /** `usize` is 64 bits wide. */
  const USIZE: nat := 0x1_0000_0000_0000_0000

  /** A `(usize, usize)` grid cell. */
  type Cell = c: (nat, nat) | c.0 < USIZE && c.1 < USIZE witness (0, 0)

  /** Every cell there is: the search can visit no more than these. */
  ghost function Universe(): set<(nat, nat)>
  {
    set a: nat, b: nat | a < USIZE && b < USIZE :: (a, b)
  }

  lemma InUniverse(c: Cell)
    ensures c in Universe()
  {
    assert c == (c.0, c.1);
  }

  /** How many cells are still unvisited. */
  ghost function Unvisited(visited: set<Cell>): nat
  {
    |Universe() - visited|
  }

  /** Visiting more cells leaves fewer unvisited ones. */
  lemma FewerUnvisited(before: set<Cell>, after: set<Cell>)
    requires before < after
    ensures Unvisited(after) < Unvisited(before)
  {
    var w :| w in after && w !in before;
    InUniverse(w);
    var u := Universe();
    var unseen, seen := u - after, u - before;
    var gone := seen - unseen;
    assert seen == unseen + gone && unseen * gone == {};
    assert w in gone;
    assert gone == (gone - {w}) + {w};
  }

  function Last<T>(s: seq<T>): T
    requires |s| > 0
  {
    s[|s| - 1]
  }

  /** A non-empty chain of cells, each one a neighbour of the cell before it. */
  ghost predicate IsPath(neighbors: Cell -> seq<Cell>, p: seq<Cell>)
  {
    |p| > 0 && forall i :: 0 <= i < |p| - 1 ==> p[i + 1] in neighbors(p[i])
  }

  /** A chain that starts at `start`. */
  ghost predicate Walk(neighbors: Cell -> seq<Cell>, start: Cell, p: seq<Cell>)
  {
    IsPath(neighbors, p) && p[0] == start
  }

  /** Dropping the last step of a walk leaves a walk. */
  lemma WalkPrefix(neighbors: Cell -> seq<Cell>, start: Cell, p: seq<Cell>)
    requires Walk(neighbors, start, p) && |p| > 1
    ensures Walk(neighbors, start, p[..|p| - 1])
    ensures Last(p) in neighbors(Last(p[..|p| - 1]))
  {
    assert p[|p| - 1] in neighbors(p[|p| - 2]);
  }

  /** `s` reversed: `path.reverse()`. */
  function Reverse<T>(s: seq<T>): (r: seq<T>)
    ensures |r| == |s|
    ensures forall i :: 0 <= i < |s| ==> r[i] == s[|s| - 1 - i]
  {
    if |s| == 0 then [] else Reverse(s[1..]) + [s[0]]
  }

  /** `get_path`: follow the predecessor map from `start` until a cell with
      no predecessor, then reverse, so the chain ends at `start`. The map
      must have no cycles (the source would loop forever); `rank`, which
      drops along every predecessor link, witnesses that. */
  method GetPath(start: Cell, nodes: map<Cell, Cell>, ghost rank: map<Cell, nat>) returns (path: seq<Cell>)
    requires start in rank
    requires forall v :: v in nodes ==> v in rank && nodes[v] in rank && rank[nodes[v]] < rank[v]
    ensures |path| > 0 && Last(path) == start && path[0] !in nodes
    ensures forall i :: 0 < i < |path| ==> path[i] in nodes && nodes[path[i]] == path[i - 1]
  {
    path := [];
    var current := start;
    path := path + [current];
    while current in nodes
      invariant current in rank
      invariant |path| > 0 && path[0] == start && Last(path) == current
      invariant forall i :: 0 <= i < |path| - 1 ==> path[i] in nodes && nodes[path[i]] == path[i + 1]
      decreases rank[current]
    {
      var vertex := nodes[current];
      path := path + [vertex];
      current := vertex;
    }
    path := Reverse(path);
  }

  /** The predecessor links of the search: every visited cell but `start`
      has one, to a visited cell it neighbours and that is one step nearer. */
  ghost predicate Links(neighbors: Cell -> seq<Cell>, start: Cell, visited: set<Cell>,
                        prevMap: map<Cell, Cell>, dist: map<Cell, nat>)
  {
    start in visited && dist.Keys == visited && dist[start] == 0 &&
    prevMap.Keys == visited - {start} &&
    (forall v :: v in prevMap ==>
       prevMap[v] in visited && v in neighbors(prevMap[v]) && dist[v] == dist[prevMap[v]] + 1)
  }

  /** No walk reaches a visited cell in fewer steps than its distance. */
  ghost predicate Shortest(neighbors: Cell -> seq<Cell>, start: Cell, visited: set<Cell>, dist: map<Cell, nat>)
    requires dist.Keys == visited
  {
    forall p :: Walk(neighbors, start, p) && Last(p) in visited ==> |p| > dist[Last(p)]
  }

  /** Every cell some walk reaches in at most `layer` steps is visited. */
  ghost predicate Reached(neighbors: Cell -> seq<Cell>, start: Cell, visited: set<Cell>, layer: nat)
  {
    forall p :: Walk(neighbors, start, p) && |p| <= layer + 1 ==> Last(p) in visited
  }

  /** The queue holds distinct visited cells whose distances never drop
      along it and lie in `[layer, layer + 1]`. */
  ghost predicate Layered(queue: seq<Cell>, dist: map<Cell, nat>, layer: nat)
  {
    (forall i :: 0 <= i < |queue| ==> queue[i] in dist && layer <= dist[queue[i]] <= layer + 1) &&
    (forall i, j :: 0 <= i < j < |queue| ==> queue[i] != queue[j] && dist[queue[i]] <= dist[queue[j]])
  }

  /** The expanded cells: none is a target, and their neighbours are all visited. */
  ghost predicate Expanded(neighbors: Cell -> seq<Cell>, isMatch: Cell -> bool, done: set<Cell>, visited: set<Cell>)
  {
    forall x :: x in done ==> !isMatch(x) && forall k :: 0 <= k < |neighbors(x)| ==> neighbors(x)[k] in visited
  }

  /** The state at the top of the search loop. */
  ghost predicate Searching(neighbors: Cell -> seq<Cell>, isMatch: Cell -> bool, start: Cell,
                            queue: seq<Cell>, visited: set<Cell>, prevMap: map<Cell, Cell>,
                            dist: map<Cell, nat>, done: set<Cell>, layer: nat)
  {
    Links(neighbors, start, visited, prevMap, dist) &&
    Shortest(neighbors, start, visited, dist) &&
    Reached(neighbors, start, visited, layer) &&
    Layered(queue, dist, layer) &&
    Expanded(neighbors, isMatch, done, visited) &&
    (forall v :: v in visited <==> v in done || v in queue) &&
    (forall v :: v in done ==> v !in queue)
  }

  /** Taking the queue's head may move the search to the next layer: then
      every cell within one more step is already visited, because its
      predecessor on the walk is nearer than every queued cell and so expanded. */
  lemma {:induction false} NextLayer(neighbors: Cell -> seq<Cell>, isMatch: Cell -> bool, start: Cell,
                                     queue: seq<Cell>, visited: set<Cell>, prevMap: map<Cell, Cell>,
                                     dist: map<Cell, nat>, done: set<Cell>, layer: nat)
    requires Searching(neighbors, isMatch, start, queue, visited, prevMap, dist, done, layer)
    requires |queue| > 0
    ensures Reached(neighbors, start, visited, dist[queue[0]])
  {
    var d := dist[queue[0]];
    if d != layer {
      forall p | Walk(neighbors, start, p) && |p| <= d + 1
        ensures Last(p) in visited
      {
        if |p| == d + 1 {
          WalkPrefix(neighbors, start, p);
          var q := p[..|p| - 1];
          var x := Last(q);
          assert x in visited;
          assert dist[x] < d;
          assert x !in queue by {
            forall i | 0 <= i < |queue|
              ensures queue[i] != x
            {
              assert dist[queue[0]] <= dist[queue[i]];
            }
          }
          var k :| 0 <= k < |neighbors(x)| && neighbors(x)[k] == Last(p);
        }
      }
    }
  }

  /** The reversed predecessor chain from a visited cell is a walk from
      `start` with one cell more than the cell's distance. */
  lemma {:induction false} ChainIsWalk(neighbors: Cell -> seq<Cell>, start: Cell, visited: set<Cell>,
                                       prevMap: map<Cell, Cell>, dist: map<Cell, nat>, cell: Cell, path: seq<Cell>)
    requires Links(neighbors, start, visited, prevMap, dist) && cell in visited
    requires |path| > 0 && Last(path) == cell && path[0] !in prevMap
    requires forall i :: 0 < i < |path| ==> path[i] in prevMap && prevMap[path[i]] == path[i - 1]
    ensures Walk(neighbors, start, path) && |path| == dist[cell] + 1
  {
    var n := |path|;
    // Walking back from `cell`, every cell is visited and one step nearer.
    var i := n - 1;
    while i > 0
      invariant 0 <= i < n
      invariant forall j :: i <= j < n ==> path[j] in visited && dist[path[j]] == dist[cell] - (n - 1 - j)
      decreases i
    {
      assert path[i] in prevMap && prevMap[path[i]] == path[i - 1];
      i := i - 1;
    }
    assert path[0] == start;
    assert IsPath(neighbors, path) by {
      forall j | 0 <= j < n - 1
        ensures path[j + 1] in neighbors(path[j])
      {
      }
    }
  }

  /** Every walk from `start` stays inside a visited set that every cell of
      the set has all its neighbours in. */
  lemma {:induction false} WalkInside(neighbors: Cell -> seq<Cell>, start: Cell, inside: set<Cell>, p: seq<Cell>)
    requires start in inside
    requires forall x, k :: x in inside && 0 <= k < |neighbors(x)| ==> neighbors(x)[k] in inside
    requires Walk(neighbors, start, p)
    ensures Last(p) in inside
    decreases |p|
  {
    if |p| > 1 {
      WalkPrefix(neighbors, start, p);
      WalkInside(neighbors, start, inside, p[..|p| - 1]);
      var x := Last(p[..|p| - 1]);
      var k :| 0 <= k < |neighbors(x)| && neighbors(x)[k] == Last(p);
    }
  }

  /** `bfs_path_to_target`: breadth-first search from `start_cell`, first in
      first out, marking each cell visited when it is queued and recording
      the cell it was reached from. The first target cell taken from the
      queue ends the search with its predecessor chain; an empty queue ends
      it with `None`. */
  method BfsPathToTarget(start: Cell, neighbors: Cell -> seq<Cell>, isMatch: Cell -> bool)
      returns (r: Option<seq<Cell>>)
    ensures r.Some? ==> Walk(neighbors, start, r.value) && isMatch(Last(r.value))
    ensures r.Some? ==> forall p :: Walk(neighbors, start, p) && isMatch(Last(p)) ==> |r.value| <= |p|
    ensures r.None? <==> forall p :: Walk(neighbors, start, p) ==> !isMatch(Last(p))
    ensures isMatch(start) ==> r == Some([start])
  {
    var queue: seq<Cell> := [];
    var visited: set<Cell> := {};
    var prevMap: map<Cell, Cell> := map[];
    var path: seq<Cell> := [];
    // The distance of every visited cell, the cells taken from the queue and
    // expanded, and the distance of the cell taken last.
    ghost var dist: map<Cell, nat> := map[];
    ghost var done: set<Cell> := {};
    ghost var layer: nat := 0;

    queue := queue + [start];
    visited := visited + {start};
    dist := dist[start := 0];
    StartSearch(neighbors, isMatch, start);

    while |queue| > 0
      invariant Searching(neighbors, isMatch, start, queue, visited, prevMap, dist, done, layer)
      invariant path == []
      decreases Unvisited(visited), |queue|
    {
      ghost var visited0, queue0 := visited, queue;
      var cell := queue[0];
      queue := queue[1..];
      if isMatch(cell) {
        path := GetPath(cell, prevMap, dist);
        FoundTarget(neighbors, isMatch, start, queue0, visited, prevMap, dist, done, layer, path);
        break;
      }
      ghost var dist0 := dist;
      queue, visited, prevMap, dist := QueueNeighbors(neighbors, isMatch, start, cell, queue, visited, prevMap, dist, done, layer, queue0);
      done, layer := done + {cell}, dist0[cell];
    }
    if |path| == 0 {
      r := None;
      Exhausted(neighbors, isMatch, start, queue, visited, prevMap, dist, done, layer);
      StartAlone(neighbors, isMatch, start, [start]);
    } else {
      r := Some(path);
      StartAlone(neighbors, isMatch, start, path);
    }
  }

  /** The `for` loop of `bfs_path_to_target`: offer every neighbour of
      `cell`, just taken from the head of the queue `taken`, in turn. Afterwards
      `cell` counts as expanded, and the search has reached its layer. */
  method QueueNeighbors(neighbors: Cell -> seq<Cell>, ghost isMatch: Cell -> bool, ghost start: Cell, cell: Cell,
                        queue0: seq<Cell>, visited0: set<Cell>, prevMap0: map<Cell, Cell>,
                        ghost dist0: map<Cell, nat>, ghost done: set<Cell>, ghost layer0: nat, ghost taken: seq<Cell>)
      returns (queue: seq<Cell>, visited: set<Cell>, prevMap: map<Cell, Cell>, ghost dist: map<Cell, nat>)
    requires Searching(neighbors, isMatch, start, taken, visited0, prevMap0, dist0, done, layer0)
    requires |taken| > 0 && taken[0] == cell && taken[1..] == queue0 && !isMatch(cell)
    ensures Searching(neighbors, isMatch, start, queue, visited, prevMap, dist, done + {cell}, dist0[cell])
    ensures Unvisited(visited) < Unvisited(visited0) || (Unvisited(visited) == Unvisited(visited0) && queue == queue0)
  {
    TakeHead(neighbors, isMatch, start, taken, visited0, prevMap0, dist0, done, layer0);
    ghost var layer := dist0[cell];
    queue, visited, prevMap, dist := queue0, visited0, prevMap0, dist0;
    var ns := neighbors(cell);
    var k := 0;
    while k < |ns|
      invariant 0 <= k <= |ns|
      invariant Expanding(neighbors, isMatch, start, cell, queue, visited, prevMap, dist, done, layer)
      invariant forall i :: 0 <= i < k ==> ns[i] in visited
      invariant visited0 <= visited && (visited == visited0 ==> queue == queue0)
    {
      ghost var before := visited;
      queue, visited, prevMap, dist := OfferNeighbor(neighbors, isMatch, start, cell, queue, visited, prevMap, dist, done, layer, ns[k]);
      VisitedGrows(ns, k, before, visited);
      k := k + 1;
    }
    FinishCell(neighbors, isMatch, start, cell, queue, visited, prevMap, dist, done, layer);
    if visited != visited0 {
      FewerUnvisited(visited0, visited);
    }
  }

  /** The first `k + 1` neighbours are visited once the first `k` are and
      the next one is added. */
  lemma VisitedGrows(ns: seq<Cell>, k: nat, before: set<Cell>, after: set<Cell>)
    requires k < |ns| && before <= after && ns[k] in after
    requires forall i :: 0 <= i < k ==> ns[i] in before
    ensures forall i :: 0 <= i < k + 1 ==> ns[i] in after
  {
  }

  /** The body of that loop: an unvisited neighbour is queued, marked
      visited and given `cell` as its predecessor; a visited one changes
      nothing. */
  method OfferNeighbor(neighbors: Cell -> seq<Cell>, ghost isMatch: Cell -> bool, ghost start: Cell, cell: Cell,
                       queue0: seq<Cell>, visited0: set<Cell>, prevMap0: map<Cell, Cell>,
                       ghost dist0: map<Cell, nat>, ghost done: set<Cell>, ghost layer: nat, neighbor: Cell)
      returns (queue: seq<Cell>, visited: set<Cell>, prevMap: map<Cell, Cell>, ghost dist: map<Cell, nat>)
    requires Expanding(neighbors, isMatch, start, cell, queue0, visited0, prevMap0, dist0, done, layer)
    requires neighbor in neighbors(cell)
    ensures Expanding(neighbors, isMatch, start, cell, queue, visited, prevMap, dist, done, layer)
    ensures visited == visited0 + {neighbor}
    ensures neighbor in visited0 ==> queue == queue0 && prevMap == prevMap0
    ensures neighbor !in visited0 ==> queue == queue0 + [neighbor] && prevMap == prevMap0[neighbor := cell]
  {
    queue, visited, prevMap, dist := queue0, visited0, prevMap0, dist0;
    if neighbor !in visited {
      AddNeighbor(neighbors, isMatch, start, cell, queue, visited, prevMap, dist, done, layer, neighbor);
      queue := queue + [neighbor];
      visited := visited + {neighbor};
      prevMap := prevMap[neighbor := cell];
      dist := dist[neighbor := layer + 1];
    }
  }

  /** The state while the neighbours of `cell` are queued. */
  ghost predicate Expanding(neighbors: Cell -> seq<Cell>, isMatch: Cell -> bool, start: Cell, cell: Cell,
                            queue: seq<Cell>, visited: set<Cell>, prevMap: map<Cell, Cell>,
                            dist: map<Cell, nat>, done: set<Cell>, layer: nat)
  {
    Links(neighbors, start, visited, prevMap, dist) &&
    Shortest(neighbors, start, visited, dist) &&
    Reached(neighbors, start, visited, layer) &&
    Layered(queue, dist, layer) &&
    Expanded(neighbors, isMatch, done, visited) &&
    cell in visited && dist[cell] == layer && !isMatch(cell) &&
    (forall v :: v in visited <==> v in done || v in queue || v == cell) &&
    (forall v :: v in done ==> v !in queue && v != cell) &&
    cell !in queue
  }

  /** The one-cell chain `[start]` is a walk, and the shortest one to a
      target when `start` is one. */
  lemma StartAlone(neighbors: Cell -> seq<Cell>, isMatch: Cell -> bool, start: Cell, path: seq<Cell>)
    requires Walk(neighbors, start, path)
    requires forall p :: Walk(neighbors, start, p) && isMatch(Last(p)) ==> |path| <= |p|
    ensures Walk(neighbors, start, [start])
    ensures isMatch(start) ==> path == [start]
  {
    assert Walk(neighbors, start, [start]);
  }

  /** The search starts with only `start` queued and visited, at distance 0. */
  lemma StartSearch(neighbors: Cell -> seq<Cell>, isMatch: Cell -> bool, start: Cell)
    ensures Searching(neighbors, isMatch, start, [start], {start}, map[], map[start := 0], {}, 0)
  {
    forall p | Walk(neighbors, start, p) && |p| <= 1
      ensures Last(p) in {start}
    {
    }
  }

  /** Taking a head that is not a target starts its expansion, one layer
      further on when its distance is one more than the last one's. */
  lemma TakeHead(neighbors: Cell -> seq<Cell>, isMatch: Cell -> bool, start: Cell,
                 queue: seq<Cell>, visited: set<Cell>, prevMap: map<Cell, Cell>,
                 dist: map<Cell, nat>, done: set<Cell>, layer: nat)
    requires Searching(neighbors, isMatch, start, queue, visited, prevMap, dist, done, layer)
    requires |queue| > 0 && !isMatch(queue[0])
    ensures Expanding(neighbors, isMatch, start, queue[0], queue[1..], visited, prevMap, dist, done, dist[queue[0]])
  {
    NextLayer(neighbors, isMatch, start, queue, visited, prevMap, dist, done, layer);
    var cell, rest := queue[0], queue[1..];
    forall i | 0 <= i < |rest|
      ensures rest[i] != cell && dist[cell] <= dist[rest[i]]
    {
      assert rest[i] == queue[i + 1];
    }
  }

  /** Once every neighbour of `cell` is visited, `cell` counts as expanded. */
  lemma FinishCell(neighbors: Cell -> seq<Cell>, isMatch: Cell -> bool, start: Cell, cell: Cell,
                   queue: seq<Cell>, visited: set<Cell>, prevMap: map<Cell, Cell>,
                   dist: map<Cell, nat>, done: set<Cell>, layer: nat)
    requires Expanding(neighbors, isMatch, start, cell, queue, visited, prevMap, dist, done, layer)
    requires forall k :: 0 <= k < |neighbors(cell)| ==> neighbors(cell)[k] in visited
    ensures Searching(neighbors, isMatch, start, queue, visited, prevMap, dist, done + {cell}, layer)
  {
  }

  /** A target at the head of the queue: its predecessor chain is a walk
      from `start` to it, and no walk reaches a target in fewer steps,
      since a nearer target would have been taken from the queue earlier. */
  lemma FoundTarget(neighbors: Cell -> seq<Cell>, isMatch: Cell -> bool, start: Cell,
                    queue: seq<Cell>, visited: set<Cell>, prevMap: map<Cell, Cell>,
                    dist: map<Cell, nat>, done: set<Cell>, layer: nat, path: seq<Cell>)
    requires Searching(neighbors, isMatch, start, queue, visited, prevMap, dist, done, layer)
    requires |queue| > 0 && isMatch(queue[0])
    requires |path| > 0 && Last(path) == queue[0] && path[0] !in prevMap
    requires forall i :: 0 < i < |path| ==> path[i] in prevMap && prevMap[path[i]] == path[i - 1]
    ensures Walk(neighbors, start, path) && isMatch(Last(path))
    ensures forall p :: Walk(neighbors, start, p) && isMatch(Last(p)) ==> |path| <= |p|
  {
    var cell := queue[0];
    ChainIsWalk(neighbors, start, visited, prevMap, dist, cell, path);
    NextLayer(neighbors, isMatch, start, queue, visited, prevMap, dist, done, layer);
    NoNearerTarget(neighbors, isMatch, start, queue, visited, dist, done, path);
  }

  /** A target reached in fewer steps than the head's distance is visited
      and nearer than every queued cell, so it was expanded: impossible. */
  lemma NoNearerTarget(neighbors: Cell -> seq<Cell>, isMatch: Cell -> bool, start: Cell,
                       queue: seq<Cell>, visited: set<Cell>, dist: map<Cell, nat>, done: set<Cell>, path: seq<Cell>)
    requires |queue| > 0 && queue[0] in dist && dist.Keys == visited
    requires Shortest(neighbors, start, visited, dist)
    requires Reached(neighbors, start, visited, dist[queue[0]])
    requires Expanded(neighbors, isMatch, done, visited)
    requires |path| == dist[queue[0]] + 1
    requires forall v :: v in visited ==> v in done || v in queue
    requires forall i :: 0 <= i < |queue| ==> queue[i] in dist && dist[queue[0]] <= dist[queue[i]]
    ensures forall p :: Walk(neighbors, start, p) && isMatch(Last(p)) ==> |path| <= |p|
  {
    forall p | Walk(neighbors, start, p) && isMatch(Last(p))
      ensures |path| <= |p|
    {
      if |p| < |path| {
        assert false;
      }
    }
  }

  /** With the queue empty, every visited cell is expanded, so the visited
      cells are closed under neighbours and hold no target: no walk from
      `start` ends on a target. */
  lemma Exhausted(neighbors: Cell -> seq<Cell>, isMatch: Cell -> bool, start: Cell,
                  queue: seq<Cell>, visited: set<Cell>, prevMap: map<Cell, Cell>,
                  dist: map<Cell, nat>, done: set<Cell>, layer: nat)
    requires Searching(neighbors, isMatch, start, queue, visited, prevMap, dist, done, layer)
    requires queue == []
    ensures forall p :: Walk(neighbors, start, p) ==> !isMatch(Last(p))
  {
    forall p | Walk(neighbors, start, p)
      ensures !isMatch(Last(p))
    {
      WalkInside(neighbors, start, done, p);
    }
  }

  /** Queuing an unvisited neighbour of `cell` one step beyond it keeps
      every invariant. */
  lemma AddNeighbor(neighbors: Cell -> seq<Cell>, isMatch: Cell -> bool, start: Cell, cell: Cell,
                    queue: seq<Cell>, visited: set<Cell>, prevMap: map<Cell, Cell>,
                    dist: map<Cell, nat>, done: set<Cell>, layer: nat, neighbor: Cell)
    requires Expanding(neighbors, isMatch, start, cell, queue, visited, prevMap, dist, done, layer)
    requires neighbor in neighbors(cell) && neighbor !in visited
    ensures Expanding(neighbors, isMatch, start, cell, queue + [neighbor], visited + {neighbor},
                      prevMap[neighbor := cell], dist[neighbor := layer + 1], done, layer)
  {
    NewCellShortest(neighbors, start, visited, dist, layer, neighbor);
    var queue' := queue + [neighbor];
    forall i, j | 0 <= i < j < |queue'|
      ensures queue'[i] != queue'[j] && dist[neighbor := layer + 1][queue'[i]] <= dist[neighbor := layer + 1][queue'[j]]
    {
      if j < |queue| {
        assert queue'[i] == queue[i] && queue'[j] == queue[j];
      }
    }
  }

  /** No walk reaches an unvisited cell in `layer + 1` steps or fewer, so
      distance `layer + 1` is the shortest for it. */
  lemma NewCellShortest(neighbors: Cell -> seq<Cell>, start: Cell, visited: set<Cell>,
                        dist: map<Cell, nat>, layer: nat, neighbor: Cell)
    requires dist.Keys == visited
    requires Shortest(neighbors, start, visited, dist)
    requires Reached(neighbors, start, visited, layer)
    requires neighbor !in visited
    ensures Shortest(neighbors, start, visited + {neighbor}, dist[neighbor := layer + 1])
  {
    var visited', dist' := visited + {neighbor}, dist[neighbor := layer + 1];
    forall p | Walk(neighbors, start, p) && Last(p) in visited'
      ensures |p| > dist'[Last(p)]
    {
      if Last(p) == neighbor {
        if |p| <= layer + 1 {
          assert false;
        }
      }
    }
  }

  /** How far apart two cells are, in grid steps. */
  function Steps(a: Cell, b: Cell): nat
  {
    (if a.0 < b.0 then b.0 - a.0 else a.0 - b.0) + (if a.1 < b.1 then b.1 - a.1 else a.1 - b.1)
  }

  /** When every neighbour is at most one grid step away, a walk needs at
      least as many steps as the grid distance it covers. */
  lemma {:induction false} WalkCoversSteps(neighbors: Cell -> seq<Cell>, start: Cell, p: seq<Cell>)
    requires forall c: Cell, k :: 0 <= k < |neighbors(c)| ==> Steps(c, neighbors(c)[k]) <= 1
    requires Walk(neighbors, start, p)
    ensures Steps(start, Last(p)) <= |p| - 1
    decreases |p|
  {
    if |p| > 1 {
      WalkPrefix(neighbors, start, p);
      var q := p[..|p| - 1];
      WalkCoversSteps(neighbors, start, q);
      var k :| 0 <= k < |neighbors(Last(q))| && neighbors(Last(q))[k] == Last(p);
      assert Steps(Last(q), Last(p)) <= 1;
    }
  }

  /** The 4 x 4 grid of the unit tests: the neighbours north, east, south
      and west, in that order, that lie on the grid and, when `walled`, are
      not in row 1. */
  function GridNeighbors(c: Cell, walled: bool): seq<Cell>
  {
    var (row, col) := c;
    (if row > 0 && Open(row - 1, walled) then [(row - 1, col)] else []) +
    (if col < 3 && Open(row, walled) then [(row, col + 1)] else []) +
    (if row < 3 && Open(row + 1, walled) then [(row + 1, col)] else []) +
    (if col > 0 && Open(row, walled) then [(row, col - 1)] else [])
  }

  /** Row `r` is passable: only row 1 is walled, and only when `walled`. */
  predicate Open(r: nat, walled: bool)
  {
    !(walled && r == 1)
  }

  function OpenGrid(c: Cell): seq<Cell>
  {
    GridNeighbors(c, false)
  }

  function WalledGrid(c: Cell): seq<Cell>
  {
    GridNeighbors(c, true)
  }

  /** The target cell of both unit tests. */
  predicate IsTarget(c: Cell)
  {
    c == (2, 2)
  }

  lemma GridSteps(c: Cell, walled: bool, k: nat)
    requires k < |GridNeighbors(c, walled)|
    ensures Steps(c, GridNeighbors(c, walled)[k]) <= 1
  {
  }

  lemma OpenGridSteps()
    ensures forall c: Cell, k :: 0 <= k < |OpenGrid(c)| ==> Steps(c, OpenGrid(c)[k]) <= 1
  {
    forall c: Cell, k | 0 <= k < |OpenGrid(c)|
      ensures Steps(c, OpenGrid(c)[k]) <= 1
    {
      GridSteps(c, false, k);
    }
  }

  /** The path the unit test expects is a walk to the target. */
  lemma ExpectedWalk()
    ensures var p: seq<Cell> := [(0, 0), (0, 1), (0, 2), (1, 2), (2, 2)];
            Walk(OpenGrid, (0, 0), p) && IsTarget(Last(p))
  {
    var p: seq<Cell> := [(0, 0), (0, 1), (0, 2), (1, 2), (2, 2)];
    forall i | 0 <= i < |p| - 1
      ensures p[i + 1] in OpenGrid(p[i])
    {
      if i == 0 {
        assert OpenGrid((0, 0)) == [(0, 1), (1, 0)];
      } else if i == 1 {
        assert OpenGrid((0, 1)) == [(0, 2), (1, 1), (0, 0)];
      } else if i == 2 {
        assert OpenGrid((0, 2)) == [(0, 3), (1, 2), (0, 1)];
      } else {
        assert OpenGrid((1, 2)) == [(0, 2), (1, 3), (2, 2), (1, 1)];
      }
    }
  }

  /** The unit test `find_path_to_closest`: the search from the corner finds
      a shortest walk to the target, four steps long. */
  method FindPathToClosest() returns (r: Option<seq<Cell>>)
    ensures r.Some? && |r.value| == 5 && r.value[0] == (0, 0) && Last(r.value) == (2, 2)
  {
    r := BfsPathToTarget((0, 0), OpenGrid, IsTarget);
    ExpectedWalk();
    OpenGridSteps();
    WalkCoversSteps(OpenGrid, (0, 0), r.value);
  }

  /** The unit test `no_path`: with row 1 walled off, every walk from the
      corner stays in row 0, so the search finds nothing. */
  method NoPath() returns (r: Option<seq<Cell>>)
    ensures r == None
  {
    r := BfsPathToTarget((0, 0), WalledGrid, IsTarget);
    var row0: set<Cell> := {(0, 0), (0, 1), (0, 2), (0, 3)};
    RowZeroClosed();
    forall p | Walk(WalledGrid, (0, 0), p)
      ensures !IsTarget(Last(p))
    {
      WalkInside(WalledGrid, (0, 0), row0, p);
    }
  }

  /** Behind the wall, row 0 leads only to row 0. */
  lemma RowZeroClosed()
    ensures forall x, k :: x in {(0, 0), (0, 1), (0, 2), (0, 3)} && 0 <= k < |WalledGrid(x)| ==>
              WalledGrid(x)[k] in {(0, 0), (0, 1), (0, 2), (0, 3)}
  {
    assert WalledGrid((0, 0)) == [(0, 1)];
    assert WalledGrid((0, 1)) == [(0, 2), (0, 0)];
    assert WalledGrid((0, 2)) == [(0, 3), (0, 1)];
    assert WalledGrid((0, 3)) == [(0, 2)];
  }
}
