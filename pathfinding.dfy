/**
  * The pursuer's path planner: breadth-first search over the 4-neighbour grid,
  * where only walls and the outside of the matrix block, with a predecessor map
  * from which the path is read back from the goal and then reversed.
  *
  * The search is proved with a ghost distance per recorded tile: no walk to a
  * recorded tile is shorter than its distance, and every tile within the current
  * level's distance is recorded. So the path read back through the predecessors
  * is a shortest walk, and an exhausted search has recorded every reachable tile.
  */
module PathFinding {
  import opened Grid
  import opened Options

  /** All in-bounds tiles; the search only ever adds tiles from here. */
  ghost function AllTiles(g: seq<seq<int>>): set<Tile>
    requires |g| > 0
  {
    set x, y | 0 <= y < |g| && 0 <= x < |g[0]| :: (x, y)
  }

  /** A tile all of whose open neighbours are already recorded in `seen`. */
  ghost predicate Expanded(g: seq<seq<int>>, seen: set<Tile>, v: Tile)
    requires Rectangular(g)
  {
    forall i :: 0 <= i < 4 && Open(g, Neighbour(v, i)) ==> Neighbour(v, i) in seen
  }

  ghost predicate Closed(g: seq<seq<int>>, seen: set<Tile>)
    requires Rectangular(g)
  {
    forall v :: v in seen ==> Expanded(g, seen, v)
  }

  /** Dropping the last tile of a walk of two or more tiles leaves a walk to the tile before it. */
  lemma WalkPrefix(g: seq<seq<int>>, p: seq<Tile>, start: Tile, goal: Tile)
    requires Rectangular(g) && IsWalk(g, p, start, goal) && |p| > 1
    ensures IsWalk(g, p[..|p| - 1], start, p[|p| - 2])
    ensures Open(g, goal) && Adjacent(p[|p| - 2], goal)
  {
  }

  /** Every walk from `start` ends inside a neighbour-closed set that holds `start`. */
  lemma {:induction false} WalkStaysInside(g: seq<seq<int>>, p: seq<Tile>, start: Tile, goal: Tile, seen: set<Tile>)
    requires Rectangular(g) && IsWalk(g, p, start, goal)
    requires start in seen && Closed(g, seen)
    ensures goal in seen
  {
    if |p| > 1 {
      var t := p[|p| - 2];
      WalkPrefix(g, p, start, goal);
      WalkStaysInside(g, p[..|p| - 1], start, t, seen);
      assert Expanded(g, seen, t);
      var i := Direction(t, goal);
    }
  }

  /** Nothing outside a neighbour-closed set that holds `start` is reachable from it. */
  lemma ClosedHoldsWalks(g: seq<seq<int>>, start: Tile, goal: Tile, seen: set<Tile>)
    requires Rectangular(g)
    requires start in seen && Closed(g, seen)
    requires goal !in seen
    ensures !Reachable(g, start, goal)
  {
    forall p | IsWalk(g, p, start, goal)
      ensures false
    {
      WalkStaysInside(g, p, start, goal, seen);
    }
  }

  /** What `_bfs` promises: empty iff unreachable, otherwise a shortest walk. */
  ghost predicate ShortestOrEmpty(g: seq<seq<int>>, start: Tile, goal: Tile, path: seq<Tile>)
    requires Rectangular(g)
  {
    (path == [] <==> !Reachable(g, start, goal)) &&
    (path != [] ==> IsWalk(g, path, start, goal)) &&
    (path != [] ==> forall p :: IsWalk(g, p, start, goal) ==> |path| <= |p|)
  }

  /** The predecessor entry of a recorded tile other than the start. */
  ghost predicate Linked(g: seq<seq<int>>, prev: map<Tile, Option<Tile>>, dist: map<Tile, nat>, v: Tile)
    requires Rectangular(g)
    requires v in prev && prev.Keys == dist.Keys
  {
    Open(g, v) && prev[v].Some? && prev[v].value in prev &&
    Adjacent(prev[v].value, v) && dist[v] == dist[prev[v].value] + 1
  }

  /**
    * The predecessor map as the search leaves it: the start has no predecessor,
    * every other recorded tile is open and linked to an adjacent recorded tile one
    * step closer, and no walk to a recorded tile is shorter than its distance.
    */
  ghost predicate PredecessorTree(g: seq<seq<int>>, start: Tile,
                                  prev: map<Tile, Option<Tile>>, dist: map<Tile, nat>)
    requires Rectangular(g)
  {
    && prev.Keys == dist.Keys
    && start in prev && prev[start] == None && dist[start] == 0
    && (forall v :: v in prev && v != start ==> Linked(g, prev, dist, v))
    && (forall v, p :: v in prev && IsWalk(g, p, start, v) ==> dist[v] < |p|)
  }

  /** Every tile that some walk of at most `d` steps from `start` reaches is in `seen`. */
  ghost predicate Covered(g: seq<seq<int>>, start: Tile, seen: set<Tile>, d: nat)
    requires Rectangular(g)
  {
    forall v, p :: IsWalk(g, p, start, v) && |p| <= d + 1 ==> v in seen
  }

  /**
    * The queue holds tiles at distance `d` followed by tiles at distance `d + 1`,
    * no recorded tile is further than `d + 1`, and those at `d + 1` are all queued.
    */
  ghost predicate Queued<V>(q: seq<Tile>, prev: map<Tile, V>, dist: map<Tile, nat>, d: nat)
    requires prev.Keys == dist.Keys
  {
    && (forall j :: 0 <= j < |q| ==> q[j] in prev && d <= dist[q[j]] <= d + 1)
    && (forall i, j :: 0 <= i < j < |q| ==> dist[q[i]] <= dist[q[j]])
    && (forall v :: v in prev ==> dist[v] <= d + 1)
    && (forall v :: v in prev && dist[v] == d + 1 ==> v in q)
  }

  /** The state of the search between dequeues at level `d`. */
  ghost predicate SearchInv(g: seq<seq<int>>, start: Tile, q: seq<Tile>,
                            prev: map<Tile, Option<Tile>>, dist: map<Tile, nat>, d: nat)
    requires Rectangular(g)
  {
    && PredecessorTree(g, start, prev, dist)
    && Covered(g, start, prev.Keys, d)
    && Queued(q, prev, dist, d)
  }

  /**
    * When the head of the queue is at distance `d + 1`, every tile at distance `d`
    * has been expanded, so the search moves on to level `d + 1`.
    */
  lemma AdvanceLevel(g: seq<seq<int>>, start: Tile, q: seq<Tile>,
                     prev: map<Tile, Option<Tile>>, dist: map<Tile, nat>, d: nat)
    requires Rectangular(g) && SearchInv(g, start, q, prev, dist, d)
    requires forall v :: v in prev && v !in q ==> Expanded(g, prev.Keys, v)
    requires q != [] && dist[q[0]] == d + 1
    ensures SearchInv(g, start, q, prev, dist, d + 1)
  {
    forall j | 0 <= j < |q|
      ensures dist[q[j]] == d + 1
    {
      if j > 0 {
        assert dist[q[0]] <= dist[q[j]];
      }
    }
    forall v, p | IsWalk(g, p, start, v) && |p| <= d + 2
      ensures v in prev
    {
      if |p| == d + 2 {
        var t := p[|p| - 2];
        WalkPrefix(g, p, start, v);
        assert t in prev && dist[t] < d + 1;
        assert t !in q;
        assert Expanded(g, prev.Keys, t);
        var i := Direction(t, v);
      }
    }
  }

  /** Recording an open neighbour `nt` of `cur` (at distance `d`) with distance `d + 1` keeps the tree. */
  lemma RecordKeepsTree(g: seq<seq<int>>, start: Tile, prev: map<Tile, Option<Tile>>,
                        dist: map<Tile, nat>, d: nat, cur: Tile, nt: Tile)
    requires Rectangular(g) && PredecessorTree(g, start, prev, dist) && Covered(g, start, prev.Keys, d)
    requires cur in prev && dist[cur] == d
    requires Open(g, nt) && Adjacent(cur, nt) && nt !in prev
    ensures PredecessorTree(g, start, prev[nt := Some(cur)], dist[nt := d + 1])
  {
    var prev', dist' := prev[nt := Some(cur)], dist[nt := d + 1];
    forall v | v in prev' && v != start
      ensures Linked(g, prev', dist', v)
    {
      if v != nt {
        assert Linked(g, prev, dist, v);
      }
    }
    forall v, p | v in prev' && IsWalk(g, p, start, v)
      ensures dist'[v] < |p|
    {
      if v == nt {
        assert |p| > d + 1;
      }
    }
  }

  /** Queueing a newly recorded tile at distance `d + 1` keeps the queue ordered by level. */
  lemma RecordKeepsQueue<V>(q: seq<Tile>, prev: map<Tile, V>, dist: map<Tile, nat>, d: nat, nt: Tile, link: V)
    requires prev.Keys == dist.Keys && Queued(q, prev, dist, d)
    requires nt !in prev
    ensures Queued(q + [nt], prev[nt := link], dist[nt := d + 1], d)
  {
    var prev', dist', q' := prev[nt := link], dist[nt := d + 1], q + [nt];
    forall v | v in prev' && dist'[v] == d + 1
      ensures v in q'
    {
      if v != nt {
        assert v in q;
      }
    }
    forall j | 0 <= j < |q'|
      ensures q'[j] in prev' && d <= dist'[q'[j]] <= d + 1
    {
      if j < |q| {
        assert q'[j] == q[j] && q[j] != nt;
      }
    }
    forall a, b | 0 <= a < b < |q'|
      ensures dist'[q'[a]] <= dist'[q'[b]]
    {
      assert q'[a] == q[a] && q[a] in prev && q[a] != nt;
      if b < |q| {
        assert q'[b] == q[b] && q[b] != nt;
      }
    }
  }

  /** Reversal of a sequence, as `list.reverse()` leaves it. */
  function Reverse(s: seq<Tile>): (r: seq<Tile>)
    ensures |r| == |s|
    ensures forall k :: 0 <= k < |s| ==> r[k] == s[|s| - 1 - k]
  {
    if s == [] then [] else Reverse(s[1..]) + [s[0]]
  }

  /**
    * The inner loop's state after the first `i` neighbours of `cur`: the search
    * invariant holds, every tile but `cur` that left the queue is expanded, the
    * first `i` neighbours of `cur` are recorded if open, and the recorded set has
    * grown (or the queue is untouched), which is what makes the outer loop end.
    */
  ghost predicate VisitInv(g: seq<seq<int>>, start: Tile, cur: Tile, i: int, q: seq<Tile>,
                           prev: map<Tile, Option<Tile>>, dist: map<Tile, nat>, d: nat,
                           q0: seq<Tile>, prev0: map<Tile, Option<Tile>>)
    requires Rectangular(g)
  {
    && SearchInv(g, start, q, prev, dist, d)
    && cur in prev && dist[cur] == d
    && (forall v :: v in prev && v !in q && v != cur ==> Expanded(g, prev.Keys, v))
    && (forall j :: 0 <= j < i && Open(g, Neighbour(cur, j)) ==> Neighbour(cur, j) in prev)
    && (forall v :: v in prev ==> v == start || v in AllTiles(g))
    && prev0.Keys <= prev.Keys
    && ((prev.Keys == prev0.Keys && q == q0) || AllTiles(g) - prev.Keys < AllTiles(g) - prev0.Keys)
  }

  /** A neighbour that is blocked or already recorded changes nothing. */
  lemma VisitSkip(g: seq<seq<int>>, start: Tile, cur: Tile, i: int, q: seq<Tile>,
                  prev: map<Tile, Option<Tile>>, dist: map<Tile, nat>, d: nat,
                  q0: seq<Tile>, prev0: map<Tile, Option<Tile>>)
    requires Rectangular(g) && VisitInv(g, start, cur, i, q, prev, dist, d, q0, prev0)
    requires 0 <= i < 4 && !(Open(g, Neighbour(cur, i)) && Neighbour(cur, i) !in prev)
    ensures VisitInv(g, start, cur, i + 1, q, prev, dist, d, q0, prev0)
  {
  }

  /** An open, unrecorded neighbour is recorded with predecessor `cur` and queued. */
  lemma VisitRecord(g: seq<seq<int>>, start: Tile, cur: Tile, i: int, q: seq<Tile>,
                    prev: map<Tile, Option<Tile>>, dist: map<Tile, nat>, d: nat,
                    q0: seq<Tile>, prev0: map<Tile, Option<Tile>>)
    requires Rectangular(g) && VisitInv(g, start, cur, i, q, prev, dist, d, q0, prev0)
    requires 0 <= i < 4 && Open(g, Neighbour(cur, i)) && Neighbour(cur, i) !in prev
    ensures var nt := Neighbour(cur, i);
      VisitInv(g, start, cur, i + 1, q + [nt], prev[nt := Some(cur)], dist[nt := d + 1], d, q0, prev0)
  {
    var nt := Neighbour(cur, i);
    var prev', dist', q' := prev[nt := Some(cur)], dist[nt := d + 1], q + [nt];
    assert Adjacent(cur, nt);
    RecordKeepsTree(g, start, prev, dist, d, cur, nt);
    RecordKeepsQueue(q, prev, dist, d, nt, Some(cur));
    assert nt in AllTiles(g);
    assert nt in AllTiles(g) - prev.Keys && nt !in AllTiles(g) - prev'.Keys;
  }

  /**
    * One pass of the inner loop of the search: every open neighbour of `cur` that
    * is not yet recorded gets `cur` as its predecessor and joins the queue.
    */
  method VisitNeighbours(g: seq<seq<int>>, start: Tile, cur: Tile, q0: seq<Tile>,
                         prev0: map<Tile, Option<Tile>>, ghost dist0: map<Tile, nat>, ghost d: nat)
      returns (q: seq<Tile>, prev: map<Tile, Option<Tile>>, ghost dist: map<Tile, nat>)
    requires Rectangular(g) && SearchInv(g, start, q0, prev0, dist0, d)
    requires cur in prev0 && dist0[cur] == d
    requires forall v :: v in prev0 && v !in q0 && v != cur ==> Expanded(g, prev0.Keys, v)
    requires forall v :: v in prev0 ==> v == start || v in AllTiles(g)
    ensures SearchInv(g, start, q, prev, dist, d)
    ensures forall v :: v in prev && v !in q ==> Expanded(g, prev.Keys, v)
    ensures forall v :: v in prev ==> v == start || v in AllTiles(g)
    ensures (prev.Keys == prev0.Keys && q == q0) || AllTiles(g) - prev.Keys < AllTiles(g) - prev0.Keys
  {
    q, prev, dist := q0, prev0, dist0;
    for i := 0 to 4
      invariant VisitInv(g, start, cur, i, q, prev, dist, d, q0, prev0)
    {
      var nt := Neighbour(cur, i);
      if InBounds(g, nt) && g[nt.1][nt.0] != Wall && nt !in prev {
        VisitRecord(g, start, cur, i, q, prev, dist, d, q0, prev0);
        prev := prev[nt := Some(cur)];
        dist := dist[nt := d + 1];
        q := q + [nt];
      } else {
        VisitSkip(g, start, cur, i, q, prev, dist, d, q0, prev0);
      }
    }
  }

  /**
    * The search loop: dequeue, stop at the goal, otherwise visit the neighbours.
    * Unless it stopped at the goal, it ran until the queue was empty, so the
    * recorded tiles are closed under open neighbours.
    */
  method Explore(g: seq<seq<int>>, start: Tile, goal: Tile)
      returns (prev: map<Tile, Option<Tile>>, ghost dist: map<Tile, nat>)
    requires Rectangular(g)
    ensures PredecessorTree(g, start, prev, dist)
    ensures goal !in prev ==> Closed(g, prev.Keys)
  {
    var q: seq<Tile> := [start];
    prev := map[start := None];
    dist := map[start := 0];
    ghost var d: nat := 0;
    while q != []
      invariant SearchInv(g, start, q, prev, dist, d)
      invariant forall v :: v in prev && v !in q ==> Expanded(g, prev.Keys, v)
      invariant forall v :: v in prev ==> v == start || v in AllTiles(g)
      decreases AllTiles(g) - prev.Keys, |q|
    {
      if dist[q[0]] == d + 1 {
        AdvanceLevel(g, start, q, prev, dist, d);
        d := d + 1;
      }
      var cur := q[0];
      q := q[1..];
      if cur == goal {
        break;
      }
      q, prev, dist := VisitNeighbours(g, start, cur, q, prev, dist, d);
    }
  }

  /**
    * A chain of predecessors read from `goal` back to `start`, reversed, is a walk
    * from `start` to `goal`.
    */
  lemma ReversedWalk(g: seq<seq<int>>, back: seq<Tile>, start: Tile, goal: Tile)
    requires Rectangular(g)
    requires |back| > 0 && back[0] == goal && back[|back| - 1] == start
    requires forall k :: 0 <= k < |back| - 1 ==> Open(g, back[k]) && Adjacent(back[k + 1], back[k])
    ensures IsWalk(g, Reverse(back), start, goal)
  {
    var path := Reverse(back);
    forall k | 1 <= k < |path|
      ensures Open(g, path[k]) && Adjacent(path[k - 1], path[k])
    {
      var m := |back| - 1 - k;
      assert 0 <= m < |back| - 1;
      assert path[k] == back[m] && path[k - 1] == back[m + 1];
    }
  }

  /**
    * Reading the path back: follow the predecessors from `goal` until the start's
    * `None`, then reverse. The result is a walk with one tile per step of distance.
    */
  method ReadBack(g: seq<seq<int>>, start: Tile, goal: Tile,
                  prev: map<Tile, Option<Tile>>, ghost dist: map<Tile, nat>)
      returns (path: seq<Tile>)
    requires Rectangular(g) && PredecessorTree(g, start, prev, dist)
    requires goal in prev
    ensures IsWalk(g, path, start, goal)
    ensures |path| == dist[goal] + 1
  {
    path := [];
    var t: Option<Tile> := Some(goal);
    while t.Some?
      invariant t.Some? ==> t.value in prev
      invariant |path| + (if t.Some? then dist[t.value] + 1 else 0) == dist[goal] + 1
      invariant path == [] ==> t == Some(goal)
      invariant path != [] ==> path[0] == goal
      invariant forall k :: 0 <= k < |path| - 1 ==> Open(g, path[k]) && Adjacent(path[k + 1], path[k])
      invariant t.Some? && path != [] ==> Open(g, path[|path| - 1]) && Adjacent(t.value, path[|path| - 1])
      invariant t.None? ==> path != [] && path[|path| - 1] == start
      decreases if t.Some? then dist[t.value] + 1 else 0
    {
      var v := t.value;
      if v != start {
        assert Linked(g, prev, dist, v);
      }
      path := path + [v];
      t := prev[v];
    }
    ghost var back := path;
    path := Reverse(path);
    ReversedWalk(g, back, start, goal);
  }

  /**
    * `_bfs(level, start_t, goal_t)`: the shortest walk from `start` to `goal`,
    * or `[]` when no walk exists. When `start == goal` the result is `[start]`.
    */
  method Bfs(g: seq<seq<int>>, start: Tile, goal: Tile) returns (path: seq<Tile>)
    requires Rectangular(g)
    ensures ShortestOrEmpty(g, start, goal, path)
    ensures start == goal ==> path == [start]
  {
    var prev;
    ghost var dist;
    prev, dist := Explore(g, start, goal);
    if goal !in prev {
      ClosedHoldsWalks(g, start, goal, prev.Keys);
      return [];
    }
    path := ReadBack(g, start, goal, prev, dist);
    if start == goal {
      assert IsWalk(g, [start], start, goal);
    }
  }
}
