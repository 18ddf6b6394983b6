/** `nearest_neighbor_route` (main.py): greedy nearest-neighbour ordering of points.
    The distance is a parameter: the model says nothing about its values. */
module Route {

  /** Index `i` is the first position of a minimum of `dist(from, _)` over `xs[..n]`. */
  ghost predicate IsFirstMin<P>(from: P, xs: seq<P>, dist: (P, P) -> real, i: int, n: int)
  {
    && 0 <= i < n <= |xs|
    && (forall j :: 0 <= j < n ==> dist(from, xs[i]) <= dist(from, xs[j]))
    && (forall j :: 0 <= j < i ==> dist(from, xs[i]) < dist(from, xs[j]))
  }

  /** The left-to-right scan of Python's `min` with a key: the running best is replaced
      only by a strictly smaller key. */
  function ScanMin<P>(from: P, xs: seq<P>, dist: (P, P) -> real, best: nat, k: nat): (i: nat)
    requires IsFirstMin(from, xs, dist, best, k)
    ensures IsFirstMin(from, xs, dist, i, |xs|)
    decreases |xs| - k
  {
    if k == |xs| then best
    else if dist(from, xs[k]) < dist(from, xs[best]) then ScanMin(from, xs, dist, k, k + 1)
    else ScanMin(from, xs, dist, best, k + 1)
  }

  /** `min(xs, key=lambda p: dist(from, p))`, as a position in `xs`. */
  function Nearest<P>(from: P, xs: seq<P>, dist: (P, P) -> real): (i: nat)
    requires |xs| > 0
    ensures IsFirstMin(from, xs, dist, i, |xs|)
  {
    ScanMin(from, xs, dist, 0, 1)
  }

  /** Python's `xs.index(x)`: the position of the first element equal to `x`. */
  function FirstIndex<P(==)>(xs: seq<P>, x: P): (i: nat)
    requires x in xs
    ensures i < |xs| && xs[i] == x
    ensures forall j :: 0 <= j < i ==> xs[j] != x
  {
    if xs[0] == x then 0 else 1 + FirstIndex(xs[1..], x)
  }

  /** Python's `xs.remove(x)`: drops the first element equal to `x`. */
  function RemoveFirst<P(==)>(xs: seq<P>, x: P): (r: seq<P>)
    requires x in xs
    ensures |r| == |xs| - 1
    ensures multiset(r) == multiset(xs) - multiset{x}
    ensures exists i :: 0 <= i < |xs| && xs[i] == x && x !in xs[..i] && r == xs[..i] + xs[i + 1..]
  {
    var i := FirstIndex(xs, x);
    assert xs == xs[..i] + [x] + xs[i + 1..];
    assert x !in xs[..i];
    xs[..i] + xs[i + 1..]
  }

  /** Removing the element `min` chose removes exactly the chosen position: an equal
      element earlier in the list would have had the same, not a larger, distance. */
  lemma RemoveChosenIsPositional<P>(from: P, xs: seq<P>, dist: (P, P) -> real, i: nat)
    requires IsFirstMin(from, xs, dist, i, |xs|)
    ensures RemoveFirst(xs, xs[i]) == xs[..i] + xs[i + 1..]
  {

  }

  /** The unvisited point nearest to the last point of the route. */
  function NextPoint<P>(route: seq<P>, unvisited: seq<P>, dist: (P, P) -> real): (next: P)
    requires |route| > 0 && |unvisited| > 0
    ensures next in unvisited
  {
    unvisited[Nearest(route[|route| - 1], unvisited, dist)]
  }

  /** The greedy loop: while points are unvisited, move the nearest one (to the last
      point of the route) from `unvisited` to the end of `route`. */
  function Extend<P(==)>(route: seq<P>, unvisited: seq<P>, dist: (P, P) -> real): (r: seq<P>)
    requires |route| > 0
    ensures |r| == |route| + |unvisited|
    ensures r[..|route|] == route
    ensures multiset(r) == multiset(route) + multiset(unvisited)
    decreases |unvisited|
  {
    if |unvisited| == 0 then route
    else
      var next := NextPoint(route, unvisited, dist);
      MoveOne(route, unvisited, next);
      var r := Extend(route + [next], RemoveFirst(unvisited, next), dist);
      assert r[..|route|] == r[..|route| + 1][..|route|];
      r
  }

  /** Moving one point from the unvisited list to the route keeps the points overall. */
  lemma MoveOne<P>(route: seq<P>, unvisited: seq<P>, next: P)
    requires next in unvisited
    ensures multiset(route + [next]) + multiset(RemoveFirst(unvisited, next))
            == multiset(route) + multiset(unvisited)
  {
  }

  /** `nearest_neighbor_route(points)`: start at `points[0]`, then visit the rest greedily.
      main.py indexes `points[0]`, so it needs a non-empty input. */
  function NearestNeighborRoute<P(==)>(points: seq<P>, dist: (P, P) -> real): (route: seq<P>)
    requires |points| > 0
    ensures |route| == |points|
    ensures route[0] == points[0]
    ensures multiset(route) == multiset(points)
  {
    assert points == [points[0]] + points[1..];
    var route := Extend([points[0]], points[1..], dist);
    assert route[0] == route[..1][0];
    route
  }

  /** `xs` with the first element equal to `x` dropped, if there is one. */
  function Without<P(==)>(xs: seq<P>, x: P): seq<P>
  {
    if x in xs then RemoveFirst(xs, x) else xs
  }

  /** The points of `pool` not yet placed, once the points of `placed` were taken from
      it in turn, each by dropping its first occurrence. */
  function Unplaced<P(==)>(pool: seq<P>, placed: seq<P>): seq<P>
    decreases |placed|
  {
    if |placed| == 0 then pool
    else Without(Unplaced(pool, placed[..|placed| - 1]), placed[|placed| - 1])
  }

  /** When every placed point came from the pool, what is left is the multiset difference. */
  lemma {:induction false} UnplacedMultiset<P>(pool: seq<P>, placed: seq<P>)
    requires multiset(placed) <= multiset(pool)
    ensures multiset(Unplaced(pool, placed)) == multiset(pool) - multiset(placed)
    decreases |placed|
  {
    if |placed| > 0 {
      var n := |placed| - 1;
      var y := placed[n];
      assert placed == placed[..n] + [y];
      assert multiset(placed) == multiset(placed[..n]) + multiset{y};
      UnplacedMultiset(pool, placed[..n]);
      assert y in multiset(Unplaced(pool, placed[..n]));
    }
  }

  /** `x` is what `min` picks from `pool` when measuring from `from`: it sits at the
      first position of a minimum distance. */
  ghost predicate ChosenGreedily<P>(from: P, pool: seq<P>, x: P, dist: (P, P) -> real)
  {
    exists i :: IsFirstMin(from, pool, dist, i, |pool|) && pool[i] == x
  }

  /** The last point of `prefix` is chosen greedily, measuring from the one before it,
      among the points of `points[1..]` not yet placed on `prefix`. */
  ghost predicate GreedyStep<P>(points: seq<P>, prefix: seq<P>, dist: (P, P) -> real)
    requires |points| > 0 && |prefix| >= 2
  {
    ChosenGreedily(prefix[|prefix| - 2], Unplaced(points[1..], prefix[1..|prefix| - 1]),
                   prefix[|prefix| - 1], dist)
  }

  /** Every step of `route` after its start is a greedy step. */
  ghost predicate AllGreedy<P>(points: seq<P>, route: seq<P>, dist: (P, P) -> real)
    requires |points| > 0
  {
    forall k {:trigger GreedyStep(points, route[..k], dist)} ::
      2 <= k <= |route| ==> GreedyStep(points, route[..k], dist)
  }

  lemma NewStepGreedy<P>(points: seq<P>, route: seq<P>, unvisited: seq<P>, dist: (P, P) -> real, i: nat)
    requires |points| > 0 && |route| > 0
    requires unvisited == Unplaced(points[1..], route[1..])
    requires IsFirstMin(route[|route| - 1], unvisited, dist, i, |unvisited|)
    ensures GreedyStep(points, route + [unvisited[i]], dist)
  {

  }

  lemma OldStepsKept<P>(points: seq<P>, route: seq<P>, next: P, dist: (P, P) -> real)
    requires |points| > 0 && |route| > 0 && AllGreedy(points, route, dist)
    requires GreedyStep(points, route + [next], dist)
    ensures AllGreedy(points, route + [next], dist)
  {
    var route' := route + [next];
    forall k | 2 <= k <= |route'|
      ensures GreedyStep(points, route'[..k], dist)
    {
      PrefixOfSnoc(route, next, k);
    }
  }

  lemma PrefixOfSnoc<P>(route: seq<P>, next: P, k: nat)
    requires k <= |route| + 1
    ensures (route + [next])[..k] == if k <= |route| then route[..k] else route + [next]
  {
  }

  /** Taking `next` off the unvisited list leaves what is left once `next` is placed. */
  lemma UnvisitedShrinks<P>(points: seq<P>, route: seq<P>, unvisited: seq<P>, next: P)
    requires |points| > 0 && |route| > 0
    requires unvisited == Unplaced(points[1..], route[1..])
    requires next in unvisited
    ensures RemoveFirst(unvisited, next) == Unplaced(points[1..], (route + [next])[1..])
  {
    var placed := (route + [next])[1..];
    assert placed == route[1..] + [next];
    assert placed[..|placed| - 1] == route[1..];
  }

  lemma {:induction false} ExtendGreedy<P>(points: seq<P>, route: seq<P>, unvisited: seq<P>,
                                           dist: (P, P) -> real)
    requires |points| > 0 && |route| > 0
    requires unvisited == Unplaced(points[1..], route[1..])
    requires AllGreedy(points, route, dist)
    ensures AllGreedy(points, Extend(route, unvisited, dist), dist)
    decreases |unvisited|
  {
    if |unvisited| > 0 {
      var i := Nearest(route[|route| - 1], unvisited, dist);
      var next := unvisited[i];
      NewStepGreedy(points, route, unvisited, dist, i);
      OldStepsKept(points, route, next, dist);
      UnvisitedShrinks(points, route, unvisited, next);
      ExtendGreedy(points, route + [next], RemoveFirst(unvisited, next), dist);
    }
  }

  /** Each point after the first is what `min` picks from the points not yet placed,
      measuring from its predecessor: a nearest one, the earliest among equally near. */
  lemma RouteIsGreedy<P>(points: seq<P>, dist: (P, P) -> real)
    requires |points| > 0
    ensures AllGreedy(points, NearestNeighborRoute(points, dist), dist)
  {
    var start := [points[0]];
    assert start[1..] == [];
    ExtendGreedy(points, start, points[1..], dist);
  }

  /** Greedy minimality, stated with multisets: no point still to be placed is strictly
      nearer to `route[k-1]` than `route[k]`. */
  lemma RouteStepsAreNearest<P>(points: seq<P>, dist: (P, P) -> real)
    requires |points| > 0
    ensures var route := NearestNeighborRoute(points, dist);
      forall k, q :: 1 <= k < |route| && q in multiset(points) - multiset(route[..k]) ==>
        dist(route[k - 1], route[k]) <= dist(route[k - 1], q)
  {
    var route := NearestNeighborRoute(points, dist);
    RouteIsGreedy(points, dist);
    forall k, q | 1 <= k < |route| && q in multiset(points) - multiset(route[..k])
      ensures dist(route[k - 1], route[k]) <= dist(route[k - 1], q)
    {
      NearestAtStep(points, route, dist, k, q);
    }
  }

  lemma NearestAtStep<P>(points: seq<P>, route: seq<P>, dist: (P, P) -> real, k: nat, q: P)
    requires |points| > 0 && |route| == |points| && route[0] == points[0]
    requires multiset(route) == multiset(points)
    requires AllGreedy(points, route, dist)
    requires 1 <= k < |route| && q in multiset(points) - multiset(route[..k])
    ensures dist(route[k - 1], route[k]) <= dist(route[k - 1], q)
  {
    var prefix := route[..k + 1];
    assert GreedyStep(points, prefix, dist);
    var placed := route[1..k];
    assert prefix[1..|prefix| - 1] == placed;
    var u := Unplaced(points[1..], placed);
    var i :| IsFirstMin(route[k - 1], u, dist, i, |u|) && u[i] == route[k];
    PlacedPrefix(points, route, k);
    UnplacedMultiset(points[1..], placed);
    assert q in multiset(u);
    var j :| 0 <= j < |u| && u[j] == q;
  }

  /** The points a route has placed after its start, up to position `k`, come from
      `points[1..]`, and what is left of `points` is what is left of `points[1..]`. */
  lemma PlacedPrefix<P>(points: seq<P>, route: seq<P>, k: nat)
    requires |points| > 0 && |route| == |points| && route[0] == points[0]
    requires multiset(route) == multiset(points)
    requires 1 <= k <= |route|
    ensures multiset(route[1..k]) <= multiset(points[1..])
    ensures multiset(points) - multiset(route[..k]) == multiset(points[1..]) - multiset(route[1..k])
  {
    assert points == [points[0]] + points[1..];
    assert route == [route[0]] + route[1..];
    assert multiset(points) == multiset{points[0]} + multiset(points[1..]);
    assert multiset(route) == multiset{points[0]} + multiset(route[1..]);
    forall x
      ensures multiset(route[1..])[x] == multiset(points[1..])[x]
    {
      assert multiset(route)[x] == multiset{points[0]}[x] + multiset(route[1..])[x];
      assert multiset(points)[x] == multiset{points[0]}[x] + multiset(points[1..])[x];
    }
    assert multiset(route[1..]) == multiset(points[1..]);
    assert route[1..] == route[1..k] + route[k..];
    assert route[..k] == [route[0]] + route[1..k];
  }
}
