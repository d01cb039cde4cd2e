/**
 * The two-dimensional k-d tree of flood_tool/algorithms/kdtree.py.
 *
 * A point is a tuple `(x, y)` or `(x, y, data)`; the optional third component is its
 * payload. The tree is built once by alternating the splitting axis with the depth and
 * taking the median of the sorted sub-list, and is then only queried. Building from a
 * list sorts that list in place at the top level (`KDTree` below), so a caller sees its
 * list reordered by x.
 */
module KdTree {
  import opened Wrappers
  import opened Sorting

  /** A planar position, the `(x, y)` of a query centre. */
  type Coords = (real, real)

  /** The splitting axis: 0 is x, 1 is y. */
  type Axis = a: int | 0 <= a < 2

  /** An indexed point; `payload` is the third tuple component, `None` for a pair. */
  datatype Point<T> = Point(x: real, y: real, payload: Option<T>)

  /** A node stores its point, its axis and the point's payload as `data`. */
  datatype Tree<T> =
    | Empty
    | Node(point: Point<T>, axis: Axis, data: Option<T>, left: Tree<T>, right: Tree<T>)

  /** A caller-supplied distance between two positions (`distance_func`). */
  type Metric = (Coords, Coords) -> real

  function Coord<T>(p: Point<T>, axis: Axis): real
  {
    if axis == 0 then p.x else p.y
  }

  function CenterCoord(c: Coords, axis: Axis): real
  {
    if axis == 0 then c.0 else c.1
  }

  function Position<T>(p: Point<T>): Coords
  {
    (p.x, p.y)
  }

  function Abs(v: real): real
  {
    if v < 0.0 then -v else v
  }

  // ---------------------------------------------------------------------------
  // Construction
  // ---------------------------------------------------------------------------

  /** `points.sort(key=lambda x: x[axis])`: the stable ascending sort on one axis. */
  function SortBy<T(==)>(points: seq<Point<T>>, axis: Axis): (r: seq<Point<T>>)
    ensures multiset(r) == multiset(points)
    ensures |r| == |points|
    ensures forall i, j :: 0 <= i < j < |r| ==> Coord(r[i], axis) <= Coord(r[j], axis)
  {
    SortByKey(points, p => Coord(p, axis))
  }

  /** In-order flattening: left subtree, the node's point, right subtree. */
  function Flatten<T>(t: Tree<T>): seq<Point<T>>
  {
    match t
    case Empty => []
    case Node(p, _, _, l, r) => Flatten(l) + [p] + Flatten(r)
  }

  /**
   * `_build_tree`: sort on axis `depth % 2`, make the element at `len // 2` the node,
   * and build the children from the slices strictly before and strictly after it.
   * The tree holds exactly the input points, duplicates included.
   */
  function Build<T(==)>(points: seq<Point<T>>, depth: nat): (t: Tree<T>)
    ensures multiset(Flatten(t)) == multiset(points)
    decreases |points|
  {
    if |points| == 0 then Empty
    else
      var axis: Axis := depth % 2;
      var sorted := SortBy(points, axis);
      var median := |sorted| / 2;
      assert sorted == sorted[..median] + [sorted[median]] + sorted[median + 1..];
      Node(sorted[median], axis, sorted[median].payload,
           Build(sorted[..median], depth + 1), Build(sorted[median + 1..], depth + 1))
  }

  /** The k-d ordering invariant: left coordinates <= the node's <= right coordinates. */
  ghost predicate Ordered<T>(t: Tree<T>)
  {
    match t
    case Empty => true
    case Node(p, axis, _, l, r) =>
      (forall q :: q in Flatten(l) ==> Coord(q, axis) <= Coord(p, axis)) &&
      (forall q :: q in Flatten(r) ==> Coord(p, axis) <= Coord(q, axis)) &&
      Ordered(l) && Ordered(r)
  }

  /** A node at depth `d` splits on axis `d % 2`. */
  ghost predicate AxesFrom<T>(t: Tree<T>, depth: nat)
  {
    match t
    case Empty => true
    case Node(_, axis, _, l, r) => axis == depth % 2 && AxesFrom(l, depth + 1) && AxesFrom(r, depth + 1)
  }

  /** Every node's `data` is its point's payload. */
  ghost predicate StoresPayload<T>(t: Tree<T>)
  {
    match t
    case Empty => true
    case Node(p, _, data, l, r) => data == p.payload && StoresPayload(l) && StoresPayload(r)
  }

  /** The left subtree has as many points as the right one, or one more. */
  ghost predicate Balanced<T>(t: Tree<T>)
  {
    match t
    case Empty => true
    case Node(_, _, _, l, r) =>
      |Flatten(r)| <= |Flatten(l)| <= |Flatten(r)| + 1 && Balanced(l) && Balanced(r)
  }

  function Height<T>(t: Tree<T>): nat
  {
    match t
    case Empty => 0
    case Node(_, _, _, l, r) => 1 + (if Height(l) < Height(r) then Height(r) else Height(l))
  }

  function Pow2(n: nat): nat
  {
    if n == 0 then 1 else 2 * Pow2(n - 1)
  }

  lemma SortedBelowMedian<T>(sorted: seq<Point<T>>, median: nat, axis: Axis, q: Point<T>)
    requires median < |sorted|
    requires forall i, j :: 0 <= i < j < |sorted| ==> Coord(sorted[i], axis) <= Coord(sorted[j], axis)
    requires q in sorted[..median]
    ensures Coord(q, axis) <= Coord(sorted[median], axis)
  {
    var i :| 0 <= i < median && sorted[..median][i] == q;
    assert sorted[i] == q;
  }

  lemma SortedAboveMedian<T>(sorted: seq<Point<T>>, median: nat, axis: Axis, q: Point<T>)
    requires median < |sorted|
    requires forall i, j :: 0 <= i < j < |sorted| ==> Coord(sorted[i], axis) <= Coord(sorted[j], axis)
    requires q in sorted[median + 1..]
    ensures Coord(sorted[median], axis) <= Coord(q, axis)
  {
    var i :| 0 <= i < |sorted| - median - 1 && sorted[median + 1..][i] == q;
    assert sorted[median + 1 + i] == q;
  }

  lemma {:induction false} BuildOrdered<T>(points: seq<Point<T>>, depth: nat)
    ensures Ordered(Build(points, depth))
    decreases |points|
  {
    if |points| > 0 {
      var p, l, r := BuildChildren(points, depth);
      BuildOrdered(l, depth + 1);
      BuildOrdered(r, depth + 1);
      OrderedNode(p, depth % 2, p.payload, l, r, depth + 1);
    }
  }

  /**
   * A non-empty build is a node on axis `depth % 2` over a point `p` whose children are
   * built from two shorter lists, the first below `p` on that axis and the second above.
   */
  lemma BuildChildren<T>(points: seq<Point<T>>, depth: nat) returns (p: Point<T>, l: seq<Point<T>>, r: seq<Point<T>>)
    requires |points| > 0
    ensures |l| < |points| && |r| < |points|
    ensures Build(points, depth) == Node(p, depth % 2, p.payload, Build(l, depth + 1), Build(r, depth + 1))
    ensures forall q :: q in l ==> Coord(q, depth % 2) <= Coord(p, depth % 2)
    ensures forall q :: q in r ==> Coord(p, depth % 2) <= Coord(q, depth % 2)
  {
    var axis: Axis := depth % 2;
    var sorted := SortBy(points, axis);
    var median := |sorted| / 2;
    p, l, r := sorted[median], sorted[..median], sorted[median + 1..];
    forall q | q in l ensures Coord(q, axis) <= Coord(p, axis) {
      SortedBelowMedian(sorted, median, axis, q);
    }
    forall q | q in r ensures Coord(p, axis) <= Coord(q, axis) {
      SortedAboveMedian(sorted, median, axis, q);
    }
  }

  /** A node over two built children is ordered when they are and each list lies on its side. */
  lemma OrderedNode<T>(p: Point<T>, axis: Axis, data: Option<T>, l: seq<Point<T>>, r: seq<Point<T>>, depth: nat)
    requires forall q :: q in l ==> Coord(q, axis) <= Coord(p, axis)
    requires forall q :: q in r ==> Coord(p, axis) <= Coord(q, axis)
    requires Ordered(Build(l, depth)) && Ordered(Build(r, depth))
    ensures Ordered(Node(p, axis, data, Build(l, depth), Build(r, depth)))
  {
    var tl, tr := Build(l, depth), Build(r, depth);
    forall q | q in Flatten(tl) ensures Coord(q, axis) <= Coord(p, axis) {
      assert q in multiset(Flatten(tl));
    }
    forall q | q in Flatten(tr) ensures Coord(p, axis) <= Coord(q, axis) {
      assert q in multiset(Flatten(tr));
    }
  }

  lemma {:induction false} BuildAxes<T>(points: seq<Point<T>>, depth: nat)
    ensures AxesFrom(Build(points, depth), depth)
    decreases |points|
  {
    if |points| > 0 {
      var sorted := SortBy(points, depth % 2);
      var median := |sorted| / 2;
      BuildAxes(sorted[..median], depth + 1);
      BuildAxes(sorted[median + 1..], depth + 1);
    }
  }

  lemma {:induction false} BuildStoresPayload<T>(points: seq<Point<T>>, depth: nat)
    ensures StoresPayload(Build(points, depth))
    decreases |points|
  {
    if |points| > 0 {
      var sorted := SortBy(points, depth % 2);
      var median := |sorted| / 2;
      BuildStoresPayload(sorted[..median], depth + 1);
      BuildStoresPayload(sorted[median + 1..], depth + 1);
    }
  }

  /**
   * The children of a node built from n points hold n / 2 and n - n / 2 - 1 points,
   * whatever the coordinates (all-equal ones included), so every level is balanced.
   */
  lemma {:induction false} BuildBalanced<T>(points: seq<Point<T>>, depth: nat)
    ensures Balanced(Build(points, depth))
    ensures |points| > 0 ==>
      |Flatten(Build(points, depth).left)| == |points| / 2 &&
      |Flatten(Build(points, depth).right)| == |points| - |points| / 2 - 1
    decreases |points|
  {
    if |points| > 0 {
      var sorted := SortBy(points, depth % 2);
      var median := |sorted| / 2;
      var l, r := sorted[..median], sorted[median + 1..];
      BuildBalanced(l, depth + 1);
      BuildBalanced(r, depth + 1);
      assert |Flatten(Build(l, depth + 1))| == |multiset(l)|;
      assert |Flatten(Build(r, depth + 1))| == |multiset(r)|;
    }
  }

  /** A balanced tree of height h holds at least 2^(h-1) points: its depth is logarithmic. */
  lemma {:induction false} BalancedHeight<T>(t: Tree<T>)
    requires Balanced(t)
    ensures Height(t) == 0 <==> |Flatten(t)| == 0
    ensures Height(t) > 0 ==> Pow2(Height(t) - 1) <= |Flatten(t)|
  {
    match t
    case Empty =>
    case Node(_, _, _, l, r) =>
      BalancedHeight(l);
      BalancedHeight(r);
      if Height(l) >= Height(r) {
        if Height(l) > 0 {
          assert Pow2(Height(l)) == 2 * Pow2(Height(l) - 1);
        }
      } else {
        assert Pow2(Height(r)) == 2 * Pow2(Height(r) - 1);
      }
  }

  // ---------------------------------------------------------------------------
  // Radius query
  // ---------------------------------------------------------------------------

  function SqDist(a: Coords, b: Coords): real
  {
    (a.0 - b.0) * (a.0 - b.0) + (a.1 - b.1) * (a.1 - b.1)
  }

  /**
   * `distance_func(center, point) <= radius`. With no `distance_func` the distance is
   * Euclidean, and `sqrt(q) <= r` holds exactly when `r >= 0` and `q <= r * r`.
   */
  predicate InRange<T>(dist: Option<Metric>, c: Coords, p: Point<T>, r: real)
  {
    match dist
    case None => 0.0 <= r && SqDist(c, Position(p)) <= r * r
    case Some(f) => f(c, Position(p)) <= r
  }

  /** A metric the pruning rule is correct for: never below the gap on either axis. */
  ghost predicate Admissible(dist: Option<Metric>)
  {
    match dist
    case None => true
    case Some(f) => forall a: Coords, b: Coords :: Abs(a.0 - b.0) <= f(a, b) && Abs(a.1 - b.1) <= f(a, b)
  }

  /** The linear scan: the points of `s` within `r` of `c`, in order. */
  function WithinRadius<T>(s: seq<Point<T>>, c: Coords, r: real, dist: Option<Metric>): seq<Point<T>>
  {
    if s == [] then []
    else (if InRange(dist, c, s[0], r) then [s[0]] else []) + WithinRadius(s[1..], c, r, dist)
  }

  /**
   * `_query_recursive`: report the node's point when it is in range, search the side
   * of the splitting line the centre is on, and the other side only when
   * `abs(diff) <= radius`.
   */
  function Query<T>(t: Tree<T>, c: Coords, r: real, dist: Option<Metric>): seq<Point<T>>
  {
    match t
    case Empty => []
    case Node(p, axis, _, left, right) =>
      var here := if InRange(dist, c, p, r) then [p] else [];
      var diff := CenterCoord(c, axis) - Coord(p, axis);
      if diff <= 0.0 then
        here + Query(left, c, r, dist) + (if Abs(diff) <= r then Query(right, c, r, dist) else [])
      else
        here + Query(right, c, r, dist) + (if Abs(diff) <= r then Query(left, c, r, dist) else [])
  }

  lemma {:induction false} WithinRadiusConcat<T>(a: seq<Point<T>>, b: seq<Point<T>>, c: Coords, r: real, dist: Option<Metric>)
    ensures WithinRadius(a + b, c, r, dist) == WithinRadius(a, c, r, dist) + WithinRadius(b, c, r, dist)
  {
    if a != [] {
      assert (a + b)[0] == a[0];
      assert (a + b)[1..] == a[1..] + b;
      WithinRadiusConcat(a[1..], b, c, r, dist);
    } else {
      assert a + b == b;
    }
  }

  /** Taking one element out of the input takes it out of the scan's result, if it was there. */
  lemma WithinRadiusRemove<T>(b: seq<Point<T>>, k: nat, c: Coords, r: real, dist: Option<Metric>)
    requires k < |b|
    ensures multiset(WithinRadius(b, c, r, dist)) ==
      multiset(WithinRadius(b[..k] + b[k + 1..], c, r, dist)) + multiset(WithinRadius([b[k]], c, r, dist))
  {
    assert b == b[..k] + [b[k]] + b[k + 1..];
    WithinRadiusConcat(b[..k] + [b[k]], b[k + 1..], c, r, dist);
    WithinRadiusConcat(b[..k], [b[k]], c, r, dist);
    WithinRadiusConcat(b[..k], b[k + 1..], c, r, dist);
  }

  /** In a permutation of `a`, some position holds `a[0]`, and the rest is a permutation of `a[1..]`. */
  lemma MatchFirst<T>(a: seq<Point<T>>, b: seq<Point<T>>) returns (k: nat)
    requires multiset(a) == multiset(b)
    requires a != []
    ensures k < |b| && b[k] == a[0]
    ensures multiset(a[1..]) == multiset(b[..k] + b[k + 1..])
  {
    var x := a[0];
    assert a == [x] + a[1..];
    assert x in multiset(b);
    k :| 0 <= k < |b| && b[k] == x;
    var rest := b[..k] + b[k + 1..];
    assert b == b[..k] + [x] + b[k + 1..];
    assert multiset(a) == multiset(a[1..]) + multiset{x};
    assert multiset(b) == multiset(rest) + multiset{x};
    assert multiset(a[1..]) == multiset(a) - multiset{x};
    assert multiset(rest) == multiset(b) - multiset{x};
  }

  /** Reordering the input does not change what the scan finds. */
  lemma {:induction false} WithinRadiusPermutation<T>(a: seq<Point<T>>, b: seq<Point<T>>, c: Coords, r: real, dist: Option<Metric>)
    requires multiset(a) == multiset(b)
    ensures multiset(WithinRadius(a, c, r, dist)) == multiset(WithinRadius(b, c, r, dist))
    ensures |WithinRadius(a, c, r, dist)| == |WithinRadius(b, c, r, dist)|
    decreases |a|
  {
    if a == [] {
      assert |b| == |multiset(b)| == 0;
    } else {
      var k := MatchFirst(a, b);
      WithinRadiusPermutation(a[1..], b[..k] + b[k + 1..], c, r, dist);
      WithinRadiusConcat([a[0]], a[1..], c, r, dist);
      assert a == [a[0]] + a[1..];
      WithinRadiusRemove(b, k, c, r, dist);
    }
    var wa, wb := WithinRadius(a, c, r, dist), WithinRadius(b, c, r, dist);
    assert |wa| == |multiset(wa)| == |multiset(wb)| == |wb|;
  }

  /** The scan never finds more points than it is given. */
  lemma {:induction false} WithinRadiusLength<T>(s: seq<Point<T>>, c: Coords, r: real, dist: Option<Metric>)
    ensures |WithinRadius(s, c, r, dist)| <= |s|
  {
    if s != [] {
      WithinRadiusLength(s[1..], c, r, dist);
    }
  }

  /** The scan keeps exactly the points of the input that are in range. */
  lemma {:induction false} WithinRadiusMember<T>(s: seq<Point<T>>, c: Coords, r: real, dist: Option<Metric>, q: Point<T>)
    ensures q in WithinRadius(s, c, r, dist) <==> q in s && InRange(dist, c, q, r)
  {
    if s != [] {
      WithinRadiusMember(s[1..], c, r, dist, q);
      assert s == [s[0]] + s[1..];
    }
  }

  lemma {:induction false} WithinRadiusAll<T>(s: seq<Point<T>>, c: Coords, r: real, dist: Option<Metric>)
    requires forall q :: q in s ==> InRange(dist, c, q, r)
    ensures WithinRadius(s, c, r, dist) == s
  {
    if s != [] {
      assert s[0] in s;
      WithinRadiusAll(s[1..], c, r, dist);
      assert s == [s[0]] + s[1..];
    }
  }

  lemma {:induction false} WithinRadiusNone<T>(s: seq<Point<T>>, c: Coords, r: real, dist: Option<Metric>)
    requires forall q :: q in s ==> !InRange(dist, c, q, r)
    ensures WithinRadius(s, c, r, dist) == []
  {
    if s != [] {
      assert s[0] in s;
      WithinRadiusNone(s[1..], c, r, dist);
    }
  }

  lemma SquareBelow(r: real, a: real)
    requires 0.0 <= r < a
    ensures r * r < a * a
  {
    var d := a - r;
    assert a * a == r * r + 2.0 * r * d + d * d;
    assert 0.0 < d * d;
    assert 0.0 <= r * d;
  }

  /**
   * For the default or an admissible metric, a point farther than `r` from the centre
   * along one axis is out of range.
   */
  lemma FarOutOfRange<T>(dist: Option<Metric>, c: Coords, q: Point<T>, r: real, axis: Axis)
    requires Admissible(dist)
    requires r < Abs(CenterCoord(c, axis) - Coord(q, axis))
    ensures !InRange(dist, c, q, r)
  {
    match dist
    case None =>
      if 0.0 <= r {
        var g := CenterCoord(c, axis) - Coord(q, axis);
        SquareBelow(r, Abs(g));
        assert Abs(g) * Abs(g) == g * g;
      }
    case Some(f) =>
      assert Abs(c.0 - q.x) <= f(c, Position(q)) && Abs(c.1 - q.y) <= f(c, Position(q));
  }

  /** The scan over a node's in-order flattening splits at the node's point. */
  lemma ScanNode<T>(t: Tree<T>, c: Coords, r: real, dist: Option<Metric>)
    requires t.Node?
    ensures WithinRadius(Flatten(t), c, r, dist) ==
      WithinRadius(Flatten(t.left), c, r, dist) +
      (if InRange(dist, c, t.point, r) then [t.point] else []) +
      WithinRadius(Flatten(t.right), c, r, dist)
  {
    WithinRadiusConcat(Flatten(t.left) + [t.point], Flatten(t.right), c, r, dist);
    WithinRadiusConcat(Flatten(t.left), [t.point], c, r, dist);
    assert WithinRadius([t.point], c, r, dist) == if InRange(dist, c, t.point, r) then [t.point] else [];
  }

  /** Soundness, for every tree and every metric: the query reports only stored points in range. */
  lemma {:induction false} QuerySound<T>(t: Tree<T>, c: Coords, r: real, dist: Option<Metric>)
    ensures multiset(Query(t, c, r, dist)) <= multiset(WithinRadius(Flatten(t), c, r, dist))
  {
    if t.Node? {
      QuerySound(t.left, c, r, dist);
      QuerySound(t.right, c, r, dist);
      QueryNodeSound(t, c, r, dist);
    }
  }

  /** The soundness step at one node: sound children make the node's query sound. */
  lemma QueryNodeSound<T>(t: Tree<T>, c: Coords, r: real, dist: Option<Metric>)
    requires t.Node?
    requires multiset(Query(t.left, c, r, dist)) <= multiset(WithinRadius(Flatten(t.left), c, r, dist))
    requires multiset(Query(t.right, c, r, dist)) <= multiset(WithinRadius(Flatten(t.right), c, r, dist))
    ensures multiset(Query(t, c, r, dist)) <= multiset(WithinRadius(Flatten(t), c, r, dist))
  {
    var here := if InRange(dist, c, t.point, r) then [t.point] else [];
    var sl, sr := WithinRadius(Flatten(t.left), c, r, dist), WithinRadius(Flatten(t.right), c, r, dist);
    ScanNode(t, c, r, dist);
    var near, far := QuerySides(t, c, r, dist);
    FewerParts(Query(t, c, r, dist), here, near, far, WithinRadius(Flatten(t), c, r, dist), sl, sr);
  }

  /** A node's query: its own point if in range, the near side, and the far side or nothing. */
  lemma QuerySides<T>(t: Tree<T>, c: Coords, r: real, dist: Option<Metric>) returns (near: seq<Point<T>>, far: seq<Point<T>>)
    requires t.Node?
    requires multiset(Query(t.left, c, r, dist)) <= multiset(WithinRadius(Flatten(t.left), c, r, dist))
    requires multiset(Query(t.right, c, r, dist)) <= multiset(WithinRadius(Flatten(t.right), c, r, dist))
    ensures Query(t, c, r, dist) == (if InRange(dist, c, t.point, r) then [t.point] else []) + near + far
    ensures var sl, sr := WithinRadius(Flatten(t.left), c, r, dist), WithinRadius(Flatten(t.right), c, r, dist);
      (multiset(near) <= multiset(sl) && multiset(far) <= multiset(sr)) ||
      (multiset(near) <= multiset(sr) && multiset(far) <= multiset(sl))
  {
    var diff := CenterCoord(c, t.axis) - Coord(t.point, t.axis);
    if diff <= 0.0 {
      near, far := Query(t.left, c, r, dist), if Abs(diff) <= r then Query(t.right, c, r, dist) else [];
    } else {
      near, far := Query(t.right, c, r, dist), if Abs(diff) <= r then Query(t.left, c, r, dist) else [];
    }
  }

  /** Multiset bookkeeping for one node, when each side may have lost points. */
  lemma FewerParts<T>(q: seq<Point<T>>, here: seq<Point<T>>, q1: seq<Point<T>>, q2: seq<Point<T>>,
                      s: seq<Point<T>>, s1: seq<Point<T>>, s2: seq<Point<T>>)
    requires q == here + q1 + q2
    requires s == s1 + here + s2
    requires (multiset(q1) <= multiset(s1) && multiset(q2) <= multiset(s2)) ||
      (multiset(q1) <= multiset(s2) && multiset(q2) <= multiset(s1))
    ensures multiset(q) <= multiset(s)
  {
    assert multiset(q) == multiset(here) + multiset(q1) + multiset(q2);
    assert multiset(s) == multiset(here) + multiset(s1) + multiset(s2);
  }

  /**
   * On an ordered tree, for the default or an admissible metric, the side a query prunes
   * holds nothing in range: when the centre is more than `r` from a node's splitting
   * line, every point beyond the line is farther still.
   */
  lemma PrunedSideEmpty<T>(t: Tree<T>, c: Coords, r: real, dist: Option<Metric>)
    requires t.Node? && Ordered(t)
    requires Admissible(dist)
    ensures var diff := CenterCoord(c, t.axis) - Coord(t.point, t.axis);
      r < Abs(diff) ==>
        WithinRadius(Flatten(if diff <= 0.0 then t.right else t.left), c, r, dist) == []
  {
    var p, axis := t.point, t.axis;
    var diff := CenterCoord(c, axis) - Coord(p, axis);
    if r < Abs(diff) {
      var far := if diff <= 0.0 then t.right else t.left;
      forall q | q in Flatten(far) ensures !InRange(dist, c, q, r) {
        FarOutOfRange(dist, c, q, r, axis);
      }
      WithinRadiusNone(Flatten(far), c, r, dist);
    }
  }

  /**
   * Soundness and completeness: on an ordered tree, with an admissible metric, the
   * query returns exactly (as a multiset) the stored points within range. Pruning a
   * side is safe because every point there is at least `abs(diff)` from the centre.
   */
  lemma {:induction false} QueryExact<T>(t: Tree<T>, c: Coords, r: real, dist: Option<Metric>)
    requires Ordered(t)
    requires Admissible(dist)
    ensures multiset(Query(t, c, r, dist)) == multiset(WithinRadius(Flatten(t), c, r, dist))
  {
    match t
    case Empty =>
    case Node(p, axis, _, left, right) =>
      QueryExact(left, c, r, dist);
      QueryExact(right, c, r, dist);
      PrunedSideEmpty(t, c, r, dist);
      QueryNodeExact(t, c, r, dist);
  }

  /** Multiset bookkeeping for one node: the parts of each side agree, so the wholes do. */
  lemma SameParts<T>(q: seq<Point<T>>, here: seq<Point<T>>, q1: seq<Point<T>>, q2: seq<Point<T>>,
                     s: seq<Point<T>>, sl: seq<Point<T>>, sr: seq<Point<T>>)
    requires q == here + q1 + q2 && s == sl + here + sr
    requires multiset(q1) + multiset(q2) == multiset(sl) + multiset(sr)
    ensures multiset(q) == multiset(s)
  {
    assert multiset(q) == multiset(here) + (multiset(q1) + multiset(q2));
    assert multiset(s) == multiset(here) + (multiset(sl) + multiset(sr));
  }

  /** One step of completeness: a node's query result is exact when its children's are. */
  lemma QueryNodeExact<T>(t: Tree<T>, c: Coords, r: real, dist: Option<Metric>)
    requires t.Node?
    requires var diff := CenterCoord(c, t.axis) - Coord(t.point, t.axis);
      r < Abs(diff) ==>
        WithinRadius(Flatten(if diff <= 0.0 then t.right else t.left), c, r, dist) == []
    requires multiset(Query(t.left, c, r, dist)) == multiset(WithinRadius(Flatten(t.left), c, r, dist))
    requires multiset(Query(t.right, c, r, dist)) == multiset(WithinRadius(Flatten(t.right), c, r, dist))
    ensures multiset(Query(t, c, r, dist)) == multiset(WithinRadius(Flatten(t), c, r, dist))
  {
    var p, axis, left, right := t.point, t.axis, t.left, t.right;
    var here := if InRange(dist, c, p, r) then [p] else [];
    var ql, qr := Query(left, c, r, dist), Query(right, c, r, dist);
    var sl, sr := WithinRadius(Flatten(left), c, r, dist), WithinRadius(Flatten(right), c, r, dist);
    var q, s := Query(t, c, r, dist), WithinRadius(Flatten(t), c, r, dist);
    ScanNode(t, c, r, dist);
    var diff := CenterCoord(c, axis) - Coord(p, axis);
    if diff <= 0.0 {
      if Abs(diff) <= r {
        SameParts(q, here, ql, qr, s, sl, sr);
      } else {
        SameParts(q, here, ql, [], s, sl, sr);
      }
    } else {
      if Abs(diff) <= r {
        SameParts(q, here, qr, ql, s, sl, sr);
      } else {
        SameParts(q, here, qr, [], s, sl, sr);
      }
    }
  }

  /**
   * For the default or an admissible metric, a query on a tree built from `points` finds
   * exactly the points a linear scan finds.
   */
  lemma BuildQueryExact<T>(points: seq<Point<T>>, depth: nat, c: Coords, r: real, dist: Option<Metric>)
    requires Admissible(dist)
    ensures multiset(Query(Build(points, depth), c, r, dist)) == multiset(WithinRadius(points, c, r, dist))
    ensures |Query(Build(points, depth), c, r, dist)| == |WithinRadius(points, c, r, dist)|
  {
    var t := Build(points, depth);
    BuildOrdered(points, depth);
    QueryExact(t, c, r, dist);
    WithinRadiusPermutation(Flatten(t), points, c, r, dist);
    assert |Query(t, c, r, dist)| == |multiset(Query(t, c, r, dist))|;
  }

  /** For the default or an admissible metric, a negative radius finds nothing: the query returns `[]`. */
  lemma {:induction false} NegativeRadius<T>(t: Tree<T>, c: Coords, r: real, dist: Option<Metric>)
    requires Admissible(dist)
    requires r < 0.0
    ensures Query(t, c, r, dist) == []
  {
    match t
    case Empty =>
    case Node(p, axis, _, left, right) =>
      NegativeRadius(left, c, r, dist);
      NegativeRadius(right, c, r, dist);
      FarOutOfRange(dist, c, p, r, axis);
  }

  // ---------------------------------------------------------------------------
  // The KDTree object
  // ---------------------------------------------------------------------------

  /** A tree built from a non-empty list has a root, and the root's point is one of the list's. */
  lemma BuildRoot<T>(points: seq<Point<T>>, depth: nat)
    ensures Build(points, depth).Node? <==> points != []
    ensures points != [] ==> Build(points, depth).point in points
  {
    if points != [] {
      var t := Build(points, depth);
      assert t.point in multiset(Flatten(t));
    }
  }

  /** Everything a freshly built tree satisfies. */
  lemma BuildValid<T>(points: seq<Point<T>>)
    ensures var t := Build(points, 0);
      multiset(Flatten(t)) == multiset(points) &&
      Ordered(t) && AxesFrom(t, 0) && StoresPayload(t) && Balanced(t)
  {
    BuildOrdered(points, 0);
    BuildAxes(points, 0);
    BuildStoresPayload(points, 0);
    BuildBalanced(points, 0);
  }

  lemma SubMultisetLength<T>(a: seq<T>, b: seq<T>)
    requires multiset(a) <= multiset(b)
    ensures |a| <= |b|
    ensures multiset(a) == multiset(b) ==> |a| == |b|
  {
    var ma, mb := multiset(a), multiset(b);
    assert mb == ma + (mb - ma);
    assert |a| == |ma| && |b| == |mb|;
  }

  /** `points.sort(key=lambda x: x[axis])` on the caller's own list. */
  method SortInPlace<T(==)>(a: array<Point<T>>, axis: Axis)
    modifies a
    ensures a[..] == SortBy(old(a[..]), axis)
  {
    var sorted := SortBy(a[..], axis);
    forall i | 0 <= i < a.Length {
      a[i] := sorted[i];
    }
  }

  /**
   * `KDTree`: the constructor sets `root`, building from the caller's list, and on a
   * non-empty list the top-level call of `_build_tree` sorts that list in place by x.
   * The ghost field `indexed` remembers the list as it was passed in.
   */
  class KDTree<T(==)> {
    var root: Tree<T>
    ghost var indexed: seq<Point<T>>

    ghost predicate Valid()
      reads this
    {
      multiset(Flatten(root)) == multiset(indexed) &&
      Ordered(root) && AxesFrom(root, 0) && StoresPayload(root) && Balanced(root)
    }

    constructor (points: array<Point<T>>)
      modifies points
      ensures Valid()
      ensures indexed == old(points[..])
      ensures root == Build(old(points[..]), 0)
      ensures points[..] == SortBy(old(points[..]), 0)
      ensures points.Length == 0 <==> root == Empty
    {
      ghost var original := points[..];
      var t: Tree<T> := Empty;
      if points.Length == 0 {
        assert SortBy(original, 0) == [];
      } else {
        SortInPlace(points, 0);
        var sorted := points[..];
        var median := |sorted| / 2;
        t := Node(sorted[median], 0, sorted[median].payload,
                  Build(sorted[..median], 1), Build(sorted[median + 1..], 1));
      }
      assert t == Build(original, 0);
      BuildValid(original);
      indexed := original;
      root := t;
    }

    /**
     * `query_radius`: `[]` on an empty tree, otherwise the recursive query from the root.
     * Whatever the metric it reports only indexed points in range; with an admissible
     * one it reports all of them, as often as they were indexed.
     */
    method QueryRadius(center: Coords, radius: real, distanceFunc: Option<Metric>) returns (results: seq<Point<T>>)
      requires Valid()
      ensures results == Query(root, center, radius, distanceFunc)
      ensures root == Empty ==> results == []
      ensures multiset(results) <= multiset(WithinRadius(indexed, center, radius, distanceFunc))
      ensures Admissible(distanceFunc) ==>
        multiset(results) == multiset(WithinRadius(indexed, center, radius, distanceFunc))
    {
      WithinRadiusPermutation(Flatten(root), indexed, center, radius, distanceFunc);
      if root == Empty {
        return [];
      }
      results := Query(root, center, radius, distanceFunc);
      QuerySound(root, center, radius, distanceFunc);
      if Admissible(distanceFunc) {
        QueryExact(root, center, radius, distanceFunc);
      }
    }

    /** `points_within_radius_count`: the length of the query's result. */
    method PointsWithinRadiusCount(center: Coords, radius: real, distanceFunc: Option<Metric>) returns (count: nat)
      requires Valid()
      ensures count == |Query(root, center, radius, distanceFunc)|
      ensures root == Empty ==> count == 0
      ensures count <= |WithinRadius(indexed, center, radius, distanceFunc)|
      ensures Admissible(distanceFunc) ==> count == |WithinRadius(indexed, center, radius, distanceFunc)|
    {
      var results := QueryRadius(center, radius, distanceFunc);
      count := |results|;
      ghost var scan := WithinRadius(indexed, center, radius, distanceFunc);
      SubMultisetLength(results, scan);
    }
  }

  /**
   * `KDTree(points)` called on a Python list: the list becomes an array the constructor
   * sorts in place, and the caller gets back the list as reordered.
   */
  method NewTree<T(==)>(points: seq<Point<T>>) returns (tree: KDTree<T>, reordered: seq<Point<T>>)
    ensures fresh(tree)
    ensures tree.Valid() && tree.indexed == points && tree.root == Build(points, 0)
    ensures reordered == SortBy(points, 0)
  {
    var list := new Point<T>[|points|](i requires 0 <= i < |points| => points[i]);
    assert list[..] == points;
    tree := new KDTree(list);
    reordered := list[..];
  }
}
