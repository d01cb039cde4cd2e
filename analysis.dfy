/**
 * `perform_analysis` of flood_tool/analysis.py: projects buildings and water nodes to
 * local metres around the buildings' mean position, marks a building vulnerable when a
 * water node lies within the threshold distance, and reports as hotspots the vulnerable
 * buildings that have at least `hotspot_min_neighbors` vulnerable buildings (themselves
 * included) within the hotspot radius, densest first.
 *
 * The projection is a parameter (`Projector`); both neighbourhood counts go through
 * k-d trees built by `KdTree.KDTree` and queried with the default Euclidean distance.
 */
module Analysis {
  import opened Wrappers
  import opened Sorting
  import opened KdTree

  /** A building or a water node: the `id`, `lat` and `lon` keys of its record. */
  datatype Feature = Feature(id: int, lat: real, lon: real)

  /** A hotspot record: the building's position, its density and its id. */
  datatype Hotspot = Hotspot(lat: real, lon: real, density: nat, buildingId: int)

  /** The pair `(vulnerable_buildings, hotspots)`. */
  datatype Output = Output(vulnerable: seq<Feature>, hotspots: seq<Hotspot>)

  /** The three input assertions, in the order they are checked. */
  datatype AnalysisError = NonPositiveThreshold | NonPositiveRadius | TooFewNeighbors

  /** `project_to_meters(lat, lon, ref_lat, ref_lon)`, returning `(x, y)`. */
  type Projector = (real, real, real, real) -> Coords

  const DefaultThreshold: real := 200.0
  const DefaultRadius: real := 300.0
  const DefaultMinNeighbors: int := 5

  // ---------------------------------------------------------------------------
  // Projection
  // ---------------------------------------------------------------------------

  function SumLat(fs: seq<Feature>): real
  {
    if fs == [] then 0.0 else fs[0].lat + SumLat(fs[1..])
  }

  function SumLon(fs: seq<Feature>): real
  {
    if fs == [] then 0.0 else fs[0].lon + SumLon(fs[1..])
  }

  /** The reference point: the mean latitude and longitude of the buildings. */
  function Reference(buildings: seq<Feature>): (ref: (real, real))
    requires buildings != []
    ensures ref.0 * (|buildings| as real) == SumLat(buildings)
    ensures ref.1 * (|buildings| as real) == SumLon(buildings)
  {
    (SumLat(buildings) / (|buildings| as real), SumLon(buildings) / (|buildings| as real))
  }

  /** The tuple `(x, y, record)` built for a record. */
  function Project(f: Feature, proj: Projector, ref: (real, real)): Point<Feature>
  {
    var xy := proj(f.lat, f.lon, ref.0, ref.1);
    Point(xy.0, xy.1, Some(f))
  }

  /** Every record projected, in input order. */
  function ProjectAll(fs: seq<Feature>, proj: Projector, ref: (real, real)): (r: seq<Point<Feature>>)
    ensures |r| == |fs|
    ensures forall i :: 0 <= i < |fs| ==> r[i] == Project(fs[i], proj, ref)
  {
    if fs == [] then [] else ProjectAll(fs[..|fs| - 1], proj, ref) + [Project(fs[|fs| - 1], proj, ref)]
  }

  // ---------------------------------------------------------------------------
  // Vulnerability
  // ---------------------------------------------------------------------------

  /** `points_within_radius_count((x, y), water_threshold_dist) > 0`, as a scan. */
  predicate NearWater(b: Feature, waterPts: seq<Point<Feature>>, proj: Projector, ref: (real, real), thr: real)
  {
    |WithinRadius(waterPts, Position(Project(b, proj, ref)), thr, None)| > 0
  }

  /** The buildings near water, in input order (duplicates kept). */
  function Vulnerable(bs: seq<Feature>, waterPts: seq<Point<Feature>>, proj: Projector, ref: (real, real), thr: real): seq<Feature>
  {
    if bs == [] then []
    else
      Vulnerable(bs[..|bs| - 1], waterPts, proj, ref, thr) +
      (if NearWater(bs[|bs| - 1], waterPts, proj, ref, thr) then [bs[|bs| - 1]] else [])
  }

  // ---------------------------------------------------------------------------
  // Hotspots
  // ---------------------------------------------------------------------------

  /** The neighbourhood count of a projected building: itself included. */
  function Density(p: Point<Feature>, pts: seq<Point<Feature>>, radius: real): nat
  {
    |WithinRadius(pts, Position(p), radius, None)|
  }

  /** Every point carries its record. */
  predicate Tagged(s: seq<Point<Feature>>)
  {
    forall i :: 0 <= i < |s| ==> s[i].payload.Some?
  }

  function HotspotOf(p: Point<Feature>, density: nat): Hotspot
    requires p.payload.Some?
  {
    Hotspot(p.payload.value.lat, p.payload.value.lon, density, p.payload.value.id)
  }

  /** The hotspot loop: one record per point of `order` dense enough, in the order of `order`. */
  function Discover(order: seq<Point<Feature>>, pts: seq<Point<Feature>>, radius: real, minN: int): seq<Hotspot>
    requires Tagged(order)
  {
    if order == [] then []
    else
      var p := order[|order| - 1];
      Discover(order[..|order| - 1], pts, radius, minN) +
      (if Density(p, pts, radius) >= minN then [HotspotOf(p, Density(p, pts, radius))] else [])
  }

  function DensityKey(h: Hotspot): real
  {
    -(h.density as real)
  }

  /**
   * `hotspots.sort(key=density, reverse=True)`. Python's reverse sort is still stable, so
   * it is the stable ascending sort on the negated density.
   */
  function Rank(hs: seq<Hotspot>): (r: seq<Hotspot>)
    ensures multiset(r) == multiset(hs)
    ensures |r| == |hs|
    ensures forall i, j :: 0 <= i < j < |r| ==> r[i].density >= r[j].density
  {
    var r := SortByKey(hs, DensityKey);
    assert forall i, j :: 0 <= i < j < |r| ==> DensityKey(r[i]) <= DensityKey(r[j]);
    r
  }

  /**
   * The hotspot records in the order the loop finds them. The vulnerable buildings'
   * projections are sorted in place by x when their tree is built, and the loop then
   * visits them in that order.
   */
  function Found(vuln: seq<Feature>, proj: Projector, ref: (real, real), radius: real, minN: int): seq<Hotspot>
  {
    var projs := ProjectAll(vuln, proj, ref);
    var order := SortBy(projs, 0);
    ProjectAllTagged(vuln, proj, ref);
    TaggedPermutation(projs, order);
    Discover(order, projs, radius, minN)
  }

  /** The returned hotspots: the found ones ranked by density. */
  function Hotspots(vuln: seq<Feature>, proj: Projector, ref: (real, real), radius: real, minN: int): seq<Hotspot>
  {
    Rank(Found(vuln, proj, ref, radius, minN))
  }

  lemma ProjectAllTagged(fs: seq<Feature>, proj: Projector, ref: (real, real))
    ensures Tagged(ProjectAll(fs, proj, ref))
  {
  }

  lemma TaggedPermutation(a: seq<Point<Feature>>, b: seq<Point<Feature>>)
    requires Tagged(a)
    requires multiset(a) == multiset(b)
    ensures Tagged(b)
  {
    forall i | 0 <= i < |b| ensures b[i].payload.Some? {
      assert b[i] in multiset(a);
    }
  }

  // ---------------------------------------------------------------------------
  // The analysis
  // ---------------------------------------------------------------------------

  /** `perform_analysis`, with a failed input assertion as `Failure`. */
  function Analyze(buildings: seq<Feature>, waterNodes: seq<Feature>, thr: real, radius: real, minN: int,
                   proj: Projector): (res: Result<Output, AnalysisError>)
    ensures thr <= 0.0 ==> res == Failure(NonPositiveThreshold)
    ensures 0.0 < thr && radius <= 0.0 ==> res == Failure(NonPositiveRadius)
    ensures 0.0 < thr && 0.0 < radius && minN < 1 ==> res == Failure(TooFewNeighbors)
    ensures res.Success? <==> 0.0 < thr && 0.0 < radius && 1 <= minN
    ensures res.Success? && buildings == [] ==> res.value == Output([], [])
  {
    if thr <= 0.0 then Failure(NonPositiveThreshold)
    else if radius <= 0.0 then Failure(NonPositiveRadius)
    else if minN < 1 then Failure(TooFewNeighbors)
    else if buildings == [] then Success(Output([], []))
    else
      var ref := Reference(buildings);
      var vuln := Vulnerable(buildings, ProjectAll(waterNodes, proj, ref), proj, ref, thr);
      if vuln == [] then Success(Output([], []))
      else Success(Output(vuln, Hotspots(vuln, proj, ref, radius, minN)))
  }

  // ---------------------------------------------------------------------------
  // Properties of the vulnerability step
  // ---------------------------------------------------------------------------

  /** `a` is `b` with some elements left out, the others kept in order. */
  ghost predicate Subsequence<T>(a: seq<T>, b: seq<T>)
    decreases |b|
  {
    if b == [] then a == []
    else
      (a != [] && a[|a| - 1] == b[|b| - 1] && Subsequence(a[..|a| - 1], b[..|b| - 1])) ||
      Subsequence(a, b[..|b| - 1])
  }

  /** A building counts water within the threshold exactly when some projected water node is in range. */
  lemma NearWaterIff(b: Feature, waterPts: seq<Point<Feature>>, proj: Projector, ref: (real, real), thr: real)
    ensures NearWater(b, waterPts, proj, ref, thr) <==>
      exists w :: w in waterPts && InRange(None, Position(Project(b, proj, ref)), w, thr)
  {
    var c := Position(Project(b, proj, ref));
    var found := WithinRadius(waterPts, c, thr, None);
    if |found| > 0 {
      WithinRadiusMember(waterPts, c, thr, None, found[0]);
    }
    forall w | w in waterPts && InRange(None, c, w, thr) ensures |found| > 0 {
      WithinRadiusMember(waterPts, c, thr, None, w);
    }
  }

  /** The vulnerable buildings are the input buildings near water, and only those. */
  lemma {:induction false} VulnerableMember(bs: seq<Feature>, waterPts: seq<Point<Feature>>, proj: Projector,
                                            ref: (real, real), thr: real, b: Feature)
    ensures b in Vulnerable(bs, waterPts, proj, ref, thr) <==> b in bs && NearWater(b, waterPts, proj, ref, thr)
  {
    if bs != [] {
      var init := bs[..|bs| - 1];
      VulnerableMember(init, waterPts, proj, ref, thr, b);
      assert bs == init + [bs[|bs| - 1]];
    }
  }

  /** Each building near water is kept as often as it occurs in the input; any other, never. */
  lemma {:induction false} VulnerableCount(bs: seq<Feature>, waterPts: seq<Point<Feature>>, proj: Projector,
                                           ref: (real, real), thr: real, b: Feature)
    ensures multiset(Vulnerable(bs, waterPts, proj, ref, thr))[b] ==
      if NearWater(b, waterPts, proj, ref, thr) then multiset(bs)[b] else 0
  {
    if bs != [] {
      var init, last := bs[..|bs| - 1], bs[|bs| - 1];
      var kept := if NearWater(last, waterPts, proj, ref, thr) then [last] else [];
      assert Vulnerable(bs, waterPts, proj, ref, thr) == Vulnerable(init, waterPts, proj, ref, thr) + kept;
      assert bs == init + [last];
      assert multiset(bs) == multiset(init) + multiset{last};
      VulnerableCount(init, waterPts, proj, ref, thr, b);
    }
  }

  /** The filter keeps the buildings' order and never adds one. */
  lemma {:induction false} VulnerableSubsequence(bs: seq<Feature>, waterPts: seq<Point<Feature>>, proj: Projector,
                                                 ref: (real, real), thr: real)
    ensures Subsequence(Vulnerable(bs, waterPts, proj, ref, thr), bs)
    ensures |Vulnerable(bs, waterPts, proj, ref, thr)| <= |bs|
  {
    if bs != [] {
      var init, last := bs[..|bs| - 1], bs[|bs| - 1];
      var v, vi := Vulnerable(bs, waterPts, proj, ref, thr), Vulnerable(init, waterPts, proj, ref, thr);
      VulnerableSubsequence(init, waterPts, proj, ref, thr);
      if NearWater(last, waterPts, proj, ref, thr) {
        assert v == vi + [last];
        assert v[..|v| - 1] == vi;
      } else {
        assert v == vi;
      }
    }
  }

  /** When every building is near water, every building is vulnerable. */
  lemma {:induction false} VulnerableAll(bs: seq<Feature>, waterPts: seq<Point<Feature>>, proj: Projector,
                                         ref: (real, real), thr: real)
    requires forall b :: b in bs ==> NearWater(b, waterPts, proj, ref, thr)
    ensures Vulnerable(bs, waterPts, proj, ref, thr) == bs
  {
    if bs != [] {
      var init := bs[..|bs| - 1];
      assert bs == init + [bs[|bs| - 1]];
      assert forall b :: b in init ==> b in bs;
      VulnerableAll(init, waterPts, proj, ref, thr);
    }
  }

  /** A projected record is a projected record of the list. */
  lemma ProjectedMember(fs: seq<Feature>, proj: Projector, ref: (real, real), p: Point<Feature>)
    requires p in ProjectAll(fs, proj, ref)
    ensures exists f :: f in fs && p == Project(f, proj, ref)
  {
    var ps := ProjectAll(fs, proj, ref);
    var i :| 0 <= i < |ps| && ps[i] == p;
    assert fs[i] in fs;
  }

  /** With no water nodes nothing is vulnerable. */
  lemma NoWaterNoneVulnerable(bs: seq<Feature>, proj: Projector, ref: (real, real), thr: real)
    ensures Vulnerable(bs, [], proj, ref, thr) == []
  {
    forall b ensures b !in Vulnerable(bs, [], proj, ref, thr) {
      VulnerableMember(bs, [], proj, ref, thr, b);
    }
  }

  // ---------------------------------------------------------------------------
  // Properties of the hotspot step
  // ---------------------------------------------------------------------------

  /** Every vulnerable building counts itself: its density is at least 1, at most all of them. */
  lemma DensitySelf(p: Point<Feature>, pts: seq<Point<Feature>>, radius: real)
    requires p in pts
    requires 0.0 <= radius
    ensures 1 <= Density(p, pts, radius) <= |pts|
  {
    WithinRadiusMember(pts, Position(p), radius, None, p);
    WithinRadiusLength(pts, Position(p), radius, None);
  }

  /** The hotspot loop reports exactly the dense points, each with its own record and count. */
  lemma {:induction false} DiscoverMember(order: seq<Point<Feature>>, pts: seq<Point<Feature>>, radius: real, minN: int,
                                          h: Hotspot)
    requires Tagged(order)
    ensures h in Discover(order, pts, radius, minN) <==>
      exists p :: p in order && p.payload.Some? && minN <= Density(p, pts, radius) &&
        h == HotspotOf(p, Density(p, pts, radius))
  {
    if order != [] {
      var init, last := order[..|order| - 1], order[|order| - 1];
      DiscoverMember(init, pts, radius, minN, h);
      assert order == init + [last];
      assert last in order;
    }
  }

  /** When every point is dense enough, the loop reports one record per point. */
  lemma {:induction false} DiscoverAll(order: seq<Point<Feature>>, pts: seq<Point<Feature>>, radius: real, minN: int)
    requires Tagged(order)
    requires forall p :: p in order ==> minN <= Density(p, pts, radius)
    ensures |Discover(order, pts, radius, minN)| == |order|
  {
    if order != [] {
      var init := order[..|order| - 1];
      assert order[|order| - 1] in order;
      assert forall p :: p in init ==> p in order;
      DiscoverAll(init, pts, radius, minN);
    }
  }

  /** The loop adds no more records than it visits points, each dense enough. */
  lemma {:induction false} DiscoverBounds(order: seq<Point<Feature>>, pts: seq<Point<Feature>>, radius: real, minN: int)
    requires Tagged(order)
    ensures |Discover(order, pts, radius, minN)| <= |order|
    ensures forall h :: h in Discover(order, pts, radius, minN) ==> minN <= h.density
  {
    if order != [] {
      DiscoverBounds(order[..|order| - 1], pts, radius, minN);
    }
  }

  /** The hotspot record of a vulnerable building, with its density among the vulnerable ones. */
  function HotspotFor(b: Feature, vuln: seq<Feature>, proj: Projector, ref: (real, real), radius: real): Hotspot
  {
    Hotspot(b.lat, b.lon, Density(Project(b, proj, ref), ProjectAll(vuln, proj, ref), radius), b.id)
  }

  /**
   * The records of the buildings of `bs` whose density among `vuln` reaches `minN`, one
   * per building, in the order of `bs`.
   */
  function DenseRecords(bs: seq<Feature>, vuln: seq<Feature>, proj: Projector, ref: (real, real), radius: real,
                        minN: int): seq<Hotspot>
  {
    if bs == [] then []
    else
      var b := bs[|bs| - 1];
      DenseRecords(bs[..|bs| - 1], vuln, proj, ref, radius, minN) +
      (if minN <= HotspotFor(b, vuln, proj, ref, radius).density then [HotspotFor(b, vuln, proj, ref, radius)] else [])
  }

  /** A record names its building: it carries all of the building's fields. */
  lemma HotspotForInjective(a: Feature, b: Feature, vuln: seq<Feature>, proj: Projector, ref: (real, real), radius: real)
    ensures HotspotFor(a, vuln, proj, ref, radius) == HotspotFor(b, vuln, proj, ref, radius) <==> a == b
  {
    var ha, hb := HotspotFor(a, vuln, proj, ref, radius), HotspotFor(b, vuln, proj, ref, radius);
    if ha == hb {
      assert a.id == ha.buildingId == hb.buildingId == b.id;
      assert a.lat == ha.lat == hb.lat == b.lat;
      assert a.lon == ha.lon == hb.lon == b.lon;
    }
  }

  /** A dense building's record occurs as often as the building does; any other building's, never. */
  lemma {:induction false} DenseCount(bs: seq<Feature>, vuln: seq<Feature>, proj: Projector, ref: (real, real),
                                      radius: real, minN: int, b: Feature)
    ensures multiset(DenseRecords(bs, vuln, proj, ref, radius, minN))[HotspotFor(b, vuln, proj, ref, radius)] ==
      if minN <= HotspotFor(b, vuln, proj, ref, radius).density then multiset(bs)[b] else 0
  {
    if bs != [] {
      var init, last := bs[..|bs| - 1], bs[|bs| - 1];
      var h, hb := HotspotFor(last, vuln, proj, ref, radius), HotspotFor(b, vuln, proj, ref, radius);
      var rest := DenseRecords(init, vuln, proj, ref, radius, minN);
      DenseStep(bs, vuln, proj, ref, radius, minN);
      assert bs == init + [last];
      CountAppend(init, last, b);
      HotspotForInjective(last, b, vuln, proj, ref, radius);
      if minN <= h.density {
        CountAppend(rest, h, hb);
      } else {
        assert rest + [] == rest;
      }
      DenseCount(init, vuln, proj, ref, radius, minN, b);
    }
  }

  /** The dense records of a list are those of all but its last building, then the last building's. */
  lemma DenseStep(bs: seq<Feature>, vuln: seq<Feature>, proj: Projector, ref: (real, real), radius: real, minN: int)
    requires bs != []
    ensures var h := HotspotFor(bs[|bs| - 1], vuln, proj, ref, radius);
      DenseRecords(bs, vuln, proj, ref, radius, minN) ==
        DenseRecords(bs[..|bs| - 1], vuln, proj, ref, radius, minN) + (if minN <= h.density then [h] else [])
  {
  }

  /** Appending one element adds one to its count and nothing to any other's. */
  lemma CountAppend<T>(s: seq<T>, x: T, y: T)
    ensures multiset(s + [x])[y] == multiset(s)[y] + (if x == y then 1 else 0)
  {
    assert multiset(s + [x]) == multiset(s) + multiset{x};
  }

  /** Running the loop over the buildings in input order gives their dense records. */
  lemma {:induction false} DiscoverProjected(bs: seq<Feature>, vuln: seq<Feature>, proj: Projector, ref: (real, real),
                                             radius: real, minN: int)
    ensures Tagged(ProjectAll(bs, proj, ref))
    ensures Discover(ProjectAll(bs, proj, ref), ProjectAll(vuln, proj, ref), radius, minN) ==
      DenseRecords(bs, vuln, proj, ref, radius, minN)
  {
    ProjectAllTagged(bs, proj, ref);
    if bs != [] {
      var init := bs[..|bs| - 1];
      var ps := ProjectAll(bs, proj, ref);
      assert ps[..|ps| - 1] == ProjectAll(init, proj, ref);
      DiscoverProjected(init, vuln, proj, ref, radius, minN);
    }
  }

  lemma {:induction false} DiscoverConcat(a: seq<Point<Feature>>, b: seq<Point<Feature>>, pts: seq<Point<Feature>>,
                                          radius: real, minN: int)
    requires Tagged(a) && Tagged(b)
    ensures Tagged(a + b)
    ensures Discover(a + b, pts, radius, minN) == Discover(a, pts, radius, minN) + Discover(b, pts, radius, minN)
  {
    if b == [] {
      assert a + b == a;
    } else {
      var init := b[..|b| - 1];
      assert (a + b)[..|a + b| - 1] == a + init;
      assert (a + b)[|a + b| - 1] == b[|b| - 1];
      DiscoverConcat(a, init, pts, radius, minN);
    }
  }

  /** Taking one point out of the visiting order takes its record, if any, out of the loop's result. */
  lemma DiscoverRemove(b: seq<Point<Feature>>, k: nat, pts: seq<Point<Feature>>, radius: real, minN: int)
    requires Tagged(b) && k < |b|
    ensures Tagged(b[..k] + b[k + 1..]) && Tagged([b[k]])
    ensures multiset(Discover(b, pts, radius, minN)) ==
      multiset(Discover(b[..k] + b[k + 1..], pts, radius, minN)) + multiset(Discover([b[k]], pts, radius, minN))
  {
    assert b == b[..k] + [b[k]] + b[k + 1..];
    assert Tagged(b[..k]) && Tagged(b[k + 1..]);
    DiscoverConcat(b[..k] + [b[k]], b[k + 1..], pts, radius, minN);
    DiscoverConcat(b[..k], [b[k]], pts, radius, minN);
    DiscoverConcat(b[..k], b[k + 1..], pts, radius, minN);
  }

  /** The loop's records are those of the first point, then those of the rest. */
  lemma DiscoverFirst(a: seq<Point<Feature>>, pts: seq<Point<Feature>>, radius: real, minN: int)
    requires Tagged(a) && a != []
    ensures Tagged(a[1..]) && Tagged([a[0]])
    ensures multiset(Discover(a, pts, radius, minN)) ==
      multiset(Discover(a[1..], pts, radius, minN)) + multiset(Discover([a[0]], pts, radius, minN))
  {
    assert a == [a[0]] + a[1..];
    assert Tagged(a[1..]);
    DiscoverConcat([a[0]], a[1..], pts, radius, minN);
  }

  /** The records the loop produces do not depend on the order it visits the points in. */
  lemma {:induction false} DiscoverPermutation(a: seq<Point<Feature>>, b: seq<Point<Feature>>, pts: seq<Point<Feature>>,
                                               radius: real, minN: int)
    requires Tagged(a)
    requires multiset(a) == multiset(b)
    ensures Tagged(b)
    ensures multiset(Discover(a, pts, radius, minN)) == multiset(Discover(b, pts, radius, minN))
    decreases |a|
  {
    TaggedPermutation(a, b);
    if a == [] {
      assert |b| == |multiset(b)| == 0;
    } else {
      var k := MatchFirst(a, b);
      var rest := b[..k] + b[k + 1..];
      DiscoverFirst(a, pts, radius, minN);
      DiscoverRemove(b, k, pts, radius, minN);
      DiscoverPermutation(a[1..], rest, pts, radius, minN);
      assert [a[0]] == [b[k]];
    }
  }

  /** The hotspots are the dense records of the vulnerable buildings, reordered. */
  lemma HotspotsPermutation(vuln: seq<Feature>, proj: Projector, ref: (real, real), radius: real, minN: int)
    ensures multiset(Hotspots(vuln, proj, ref, radius, minN)) == multiset(DenseRecords(vuln, vuln, proj, ref, radius, minN))
  {
    var projs := ProjectAll(vuln, proj, ref);
    var order := SortBy(projs, 0);
    ProjectAllTagged(vuln, proj, ref);
    DiscoverPermutation(projs, order, projs, radius, minN);
    assert Found(vuln, proj, ref, radius, minN) == Discover(order, projs, radius, minN);
    DiscoverProjected(vuln, vuln, proj, ref, radius, minN);
  }

  /** Each dense vulnerable building has exactly as many hotspot records as it has occurrences. */
  lemma HotspotsCount(vuln: seq<Feature>, proj: Projector, ref: (real, real), radius: real, minN: int, b: Feature)
    ensures multiset(Hotspots(vuln, proj, ref, radius, minN))[HotspotFor(b, vuln, proj, ref, radius)] ==
      if minN <= HotspotFor(b, vuln, proj, ref, radius).density then multiset(vuln)[b] else 0
  {
    HotspotsPermutation(vuln, proj, ref, radius, minN);
    DenseCount(vuln, vuln, proj, ref, radius, minN, b);
  }

  /**
   * A hotspot is reported exactly for each vulnerable building with at least `minN`
   * vulnerable buildings, itself included, within `radius` of it.
   */
  lemma HotspotsMember(vuln: seq<Feature>, proj: Projector, ref: (real, real), radius: real, minN: int, h: Hotspot)
    ensures h in Hotspots(vuln, proj, ref, radius, minN) <==>
      exists b :: b in vuln && minN <= HotspotFor(b, vuln, proj, ref, radius).density &&
        h == HotspotFor(b, vuln, proj, ref, radius)
  {
    var projs := ProjectAll(vuln, proj, ref);
    var order := SortBy(projs, 0);
    ProjectAllTagged(vuln, proj, ref);
    TaggedPermutation(projs, order);
    var found := Discover(order, projs, radius, minN);
    assert Hotspots(vuln, proj, ref, radius, minN) == Rank(found) by {
      assert Found(vuln, proj, ref, radius, minN) == found;
    }
    assert h in Rank(found) <==> h in found by {
      assert h in multiset(Rank(found)) <==> h in multiset(found);
    }
    DiscoverMember(order, projs, radius, minN, h);
    if h in found {
      var p :| p in order && p.payload.Some? && minN <= Density(p, projs, radius) &&
        h == HotspotOf(p, Density(p, projs, radius));
      assert p in multiset(projs);
      ProjectedMember(vuln, proj, ref, p);
    }
    forall b | b in vuln && minN <= HotspotFor(b, vuln, proj, ref, radius).density &&
      h == HotspotFor(b, vuln, proj, ref, radius)
      ensures h in found
    {
      OrderedMember(vuln, proj, ref, b);
    }
  }

  /** A vulnerable building's projection is among the reordered projections. */
  lemma OrderedMember(vuln: seq<Feature>, proj: Projector, ref: (real, real), b: Feature)
    requires b in vuln
    ensures Project(b, proj, ref) in SortBy(ProjectAll(vuln, proj, ref), 0)
  {
    var projs := ProjectAll(vuln, proj, ref);
    var i :| 0 <= i < |vuln| && vuln[i] == b;
    assert projs[i] == Project(b, proj, ref);
    assert projs[i] in multiset(SortBy(projs, 0));
  }

  /** No more hotspots than vulnerable buildings, each at least `minN` dense, densest first. */
  lemma HotspotsBounds(vuln: seq<Feature>, proj: Projector, ref: (real, real), radius: real, minN: int)
    ensures var hs := Hotspots(vuln, proj, ref, radius, minN);
      |hs| <= |vuln| &&
      (forall h :: h in hs ==> minN <= h.density) &&
      (forall i, j :: 0 <= i < j < |hs| ==> hs[i].density >= hs[j].density)
  {
    var projs := ProjectAll(vuln, proj, ref);
    var order := SortBy(projs, 0);
    ProjectAllTagged(vuln, proj, ref);
    TaggedPermutation(projs, order);
    var found := Discover(order, projs, radius, minN);
    assert Found(vuln, proj, ref, radius, minN) == found;
    DiscoverBounds(order, projs, radius, minN);
    forall h | h in Rank(found) ensures minN <= h.density {
      assert h in multiset(Rank(found));
    }
  }

  /** The loop visits the vulnerable buildings' projections by ascending x, each carrying its record. */
  lemma DiscoveryOrder(vuln: seq<Feature>, proj: Projector, ref: (real, real))
    ensures var order := SortBy(ProjectAll(vuln, proj, ref), 0);
      Tagged(order) && multiset(order) == multiset(ProjectAll(vuln, proj, ref)) &&
      forall i, j :: 0 <= i < j < |order| ==> order[i].x <= order[j].x
  {
    var projs := ProjectAll(vuln, proj, ref);
    var order := SortBy(projs, 0);
    ProjectAllTagged(vuln, proj, ref);
    TaggedPermutation(projs, order);
    forall i, j | 0 <= i < j < |order| ensures order[i].x <= order[j].x {
      assert Coord(order[i], 0) <= Coord(order[j], 0);
    }
  }

  /**
   * Ties keep the loop's order: the hotspots of one density appear in the order they were
   * found, which is the ascending-x order of `DiscoveryOrder`.
   */
  lemma HotspotTies(vuln: seq<Feature>, proj: Projector, ref: (real, real), radius: real, minN: int, d: nat)
    ensures WithKey(Hotspots(vuln, proj, ref, radius, minN), DensityKey, -(d as real)) ==
      WithKey(Found(vuln, proj, ref, radius, minN), DensityKey, -(d as real))
  {
    SortByKeyStable(Found(vuln, proj, ref, radius, minN), DensityKey, -(d as real));
  }

  // ---------------------------------------------------------------------------
  // Properties of the whole analysis
  // ---------------------------------------------------------------------------

  /** Some water node, projected, is within `thr` of the projected building. */
  ghost predicate NearSomeWater(b: Feature, waterNodes: seq<Feature>, proj: Projector, ref: (real, real), thr: real)
  {
    exists w :: w in waterNodes && InRange(None, Position(Project(b, proj, ref)), Project(w, proj, ref), thr)
  }

  /**
   * The vulnerable buildings are the buildings, in their order, with a water node within
   * the threshold distance: no other building, and every such one as often as it occurs.
   */
  lemma AnalyzeVulnerable(buildings: seq<Feature>, waterNodes: seq<Feature>, thr: real, radius: real, minN: int,
                          proj: Projector)
    requires 0.0 < thr && 0.0 < radius && 1 <= minN
    ensures var out := Analyze(buildings, waterNodes, thr, radius, minN, proj).value;
      Subsequence(out.vulnerable, buildings) && |out.vulnerable| <= |buildings| &&
      (buildings != [] ==>
        (forall b :: b in out.vulnerable <==>
          b in buildings && NearSomeWater(b, waterNodes, proj, Reference(buildings), thr)) &&
        (forall b :: multiset(out.vulnerable)[b] ==
          if NearSomeWater(b, waterNodes, proj, Reference(buildings), thr) then multiset(buildings)[b] else 0))
  {
    var out := Analyze(buildings, waterNodes, thr, radius, minN, proj).value;
    if buildings == [] {
      return;
    }
    var ref := Reference(buildings);
    var waterPts := ProjectAll(waterNodes, proj, ref);
    assert out.vulnerable == Vulnerable(buildings, waterPts, proj, ref, thr);
    VulnerableSubsequence(buildings, waterPts, proj, ref, thr);
    forall b ensures b in out.vulnerable <==> b in buildings && NearSomeWater(b, waterNodes, proj, ref, thr)
      ensures multiset(out.vulnerable)[b] ==
        if NearSomeWater(b, waterNodes, proj, ref, thr) then multiset(buildings)[b] else 0
    {
      VulnerableMember(buildings, waterPts, proj, ref, thr, b);
      VulnerableCount(buildings, waterPts, proj, ref, thr, b);
      NearWaterIff(b, waterPts, proj, ref, thr);
      WaterLink(b, waterNodes, proj, ref, thr);
    }
  }

  /** Some projected water point is in range exactly when some water node's projection is. */
  lemma WaterLink(b: Feature, waterNodes: seq<Feature>, proj: Projector, ref: (real, real), thr: real)
    ensures (exists w :: w in ProjectAll(waterNodes, proj, ref) && InRange(None, Position(Project(b, proj, ref)), w, thr)) <==>
      NearSomeWater(b, waterNodes, proj, ref, thr)
  {
    var c := Position(Project(b, proj, ref));
    var waterPts := ProjectAll(waterNodes, proj, ref);
    if w :| w in waterPts && InRange(None, c, w, thr) {
      ProjectedMember(waterNodes, proj, ref, w);
    }
    if NearSomeWater(b, waterNodes, proj, ref, thr) {
      var w :| w in waterNodes && InRange(None, c, Project(w, proj, ref), thr);
      var i :| 0 <= i < |waterNodes| && waterNodes[i] == w;
      assert waterPts[i] == Project(w, proj, ref);
    }
  }

  /** Without water nodes nothing is vulnerable and there are no hotspots. */
  lemma AnalyzeNoWater(buildings: seq<Feature>, thr: real, radius: real, minN: int, proj: Projector)
    requires 0.0 < thr && 0.0 < radius && 1 <= minN
    ensures Analyze(buildings, [], thr, radius, minN, proj) == Success(Output([], []))
  {
    if buildings != [] {
      var ref := Reference(buildings);
      assert ProjectAll([], proj, ref) == [];
      NoWaterNoneVulnerable(buildings, proj, ref, thr);
    }
  }

  /**
   * The hotspots of a list of vulnerable buildings: one per occurrence of a building whose
   * density (buildings of the list within `radius`, itself included) reaches `minN`,
   * carrying that building's position, id and density; every building has density at
   * least 1; the list is ordered by non-increasing density and is no longer than the
   * vulnerable list.
   */
  lemma HotspotsSpec(vuln: seq<Feature>, proj: Projector, ref: (real, real), radius: real, minN: int)
    requires 0.0 < radius && 1 <= minN
    ensures var hs := Hotspots(vuln, proj, ref, radius, minN);
      |hs| <= |vuln| &&
      (forall h :: h in hs ==> 1 <= minN <= h.density) &&
      (forall i, j :: 0 <= i < j < |hs| ==> hs[i].density >= hs[j].density) &&
      (forall b :: b in vuln ==> 1 <= HotspotFor(b, vuln, proj, ref, radius).density) &&
      (forall h :: h in hs <==>
        exists b :: b in vuln && minN <= HotspotFor(b, vuln, proj, ref, radius).density &&
          h == HotspotFor(b, vuln, proj, ref, radius)) &&
      (forall b :: multiset(hs)[HotspotFor(b, vuln, proj, ref, radius)] ==
        if minN <= HotspotFor(b, vuln, proj, ref, radius).density then multiset(vuln)[b] else 0) &&
      multiset(hs) == multiset(DenseRecords(vuln, vuln, proj, ref, radius, minN))
  {
    var hs := Hotspots(vuln, proj, ref, radius, minN);
    HotspotsBounds(vuln, proj, ref, radius, minN);
    forall h ensures h in hs <==>
      exists b :: b in vuln && minN <= HotspotFor(b, vuln, proj, ref, radius).density &&
        h == HotspotFor(b, vuln, proj, ref, radius)
    {
      HotspotsMember(vuln, proj, ref, radius, minN, h);
    }
    HotspotsPermutation(vuln, proj, ref, radius, minN);
    forall b ensures multiset(hs)[HotspotFor(b, vuln, proj, ref, radius)] ==
      if minN <= HotspotFor(b, vuln, proj, ref, radius).density then multiset(vuln)[b] else 0
    {
      HotspotsCount(vuln, proj, ref, radius, minN, b);
    }
    forall b | b in vuln ensures 1 <= HotspotFor(b, vuln, proj, ref, radius).density {
      var i :| 0 <= i < |vuln| && vuln[i] == b;
      var projs := ProjectAll(vuln, proj, ref);
      assert projs[i] == Project(b, proj, ref);
      DensitySelf(Project(b, proj, ref), projs, radius);
    }
  }

  /**
   * The hotspots of the analysis are those of its vulnerable buildings (`HotspotsSpec`),
   * with the buildings' mean as reference point; no vulnerable building means no hotspot.
   */
  lemma AnalyzeHotspots(buildings: seq<Feature>, waterNodes: seq<Feature>, thr: real, radius: real, minN: int,
                        proj: Projector)
    requires 0.0 < thr && 0.0 < radius && 1 <= minN
    ensures var out := Analyze(buildings, waterNodes, thr, radius, minN, proj).value;
      |out.hotspots| <= |out.vulnerable| &&
      (forall h :: h in out.hotspots ==> 1 <= minN <= h.density) &&
      (forall i, j :: 0 <= i < j < |out.hotspots| ==> out.hotspots[i].density >= out.hotspots[j].density) &&
      (buildings != [] ==>
        var ref := Reference(buildings);
        (out.vulnerable != [] ==> out.hotspots == Hotspots(out.vulnerable, proj, ref, radius, minN)) &&
        (forall b :: b in out.vulnerable ==> 1 <= HotspotFor(b, out.vulnerable, proj, ref, radius).density) &&
        (forall h :: h in out.hotspots <==>
          exists b :: b in out.vulnerable && minN <= HotspotFor(b, out.vulnerable, proj, ref, radius).density &&
            h == HotspotFor(b, out.vulnerable, proj, ref, radius)) &&
        (forall b :: multiset(out.hotspots)[HotspotFor(b, out.vulnerable, proj, ref, radius)] ==
          if minN <= HotspotFor(b, out.vulnerable, proj, ref, radius).density then multiset(out.vulnerable)[b] else 0) &&
        multiset(out.hotspots) == multiset(DenseRecords(out.vulnerable, out.vulnerable, proj, ref, radius, minN)))
  {
    var out := Analyze(buildings, waterNodes, thr, radius, minN, proj).value;
    if buildings != [] {
      var ref := Reference(buildings);
      var vuln := Vulnerable(buildings, ProjectAll(waterNodes, proj, ref), proj, ref, thr);
      if vuln != [] {
        assert out == Output(vuln, Hotspots(vuln, proj, ref, radius, minN));
        HotspotsSpec(vuln, proj, ref, radius, minN);
      } else {
        assert out == Output([], []);
      }
    } else {
      assert out == Output([], []);
    }
  }

  /** The water-projection loop of `perform_analysis`: the list of projected water nodes. */
  method ProjectWater(waterNodes: seq<Feature>, proj: Projector, ref: (real, real))
    returns (waterPoints: seq<Point<Feature>>)
    ensures waterPoints == ProjectAll(waterNodes, proj, ref)
  {
    waterPoints := [];
    for i := 0 to |waterNodes|
      invariant waterPoints == ProjectAll(waterNodes[..i], proj, ref)
    {
      assert waterNodes[..i + 1][..i] == waterNodes[..i];
      waterPoints := waterPoints + [Project(waterNodes[i], proj, ref)];
    }
    assert waterNodes[..|waterNodes|] == waterNodes;
  }

  /** One more building considered: the filter adds it exactly when it is near water. */
  lemma VulnerableStep(bs: seq<Feature>, i: nat, waterPts: seq<Point<Feature>>, proj: Projector, ref: (real, real),
                       thr: real)
    requires i < |bs|
    ensures Vulnerable(bs[..i + 1], waterPts, proj, ref, thr) ==
      Vulnerable(bs[..i], waterPts, proj, ref, thr) + (if NearWater(bs[i], waterPts, proj, ref, thr) then [bs[i]] else [])
  {
    assert bs[..i + 1][..i] == bs[..i];
  }

  /**
   * The vulnerability loop: one count query on the water tree per building; a building with a positive
   * count is kept, together with its projection.
   */
  method AssessVulnerability(buildings: seq<Feature>, waterTree: KDTree<Feature>, waterPoints: seq<Point<Feature>>,
                             proj: Projector, ref: (real, real), thr: real)
    returns (vulnerable: seq<Feature>, projections: seq<Point<Feature>>)
    requires waterTree.Valid() && waterTree.indexed == waterPoints
    ensures vulnerable == Vulnerable(buildings, waterPoints, proj, ref, thr)
    ensures projections == ProjectAll(vulnerable, proj, ref)
  {
    vulnerable, projections := [], [];
    for i := 0 to |buildings|
      invariant vulnerable == Vulnerable(buildings[..i], waterPoints, proj, ref, thr)
      invariant projections == ProjectAll(vulnerable, proj, ref)
    {
      var p := Project(buildings[i], proj, ref);
      var nearby := waterTree.PointsWithinRadiusCount(Position(p), thr, None);
      VulnerableStep(buildings, i, waterPoints, proj, ref, thr);
      if nearby > 0 {
        assert (vulnerable + [buildings[i]])[..|vulnerable|] == vulnerable;
        vulnerable := vulnerable + [buildings[i]];
        projections := projections + [p];
      }
    }
    assert buildings[..|buildings|] == buildings;
  }

  /**
   * The hotspot loop: one count query on the tree of vulnerable buildings per projection, in
   * the order the tree's construction left the projections in.
   */
  method CollectHotspots(order: seq<Point<Feature>>, vulnTree: KDTree<Feature>, projections: seq<Point<Feature>>,
                         radius: real, minN: int)
    returns (hotspots: seq<Hotspot>)
    requires vulnTree.Valid() && vulnTree.indexed == projections
    requires Tagged(order)
    ensures hotspots == Discover(order, projections, radius, minN)
  {
    hotspots := [];
    for i := 0 to |order|
      invariant hotspots == Discover(order[..i], projections, radius, minN)
    {
      assert order[..i + 1][..i] == order[..i];
      var p := order[i];
      var count := vulnTree.PointsWithinRadiusCount(Position(p), radius, None);
      assert count == Density(p, projections, radius);
      assert Discover(order[..i + 1], projections, radius, minN) ==
        hotspots + (if count >= minN then [HotspotOf(p, count)] else []);
      if count >= minN {
        var b := p.payload.value;
        hotspots := hotspots + [Hotspot(b.lat, b.lon, count, b.id)];
      }
    }
    assert order[..|order|] == order;
  }

  /**
   * `perform_analysis`: validate, project the water nodes into a tree, find the
   * vulnerable buildings, build their tree (which sorts their projections by x), collect
   * the hotspots and rank them.
   */
  method PerformAnalysis(buildings: seq<Feature>, waterNodes: seq<Feature>, thr: real, radius: real, minN: int,
                         proj: Projector) returns (res: Result<Output, AnalysisError>)
    ensures res == Analyze(buildings, waterNodes, thr, radius, minN, proj)
  {
    if thr <= 0.0 {
      return Failure(NonPositiveThreshold);
    }
    if radius <= 0.0 {
      return Failure(NonPositiveRadius);
    }
    if minN < 1 {
      return Failure(TooFewNeighbors);
    }
    if |buildings| == 0 {
      return Success(Output([], []));
    }
    var ref := Reference(buildings);

    var waterPoints := ProjectWater(waterNodes, proj, ref);
    var waterTree, _ := NewTree(waterPoints);

    var vulnerable, projections := AssessVulnerability(buildings, waterTree, waterPoints, proj, ref, thr);
    if |vulnerable| == 0 {
      return Success(Output([], []));
    }

    var vulnTree, order := NewTree(projections);
    ProjectAllTagged(vulnerable, proj, ref);
    TaggedPermutation(projections, order);

    var hotspots := CollectHotspots(order, vulnTree, projections, radius, minN);
    hotspots := Rank(hotspots);
    assert hotspots == Hotspots(vulnerable, proj, ref, radius, minN);
    return Success(Output(vulnerable, hotspots));
  }
}
