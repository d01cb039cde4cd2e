/**
 * The situations exercised by tests/test_kdtree.py and tests/test_analysis.py, stated
 * as lemmas about the model.
 */
module Scenarios {
  import opened Wrappers
  import opened KdTree
  import opened Analysis

  function P(x: real, y: real): Point<int>
  {
    Point(x, y, None)
  }

  /** A tree built from three points has a root holding one of them. */
  lemma BuildThree()
    ensures var pts := [P(1.0, 1.0), P(2.0, 2.0), P(3.0, 3.0)];
      Build(pts, 0).Node? && Build(pts, 0).point in pts
  {
    BuildRoot([P(1.0, 1.0), P(2.0, 2.0), P(3.0, 3.0)], 0);
  }

  /** The scan over `[p] + s` looks at `p` and then scans `s`. */
  lemma ScanCons<T>(p: Point<T>, s: seq<Point<T>>, c: Coords, r: real)
    ensures WithinRadius([p] + s, c, r, None) == (if InRange(None, c, p, r) then [p] else []) + WithinRadius(s, c, r, None)
  {
    assert ([p] + s)[1..] == s;
  }

  /** On a 3 x 2 grid, radius 1.1 around the origin finds the origin and its two neighbours. */
  lemma GridQuery(pts: seq<Point<int>>)
    requires pts == [P(0.0, 0.0), P(1.0, 0.0), P(2.0, 0.0), P(0.0, 1.0), P(1.0, 1.0), P(2.0, 1.0)]
    ensures var found := Query(Build(pts, 0), (0.0, 0.0), 1.1, None);
      |found| == 3 && multiset(found) == multiset{P(0.0, 0.0), P(1.0, 0.0), P(0.0, 1.0)}
  {
    var c, r := (0.0, 0.0), 1.1;
    var s4 := [P(1.0, 1.0), P(2.0, 1.0)];
    ScanCons(P(1.0, 1.0), [P(2.0, 1.0)], c, r);
    ScanCons(P(2.0, 1.0), [], c, r);
    var s3 := [P(0.0, 1.0)] + s4;
    ScanCons(P(0.0, 1.0), s4, c, r);
    var s2 := [P(2.0, 0.0)] + s3;
    ScanCons(P(2.0, 0.0), s3, c, r);
    var s1 := [P(1.0, 0.0)] + s2;
    ScanCons(P(1.0, 0.0), s2, c, r);
    assert pts == [P(0.0, 0.0)] + s1;
    ScanCons(P(0.0, 0.0), s1, c, r);
    assert WithinRadius(pts, c, r, None) == [P(0.0, 0.0), P(1.0, 0.0), P(0.0, 1.0)];
    BuildQueryExact(pts, 0, c, r, None);
  }

  /** A single point at (10, 10) is not within 1 of the origin. */
  lemma FarPoint(pts: seq<Point<int>>)
    requires pts == [P(10.0, 10.0)]
    ensures Query(Build(pts, 0), (0.0, 0.0), 1.0, None) == []
  {
    assert WithinRadius(pts, (0.0, 0.0), 1.0, None) == [] by {
      ScanCons(P(10.0, 10.0), [], (0.0, 0.0), 1.0);
      assert pts == [P(10.0, 10.0)] + [];
    }
    BuildQueryExact(pts, 0, (0.0, 0.0), 1.0, None);
  }

  lemma TaggedScan(pts: seq<Point<string>>)
    requires pts == [Point(1.0, 1.0, Some("A")), Point(5.0, 5.0, Some("B"))]
    ensures WithinRadius(pts, (1.0, 1.0), 0.1, None) == [Point(1.0, 1.0, Some("A"))]
  {
    var a, b := Point(1.0, 1.0, Some("A")), Point(5.0, 5.0, Some("B"));
    ScanCons(b, [], (1.0, 1.0), 0.1);
    ScanCons(a, [b], (1.0, 1.0), 0.1);
    assert pts == [a] + [b];
  }

  /** Points carry their data: the one point within 0.1 of (1, 1) is the one tagged "A". */
  lemma TaggedQuery(pts: seq<Point<string>>)
    requires pts == [Point(1.0, 1.0, Some("A")), Point(5.0, 5.0, Some("B"))]
    ensures var found := Query(Build(pts, 0), (1.0, 1.0), 0.1, None);
      |found| == 1 && found[0].payload == Some("A")
  {
    TaggedScan(pts);
    BuildQueryExact(pts, 0, (1.0, 1.0), 0.1, None);
    var found := Query(Build(pts, 0), (1.0, 1.0), 0.1, None);
    assert found[0] in multiset(found);
  }

  lemma ScanThree(pts: seq<Point<int>>)
    requires pts == [P(1.0, 1.0), P(1.1, 1.1), P(5.0, 5.0)]
    ensures |WithinRadius(pts, (1.0, 1.0), 0.5, None)| == 2
  {
    var c := (1.0, 1.0);
    ScanCons(P(5.0, 5.0), [], c, 0.5);
    ScanCons(P(1.1, 1.1), [P(5.0, 5.0)], c, 0.5);
    assert pts == [P(1.0, 1.0)] + [P(1.1, 1.1), P(5.0, 5.0)];
    ScanCons(P(1.0, 1.0), [P(1.1, 1.1), P(5.0, 5.0)], c, 0.5);
  }

  /**
   * `points_within_radius_count((1, 1), 0.5)` on a tree of (1, 1), (1.1, 1.1) and (5, 5)
   * is 2, through the `KDTree` object itself.
   */
  method CountNearby(list: array<Point<int>>) returns (count: nat)
    requires list[..] == [P(1.0, 1.0), P(1.1, 1.1), P(5.0, 5.0)]
    modifies list
    ensures count == 2
  {
    ghost var pts := list[..];
    ScanThree(pts);
    var tree := new KDTree(list);
    count := tree.PointsWithinRadiusCount((1.0, 1.0), 0.5, None);
  }

  /**
   * `project_to_meters` of flood_tool/utils.py, with `cos(radians(.))` left as the
   * parameter `cosDeg`: 111320 metres per degree of latitude, scaled by the cosine of
   * the reference latitude for longitude.
   */
  function FlatEarth(cosDeg: real -> real): Projector
  {
    (lat: real, lon: real, refLat: real, refLon: real) =>
      ((lon - refLon) * 111320.0 * cosDeg(refLat), (lat - refLat) * 111320.0)
  }

  lemma SumTwo(a: Feature, b: Feature)
    ensures SumLat([a, b]) == a.lat + b.lat && SumLon([a, b]) == a.lon + b.lon
  {
    assert [a, b][1..] == [b];
    assert [b][1..] == [];
    assert SumLat([b]) == b.lat && SumLon([b]) == b.lon;
  }

  lemma VulnerableTwo(a: Feature, b: Feature, waterPts: seq<Point<Feature>>, proj: Projector, ref: (real, real), thr: real)
    ensures Vulnerable([a, b], waterPts, proj, ref, thr) ==
      (if NearWater(a, waterPts, proj, ref, thr) then [a] else []) +
      (if NearWater(b, waterPts, proj, ref, thr) then [b] else [])
  {
    assert [a, b][..1] == [a];
    assert [a][..0] == [];
    assert Vulnerable([a], waterPts, proj, ref, thr) == (if NearWater(a, waterPts, proj, ref, thr) then [a] else []);
  }

  /** The one water point of the near-and-far scenario is in range of the near building only. */
  lemma NearAndFarWater(cosDeg: real -> real, water: seq<Feature>, ref: (real, real))
    requires cosDeg(0.0) == 1.0
    requires water == [Feature(1, 0.0, 0.0)]
    requires ref == (0.0, 0.05005)
    ensures var proj := FlatEarth(cosDeg);
      var waterPts := ProjectAll(water, proj, ref);
      NearWater(Feature(101, 0.0, 0.0001), waterPts, proj, ref, 100.0) &&
      !NearWater(Feature(102, 0.0, 0.1), waterPts, proj, ref, 100.0)
  {
    var proj := FlatEarth(cosDeg);
    var near, far, w := Feature(101, 0.0, 0.0001), Feature(102, 0.0, 0.1), Feature(1, 0.0, 0.0);
    var waterPts := ProjectAll(water, proj, ref);
    var wp := Point(-0.05005 * 111320.0, 0.0, Some(w));
    assert waterPts == [wp];
    var pNear, pFar := Project(near, proj, ref), Project(far, proj, ref);
    assert pNear == Point(-0.04995 * 111320.0, 0.0, Some(near));
    assert pFar == Point(0.04995 * 111320.0, 0.0, Some(far));
    ScanCons(wp, [], Position(pNear), 100.0);
    ScanCons(wp, [], Position(pFar), 100.0);
    assert [wp] + [] == [wp];
  }

  /** A lone vulnerable building has density 1, below the default of 5: no hotspot. */
  lemma LoneBuilding(b: Feature, proj: Projector, ref: (real, real))
    ensures Found([b], proj, ref, DefaultRadius, DefaultMinNeighbors) == []
  {
    var p := Project(b, proj, ref);
    var projs := ProjectAll([b], proj, ref);
    assert projs == [p];
    assert SortBy(projs, 0) == projs;
    ScanCons(p, [], Position(p), DefaultRadius);
    assert [p] + [] == [p];
    assert Density(p, projs, DefaultRadius) <= 1;
    assert [p][..0] == [];
    assert Discover(projs, projs, DefaultRadius, DefaultMinNeighbors) == [];
  }

  /**
   * Water at (0, 0), one building about 11 m east of it and one about 11 km east: with a
   * 100 m threshold only the near one (id 101) is vulnerable, and alone it is no hotspot.
   */
  lemma NearAndFar(cosDeg: real -> real, buildings: seq<Feature>, water: seq<Feature>)
    requires cosDeg(0.0) == 1.0
    requires buildings == [Feature(101, 0.0, 0.0001), Feature(102, 0.0, 0.1)]
    requires water == [Feature(1, 0.0, 0.0)]
    ensures Analyze(buildings, water, 100.0, DefaultRadius, DefaultMinNeighbors, FlatEarth(cosDeg)) ==
      Success(Output([Feature(101, 0.0, 0.0001)], []))
  {
    var proj := FlatEarth(cosDeg);
    var near, far := Feature(101, 0.0, 0.0001), Feature(102, 0.0, 0.1);
    assert buildings == [near, far];
    SumTwo(near, far);
    var ref := Reference(buildings);
    assert ref == (0.0, 0.05005);
    var waterPts := ProjectAll(water, proj, ref);
    NearAndFarWater(cosDeg, water, ref);
    VulnerableTwo(near, far, waterPts, proj, ref, 100.0);
    var vuln := Vulnerable(buildings, waterPts, proj, ref, 100.0);
    assert vuln == [near];
    LoneBuilding(near, proj, ref);
    assert Hotspots(vuln, proj, ref, DefaultRadius, DefaultMinNeighbors) == [];
  }

  /** Five buildings on the equator, 0.00001 degrees of longitude (about 1.1 m) apart. */
  ghost predicate ClusterBuildings(buildings: seq<Feature>)
  {
    buildings == [Feature(0, 0.0, 0.0), Feature(1, 0.0, 0.00001), Feature(2, 0.0, 0.00002),
                  Feature(3, 0.0, 0.00003), Feature(4, 0.0, 0.00004)]
  }

  lemma ClusterReference(buildings: seq<Feature>)
    requires ClusterBuildings(buildings)
    ensures Reference(buildings) == (0.0, 0.00002)
  {
    var s4 := buildings[4..];
    var s3 := buildings[3..];
    var s2 := buildings[2..];
    var s1 := buildings[1..];
    assert s4[1..] == [] && s3[1..] == s4 && s2[1..] == s3 && s1[1..] == s2 && buildings[1..] == s1;
    assert SumLat(s4) == 0.0 && SumLon(s4) == 0.00004;
    assert SumLat(s3) == 0.0 && SumLon(s3) == 0.00007;
    assert SumLat(s2) == 0.0 && SumLon(s2) == 0.00009;
    assert SumLat(s1) == 0.0 && SumLon(s1) == 0.0001;
    assert SumLat(buildings) == 0.0 && SumLon(buildings) == 0.0001;
  }

  /** Where a cluster building lands: x = (lon - 0.00002) * 111320, y = 0, within 100 m of the water. */
  lemma ClusterProjection(cosDeg: real -> real, b: Feature)
    requires cosDeg(0.0) == 1.0
    requires b.lat == 0.0 && 0.0 <= b.lon <= 0.00004
    ensures Project(b, FlatEarth(cosDeg), (0.0, 0.00002)) == Point((b.lon - 0.00002) * 111320.0, 0.0, Some(b))
  {
  }

  lemma ClusterNearWater(cosDeg: real -> real, buildings: seq<Feature>, water: seq<Feature>)
    requires cosDeg(0.0) == 1.0
    requires ClusterBuildings(buildings)
    requires water == [Feature(0, 0.0, 0.0)]
    ensures forall b :: b in buildings ==>
      NearWater(b, ProjectAll(water, FlatEarth(cosDeg), (0.0, 0.00002)), FlatEarth(cosDeg), (0.0, 0.00002), 100.0)
  {
    var proj, ref := FlatEarth(cosDeg), (0.0, 0.00002);
    var waterPts := ProjectAll(water, proj, ref);
    var wp := Point(-0.00002 * 111320.0, 0.0, Some(Feature(0, 0.0, 0.0)));
    assert waterPts == [wp];
    forall b | b in buildings ensures NearWater(b, waterPts, proj, ref, 100.0) {
      ClusterProjection(cosDeg, b);
      var c := Position(Project(b, proj, ref));
      var dx := b.lon * 111320.0;
      assert 0.0 <= dx <= 5.0;
      assert dx * dx <= 25.0 by {
        assert dx * dx <= 5.0 * dx;
      }
      assert SqDist(c, Position(wp)) == dx * dx;
      WithinRadiusMember(waterPts, c, 100.0, None, wp);
    }
  }

  /** Any two cluster buildings are at most about 4.5 m apart, within the 50 m radius. */
  lemma ClusterPair(cosDeg: real -> real, b: Feature, b': Feature)
    requires cosDeg(0.0) == 1.0
    requires b.lat == 0.0 && 0.0 <= b.lon <= 0.00004
    requires b'.lat == 0.0 && 0.0 <= b'.lon <= 0.00004
    ensures var proj, ref := FlatEarth(cosDeg), (0.0, 0.00002);
      InRange(None, Position(Project(b, proj, ref)), Project(b', proj, ref), 50.0)
  {
    ClusterProjection(cosDeg, b);
    ClusterProjection(cosDeg, b');
    var dx := (b.lon - b'.lon) * 111320.0;
    assert -5.0 <= dx <= 5.0;
    assert dx * dx <= 25.0 by {
      if dx >= 0.0 {
        assert dx * dx <= 5.0 * dx;
      } else {
        assert dx * dx <= -5.0 * dx;
      }
    }
    var proj, ref := FlatEarth(cosDeg), (0.0, 0.00002);
    assert SqDist(Position(Project(b, proj, ref)), Position(Project(b', proj, ref))) == dx * dx;
  }

  lemma ClusterMember(buildings: seq<Feature>, b: Feature)
    requires ClusterBuildings(buildings)
    requires b in buildings
    ensures b.lat == 0.0 && 0.0 <= b.lon <= 0.00004
  {
  }

  lemma ClusterDense(cosDeg: real -> real, buildings: seq<Feature>)
    requires cosDeg(0.0) == 1.0
    requires ClusterBuildings(buildings)
    ensures var projs := ProjectAll(buildings, FlatEarth(cosDeg), (0.0, 0.00002));
      forall p :: p in projs ==> Density(p, projs, 50.0) == 5
  {
    var proj, ref := FlatEarth(cosDeg), (0.0, 0.00002);
    var projs := ProjectAll(buildings, proj, ref);
    forall p | p in projs ensures Density(p, projs, 50.0) == 5 {
      ProjectedMember(buildings, proj, ref, p);
      var b :| b in buildings && p == Project(b, proj, ref);
      ClusterMember(buildings, b);
      forall q | q in projs ensures InRange(None, Position(p), q, 50.0) {
        ProjectedMember(buildings, proj, ref, q);
        var b' :| b' in buildings && q == Project(b', proj, ref);
        ClusterMember(buildings, b');
        ClusterPair(cosDeg, b, b');
      }
      WithinRadiusAll(projs, Position(p), 50.0, None);
    }
  }

  /**
   * The cluster: with water at (0, 0), a 100 m threshold, a 50 m radius and at least 5
   * neighbours, all five buildings are vulnerable and all five are hotspots, each of
   * density 5.
   */
  lemma Cluster(cosDeg: real -> real, buildings: seq<Feature>, water: seq<Feature>)
    requires cosDeg(0.0) == 1.0
    requires ClusterBuildings(buildings)
    requires water == [Feature(0, 0.0, 0.0)]
    ensures var res := Analyze(buildings, water, 100.0, 50.0, 5, FlatEarth(cosDeg));
      res.Success? && |res.value.vulnerable| == 5 && |res.value.hotspots| == 5 &&
      forall h :: h in res.value.hotspots ==> h.density == 5
  {
    var proj := FlatEarth(cosDeg);
    ClusterReference(buildings);
    var ref := Reference(buildings);
    var waterPts := ProjectAll(water, proj, ref);
    ClusterNearWater(cosDeg, buildings, water);
    VulnerableAll(buildings, waterPts, proj, ref, 100.0);
    var projs := ProjectAll(buildings, proj, ref);
    var order := SortBy(projs, 0);
    ClusterDense(cosDeg, buildings);
    DiscoveryOrder(buildings, proj, ref);
    forall p | p in order ensures 5 <= Density(p, projs, 50.0) {
      assert p in multiset(projs);
    }
    DiscoverAll(order, projs, 50.0, 5);
    var found := Found(buildings, proj, ref, 50.0, 5);
    assert found == Discover(order, projs, 50.0, 5);
    var hs := Hotspots(buildings, proj, ref, 50.0, 5);
    forall h | h in hs ensures h.density == 5 {
      assert h in multiset(found);
      ClusterHotspot(order, projs, h);
    }
  }

  /** A hotspot found among the dense cluster projections has density 5. */
  lemma ClusterHotspot(order: seq<Point<Feature>>, projs: seq<Point<Feature>>, h: Hotspot)
    requires Tagged(order)
    requires multiset(order) == multiset(projs)
    requires forall p :: p in projs ==> Density(p, projs, 50.0) == 5
    requires h in Discover(order, projs, 50.0, 5)
    ensures h.density == 5
  {
    DiscoverMember(order, projs, 50.0, 5, h);
    var p :| p in order && p.payload.Some? && 5 <= Density(p, projs, 50.0) &&
      h == HotspotOf(p, Density(p, projs, 50.0));
    assert p in multiset(projs);
  }

  /** One building and no water at all, with the default parameters: nothing is reported. */
  lemma NoWaterAtAll(buildings: seq<Feature>, proj: Projector)
    requires buildings == [Feature(1, 10.0, 10.0)]
    ensures Analyze(buildings, [], DefaultThreshold, DefaultRadius, DefaultMinNeighbors, proj) == Success(Output([], []))
  {
    AnalyzeNoWater(buildings, DefaultThreshold, DefaultRadius, DefaultMinNeighbors, proj);
  }
}
