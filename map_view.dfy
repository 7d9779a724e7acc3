/**
 The map component: it forwards drawing updates to the editor, labels the
 vertices of a finished route, and rebuilds the feature buffer from a stored
 mission when one is shown.
 */
module MapView {
  import opened Wrappers
  import opened Geometry
  import opened Labels
  import opened Features
  import MapWrapper

  /**
   The coordinates a drawn geometry reports to `handleCoordinateUpdate`: a
   line gives its vertices; a polygon gives its rings, the first of which is
   the outline. The outline is taken as given, a sequence of vertices any of
   which may be falsy; the source passes each whole ring through `toLonLat`,
   and what that call returns is not modelled.
   */
  datatype DrawnGeometry =
    | LineGeom(coords: seq<Point>)
    | PolygonGeom(outer: seq<Vertex>, holes: seq<seq<Vertex>>)

  /** Which editor callback receives what. */
  datatype Forward = ToRoute(route: seq<Point>) | ToPolygon(ring: seq<Point>) | NoForward

  /** The drawing interaction is created with `type: drawingMode`, so it draws geometry of that kind. */
  predicate Drawable(mode: MapWrapper.DrawingMode, g: DrawnGeometry)
  {
    && (mode == MapWrapper.LineString ==> g.LineGeom?)
    && (mode == MapWrapper.Polygon ==> g.PolygonGeom?)
  }

  /**
   `handleCoordinateUpdate`: a route is forwarded unchanged; for a polygon
   only the outline is forwarded, with its falsy entries removed; with no
   drawing mode nothing is forwarded.
   */
  function CoordinateUpdate(mode: MapWrapper.DrawingMode, g: DrawnGeometry): (f: Forward)
    requires Drawable(mode, g)
    ensures mode == MapWrapper.LineString <==> f.ToRoute?
    ensures mode == MapWrapper.Polygon <==> f.ToPolygon?
    ensures f.ToRoute? ==> f.route == g.coords
    ensures f.ToPolygon? ==> f.ring == Present(g.outer)
    ensures f.ToPolygon? ==> |f.ring| <= |g.outer| && forall p :: p in f.ring <==> Some(p) in g.outer
  {
    match mode
    case LineString => ToRoute(g.coords)
    case Polygon => ToPolygon(Present(g.outer))
    case NoDrawing => NoForward
  }

  /** A forwarded update reaches the editor's `onDrawComplete` or `onPolygonComplete`. */
  method HandleCoordinateUpdate(editor: MapWrapper.Editor, g: DrawnGeometry)
    requires editor.Valid() && Drawable(editor.drawingMode, g)
    modifies editor
    ensures editor.Valid()
    ensures editor.drawingMode == old(editor.drawingMode)
    ensures var f := CoordinateUpdate(old(editor.drawingMode), g);
      && (f.ToRoute? ==> editor.coordinates == RouteSlots(f.route) && editor.polygonCoordinates == old(editor.polygonCoordinates))
      && (f.ToPolygon? ==> editor.polygonCoordinates == f.ring && editor.coordinates == old(editor.coordinates))
      && (f.NoForward? ==> editor.coordinates == old(editor.coordinates) && editor.polygonCoordinates == old(editor.polygonCoordinates))
    ensures editor.missions == old(editor.missions) && editor.activeMission == old(editor.activeMission)
    ensures editor.insertPosition == old(editor.insertPosition) && editor.clearMap == old(editor.clearMap)
    ensures editor.showMissionModal == old(editor.showMissionModal) && editor.showPolygonModal == old(editor.showPolygonModal)
  {
    var f := CoordinateUpdate(editor.drawingMode, g);
    match f
    case ToRoute(route) => editor.DrawComplete(route);
    case ToPolygon(ring) => editor.PolygonComplete(ring);
    case NoForward =>
  }

  /** The markers added for a finished route: one per vertex, labelled "1", "2", ... in order. */
  function RouteMarkers(pts: seq<Point>): (ms: seq<Feature>)
    ensures |ms| == |pts|
  {
    seq(|pts|, i requires 0 <= i < |pts| => Marker(Pt(pts[i]), MarkerLabel(i)))
  }

  /** Each vertex of a finished route gets exactly one marker, and the markers read 1..n in order. */
  lemma RouteMarkersLabelled(pts: seq<Point>, i: nat)
    requires i < |pts|
    ensures RouteMarkers(pts)[i].Marker? && RouteMarkers(pts)[i].at == Pt(pts[i])
    ensures IsDigits(RouteMarkers(pts)[i].text) && Value(RouteMarkers(pts)[i].text) == i + 1
    ensures |RouteMarkers(pts)[i].text| >= 1 && RouteMarkers(pts)[i].text[0] != '0'
    ensures forall j :: 0 <= j < |pts| && j != i ==> RouteMarkers(pts)[j].text != RouteMarkers(pts)[i].text
  {
    forall j | 0 <= j < |pts| && j != i
      ensures RouteMarkers(pts)[j].text != RouteMarkers(pts)[i].text
    {
      LabelsDistinct(i, j);
    }
  }

  /**
   The `drawend` handler: forward the final coordinates, leave drawing mode,
   then, for a line, add a labelled marker for every vertex.
   */
  method DrawEnd(editor: MapWrapper.Editor, source: FeatureSource, g: DrawnGeometry)
    requires editor.Valid() && editor.drawingMode != MapWrapper.NoDrawing && Drawable(editor.drawingMode, g)
    modifies editor, source
    ensures editor.Valid() && editor.drawingMode == MapWrapper.NoDrawing
    ensures var f := CoordinateUpdate(old(editor.drawingMode), g);
      && (f.ToRoute? ==> editor.coordinates == RouteSlots(f.route) && editor.polygonCoordinates == old(editor.polygonCoordinates))
      && (f.ToPolygon? ==> editor.polygonCoordinates == f.ring && editor.coordinates == old(editor.coordinates))
    ensures editor.missions == old(editor.missions) && editor.activeMission == old(editor.activeMission)
    ensures editor.insertPosition == old(editor.insertPosition) && editor.clearMap == old(editor.clearMap)
    ensures editor.showMissionModal == old(editor.showMissionModal) && editor.showPolygonModal == old(editor.showPolygonModal)
    ensures g.LineGeom? ==> source.features == old(source.features) + RouteMarkers(g.coords)
    ensures g.PolygonGeom? ==> source.features == old(source.features)
  {
    HandleCoordinateUpdate(editor, g);
    editor.FinishDrawing();
    if g.LineGeom? {
      var pts := g.coords;
      for i := 0 to |pts|
        modifies source
        invariant source.features == old(source.features) + RouteMarkers(pts)[..i]
      {
        source.AddFeature(Marker(Pt(pts[i]), MarkerLabel(i)));
        assert RouteMarkers(pts)[..i + 1] == RouteMarkers(pts)[..i] + [RouteMarkers(pts)[i]];
      }
      assert RouteMarkers(pts)[..|pts|] == RouteMarkers(pts);
    }
  }

  /**
   The features drawn for entry `i` of a shown mission. A point gets its
   marker, labelled with its 1-based position, and a line to the next entry
   when that is a point too. A polygon gets its area, and a line from the
   previous entry to its first vertex when that entry is a point.
   */
  function SlotFeatures(m: seq<Slot>, i: nat): seq<Feature>
    requires i < |m|
  {
    if IsPolygonSlot(m[i]) then
      [Area(m[i].ring)]
      + (if i > 0 && !IsPolygonSlot(m[i - 1]) then [Line(m[i - 1], Pt(m[i].ring[0]))] else [])
    else
      [Marker(m[i], MarkerLabel(i))]
      + (if i < |m| - 1 && !IsPolygonSlot(m[i + 1]) then [Line(m[i], m[i + 1])] else [])
  }

  /** The features of the first `n` entries, in the order the `forEach` adds them. */
  function FeaturesUpTo(m: seq<Slot>, n: nat): seq<Feature>
    requires n <= |m|
  {
    if n == 0 then [] else FeaturesUpTo(m, n - 1) + SlotFeatures(m, n - 1)
  }

  function MissionFeatures(m: seq<Slot>): seq<Feature>
  {
    FeaturesUpTo(m, |m|)
  }

  /**
   The `missionToShow` effect: when a mission is given (even an empty one),
   the buffer is cleared and then holds exactly the mission's features.
   */
  method DisplayMission(source: FeatureSource, missionToShow: Option<seq<Slot>>)
    modifies source
    ensures missionToShow.Some? ==> source.features == MissionFeatures(missionToShow.value)
    ensures missionToShow.None? ==> source.features == old(source.features)
  {
    if missionToShow.Some? {
      var m := missionToShow.value;
      source.Clear();
      for i := 0 to |m|
        invariant source.features == FeaturesUpTo(m, i)
      {
        if IsPolygonSlot(m[i]) {
          source.AddFeature(Area(m[i].ring));
          if i > 0 && !IsPolygonSlot(m[i - 1]) {
            source.AddFeature(Line(m[i - 1], Pt(m[i].ring[0])));
          }
        } else {
          source.AddFeature(Marker(m[i], MarkerLabel(i)));
          if i < |m| - 1 && !IsPolygonSlot(m[i + 1]) {
            source.AddFeature(Line(m[i], m[i + 1]));
          }
        }
      }
    }
  }

  // Counting features and adjacent pairs.

  function CountMarkers(fs: seq<Feature>): nat
  {
    if fs == [] then 0 else (if fs[0].Marker? then 1 else 0) + CountMarkers(fs[1..])
  }

  function CountAreas(fs: seq<Feature>): nat
  {
    if fs == [] then 0 else (if fs[0].Area? then 1 else 0) + CountAreas(fs[1..])
  }

  function CountLines(fs: seq<Feature>): nat
  {
    if fs == [] then 0 else (if fs[0].Line? then 1 else 0) + CountLines(fs[1..])
  }

  lemma {:induction false} CountsAppend(a: seq<Feature>, b: seq<Feature>)
    ensures CountMarkers(a + b) == CountMarkers(a) + CountMarkers(b)
    ensures CountAreas(a + b) == CountAreas(a) + CountAreas(b)
    ensures CountLines(a + b) == CountLines(a) + CountLines(b)
  {
    if a != [] {
      assert (a + b)[1..] == a[1..] + b;
      CountsAppend(a[1..], b);
    } else {
      assert a + b == b;
    }
  }

  /** Entries among the first `n` that are read as points. */
  function PointSlots(m: seq<Slot>, n: nat): nat
    requires n <= |m|
  {
    if n == 0 then 0 else PointSlots(m, n - 1) + (if IsPolygonSlot(m[n - 1]) then 0 else 1)
  }

  /** Entries among the first `n` that are read as polygons. */
  function PolygonSlots(m: seq<Slot>, n: nat): nat
    requires n <= |m|
  {
    if n == 0 then 0 else PolygonSlots(m, n - 1) + (if IsPolygonSlot(m[n - 1]) then 1 else 0)
  }

  /** Adjacent pairs (j, j + 1), j < n, of two points. */
  function PointPointPairs(m: seq<Slot>, n: nat): nat
    requires n <= |m|
  {
    if n == 0 then 0
    else PointPointPairs(m, n - 1) + (if n < |m| && !IsPolygonSlot(m[n - 1]) && !IsPolygonSlot(m[n]) then 1 else 0)
  }

  /** Adjacent pairs (k - 1, k), k < n, of a point followed by a polygon. */
  function PointPolygonPairs(m: seq<Slot>, n: nat): nat
    requires n <= |m|
  {
    if n == 0 then 0
    else PointPolygonPairs(m, n - 1) + (if n > 1 && !IsPolygonSlot(m[n - 2]) && IsPolygonSlot(m[n - 1]) then 1 else 0)
  }

  /** The features of entry `k`: its marker or area first, then at most one line. */
  lemma SlotFeaturesShape(m: seq<Slot>, k: nat)
    requires k < |m|
    ensures |SlotFeatures(m, k)| >= 1
    ensures SlotFeatures(m, k)[0] == if IsPolygonSlot(m[k]) then Area(m[k].ring) else Marker(m[k], MarkerLabel(k))
    ensures SlotFeatures(m, k)[1..] == (
      if IsPolygonSlot(m[k]) then
        (if k > 0 && !IsPolygonSlot(m[k - 1]) then [Line(m[k - 1], Pt(m[k].ring[0]))] else [])
      else
        (if k + 1 < |m| && !IsPolygonSlot(m[k + 1]) then [Line(m[k], m[k + 1])] else []))
  {
  }

  /**
   Entry `k` yields one or two features: first its marker (a point) or its
   area (a polygon), then possibly one line, which never starts at a polygon.
   */
  lemma SlotFeaturesForm(m: seq<Slot>, k: nat)
    requires k < |m|
    ensures 1 <= |SlotFeatures(m, k)| <= 2
    ensures SlotFeatures(m, k)[0].Marker? <==> !IsPolygonSlot(m[k])
    ensures SlotFeatures(m, k)[0].Area? <==> IsPolygonSlot(m[k])
    ensures forall f :: f in SlotFeatures(m, k)[1..] ==> f.Line? && !IsPolygonSlot(f.from)
  {
    SlotFeaturesShape(m, k);
  }

  lemma CountsSingle(f: Feature)
    ensures CountMarkers([f]) == if f.Marker? then 1 else 0
    ensures CountAreas([f]) == if f.Area? then 1 else 0
    ensures CountLines([f]) == if f.Line? then 1 else 0
  {
    assert [f][1..] == [];
  }

  /** The features of one entry, counted by kind. */
  lemma SlotFeatureCounts(m: seq<Slot>, k: nat)
    requires k < |m|
    ensures CountMarkers(SlotFeatures(m, k)) == if IsPolygonSlot(m[k]) then 0 else 1
    ensures CountAreas(SlotFeatures(m, k)) == if IsPolygonSlot(m[k]) then 1 else 0
    ensures CountLines(SlotFeatures(m, k))
      == (if k + 1 < |m| && !IsPolygonSlot(m[k]) && !IsPolygonSlot(m[k + 1]) then 1 else 0)
       + (if k > 0 && !IsPolygonSlot(m[k - 1]) && IsPolygonSlot(m[k]) then 1 else 0)
  {
    var fs := SlotFeatures(m, k);
    SlotFeaturesShape(m, k);
    assert fs == [fs[0]] + fs[1..];
    CountsAppend([fs[0]], fs[1..]);
    CountsSingle(fs[0]);
    if fs[1..] != [] {
      CountsSingle(fs[1..][0]);
    }
  }

  lemma {:induction false} FeatureCountsUpTo(m: seq<Slot>, n: nat)
    requires n <= |m|
    ensures CountMarkers(FeaturesUpTo(m, n)) == PointSlots(m, n)
    ensures CountAreas(FeaturesUpTo(m, n)) == PolygonSlots(m, n)
    ensures CountLines(FeaturesUpTo(m, n)) == PointPointPairs(m, n) + PointPolygonPairs(m, n)
  {
    if n > 0 {
      FeatureCountsUpTo(m, n - 1);
      CountsAppend(FeaturesUpTo(m, n - 1), SlotFeatures(m, n - 1));
      SlotFeatureCounts(m, n - 1);
    }
  }

  /**
   A shown mission has one marker per point entry and one area per polygon
   entry, and its lines are exactly the adjacent (point, point) pairs plus
   the adjacent (point, polygon) pairs.
   */
  lemma MissionFeatureCounts(m: seq<Slot>)
    ensures CountMarkers(MissionFeatures(m)) == PointSlots(m, |m|)
    ensures CountAreas(MissionFeatures(m)) == PolygonSlots(m, |m|)
    ensures CountLines(MissionFeatures(m)) == PointPointPairs(m, |m|) + PointPolygonPairs(m, |m|)
    ensures |MissionFeatures(m)| == |m| + CountLines(MissionFeatures(m))
  {
    FeatureCountsUpTo(m, |m|);
    FeatureTotal(MissionFeatures(m));
    SlotCounts(m, |m|);
  }

  lemma {:induction false} FeatureTotal(fs: seq<Feature>)
    ensures |fs| == CountMarkers(fs) + CountAreas(fs) + CountLines(fs)
  {
    if fs != [] {
      FeatureTotal(fs[1..]);
    }
  }

  lemma {:induction false} SlotCounts(m: seq<Slot>, n: nat)
    requires n <= |m|
    ensures PointSlots(m, n) + PolygonSlots(m, n) == n
  {
    if n > 0 {
      SlotCounts(m, n - 1);
    }
  }

  /** A marker in the first `n` entries' features belongs to a point entry before `n` and carries that entry's label. */
  lemma {:induction false} MarkerOrigin(m: seq<Slot>, n: nat, f: Feature)
    requires n <= |m| && f in FeaturesUpTo(m, n) && f.Marker?
    ensures exists j :: 0 <= j < n && !IsPolygonSlot(m[j]) && f == Marker(m[j], MarkerLabel(j))
  {
    if f in FeaturesUpTo(m, n - 1) {
      MarkerOrigin(m, n - 1, f);
    } else {
      assert f in SlotFeatures(m, n - 1);
    }
  }

  /** Among the features of entry `k`, the marker of point entry `i` occurs once if `k == i` and not at all otherwise. */
  lemma MarkerInSlot(m: seq<Slot>, k: nat, i: nat)
    requires k < |m| && i < |m| && !IsPolygonSlot(m[i])
    ensures multiset(SlotFeatures(m, k))[Marker(m[i], MarkerLabel(i))] == if k == i then 1 else 0
  {
    var fs := SlotFeatures(m, k);
    var mark := Marker(m[i], MarkerLabel(i));
    SlotFeaturesShape(m, k);
    assert fs == [fs[0]] + fs[1..];
    assert mark !in fs[1..];
    if k != i {
      LabelsDistinct(i, k);
      assert fs[0] != mark;
    }
  }

  /** How often `x` occurs in `fs`; `CountMultiplicity` shows it is the multiset multiplicity. */
  function Count(fs: seq<Feature>, x: Feature): nat
  {
    if fs == [] then 0 else (if fs[0] == x then 1 else 0) + Count(fs[1..], x)
  }

  lemma {:induction false} CountMultiplicity(fs: seq<Feature>, x: Feature)
    ensures Count(fs, x) == multiset(fs)[x]
  {
    if fs != [] {
      CountMultiplicity(fs[1..], x);
      assert fs == [fs[0]] + fs[1..];
    }
  }

  lemma {:induction false} CountConcat(a: seq<Feature>, b: seq<Feature>, x: Feature)
    ensures Count(a + b, x) == Count(a, x) + Count(b, x)
  {
    if a == [] {
      assert a + b == b;
    } else {
      assert (a + b)[1..] == a[1..] + b;
      CountConcat(a[1..], b, x);
    }
  }

  /** How often entry `k` yields the feature `x`. */
  function SlotCount(m: seq<Slot>, k: nat, x: Feature): nat
    requires k < |m|
  {
    Count(SlotFeatures(m, k), x)
  }

  /** Entry `n - 1` adds its own occurrences of `x` to those of the entries before it. */
  lemma CountStep(m: seq<Slot>, n: nat, x: Feature)
    requires 0 < n <= |m|
    ensures Count(FeaturesUpTo(m, n), x) == Count(FeaturesUpTo(m, n - 1), x) + SlotCount(m, n - 1, x)
  {
    assert FeaturesUpTo(m, n) == FeaturesUpTo(m, n - 1) + SlotFeatures(m, n - 1);
    CountConcat(FeaturesUpTo(m, n - 1), SlotFeatures(m, n - 1), x);
  }

  /** A feature that only entry `i` yields, once, occurs once among the first `n` entries' features if `i < n`. */
  lemma {:induction false} OnlyFromSlot(m: seq<Slot>, n: nat, i: nat, x: Feature)
    requires n <= |m|
    requires forall k :: 0 <= k < n ==> SlotCount(m, k, x) == if k == i then 1 else 0
    ensures Count(FeaturesUpTo(m, n), x) == if i < n then 1 else 0
  {
    if n > 0 {
      OnlyFromSlot(m, n - 1, i, x);
      CountStep(m, n, x);
    }
  }

  /** Each point entry at index `i` yields exactly one marker labelled `i + 1`. */
  lemma MarkerOncePerPoint(m: seq<Slot>, n: nat, i: nat)
    requires i < |m| && n <= |m| && !IsPolygonSlot(m[i])
    ensures multiset(FeaturesUpTo(m, n))[Marker(m[i], MarkerLabel(i))] == if i < n then 1 else 0
  {
    var mark := Marker(m[i], MarkerLabel(i));
    forall k | 0 <= k < n
      ensures SlotCount(m, k, mark) == if k == i then 1 else 0
    {
      MarkerInSlot(m, k, i);
      CountMultiplicity(SlotFeatures(m, k), mark);
    }
    OnlyFromSlot(m, n, i, mark);
    CountMultiplicity(FeaturesUpTo(m, n), mark);
  }

  /**
   Every marker of a shown mission is the marker of one point entry, with
   that entry's 1-based position as label, and every point entry's marker
   appears exactly once.
   */
  lemma MissionMarkers(m: seq<Slot>)
    ensures forall f :: f in MissionFeatures(m) && f.Marker? ==>
      exists j :: 0 <= j < |m| && !IsPolygonSlot(m[j]) && f == Marker(m[j], MarkerLabel(j))
    ensures forall i :: 0 <= i < |m| && !IsPolygonSlot(m[i]) ==>
      multiset(MissionFeatures(m))[Marker(m[i], MarkerLabel(i))] == 1
  {
    forall f | f in MissionFeatures(m) && f.Marker?
      ensures exists j :: 0 <= j < |m| && !IsPolygonSlot(m[j]) && f == Marker(m[j], MarkerLabel(j))
    {
      MarkerOrigin(m, |m|, f);
    }
    forall i | 0 <= i < |m| && !IsPolygonSlot(m[i])
      ensures multiset(MissionFeatures(m))[Marker(m[i], MarkerLabel(i))] == 1
    {
      MarkerOncePerPoint(m, |m|, i);
    }
  }

  /** The line a shown mission draws between entries `j` and `j + 1`, when it draws one. */
  predicate ConnectsAt(m: seq<Slot>, j: nat, f: Feature)
    requires j + 1 < |m|
  {
    && !IsPolygonSlot(m[j])
    && (if IsPolygonSlot(m[j + 1]) then f == Line(m[j], Pt(m[j + 1].ring[0])) else f == Line(m[j], m[j + 1]))
  }

  lemma {:induction false} LineOrigin(m: seq<Slot>, n: nat, f: Feature)
    requires n <= |m| && f in FeaturesUpTo(m, n) && f.Line?
    ensures exists j :: 0 <= j && j + 1 < |m| && ConnectsAt(m, j, f)
  {
    if f in FeaturesUpTo(m, n - 1) {
      LineOrigin(m, n - 1, f);
    } else {
      var k := n - 1;
      assert f in SlotFeatures(m, k);
      if IsPolygonSlot(m[k]) {
        assert ConnectsAt(m, k - 1, f);
      } else {
        assert ConnectsAt(m, k, f);
      }
    }
  }

  /** The features of the first `k` entries are a prefix of those of the first `n`, for `k <= n`. */
  lemma {:induction false} FeaturesUpToPrefix(m: seq<Slot>, k: nat, n: nat)
    requires k <= n <= |m|
    ensures FeaturesUpTo(m, k) <= FeaturesUpTo(m, n)
  {
    if k < n {
      FeaturesUpToPrefix(m, k, n - 1);
      var before := FeaturesUpTo(m, n - 1);
      assert FeaturesUpTo(m, n) == before + SlotFeatures(m, n - 1);
      assert before <= FeaturesUpTo(m, n);
    }
  }

  lemma FeaturesUpToGrows(m: seq<Slot>, n: nat, k: nat, f: Feature)
    requires k < n <= |m| && f in SlotFeatures(m, k)
    ensures f in FeaturesUpTo(m, n)
  {
    var added := SlotFeatures(m, k);
    var upto := FeaturesUpTo(m, k + 1);
    assert upto == FeaturesUpTo(m, k) + added;
    var p :| 0 <= p < |added| && added[p] == f;
    assert upto[|FeaturesUpTo(m, k)| + p] == f;
    FeaturesUpToPrefix(m, k + 1, n);
    assert FeaturesUpTo(m, n)[|FeaturesUpTo(m, k)| + p] == f;
  }

  /** An area in the first `n` entries' features is the area of a polygon entry before `n`. */
  lemma {:induction false} AreaOrigin(m: seq<Slot>, n: nat, f: Feature)
    requires n <= |m| && f in FeaturesUpTo(m, n) && f.Area?
    ensures exists j :: 0 <= j < n && IsPolygonSlot(m[j]) && f == Area(m[j].ring)
  {
    var before, added := FeaturesUpTo(m, n - 1), SlotFeatures(m, n - 1);
    assert FeaturesUpTo(m, n) == before + added;
    if f in before {
      AreaOrigin(m, n - 1, f);
    } else {
      SlotFeaturesShape(m, n - 1);
      assert added == [added[0]] + added[1..];
      assert f == added[0];
    }
  }

  /**
   The areas of a shown mission: every area drawn is the ring of a polygon
   entry, and every polygon entry's ring is drawn. Two entries with equal
   rings draw equal areas, so this is not a count.
   */
  lemma MissionAreas(m: seq<Slot>)
    ensures forall f :: f in MissionFeatures(m) && f.Area? ==>
      exists j :: 0 <= j < |m| && IsPolygonSlot(m[j]) && f == Area(m[j].ring)
    ensures forall k :: 0 <= k < |m| && IsPolygonSlot(m[k]) ==> Area(m[k].ring) in MissionFeatures(m)
  {
    forall f | f in MissionFeatures(m) && f.Area?
      ensures exists j :: 0 <= j < |m| && IsPolygonSlot(m[j]) && f == Area(m[j].ring)
    {
      AreaOrigin(m, |m|, f);
    }
    forall k | 0 <= k < |m| && IsPolygonSlot(m[k])
      ensures Area(m[k].ring) in MissionFeatures(m)
    {
      assert SlotFeatures(m, k)[0] == Area(m[k].ring);
      FeaturesUpToGrows(m, |m|, k, Area(m[k].ring));
    }
  }

  /**
   The mission the editor shows is one of its stored missions, so its
   polygons all have a vertex: every polygon entry of it, as the editor
   stored it, is drawn as its area, and every area drawn is one of them.
   */
  lemma ShownMissionAreas(editor: MapWrapper.Editor)
    requires editor.Valid() && editor.activeMission.Some?
    ensures var m := editor.activeMission.value;
      (exists k :: 0 <= k < |editor.missions| && editor.missions[k] == m)
      && (forall j :: 0 <= j < |m| && m[j].Poly? ==> Area(m[j].ring) in MissionFeatures(m))
      && (forall f :: f in MissionFeatures(m) && f.Area? ==> exists j :: 0 <= j < |m| && m[j].Poly? && f == Area(m[j].ring))
  {
    var m := editor.activeMission.value;
    var k :| 0 <= k < |editor.missions| && editor.missions[k] == m;
    assert WellFormed(m);
    MissionAreas(m);
    forall j | 0 <= j < |m| && m[j].Poly?
      ensures Area(m[j].ring) in MissionFeatures(m)
    {
      WellFormedClassification(m, j);
    }
  }

  /**
   The lines of a shown mission: entries `j` and `j + 1` are joined exactly
   when `j` is a point, to the next point itself or to a polygon's first
   vertex; no line ever starts at a polygon.
   */
  lemma MissionLines(m: seq<Slot>)
    ensures forall j :: 0 <= j && j + 1 < |m| && !IsPolygonSlot(m[j]) && !IsPolygonSlot(m[j + 1]) ==>
      Line(m[j], m[j + 1]) in MissionFeatures(m)
    ensures forall j :: 0 <= j && j + 1 < |m| && !IsPolygonSlot(m[j]) && IsPolygonSlot(m[j + 1]) ==>
      Line(m[j], Pt(m[j + 1].ring[0])) in MissionFeatures(m)
    ensures forall f :: f in MissionFeatures(m) && f.Line? ==>
      exists j :: 0 <= j && j + 1 < |m| && ConnectsAt(m, j, f)
    ensures forall f :: f in MissionFeatures(m) && f.Line? ==> !IsPolygonSlot(f.from)
  {
    forall j | 0 <= j && j + 1 < |m| && !IsPolygonSlot(m[j]) && !IsPolygonSlot(m[j + 1])
      ensures Line(m[j], m[j + 1]) in MissionFeatures(m)
    {
      assert Line(m[j], m[j + 1]) in SlotFeatures(m, j);
      FeaturesUpToGrows(m, |m|, j, Line(m[j], m[j + 1]));
    }
    forall j | 0 <= j && j + 1 < |m| && !IsPolygonSlot(m[j]) && IsPolygonSlot(m[j + 1])
      ensures Line(m[j], Pt(m[j + 1].ring[0])) in MissionFeatures(m)
    {
      assert Line(m[j], Pt(m[j + 1].ring[0])) in SlotFeatures(m, j + 1);
      FeaturesUpToGrows(m, |m|, j + 1, Line(m[j], Pt(m[j + 1].ring[0])));
    }
    forall f | f in MissionFeatures(m) && f.Line?
      ensures exists j :: 0 <= j && j + 1 < |m| && ConnectsAt(m, j, f)
    {
      LineOrigin(m, |m|, f);
    }
  }
}
