/** The optional value used for JavaScript's `null`/`undefined`. */
module Wrappers {
  datatype Option<+T> = None | Some(value: T)
}

/**
 The values the mission editor works on: longitude/latitude pairs and the
 heterogeneous mission sequence, whose entries are route waypoints or
 polygon rings.
 */
module Geometry {
  import opened Wrappers

  /** A `[longitude, latitude]` pair. The model never computes with coordinates. */
  datatype Point = Point(lon: real, lat: real)

  /**
   One entry of a mission sequence. In the source both are plain arrays: a
   waypoint is `[lon, lat]` and a polygon is `[[lon, lat], ...]`.
   */
  datatype Slot = Pt(at: Point) | Poly(ring: seq<Point>)

  /**
   The source's test `Array.isArray(item[0])`: an entry is a polygon when its
   first element is itself a coordinate pair. An empty ring has no first
   element, so it is read as a point.
   */
  predicate IsPolygonSlot(s: Slot)
  {
    s.Poly? && |s.ring| > 0
  }

  /** Every polygon entry has at least one vertex, so the array test agrees with the tag. */
  predicate WellFormed(m: seq<Slot>)
  {
    forall i :: 0 <= i < |m| ==> (m[i].Poly? ==> |m[i].ring| > 0)
  }

  lemma WellFormedClassification(m: seq<Slot>, i: nat)
    requires WellFormed(m) && i < |m|
    ensures IsPolygonSlot(m[i]) <==> m[i].Poly?
  {
  }

  /** A route drawn as a line becomes one waypoint entry per vertex. */
  function RouteSlots(pts: seq<Point>): (m: seq<Slot>)
    ensures |m| == |pts| && WellFormed(m)
    ensures forall i :: 0 <= i < |m| ==> m[i] == Pt(pts[i]) && !IsPolygonSlot(m[i])
  {
    seq(|pts|, i requires 0 <= i < |pts| => Pt(pts[i]))
  }

  /** A ring entry as the drawing library reports it; `None` stands for a falsy hole. */
  type Vertex = Option<Point>

  /** `ring.filter((ele) => ele)`: drops the falsy entries and keeps the rest in order. */
  function Present(vs: seq<Vertex>): (ps: seq<Point>)
    ensures |ps| <= |vs|
    ensures forall p :: p in ps <==> Some(p) in vs
  {
    if vs == [] then []
    else (if vs[0].Some? then [vs[0].value] else []) + Present(vs[1..])
  }

  /** Filtering a ring that has no holes gives the ring back. */
  lemma {:induction false} PresentOfComplete(ps: seq<Point>)
    ensures Present(seq(|ps|, i requires 0 <= i < |ps| => Some(ps[i]))) == ps
  {
    if ps != [] {
      var vs := seq(|ps|, i requires 0 <= i < |ps| => Some(ps[i]));
      var rest := seq(|ps| - 1, i requires 0 <= i < |ps| - 1 => Some(ps[1..][i]));
      assert vs[1..] == rest;
      PresentOfComplete(ps[1..]);
      assert ps == [ps[0]] + ps[1..];
    }
  }

  /**
   Filtering works piece by piece and keeps the order: the present entries of
   `a + b` are those of `a` followed by those of `b`. With `Present([Some(p)])
   == [p]` and `Present([None]) == []` this fixes the result entirely.
   */
  lemma {:induction false} PresentAppend(a: seq<Vertex>, b: seq<Vertex>)
    ensures Present(a + b) == Present(a) + Present(b)
    decreases |a|
  {
    if a == [] {
      assert a + b == b;
    } else {
      assert (a + b)[0] == a[0];
      assert (a + b)[1..] == a[1..] + b;
      PresentAppend(a[1..], b);
    }
  }

  /** A single entry is kept exactly when it is present. */
  lemma PresentSingle(v: Vertex)
    ensures Present([v]) == if v.Some? then [v.value] else []
  {
    assert [v][1..] == [];
  }

  /**
   Two present entries of the outline appear in the filtered ring in the
   order they had: entry `i` before entry `j` whenever `i < j`.
   */
  lemma PresentKeepsOrder(vs: seq<Vertex>, i: nat, j: nat)
    requires i < j < |vs| && vs[i].Some? && vs[j].Some?
    ensures exists a, b :: 0 <= a < b < |Present(vs)| && Present(vs)[a] == vs[i].value && Present(vs)[b] == vs[j].value
  {
    var front, mid, back := vs[..i], vs[i + 1..j], vs[j + 1..];
    assert vs == front + [vs[i]] + mid + [vs[j]] + back;
    PresentAppend(front + [vs[i]] + mid + [vs[j]], back);
    PresentAppend(front + [vs[i]] + mid, [vs[j]]);
    PresentAppend(front + [vs[i]], mid);
    PresentAppend(front, [vs[i]]);
    PresentSingle(vs[i]);
    PresentSingle(vs[j]);
    var a := |Present(front)|;
    var b := |Present(front)| + 1 + |Present(mid)|;
    assert Present(vs) == Present(front) + [vs[i].value] + Present(mid) + [vs[j].value] + Present(back);
    assert Present(vs)[a] == vs[i].value;
    assert Present(vs)[b] == vs[j].value;
  }

  /** Filtering keeps exactly the entries that are present, so its length counts them. */
  lemma {:induction false} PresentLength(vs: seq<Vertex>)
    ensures |Present(vs)| == |vs| - CountMissing(vs)
  {
    if vs != [] {
      PresentLength(vs[1..]);
    }
  }

  function CountMissing(vs: seq<Vertex>): nat
  {
    if vs == [] then 0 else (if vs[0].None? then 1 else 0) + CountMissing(vs[1..])
  }
}
