/**
 The mission modal: the waypoint table derived from the mission, the
 Generate button's enabling rule, and the per-row action menu.
 */
module MissionModal {
  import opened Wrappers
  import opened Geometry
  import opened Labels
  import opened MissionSequence
  import MapWrapper

  /** The second cell: "Polygon <group>" for a polygon, the formatted coordinates of the entry otherwise. */
  datatype Description = PolygonName(group: nat) | Coordinates(item: Slot)

  /** The distance cell: '--' or the distance in metres. */
  datatype DistanceCell = Dashes | Meters(value: real)

  datatype Row = Row(number: string, description: Description, distance: DistanceCell)

  /**
   `calculateDistance(prevCoord, item)` for two entries read as points. Two
   coordinate pairs give `dist` of them; an empty ring read as a point has
   no coordinates and gives NaN, here `None`.
   */
  function Distance(dist: (Point, Point) -> real, prev: Slot, item: Slot): Option<real>
  {
    if prev.Pt? && item.Pt? then Some(dist(prev.at, item.at)) else None
  }

  /** `distance ? distance.toFixed(1) : '--'`: `null`, NaN and 0 are all falsy. */
  function Cell(d: Option<real>): DistanceCell
  {
    if d.Some? && d.value != 0.0 then Meters(d.value) else Dashes
  }

  /**
   The row rendered for the entry at index `i`. It is a polygon row exactly
   when the entry's first element is an array; it is numbered by its
   position; a distance is shown only after a point and only when it is
   non-zero, so the first row and every row after a polygon show '--'.
   */
  function RowAt(c: seq<Slot>, i: nat, dist: (Point, Point) -> real): (r: Row)
    requires i < |c|
    ensures r.description.PolygonName? <==> IsPolygonSlot(c[i])
    ensures r.description.Coordinates? ==> r.description.item == c[i]
    ensures r.number == RowNumber(i)
    ensures |r.number| >= 2 && IsDigits(r.number) && Value(r.number) == i + 1
    ensures IsPolygonSlot(c[i]) ==> r.distance == Dashes && r.description.group == i / 2 + 1
    ensures i == 0 ==> r.distance == Dashes
    ensures i > 0 && IsPolygonSlot(c[i - 1]) ==> r.distance == Dashes
    ensures i > 0 ==> (r.distance.Meters? <==> c[i - 1].Pt? && c[i].Pt? && dist(c[i - 1].at, c[i].at) != 0.0)
    ensures r.distance.Meters? ==> i > 0 && r.distance.value == dist(c[i - 1].at, c[i].at)
  {
    Row(RowNumber(i), DescriptionAt(c, i), DistanceAt(c, i, dist))
  }

  function DescriptionAt(c: seq<Slot>, i: nat): Description
    requires i < |c|
  {
    if IsPolygonSlot(c[i]) then PolygonName(i / 2 + 1) else Coordinates(c[i])
  }

  /** `prevCoord && !Array.isArray(prevCoord[0])`: `coordinates[-1]` is `undefined` for the first row. */
  function DistanceAt(c: seq<Slot>, i: nat, dist: (Point, Point) -> real): DistanceCell
    requires i < |c|
  {
    if IsPolygonSlot(c[i]) then Dashes
    else Cell(if i > 0 && !IsPolygonSlot(c[i - 1]) then Distance(dist, c[i - 1], c[i]) else None)
  }

  /** `coordinates.map(...)`: one row per entry, in order, no two with the same number. */
  function Rows(c: seq<Slot>, dist: (Point, Point) -> real): (rows: seq<Row>)
    ensures |rows| == |c|
    ensures forall i :: 0 <= i < |c| ==> rows[i] == RowAt(c, i, dist)
    ensures forall i, j :: 0 <= i < j < |c| ==> rows[i].number != rows[j].number
  {
    var rows := seq(|c|, i requires 0 <= i < |c| => RowAt(c, i, dist));
    forall i, j | 0 <= i < j < |c|
      ensures rows[i].number != rows[j].number
    {
      LabelsDistinct(i, j);
    }
    rows
  }

  lemma RowBeforeInsertion(prev: seq<Slot>, j: nat, poly: Slot, k: nat, dist: (Point, Point) -> real)
    requires k < j <= |prev|
    ensures RowAt(InsertAt(prev, j, poly), k, dist) == RowAt(prev, k, dist)
  {
    var r := InsertAt(prev, j, poly);
    assert r[k] == prev[k];
    assert k > 0 ==> r[k - 1] == prev[k - 1];
    assert DescriptionAt(r, k) == DescriptionAt(prev, k);
    assert DistanceAt(r, k, dist) == DistanceAt(prev, k, dist);
  }

  lemma RowAfterInsertion(prev: seq<Slot>, j: nat, poly: Slot, k: nat, dist: (Point, Point) -> real)
    requires j < k < |prev|
    ensures RowAt(InsertAt(prev, j, poly), k + 1, dist).distance == RowAt(prev, k, dist).distance
  {
    var r := InsertAt(prev, j, poly);
    assert r[k + 1] == prev[k] && r[k] == prev[k - 1];
    assert DistanceAt(r, k + 1, dist) == DistanceAt(prev, k, dist);
  }

  /**
   The table after a polygon is imported at the recorded position: the rows
   above it are unchanged, the polygon gets its own row, the entry that
   followed the insertion point loses its distance (its predecessor is now a
   polygon), and every later row shows the distance it showed before, one
   place down; later point rows also show the same coordinates.
   */
  lemma RowsAfterImport(prev: seq<Slot>, at: InsertPosition, ring: seq<Point>, dist: (Point, Point) -> real)
    requires at.position != Unset && |ring| > 0
    ensures var j := InsertedAt(|prev|, at);
      var r := Splice(prev, at, Poly(ring));
      && |r| == |prev| + 1
      && RowAt(r, j, dist).description == PolygonName(j / 2 + 1) && RowAt(r, j, dist).distance == Dashes
      && (forall k :: 0 <= k < j ==> RowAt(r, k, dist) == RowAt(prev, k, dist))
      && (j < |prev| ==> RowAt(r, j + 1, dist).distance == Dashes)
      && (forall k :: j < k < |prev| ==> RowAt(r, k + 1, dist).distance == RowAt(prev, k, dist).distance)
      && (forall k :: j <= k < |prev| && !IsPolygonSlot(prev[k]) ==>
            RowAt(r, k + 1, dist).description == RowAt(prev, k, dist).description)
  {
    var j := InsertedAt(|prev|, at);
    var r := Splice(prev, at, Poly(ring));
    assert r == InsertAt(prev, j, Poly(ring));
    forall k | 0 <= k < j
      ensures RowAt(r, k, dist) == RowAt(prev, k, dist)
    {
      RowBeforeInsertion(prev, j, Poly(ring), k, dist);
    }
    forall k | j < k < |prev|
      ensures RowAt(r, k + 1, dist).distance == RowAt(prev, k, dist).distance
    {
      RowAfterInsertion(prev, j, Poly(ring), k, dist);
    }
  }

  /**
   Polygon names are half the row position, not a count of polygons: two
   polygons in rows `2q` and `2q + 1` are both called "Polygon q + 1".
   */
  lemma AdjacentPolygonsShareName(c: seq<Slot>, q: nat, dist: (Point, Point) -> real)
    requires 2 * q + 1 < |c| && IsPolygonSlot(c[2 * q]) && IsPolygonSlot(c[2 * q + 1])
    ensures RowAt(c, 2 * q, dist).description == RowAt(c, 2 * q + 1, dist).description == PolygonName(q + 1)
  {
    assert DescriptionAt(c, 2 * q) == PolygonName(q + 1);
    assert (2 * q + 1) / 2 == q;
    assert DescriptionAt(c, 2 * q + 1) == PolygonName(q + 1);
  }

  /**
   In a mission whose polygons all have a vertex, which the editor keeps, the
   table shows a polygon row exactly for each polygon entry, always with '--'.
   */
  lemma PolygonRowsOfWellFormed(c: seq<Slot>, i: nat, dist: (Point, Point) -> real)
    requires WellFormed(c) && i < |c|
    ensures RowAt(c, i, dist).description.PolygonName? <==> c[i].Poly?
    ensures c[i].Poly? ==> RowAt(c, i, dist).distance == Dashes
  {
    WellFormedClassification(c, i);
  }

  /** `disabled={coordinates.length === 0}`: Generate Data is offered exactly when the table has a row. */
  function GenerateDisabled(c: seq<Slot>, dist: (Point, Point) -> real): (disabled: bool)
    ensures disabled <==> Rows(c, dist) == []
  {
    |c| == 0
  }

  /** Which row's action menu is open (`openPopover`) and the button it hangs from (`anchorEl`). */
  class ActionMenu {
    var openPopover: Option<nat>
    var anchorEl: Option<nat>  // the row whose menu button was clicked

    /** A menu is anchored exactly at the button of the row it belongs to. */
    ghost predicate Valid()
      reads this
    {
      anchorEl == openPopover
    }

    constructor()
      ensures Valid() && openPopover == None
    {
      openPopover := None;
      anchorEl := None;
    }

    /** `open={openPopover === index}`. */
    predicate IsOpen(index: nat)
      reads this
    {
      openPopover == Some(index)
    }

    /** `handleButtonClick`: the open row's button closes its menu; any other row's button opens that row's menu. */
    method ButtonClick(index: nat)
      requires Valid()
      modifies this
      ensures Valid()
      ensures old(IsOpen(index)) ==> openPopover == None
      ensures !old(IsOpen(index)) ==> IsOpen(index)
      ensures forall k :: k != index ==> !IsOpen(k)
    {
      if openPopover == Some(index) {
        openPopover := None;
        anchorEl := None;
      } else {
        openPopover := Some(index);
        anchorEl := Some(index);
      }
    }

    /** `handleClose`: no menu is left open. */
    method Close()
      requires Valid()
      modifies this
      ensures Valid() && openPopover == None
    {
      anchorEl := None;
      openPopover := None;
    }

    /**
     The two menu items: 'Insert Polygon before' and 'Insert Polygon after'
     ask the editor for a polygon on that side of the row's own entry, then
     close the menu.
     */
    method ChooseItem(editor: MapWrapper.Editor, index: nat, position: Position)
      requires Valid() && editor.Valid() && position != Unset
      modifies this, editor
      ensures Valid() && openPopover == None && editor.Valid()
      ensures editor.insertPosition == InsertPosition(index, position)
      ensures editor.drawingMode == MapWrapper.Polygon && editor.showPolygonModal && !editor.showMissionModal
      ensures editor.coordinates == old(editor.coordinates) && editor.missions == old(editor.missions)
      ensures editor.polygonCoordinates == old(editor.polygonCoordinates)
      ensures editor.activeMission == old(editor.activeMission) && editor.clearMap == old(editor.clearMap)
    {
      editor.InsertPolygon(index, position);
      Close();
    }
  }
}
