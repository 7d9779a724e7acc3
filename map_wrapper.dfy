/**
 The editing state of the mission planner (`MapWrapper`) and its event
 handlers. Every handler is a transition over the component's state fields.
 */
module MapWrapper {
  import opened Wrappers
  import opened Geometry
  import opened MissionSequence
  import Features

  /** `drawingMode`: `null`, 'LineString' or 'Polygon'. */
  datatype DrawingMode = NoDrawing | LineString | Polygon

  class Editor {
    var drawingMode: DrawingMode
    var coordinates: seq<Slot>            // the mission being edited
    var polygonCoordinates: seq<Point>    // the ring being drawn
    var showMissionModal: bool
    var showPolygonModal: bool
    var insertPosition: InsertPosition
    var missions: seq<seq<Slot>>
    var activeMission: Option<seq<Slot>>
    var clearMap: Features.FeatureSource?  // what `clearMapRef.current` clears, once the map has registered it

    /**
     Every stored polygon has a vertex, so the array test reads it as a
     polygon; the mission on display is one of the stored missions.
     */
    ghost predicate Valid()
      reads this
    {
      && WellFormed(coordinates)
      && (forall k :: 0 <= k < |missions| ==> WellFormed(missions[k]))
      && (activeMission.Some? ==> activeMission.value in missions)
    }

    /** The initial state of every `useState` and of `clearMapRef`. */
    constructor()
      ensures Valid()
      ensures drawingMode == NoDrawing && coordinates == [] && polygonCoordinates == []
      ensures !showMissionModal && !showPolygonModal && insertPosition == NoInsertPosition
      ensures missions == [] && activeMission == None && clearMap == null
    {
      drawingMode := NoDrawing;
      coordinates := [];
      polygonCoordinates := [];
      showMissionModal := false;
      showPolygonModal := false;
      insertPosition := NoInsertPosition;
      missions := [];
      activeMission := None;
      clearMap := null;
    }

    /** The map hands over its clear function (`onClearMap`). */
    method ConnectMap(source: Features.FeatureSource)
      requires Valid()
      modifies this
      ensures Valid() && clearMap == source
      ensures drawingMode == old(drawingMode) && coordinates == old(coordinates)
      ensures polygonCoordinates == old(polygonCoordinates) && insertPosition == old(insertPosition)
      ensures showMissionModal == old(showMissionModal) && showPolygonModal == old(showPolygonModal)
      ensures missions == old(missions) && activeMission == old(activeMission)
    {
      clearMap := source;
    }

    /** `handleDrawClick`: start drawing a route; the mission so far is kept, the map is cleared. */
    method DrawClick()
      requires Valid()
      modifies this, clearMap
      ensures Valid() && clearMap == old(clearMap)
      ensures drawingMode == LineString && showMissionModal
      ensures clearMap != null ==> clearMap.features == []
      ensures coordinates == old(coordinates) && polygonCoordinates == old(polygonCoordinates)
      ensures showPolygonModal == old(showPolygonModal) && insertPosition == old(insertPosition)
      ensures missions == old(missions) && activeMission == old(activeMission)
    {
      drawingMode := LineString;
      showMissionModal := true;
      if clearMap != null {
        clearMap.Clear();
      }
    }

    /** `handleCloseModal`: hide the mission modal and stop drawing. */
    method CloseModal()
      requires Valid()
      modifies this
      ensures Valid()
      ensures !showMissionModal && drawingMode == NoDrawing
      ensures coordinates == old(coordinates) && polygonCoordinates == old(polygonCoordinates)
      ensures showPolygonModal == old(showPolygonModal) && insertPosition == old(insertPosition)
      ensures missions == old(missions) && activeMission == old(activeMission) && clearMap == old(clearMap)
    {
      showMissionModal := false;
      drawingMode := NoDrawing;
    }

    /** `handleClosePolygonModal` (Discard): back to the mission modal; the mission and the mode stay as they are. */
    method ClosePolygonModal()
      requires Valid()
      modifies this
      ensures Valid()
      ensures !showPolygonModal && showMissionModal
      ensures coordinates == old(coordinates) && drawingMode == old(drawingMode)
      ensures polygonCoordinates == old(polygonCoordinates) && insertPosition == old(insertPosition)
      ensures missions == old(missions) && activeMission == old(activeMission) && clearMap == old(clearMap)
    {
      showPolygonModal := false;
      showMissionModal := true;
    }

    /** `handleDrawComplete`: a route update replaces the whole mission with the drawn waypoints. */
    method DrawComplete(route: seq<Point>)
      requires Valid()
      modifies this
      ensures Valid()
      ensures coordinates == RouteSlots(route)
      ensures drawingMode == old(drawingMode) && polygonCoordinates == old(polygonCoordinates)
      ensures showMissionModal == old(showMissionModal) && showPolygonModal == old(showPolygonModal)
      ensures insertPosition == old(insertPosition)
      ensures missions == old(missions) && activeMission == old(activeMission) && clearMap == old(clearMap)
    {
      coordinates := RouteSlots(route);
    }

    /** `handelFinishDrawing`: leave drawing mode. */
    method FinishDrawing()
      requires Valid()
      modifies this
      ensures Valid()
      ensures drawingMode == NoDrawing
      ensures coordinates == old(coordinates) && polygonCoordinates == old(polygonCoordinates)
      ensures showMissionModal == old(showMissionModal) && showPolygonModal == old(showPolygonModal)
      ensures insertPosition == old(insertPosition)
      ensures missions == old(missions) && activeMission == old(activeMission) && clearMap == old(clearMap)
    {
      drawingMode := NoDrawing;
    }

    /** `handlePolygonComplete`: a ring update replaces the ring being drawn. */
    method PolygonComplete(ring: seq<Point>)
      requires Valid()
      modifies this
      ensures Valid()
      ensures polygonCoordinates == ring
      ensures drawingMode == old(drawingMode) && coordinates == old(coordinates)
      ensures showMissionModal == old(showMissionModal) && showPolygonModal == old(showPolygonModal)
      ensures insertPosition == old(insertPosition)
      ensures missions == old(missions) && activeMission == old(activeMission) && clearMap == old(clearMap)
    {
      polygonCoordinates := ring;
    }

    /** `handleInsertPolygon`: switch to polygon drawing and remember where the polygon goes. */
    method InsertPolygon(index: int, position: Position)
      requires Valid()
      modifies this
      ensures Valid()
      ensures drawingMode == Polygon && !showMissionModal && showPolygonModal
      ensures insertPosition == InsertPosition(index, position)
      ensures coordinates == old(coordinates) && polygonCoordinates == old(polygonCoordinates)
      ensures missions == old(missions) && activeMission == old(activeMission) && clearMap == old(clearMap)
    {
      drawingMode := Polygon;
      showMissionModal := false;
      showPolygonModal := true;
      insertPosition := InsertPosition(index, position);
    }

    /**
     `handleImportPoints`: splice the ring into the mission at the recorded
     position and return to the mission modal. The polygon modal only
     offers Import with at least one vertex.
     */
    method ImportPoints(ring: seq<Point>)
      requires Valid() && |ring| > 0
      modifies this
      ensures Valid()
      ensures drawingMode == NoDrawing && !showPolygonModal && showMissionModal
      ensures coordinates == Splice(old(coordinates), old(insertPosition), Poly(ring))
      ensures polygonCoordinates == old(polygonCoordinates) && insertPosition == old(insertPosition)
      ensures missions == old(missions) && activeMission == old(activeMission) && clearMap == old(clearMap)
    {
      showPolygonModal := false;
      showMissionModal := true;
      drawingMode := NoDrawing;
      SpliceWellFormed(coordinates, insertPosition, ring);
      coordinates := Splice(coordinates, insertPosition, Poly(ring));
    }

    /** `handleGenerateData`: store the mission as the newest one and start a new, empty mission. */
    method GenerateData()
      requires Valid()
      modifies this, clearMap
      ensures Valid() && clearMap == old(clearMap)
      ensures missions == old(missions) + [old(coordinates)]
      ensures coordinates == [] && !showMissionModal
      ensures clearMap != null ==> clearMap.features == []
      ensures drawingMode == old(drawingMode) && polygonCoordinates == old(polygonCoordinates)
      ensures showPolygonModal == old(showPolygonModal) && insertPosition == old(insertPosition)
      ensures activeMission == old(activeMission)
    {
      missions := missions + [coordinates];
      coordinates := [];
      showMissionModal := false;
      if clearMap != null {
        clearMap.Clear();
      }
    }

    /** `handleShowMission`: display the stored mission at `index`; an index outside the list reads `undefined`. */
    method ShowMission(index: int)
      requires Valid()
      modifies this
      ensures Valid()
      ensures 0 <= index < |missions| ==> activeMission == Some(missions[index])
      ensures !(0 <= index < |missions|) ==> activeMission == None
      ensures missions == old(missions) && coordinates == old(coordinates)
      ensures drawingMode == old(drawingMode) && polygonCoordinates == old(polygonCoordinates)
      ensures showMissionModal == old(showMissionModal) && showPolygonModal == old(showPolygonModal)
      ensures insertPosition == old(insertPosition) && clearMap == old(clearMap)
    {
      activeMission := if 0 <= index < |missions| then Some(missions[index]) else None;
    }
  }

  /**
   A worked example: a three-entry route with a polygon spliced after its
   first entry, stored into an empty list, is stored exactly as [first,
   polygon, second, third].
   */
  method StoreSpliced(editor: Editor, route: seq<Slot>, ring: seq<Point>) returns (mission: seq<Slot>)
    requires editor.Valid() && editor.clearMap == null && |route| == 3 && |ring| > 0
    requires editor.missions == [] && editor.coordinates == Splice(route, InsertPosition(0, After), Poly(ring))
    modifies editor
    ensures editor.Valid() && mission == [route[0], Poly(ring), route[1], route[2]]
    ensures editor.missions == [mission] && editor.coordinates == []
  {
    mission := [route[0], Poly(ring), route[1], route[2]];
    assert |editor.coordinates| == 4 && editor.coordinates[1] == Poly(ring);
    assert editor.coordinates[0] == route[0] && editor.coordinates[2] == route[1] && editor.coordinates[3] == route[2];
    assert editor.coordinates == mission;
    editor.GenerateData();
  }
}
