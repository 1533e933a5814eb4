/**
 * A hotspot marker: a clickable annotation fixed at one position of the hull.
 * Each marker owns its own state, changed by three kinds of event: a click on
 * the marker, the settling of a fetch of the data endpoint, and the 5-second
 * tick of its display timer (which only exists while the info panel is open).
 * A fourth event, the camera spring coming to rest, clears the flight target.
 */
module Hotspot {
  import opened Wrappers
  import opened MarkerData
  import RoundRobin

  datatype Vec3 = Vec3(x: real, y: real, z: real)

  /** `Vector3.add`, componentwise. */
  function Add(a: Vec3, b: Vec3): (c: Vec3)
    ensures c.x == a.x + b.x && c.y == a.y + b.y && c.z == a.z + b.z
  {
    Vec3(a.x + b.x, a.y + b.y, a.z + b.z)
  }

  /** Where the camera sits relative to the point it flies to. */
  const CameraOffset: Vec3 := Vec3(-5.0, 3.0, 6.0)

  /** The destination of a camera flight: a camera position and a look-at point. */
  datatype Flight = Flight(cameraPosition: Vec3, lookAt: Vec3)

  /**
   * The flight started when a target is set: look at the target, from the
   * target moved by the fixed offset; the camera ends up 5 units to the -x
   * side, 3 above and 6 to the +z side of the point it looks at.
   */
  function FlightTo(target: Vec3): (f: Flight)
    ensures f.lookAt == target
    ensures f.cameraPosition == Add(target, CameraOffset)
    ensures f.cameraPosition.x == target.x - 5.0 && f.cameraPosition.y == target.y + 3.0
    ensures f.cameraPosition.z == target.z + 6.0
  {
    Flight(Add(target, CameraOffset), target)
  }

  /** `resistance[currentIndex]` as rendered: an index past the end reads `undefined`. */
  function At(series: seq<Field>, index: nat): (f: Field)
    ensures index < |series| ==> f == series[index]
    ensures index >= |series| ==> f == Undefined
  {
    if index < |series| then series[index] else Undefined
  }

  class Marker {
    const position: Vec3
    const text: string

    var isInfoVisible: bool
    var targetPosition: Option<Vec3>
    var description: string
    var resistance: seq<Field>
    var corrosion: seq<Field>
    var currentIndex: nat

    /**
     * The shape every event keeps: the two series have the same length (empty
     * before the first fetch settles, then 10 or 1); the description is empty
     * or the marker's own; a flight target is always the marker's own position.
     */
    ghost predicate Valid()
      reads this
    {
      && |resistance| == |corrosion|
      && |resistance| in {0, 1, 10}
      && (description == "" || description == Description(text))
      && (isInfoVisible ==> description == Description(text))
      && (targetPosition.Some? ==> targetPosition.value == position)
    }

    /** A marker as first rendered: collapsed, no data, index 0, no target. */
    constructor (position: Vec3, text: string)
      ensures Valid()
      ensures this.position == position && this.text == text
      ensures !isInfoVisible && targetPosition == None && description == ""
      ensures resistance == [] && corrosion == [] && currentIndex == 0
    {
      this.position := position;
      this.text := text;
      isInfoVisible := false;
      targetPosition := None;
      description := "";
      resistance := [];
      corrosion := [];
      currentIndex := 0;
    }

    /**
     * `handleClick`: toggle the panel, target the marker's own position (on
     * expand and on collapse alike) and set the description from the table.
     * The effects that follow the click are returned: a fetch is issued exactly
     * when the panel has just become visible, and every click starts a camera
     * flight, since every click sets a freshly built target vector.
     */
    method Click() returns (fetchIssued: bool, flight: Flight)
      requires Valid()
      modifies this
      ensures Valid()
      ensures isInfoVisible == !old(isInfoVisible)
      ensures targetPosition == Some(position)
      ensures description == Description(text)
      ensures resistance == old(resistance) && corrosion == old(corrosion)
      ensures currentIndex == old(currentIndex)
      ensures fetchIssued == isInfoVisible
      ensures flight == FlightTo(position)
    {
      targetPosition := Some(position);
      isInfoVisible := !isInfoVisible;
      description := Description(text);
      fetchIssued := isInfoVisible;
      flight := FlightTo(targetPosition.value);
    }

    /**
     * A fetch issued by an earlier expand settles. Its result is stored whether
     * or not the panel is still open, and the display index is not clamped.
     */
    method FetchSettled(outcome: FetchOutcome)
      requires Valid()
      modifies this
      ensures Valid()
      ensures resistance == ReadingsFor(outcome, text).resistance
      ensures corrosion == ReadingsFor(outcome, text).corrosion
      ensures isInfoVisible == old(isInfoVisible) && targetPosition == old(targetPosition)
      ensures description == old(description) && currentIndex == old(currentIndex)
    {
      var readings := ReadingsFor(outcome, text);
      resistance := readings.resistance;
      corrosion := readings.corrosion;
    }

    /**
     * The 5-second timer fires: `(prevIndex + 1) % resistance.length` while the
     * panel is open; a collapsed marker has no timer, so nothing changes.
     */
    method Tick()
      requires Valid()
      requires isInfoVisible ==> |resistance| > 0
      modifies this
      ensures Valid()
      ensures isInfoVisible == old(isInfoVisible) && targetPosition == old(targetPosition)
      ensures description == old(description)
      ensures resistance == old(resistance) && corrosion == old(corrosion)
      ensures currentIndex == if isInfoVisible then RoundRobin.Advance(old(currentIndex), |resistance|)
                              else old(currentIndex)
      ensures isInfoVisible ==> currentIndex < |resistance| && currentIndex < |corrosion|
    {
      if isInfoVisible {
        currentIndex := RoundRobin.Advance(currentIndex, |resistance|);
      }
    }

    /** The camera spring settles: the target is cleared so the marker can fly again. */
    method Rest()
      requires Valid()
      modifies this
      ensures Valid()
      ensures targetPosition == None
      ensures isInfoVisible == old(isInfoVisible) && description == old(description)
      ensures resistance == old(resistance) && corrosion == old(corrosion)
      ensures currentIndex == old(currentIndex)
    {
      targetPosition := None;
    }

    /** The "Resistance:" line of the open panel, shown while the series is non-empty. */
    function ResistanceShown(): (line: Option<Field>)
      reads this
      ensures line.Some? <==> isInfoVisible && |resistance| > 0
      ensures line.Some? && currentIndex < |resistance| ==> line.value == resistance[currentIndex]
      ensures line.Some? && currentIndex >= |resistance| ==> line.value == Undefined
    {
      if isInfoVisible && |resistance| > 0 then Some(At(resistance, currentIndex)) else None
    }

    /** The "Corrosion:" line of the open panel, shown while the series is non-empty. */
    function CorrosionShown(): (line: Option<Field>)
      reads this
      ensures line.Some? <==> isInfoVisible && |corrosion| > 0
      ensures line.Some? && currentIndex < |corrosion| ==> line.value == corrosion[currentIndex]
      ensures line.Some? && currentIndex >= |corrosion| ==> line.value == Undefined
    {
      if isInfoVisible && |corrosion| > 0 then Some(At(corrosion, currentIndex)) else None
    }
  }

  /**
   * Right after a tick of an open marker whose data has arrived, both lines of
   * the panel show an actual entry of their series, at the same position.
   */
  method TickThenRead(m: Marker) returns (r: Field, c: Field)
    requires m.Valid() && m.isInfoVisible && |m.resistance| > 0
    modifies m
    ensures m.Valid()
    ensures m.currentIndex < |m.resistance| && m.currentIndex < |m.corrosion|
    ensures r == m.resistance[m.currentIndex] && c == m.corrosion[m.currentIndex]
    ensures m.ResistanceShown() == Some(r) && m.CorrosionShown() == Some(c)
  {
    m.Tick();
    r := m.ResistanceShown().value;
    c := m.CorrosionShown().value;
  }

  /** The five markers of the scene, with their fixed positions and labels. */
  const SceneHotspots: seq<(Vec3, string)> := [
    (Vec3(-4.8, -1.0, 0.0), "Keel"),
    (Vec3(-4.9, 0.5, 5.0), "Waterline"),
    (Vec3(-4.0, -2.0, 17.0), "Propeller"),
    (Vec3(-1.5, -1.0, -14.5), "Bow Thruster"),
    (Vec3(-4.5, -1.0, 12.0), "Engine")
  ]

  /** Every marker of the scene has a description, and every description has a marker. */
  lemma SceneHotspotsDescribed()
    ensures forall k :: 0 <= k < |SceneHotspots| ==> Description(SceneHotspots[k].1) != ""
    ensures forall t :: t in KnownLabels ==> exists k :: 0 <= k < |SceneHotspots| && SceneHotspots[k].1 == t
  {
    assert SceneHotspots[0].1 == "Keel";
    assert SceneHotspots[1].1 == "Waterline";
    assert SceneHotspots[2].1 == "Propeller";
    assert SceneHotspots[3].1 == "Bow Thruster";
    assert SceneHotspots[4].1 == "Engine";
  }
}
