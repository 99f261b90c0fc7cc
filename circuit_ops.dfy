/** The circuit snapshots the hook builds: each operation takes the current
    circuit and returns the next one. */
module CircuitOps {
  import opened CircuitTypes
  import opened Identifiers
  import opened ComponentLibrary
  import opened PinLookup
  import opened WireRenderer
  import opened Seqs

  /** The circuit the hook starts with: a test LED and a test resistor, no
      wires, scale 1 at offset (0, 0). The resistor's pins are at (-30, 0)
      and (30, 0), not at the catalog's offsets, and the LED carries an
      extra `isOn` property. */
  function InitialCircuit(): Circuit
  {
    Circuit(
      "main-circuit", "Main Circuit",
      [ Component(
          "test-led-1", "led", Point(200, 150), 0,
          [ Pin("test-led-1-pin-0", "Anode", InputPin, Point(0, 0), false, false),
            Pin("test-led-1-pin-1", "Cathode", OutputPin, Point(40, 0), false, false) ],
          map["color" := Text("red"), "forwardVoltage" := Number(2.1), "isOn" := Flag(false)],
          Some("LED")),
        Component(
          "test-resistor-1", "resistor", Point(300, 250), 0,
          [ Pin("test-resistor-1-pin-0", "A", BidirectionalPin, Point(-30, 0), false, false),
            Pin("test-resistor-1-pin-1", "B", BidirectionalPin, Point(30, 0), false, false) ],
          map["value" := Text("1k"), "tolerance" := Text("5%")],
          Some("Resistor")) ],
      [],
      Canvas(1.0, Point(0, 0)))
  }

  // ---------------------------------------------------------------- add

  /** The catalog's pin templates, each given an id, connected = false and
      value = false. */
  function InstantiatePins(templates: seq<PinTemplate>, tag: string, now: nat): seq<Pin>
  {
    seq(|templates|, i requires 0 <= i < |templates| =>
      Pin(PinIdFor(tag, now, i), templates[i].name, templates[i].role, templates[i].position, false, false))
  }

  /** A new component of a catalog definition at (x, y). */
  function Instantiate(def: ComponentDefinition, tag: string, x: int, y: int, now: nat): Component
  {
    Component(ComponentIdFor(tag, now), tag, Point(x, y), 0,
      InstantiatePins(def.pins, tag, now), def.defaultProperties, Some(def.name))
  }

  /** The new component is at (x, y) with rotation 0, the catalog defaults as
      properties and the definition name as label; its pins follow the
      catalog templates in count, order, name, role and offset, none is
      connected or set, and their ids are distinct. */
  lemma InstantiateFollowsTemplate(def: ComponentDefinition, tag: string, x: int, y: int, now: nat)
    ensures var c := Instantiate(def, tag, x, y, now);
      c.id == ComponentIdFor(tag, now) && c.tag == tag && c.position == Point(x, y) &&
      c.rotation == 0 && c.properties == def.defaultProperties && c.labelText == Some(def.name)
    ensures var c := Instantiate(def, tag, x, y, now);
      |c.pins| == |def.pins| &&
      (forall i :: 0 <= i < |c.pins| ==>
        TemplateOf(c.pins[i]) == def.pins[i] && !c.pins[i].connected && !c.pins[i].value)
    ensures var c := Instantiate(def, tag, x, y, now);
      forall i, j :: 0 <= i < j < |c.pins| ==> c.pins[i].id != c.pins[j].id
  {
    var c := Instantiate(def, tag, x, y, now);
    forall i, j | 0 <= i < j < |c.pins| ensures c.pins[i].id != c.pins[j].id {
      if c.pins[i].id == c.pins[j].id {
        PinIdForInjective(tag, now, i, j);
      }
    }
  }

  /** `addComponent(type, x, y)`: appends an instance of the catalog entry,
      or leaves the circuit as it is when the tag has no entry. */
  function WithComponentAdded(c: Circuit, tag: string, x: int, y: int, now: nat): Circuit
  {
    match GetComponentDefinition(tag)
    case None => c
    case Some(def) => c.(components := c.components + [Instantiate(def, tag, x, y, now)])
  }

  /** What `addComponent` returns: the new id, or nothing. */
  function AddedComponentId(tag: string, now: nat): (r: Option<string>)
    ensures r.Some? <==> GetComponentDefinition(tag).Some?
  {
    if GetComponentDefinition(tag).Some? then Some(ComponentIdFor(tag, now)) else None
  }

  /** A tag without an entry changes nothing. A known one appends exactly
      one component, at the end, whose id is the one returned; the existing
      components, the wires and the canvas stay as they were. */
  lemma AddComponentEffect(c: Circuit, tag: string, x: int, y: int, now: nat)
    ensures GetComponentDefinition(tag).None? ==> WithComponentAdded(c, tag, x, y, now) == c
    ensures GetComponentDefinition(tag).Some? ==>
      var r := WithComponentAdded(c, tag, x, y, now);
      |r.components| == |c.components| + 1 &&
      r.components[..|c.components|] == c.components &&
      r.components[|c.components|] == Instantiate(GetComponentDefinition(tag).value, tag, x, y, now) &&
      Some(r.components[|c.components|].id) == AddedComponentId(tag, now) &&
      r.wires == c.wires && r.canvas == c.canvas && r.id == c.id && r.name == c.name
  {
    if GetComponentDefinition(tag).Some? {
      var r := WithComponentAdded(c, tag, x, y, now);
      assert r.components[..|c.components|] == c.components;
    }
  }

  /** Of the declared types, only 'inductor' fails to place. */
  lemma AddDeclaredType(c: Circuit, t: ComponentType, x: int, y: int, now: nat)
    ensures WithComponentAdded(c, TypeTag(t), x, y, now) == c <==> t == Inductor
  {
    DefinedExactlyForAllButInductor(t);
    var r := WithComponentAdded(c, TypeTag(t), x, y, now);
    if t != Inductor {
      assert |r.components| == |c.components| + 1;
    }
  }

  // ------------------------------------------------------------- remove

  /** `components.find(c => c.id === id)`: the first component with the
      id. */
  function FindComponent(cs: seq<Component>, id: string): (r: Option<Component>)
    ensures r.Some? ==> r.value in cs && r.value.id == id
    ensures r.Some? ==>
      exists k :: 0 <= k < |cs| && cs[k] == r.value && forall m :: 0 <= m < k ==> cs[m].id != id
    ensures r.None? <==> forall k :: 0 <= k < |cs| ==> cs[k].id != id
  {
    if cs == [] then None
    else if cs[0].id == id then Some(cs[0])
    else FindComponent(cs[1..], id)
  }

  /** `components.filter(c => c.id !== id)`. */
  function WithoutComponent(cs: seq<Component>, id: string): (r: seq<Component>)
    ensures forall x :: x in r <==> x in cs && x.id != id
    ensures IsSubsequence(r, cs)
  {
    if cs == [] then []
    else if cs[0].id == id then WithoutComponent(cs[1..], id)
    else [cs[0]] + WithoutComponent(cs[1..], id)
  }

  /** `pins.some(p => p.id === w.fromPin || p.id === w.toPin)`. */
  function TouchesWire(pins: seq<Pin>, w: Wire): (r: bool)
    ensures r <==> exists j :: 0 <= j < |pins| && (pins[j].id == w.fromPin || pins[j].id == w.toPin)
  {
    if pins == [] then false
    else pins[0].id == w.fromPin || pins[0].id == w.toPin || TouchesWire(pins[1..], w)
  }

  /** A wire survives unless it touches a pin of the removed component;
      when no component had the id, every wire survives. */
  predicate Survives(removed: Option<Component>, w: Wire)
  {
    removed.None? || !TouchesWire(removed.value.pins, w)
  }

  /** `wires.filter(w => !removed?.pins.some(...))`. */
  function SurvivingWires(ws: seq<Wire>, removed: Option<Component>): (r: seq<Wire>)
    ensures forall w :: w in r <==> w in ws && Survives(removed, w)
    ensures IsSubsequence(r, ws)
  {
    if ws == [] then []
    else if Survives(removed, ws[0]) then [ws[0]] + SurvivingWires(ws[1..], removed)
    else SurvivingWires(ws[1..], removed)
  }

  /** Each component without the id is kept as often as it occurs; none
      with the id is kept. */
  lemma {:induction false} WithoutComponentCounts(cs: seq<Component>, id: string)
    ensures forall x :: multiset(WithoutComponent(cs, id))[x] == if x.id != id then multiset(cs)[x] else 0
  {
    if cs != [] {
      assert cs == [cs[0]] + cs[1..];
      WithoutComponentCounts(cs[1..], id);
    }
  }

  /** Each surviving wire is kept as often as it occurs; no other wire is
      kept. */
  lemma {:induction false} SurvivingWiresCounts(ws: seq<Wire>, removed: Option<Component>)
    ensures forall w :: multiset(SurvivingWires(ws, removed))[w] == if Survives(removed, w) then multiset(ws)[w] else 0
  {
    if ws != [] {
      assert ws == [ws[0]] + ws[1..];
      SurvivingWiresCounts(ws[1..], removed);
    }
  }

  /** `removeComponent(id)`: every component with the id goes; the wires
      touching a pin of the first component with the id go with it. */
  function WithComponentRemoved(c: Circuit, id: string): Circuit
  {
    c.(components := WithoutComponent(c.components, id),
       wires := SurvivingWires(c.wires, FindComponent(c.components, id)))
  }

  /** No component with the id is left and the others stay, each as often
      as before and in order; the wires touching a pin of the first
      component with the id are dropped and the others stay, each as often
      as before and in order; the canvas is unchanged. */
  lemma RemoveComponentEffect(c: Circuit, id: string)
    ensures var r := WithComponentRemoved(c, id);
      (forall x :: x in r.components ==> x.id != id) &&
      (forall x: Component :: x.id != id ==> multiset(r.components)[x] == multiset(c.components)[x]) &&
      IsSubsequence(r.components, c.components)
    ensures var r := WithComponentRemoved(c, id);
      var removed := FindComponent(c.components, id);
      (forall w :: multiset(r.wires)[w] ==
        if removed.Some? && TouchesWire(removed.value.pins, w) then 0 else multiset(c.wires)[w]) &&
      IsSubsequence(r.wires, c.wires)
    ensures var r := WithComponentRemoved(c, id);
      r.canvas == c.canvas && r.id == c.id && r.name == c.name
  {
    WithoutComponentCounts(c.components, id);
    SurvivingWiresCounts(c.wires, FindComponent(c.components, id));
  }

  lemma {:induction false} WithoutAbsentComponent(cs: seq<Component>, id: string)
    requires forall k :: 0 <= k < |cs| ==> cs[k].id != id
    ensures WithoutComponent(cs, id) == cs
  {
    if cs != [] {
      WithoutAbsentComponent(cs[1..], id);
      assert [cs[0]] + cs[1..] == cs;
    }
  }

  lemma {:induction false} AllWiresSurvive(ws: seq<Wire>)
    ensures SurvivingWires(ws, None) == ws
  {
    if ws != [] {
      AllWiresSurvive(ws[1..]);
      assert [ws[0]] + ws[1..] == ws;
    }
  }

  /** Removing an id no component has changes nothing. */
  lemma RemoveAbsentComponent(c: Circuit, id: string)
    requires forall k :: 0 <= k < |c.components| ==> c.components[k].id != id
    ensures WithComponentRemoved(c, id) == c
  {
    WithoutAbsentComponent(c.components, id);
    AllWiresSurvive(c.wires);
  }

  // --------------------------------------------------------------- move

  /** `moveComponent(id, x, y)`. */
  function WithComponentMoved(c: Circuit, id: string, x: int, y: int): Circuit
  {
    c.(components := seq(|c.components|, i requires 0 <= i < |c.components| =>
      if c.components[i].id == id then c.components[i].(position := Point(x, y)) else c.components[i]))
  }

  /** Only the position of the components with the id changes: list length
      and order, every other component and every wire (cached points
      included) stay as they were. */
  lemma MoveComponentEffect(c: Circuit, id: string, x: int, y: int)
    ensures var r := WithComponentMoved(c, id, x, y);
      |r.components| == |c.components| &&
      (forall i :: 0 <= i < |c.components| ==>
        r.components[i].(position := c.components[i].position) == c.components[i] &&
        r.components[i].position == if c.components[i].id == id then Point(x, y) else c.components[i].position)
    ensures var r := WithComponentMoved(c, id, x, y);
      r.wires == c.wires && r.canvas == c.canvas && r.id == c.id && r.name == c.name
  {
  }

  /** After a move the renderer draws the moved component's pins from the
      new position while every other pin stays put; the wire's cached
      points are not updated (see MoveComponentEffect). */
  lemma MoveTracksDrawnPins(c: Circuit, id: string, x: int, y: int, pinId: string)
    requires LocatePin(c.components, pinId).Some?
    ensures var r := WithComponentMoved(c, id, x, y);
      var loc := LocatePin(c.components, pinId).value;
      var owner := c.components[loc.component];
      AbsolutePinPosition(r.components, pinId) ==
        if owner.id == id then Add(Point(x, y), owner.pins[loc.pin].position)
        else AbsolutePinPosition(c.components, pinId)
  {
    var r := WithComponentMoved(c, id, x, y);
    var loc := LocatePin(c.components, pinId).value;
    LocatePinSameIds(c.components, r.components, pinId);
    AbsolutePinPositionFirstMatch(c.components, pinId, loc.component, loc.pin);
    AbsolutePinPositionFirstMatch(r.components, pinId, loc.component, loc.pin);
  }

  // ------------------------------------------------------------- canvas

  /** `{ ...canvas, ...updates }` for a partial update: each field given
      replaces the old one, as given; the scale is not clamped. */
  function MergeCanvas(cv: Canvas, scale: Option<real>, offset: Option<Point>): Canvas
  {
    Canvas(if scale.Some? then scale.value else cv.scale,
           if offset.Some? then offset.value else cv.offset)
  }

  /** `updateCircuitCanvas(updates)`. */
  function WithCanvasUpdated(c: Circuit, scale: Option<real>, offset: Option<Point>): Circuit
  {
    c.(canvas := MergeCanvas(c.canvas, scale, offset))
  }

  /** Any scale is stored as given, even outside [0.1, 3.0]; an empty
      update changes nothing; a later update overrides an earlier one field
      by field; nothing but the canvas changes. */
  lemma CanvasUpdateLaws(c: Circuit, s1: Option<real>, o1: Option<Point>, s2: Option<real>, o2: Option<Point>)
    ensures s1.Some? ==> WithCanvasUpdated(c, s1, o1).canvas.scale == s1.value
    ensures WithCanvasUpdated(c, None, None) == c
    ensures WithCanvasUpdated(WithCanvasUpdated(c, s1, o1), s2, o2) ==
      WithCanvasUpdated(c, if s2.Some? then s2 else s1, if o2.Some? then o2 else o1)
    ensures WithCanvasUpdated(c, s1, o1).(canvas := c.canvas) == c
  {
  }

  // --------------------------------------------------------------- wire

  /** Sets `connected` on exactly the pins with either id. */
  function MarkPins(pins: seq<Pin>, a: string, b: string): seq<Pin>
  {
    seq(|pins|, j requires 0 <= j < |pins| =>
      pins[j].(connected := if pins[j].id == a || pins[j].id == b then true else pins[j].connected))
  }

  function MarkConnected(cs: seq<Component>, a: string, b: string): seq<Component>
  {
    seq(|cs|, i requires 0 <= i < |cs| => cs[i].(pins := MarkPins(cs[i].pins, a, b)))
  }

  /** The `setCircuit` callback of `completeWiring`: resolve both pins;
      when both resolve to different components, append a wire whose cached
      points are the two pins' LOCAL offsets and mark both pins connected;
      otherwise leave the circuit as it is. */
  function WithWireConnected(c: Circuit, first: string, second: string, now: nat): Circuit
  {
    var a := ResolvePin(c.components, first);
    var b := ResolvePin(c.components, second);
    if a.None? || b.None? then c
    else if a.value.componentId == b.value.componentId then c
    else c.(wires := c.wires + [Wire(WireIdFor(now), first, second, [a.value.pin.position, b.value.pin.position])],
            components := MarkConnected(c.components, first, second))
  }

  /** The circuit `completeWiring(second)` leaves, given the first pin the
      hook holds: no first pin (or an empty one), or the same pin again,
      leaves the circuit as it is. */
  function CompletedCircuit(c: Circuit, firstPinId: Option<string>, second: string, now: nat): Circuit
  {
    if firstPinId.None? || firstPinId.value == "" || firstPinId.value == second then c
    else WithWireConnected(c, firstPinId.value, second, now)
  }

  /** The four conditions under which completing a wire connects. */
  predicate Connects(c: Circuit, firstPinId: Option<string>, second: string)
  {
    firstPinId.Some? && firstPinId.value != "" && firstPinId.value != second &&
    PinOwner(c.components, firstPinId.value).Some? && PinOwner(c.components, second).Some? &&
    PinOwner(c.components, firstPinId.value) != PinOwner(c.components, second)
  }

  /** A wire is appended exactly when all four conditions hold, and then it
      runs from the first pin to the second; otherwise nothing changes. */
  lemma CompleteWiringAppendsIff(c: Circuit, firstPinId: Option<string>, second: string, now: nat)
    ensures Connects(c, firstPinId, second) <==> |CompletedCircuit(c, firstPinId, second, now).wires| == |c.wires| + 1
    ensures !Connects(c, firstPinId, second) ==> CompletedCircuit(c, firstPinId, second, now) == c
    ensures Connects(c, firstPinId, second) ==>
      var r := CompletedCircuit(c, firstPinId, second, now);
      r.wires[..|c.wires|] == c.wires &&
      r.wires[|c.wires|].id == WireIdFor(now) &&
      r.wires[|c.wires|].fromPin == firstPinId.value && r.wires[|c.wires|].toPin == second &&
      r.canvas == c.canvas && r.id == c.id && r.name == c.name
  {
    if Connects(c, firstPinId, second) {
      var r := CompletedCircuit(c, firstPinId, second, now);
      assert r.wires[..|c.wires|] == c.wires;
    }
  }

  /** When the wire is made, its cached points are the two pins' local
      offsets (not their absolute positions), taken from the first pins
      with those ids. */
  lemma ConnectedWireCachesLocalOffsets(c: Circuit, first: string, second: string, now: nat, i: int, j: int, k: int, l: int)
    requires FirstPinAt(c.components, i, j, first) && FirstPinAt(c.components, k, l, second)
    requires c.components[i].id != c.components[k].id
    ensures var r := WithWireConnected(c, first, second, now);
      |r.wires| == |c.wires| + 1 &&
      r.wires[|c.wires|].points == [c.components[i].pins[j].position, c.components[k].pins[l].position]
  {
    ResolvePinFirstMatch(c.components, first, i, j);
    ResolvePinFirstMatch(c.components, second, k, l);
  }

  /** Connecting marks exactly the pins with the two ids connected: every
      other pin keeps its flag, and nothing else about any pin or component
      changes. */
  lemma ConnectMarksExactlyBothPins(c: Circuit, first: string, second: string, now: nat)
    requires PinOwner(c.components, first).Some? && PinOwner(c.components, second).Some?
    requires PinOwner(c.components, first) != PinOwner(c.components, second)
    ensures var r := WithWireConnected(c, first, second, now);
      |r.components| == |c.components| &&
      forall i :: 0 <= i < |c.components| ==>
        r.components[i].(pins := c.components[i].pins) == c.components[i] &&
        |r.components[i].pins| == |c.components[i].pins| &&
        forall j :: 0 <= j < |c.components[i].pins| ==>
          var p := c.components[i].pins[j];
          r.components[i].pins[j] == p.(connected := p.id == first || p.id == second || p.connected)
  {
  }

  /** A pin cannot be wired to itself: both ends resolve to one owner. */
  lemma ConnectSamePinRejected(c: Circuit, pinId: string, now: nat)
    ensures WithWireConnected(c, pinId, pinId, now) == c
  {
  }
}
