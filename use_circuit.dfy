/** The circuit hook: five state cells that its operations overwrite, one
    call at a time. Circuit snapshots are built by the functions of
    CircuitOps; the object invariant is the wiring invariant
    `isWiring <==> firstPinId != null` together with a well-formed circuit. */
module UseCircuit {
  import opened CircuitTypes
  import opened Identifiers
  import opened ComponentLibrary
  import opened PinLookup
  import opened CircuitOps
  import opened WellFormedness

  class CircuitHook {
    var circuit: Circuit
    var selectedComponentId: Option<string>
    var selectedComponentType: Option<ComponentType>
    var isWiring: bool
    var firstPinId: Option<string>

    ghost predicate Valid()
      reads this
    {
      (isWiring <==> firstPinId.Some?) && WellFormed(circuit)
    }

    /** The initial state: the test circuit, nothing selected, idle. */
    constructor ()
      ensures Valid()
      ensures circuit == InitialCircuit()
      ensures selectedComponentId == None && selectedComponentType == None
      ensures !isWiring && firstPinId == None
    {
      circuit := InitialCircuit();
      selectedComponentId := None;
      selectedComponentType := None;
      isWiring := false;
      firstPinId := None;
      InitialCircuitWellFormed();
    }

    /** `addComponent(type, x, y)`, with `now` standing for `Date.now()`. */
    method AddComponent(tag: string, x: int, y: int, now: nat) returns (id: Option<string>)
      requires Valid() && FreshComponent(circuit, tag, now)
      modifies this
      ensures Valid()
      ensures circuit == WithComponentAdded(old(circuit), tag, x, y, now)
      ensures id == AddedComponentId(tag, now)
      ensures selectedComponentId == old(selectedComponentId)
      ensures selectedComponentType == old(selectedComponentType)
      ensures isWiring == old(isWiring) && firstPinId == old(firstPinId)
    {
      AddComponentKeepsWellFormed(circuit, tag, x, y, now);
      var definition := GetComponentDefinition(tag);
      if definition.None? {
        return None;
      }
      circuit := WithComponentAdded(circuit, tag, x, y, now);
      id := Some(ComponentIdFor(tag, now));
    }

    /** `removeComponent(id)`: the cascade, and the selection cleared only
        when it was the removed id. */
    method RemoveComponent(id: string)
      requires Valid()
      modifies this
      ensures Valid()
      ensures circuit == WithComponentRemoved(old(circuit), id)
      ensures selectedComponentId == if old(selectedComponentId) == Some(id) then None else old(selectedComponentId)
      ensures selectedComponentType == old(selectedComponentType)
      ensures isWiring == old(isWiring) && firstPinId == old(firstPinId)
    {
      RemoveComponentKeepsWellFormed(circuit, id);
      circuit := WithComponentRemoved(circuit, id);
      if selectedComponentId == Some(id) {
        selectedComponentId := None;
      }
    }

    /** `moveComponent(id, x, y)`. */
    method MoveComponent(id: string, x: int, y: int)
      requires Valid()
      modifies this
      ensures Valid()
      ensures circuit == WithComponentMoved(old(circuit), id, x, y)
      ensures selectedComponentId == old(selectedComponentId)
      ensures selectedComponentType == old(selectedComponentType)
      ensures isWiring == old(isWiring) && firstPinId == old(firstPinId)
    {
      MoveComponentKeepsWellFormed(circuit, id, x, y);
      circuit := WithComponentMoved(circuit, id, x, y);
    }

    /** `updateCircuitCanvas(updates)`: a partial merge, no clamping. */
    method UpdateCircuitCanvas(scale: Option<real>, offset: Option<Point>)
      requires Valid()
      modifies this
      ensures Valid()
      ensures circuit == WithCanvasUpdated(old(circuit), scale, offset)
      ensures selectedComponentId == old(selectedComponentId)
      ensures selectedComponentType == old(selectedComponentType)
      ensures isWiring == old(isWiring) && firstPinId == old(firstPinId)
    {
      circuit := WithCanvasUpdated(circuit, scale, offset);
    }

    /** `selectComponent(id | null)`: the id is not checked. */
    method SelectComponent(id: Option<string>)
      requires Valid()
      modifies this
      ensures Valid()
      ensures selectedComponentId == id
      ensures circuit == old(circuit) && selectedComponentType == old(selectedComponentType)
      ensures isWiring == old(isWiring) && firstPinId == old(firstPinId)
    {
      selectedComponentId := id;
    }

    /** `selectComponentType(type | null)`: clears nothing else. */
    method SelectComponentType(t: Option<ComponentType>)
      requires Valid()
      modifies this
      ensures Valid()
      ensures selectedComponentType == t
      ensures circuit == old(circuit) && selectedComponentId == old(selectedComponentId)
      ensures isWiring == old(isWiring) && firstPinId == old(firstPinId)
    {
      selectedComponentType := t;
    }

    /** `startWiring(pinId)`: wiring, from this pin, with no component
        selected. */
    method StartWiring(pinId: string)
      requires Valid()
      modifies this
      ensures Valid()
      ensures isWiring && firstPinId == Some(pinId) && selectedComponentId == None
      ensures circuit == old(circuit) && selectedComponentType == old(selectedComponentType)
    {
      isWiring := true;
      firstPinId := Some(pinId);
      selectedComponentId := None;
    }

    /** `completeWiring(secondPinId)`: always ends idle; the circuit gains a
        wire exactly when CircuitOps.Connects holds. The new wire's id must
        be fresh only when a wire is made. */
    method CompleteWiring(secondPinId: string, now: nat)
      requires Valid()
      requires Connects(circuit, firstPinId, secondPinId) ==> FreshWire(circuit, now)
      modifies this
      ensures Valid()
      ensures circuit == CompletedCircuit(old(circuit), old(firstPinId), secondPinId, now)
      ensures !isWiring && firstPinId == None
      ensures selectedComponentId == old(selectedComponentId)
      ensures selectedComponentType == old(selectedComponentType)
    {
      CompleteWiringAppendsIff(circuit, firstPinId, secondPinId, now);
      if Connects(circuit, firstPinId, secondPinId) {
        CompleteWiringKeepsWellFormed(circuit, firstPinId, secondPinId, now);
      }
      if firstPinId.None? || firstPinId.value == "" || firstPinId.value == secondPinId {
        isWiring := false;
        firstPinId := None;
        return;
      }
      circuit := WithWireConnected(circuit, firstPinId.value, secondPinId, now);
      isWiring := false;
      firstPinId := None;
    }

    /** `cancelWiring()`: idle, whatever the state was; so a second call
        changes nothing. */
    method CancelWiring()
      requires Valid()
      modifies this
      ensures Valid()
      ensures !isWiring && firstPinId == None
      ensures circuit == old(circuit)
      ensures selectedComponentId == old(selectedComponentId)
      ensures selectedComponentType == old(selectedComponentType)
    {
      isWiring := false;
      firstPinId := None;
    }

    /** `handlePinClick(pinId, componentId)`: starts wiring when idle and
        completes it otherwise; the component id is not used. */
    method HandlePinClick(pinId: string, componentId: string, now: nat)
      requires Valid()
      requires isWiring && Connects(circuit, firstPinId, pinId) ==> FreshWire(circuit, now)
      modifies this
      ensures Valid()
      ensures selectedComponentType == old(selectedComponentType)
      ensures !old(isWiring) ==>
        isWiring && firstPinId == Some(pinId) && selectedComponentId == None && circuit == old(circuit)
      ensures old(isWiring) ==>
        !isWiring && firstPinId == None && selectedComponentId == old(selectedComponentId) &&
        circuit == CompletedCircuit(old(circuit), old(firstPinId), pinId, now)
    {
      if !isWiring {
        StartWiring(pinId);
      } else {
        CompleteWiring(pinId, now);
      }
    }

    /** The caller's placement step: add the pending component, then clear
        the pending type. */
    method HandleComponentAdd(tag: string, x: int, y: int, now: nat)
      requires Valid() && FreshComponent(circuit, tag, now)
      modifies this
      ensures Valid()
      ensures circuit == WithComponentAdded(old(circuit), tag, x, y, now)
      ensures selectedComponentType == None
      ensures selectedComponentId == old(selectedComponentId)
      ensures isWiring == old(isWiring) && firstPinId == old(firstPinId)
    {
      var _ := AddComponent(tag, x, y, now);
      SelectComponentType(None);
    }
  }

  /** Clicking the same pin twice makes no wire and ends idle. */
  method SamePinTwiceMakesNoWire()
  {
    var hook := new CircuitHook();
    hook.HandlePinClick("test-resistor-1-pin-0", "test-resistor-1", 1);
    assert hook.isWiring;
    hook.HandlePinClick("test-resistor-1-pin-0", "test-resistor-1", 2);
    assert !hook.isWiring && hook.circuit.wires == [];
  }

  /** Two pins of one resistor make no wire and end idle. */
  method SameComponentMakesNoWire()
  {
    var hook := new CircuitHook();
    var cs := hook.circuit.components;
    hook.HandlePinClick("test-resistor-1-pin-0", "test-resistor-1", 1);
    ResolvePinFirstMatch(cs, "test-resistor-1-pin-0", 1, 0);
    assert FirstPinAt(cs, 1, 1, "test-resistor-1-pin-1");
    ResolvePinFirstMatch(cs, "test-resistor-1-pin-1", 1, 1);
    hook.HandlePinClick("test-resistor-1-pin-1", "test-resistor-1", 2);
    assert !hook.isWiring && hook.circuit.wires == [];
  }

  /** Resistor pin A, then LED anode: one wire from A to the anode, and
      both pins connected. */
  method ResistorToLedMakesWire()
  {
    var hook := new CircuitHook();
    var cs := hook.circuit.components;
    assert FirstPinAt(cs, 1, 0, "test-resistor-1-pin-0");
    assert FirstPinAt(cs, 0, 0, "test-led-1-pin-0");
    ResolvePinFirstMatch(cs, "test-resistor-1-pin-0", 1, 0);
    ResolvePinFirstMatch(cs, "test-led-1-pin-0", 0, 0);
    hook.HandlePinClick("test-resistor-1-pin-0", "test-resistor-1", 1);
    hook.HandlePinClick("test-led-1-pin-0", "test-led-1", 2);
    assert |hook.circuit.wires| == 1;
    var w := hook.circuit.wires[0];
    assert w.fromPin == "test-resistor-1-pin-0" && w.toPin == "test-led-1-pin-0";
    assert w.points == [Point(-30, 0), Point(0, 0)];
    assert hook.circuit.components[1].pins[0].connected && hook.circuit.components[0].pins[0].connected;
  }
}
