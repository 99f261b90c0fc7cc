/** The circuit invariant the hook's operations keep when the ids they are
    given are fresh: component, pin and wire ids are unique; every wire joins
    two different pins on two different existing components; every pin a
    wire ends on is marked connected. */
module WellFormedness {
  import opened CircuitTypes
  import opened Identifiers
  import opened ComponentLibrary
  import opened PinLookup
  import opened CircuitOps
  import opened Seqs

  function ComponentIds(cs: seq<Component>): seq<string>
  {
    seq(|cs|, k requires 0 <= k < |cs| => cs[k].id)
  }

  function PinIdsOf(pins: seq<Pin>): seq<string>
  {
    seq(|pins|, j requires 0 <= j < |pins| => pins[j].id)
  }

  /** Every pin id in the circuit, component by component. */
  function PinIds(cs: seq<Component>): seq<string>
  {
    if cs == [] then [] else PinIdsOf(cs[0].pins) + PinIds(cs[1..])
  }

  function WireIds(ws: seq<Wire>): seq<string>
  {
    seq(|ws|, k requires 0 <= k < |ws| => ws[k].id)
  }

  /** The pin ids the wires end on. */
  function WireEnds(ws: seq<Wire>): set<string>
  {
    (set w | w in ws :: w.fromPin) + (set w | w in ws :: w.toPin)
  }

  /** A wire joins two different pins of two different components, both
      present. */
  predicate JoinsTwoComponents(cs: seq<Component>, w: Wire)
  {
    w.fromPin != w.toPin &&
    PinOwner(cs, w.fromPin).Some? && PinOwner(cs, w.toPin).Some? &&
    PinOwner(cs, w.fromPin) != PinOwner(cs, w.toPin)
  }

  ghost predicate WiredPinsConnected(cs: seq<Component>, ws: seq<Wire>)
  {
    forall x, p :: x in cs && p in x.pins && p.id in WireEnds(ws) ==> p.connected
  }

  ghost predicate WellFormed(c: Circuit)
  {
    Distinct(ComponentIds(c.components)) &&
    Distinct(PinIds(c.components)) &&
    Distinct(WireIds(c.wires)) &&
    (forall w :: w in c.wires ==> JoinsTwoComponents(c.components, w)) &&
    WiredPinsConnected(c.components, c.wires)
  }

  /** The ids `addComponent` would give are not in use. */
  predicate FreshComponent(c: Circuit, tag: string, now: nat)
  {
    match GetComponentDefinition(tag)
    case None => true
    case Some(def) =>
      ComponentIdFor(tag, now) !in ComponentIds(c.components) &&
      forall i :: 0 <= i < |def.pins| ==> PinIdFor(tag, now, i) !in PinIds(c.components)
  }

  /** The id a new wire would get is not in use. */
  predicate FreshWire(c: Circuit, now: nat)
  {
    WireIdFor(now) !in WireIds(c.wires)
  }

  // ------------------------------------------------------------ helpers

  lemma {:induction false} PinIdsMembers(cs: seq<Component>, p: string)
    ensures p in PinIds(cs) <==> exists x :: x in cs && p in PinIdsOf(x.pins)
  {
    if cs != [] {
      PinIdsMembers(cs[1..], p);
      assert forall x :: x in cs <==> x == cs[0] || x in cs[1..];
    }
  }

  lemma {:induction false} PinIdsAppend(cs: seq<Component>, ds: seq<Component>)
    ensures PinIds(cs + ds) == PinIds(cs) + PinIds(ds)
  {
    if cs == [] {
      assert cs + ds == ds;
    } else {
      assert (cs + ds)[1..] == cs[1..] + ds;
      PinIdsAppend(cs[1..], ds);
    }
  }

  lemma {:induction false} PinIdsSameIds(cs: seq<Component>, ds: seq<Component>)
    requires SameIds(cs, ds)
    ensures PinIds(cs) == PinIds(ds)
  {
    if cs != [] {
      assert PinIdsOf(cs[0].pins) == PinIdsOf(ds[0].pins);
      assert SameIds(cs[1..], ds[1..]);
      PinIdsSameIds(cs[1..], ds[1..]);
    }
  }

  lemma {:induction false} TaggedAppend(cs: seq<Component>, ds: seq<Component>)
    ensures Tagged(cs + ds) == Tagged(cs) + Tagged(ds)
  {
    if cs == [] {
      assert cs + ds == ds;
    } else {
      assert (cs + ds)[1..] == cs[1..] + ds;
      TaggedAppend(cs[1..], ds);
    }
  }

  /** A pin that resolves keeps resolving the same way when components are
      appended. */
  lemma PinOwnerAppend(cs: seq<Component>, ds: seq<Component>, p: string)
    requires PinOwner(cs, p).Some?
    ensures PinOwner(cs + ds, p) == PinOwner(cs, p)
  {
    TaggedAppend(cs, ds);
    FindOwnedAppend(Tagged(cs), Tagged(ds), p);
  }

  /** A pin that resolves is one of the circuit's pin ids. */
  lemma ResolvedPinIsListed(cs: seq<Component>, p: string)
    requires PinOwner(cs, p).Some?
    ensures p in PinIds(cs)
  {
    ResolvePinLocates(cs, p);
    var loc := LocatePin(cs, p).value;
    var x := cs[loc.component];
    assert PinIdsOf(x.pins)[loc.pin] == p;
    PinIdsMembers(cs, p);
  }

  /** With unique component ids, the owner a pin resolves to is the
      component `find` returns for that owner's id, and it has the pin. */
  lemma {:induction false} OwnerIsFound(cs: seq<Component>, p: string)
    requires Distinct(ComponentIds(cs))
    requires PinOwner(cs, p).Some?
    ensures FindComponent(cs, PinOwner(cs, p).value).Some?
    ensures var x := FindComponent(cs, PinOwner(cs, p).value).value;
      exists j :: 0 <= j < |x.pins| && x.pins[j].id == p
  {
    ResolvePinCons(cs, p);
    var f := FindPin(cs[0].pins, p);
    if f.None? {
      assert ComponentIds(cs) == [cs[0].id] + ComponentIds(cs[1..]);
      DistinctCons(cs[0].id, ComponentIds(cs[1..]));
      OwnerIsFound(cs[1..], p);
      var owner := PinOwner(cs[1..], p).value;
      var x := FindComponent(cs[1..], owner).value;
      var k :| 0 <= k < |cs[1..]| && cs[1..][k] == x;
      assert ComponentIds(cs[1..])[k] == owner;
    } else {
      var j :| 0 <= j < |cs[0].pins| && cs[0].pins[j] == f.value;
    }
  }

  /** With unique component ids, a wire that survives removal does not end
      on a pin of the removed component. */
  lemma SurvivorOwnerRemains(cs: seq<Component>, id: string, w: Wire, p: string)
    requires Distinct(ComponentIds(cs))
    requires Survives(FindComponent(cs, id), w)
    requires p == w.fromPin || p == w.toPin
    requires PinOwner(cs, p).Some?
    ensures PinOwner(cs, p).value != id
  {
    OwnerIsFound(cs, p);
  }

  /** Removing other components does not change which component a pin
      resolves to. */
  lemma {:induction false} PinOwnerAfterRemoval(cs: seq<Component>, id: string, p: string)
    requires PinOwner(cs, p).Some? && PinOwner(cs, p).value != id
    ensures PinOwner(WithoutComponent(cs, id), p) == PinOwner(cs, p)
  {
    ResolvePinCons(cs, p);
    var rest := WithoutComponent(cs[1..], id);
    if cs[0].id == id {
      PinOwnerAfterRemoval(cs[1..], id, p);
    } else {
      var r := [cs[0]] + rest;
      assert r[0] == cs[0] && r[1..] == rest;
      ResolvePinCons(r, p);
      if FindPin(cs[0].pins, p).None? {
        PinOwnerAfterRemoval(cs[1..], id, p);
      }
    }
  }

  lemma {:induction false} RemovalKeepsComponentIdsDistinct(cs: seq<Component>, id: string)
    requires Distinct(ComponentIds(cs))
    ensures Distinct(ComponentIds(WithoutComponent(cs, id)))
  {
    if cs != [] {
      assert ComponentIds(cs) == [cs[0].id] + ComponentIds(cs[1..]);
      DistinctCons(cs[0].id, ComponentIds(cs[1..]));
      RemovalKeepsComponentIdsDistinct(cs[1..], id);
      var rest := WithoutComponent(cs[1..], id);
      if cs[0].id != id {
        assert ComponentIds([cs[0]] + rest) == [cs[0].id] + ComponentIds(rest);
        forall k | 0 <= k < |rest| ensures rest[k].id != cs[0].id {
          assert rest[k] in cs[1..];
          var m :| 0 <= m < |cs[1..]| && cs[1..][m] == rest[k];
          assert ComponentIds(cs[1..])[m] == rest[k].id;
        }
        DistinctCons(cs[0].id, ComponentIds(rest));
      }
    }
  }

  lemma {:induction false} RemovalKeepsPinIdsDistinct(cs: seq<Component>, id: string)
    requires Distinct(PinIds(cs))
    ensures Distinct(PinIds(WithoutComponent(cs, id)))
  {
    if cs != [] {
      DistinctAppend(PinIdsOf(cs[0].pins), PinIds(cs[1..]));
      RemovalKeepsPinIdsDistinct(cs[1..], id);
      var rest := WithoutComponent(cs[1..], id);
      if cs[0].id != id {
        var r := [cs[0]] + rest;
        assert r[0] == cs[0] && r[1..] == rest;
        forall p | p in PinIdsOf(cs[0].pins) ensures p !in PinIds(rest) {
          PinIdsMembers(rest, p);
          PinIdsMembers(cs[1..], p);
        }
        DistinctAppend(PinIdsOf(cs[0].pins), PinIds(rest));
      }
    }
  }

  lemma {:induction false} SurvivingWireIdsDistinct(ws: seq<Wire>, removed: Option<Component>)
    requires Distinct(WireIds(ws))
    ensures Distinct(WireIds(SurvivingWires(ws, removed)))
  {
    if ws != [] {
      assert WireIds(ws) == [ws[0].id] + WireIds(ws[1..]);
      DistinctCons(ws[0].id, WireIds(ws[1..]));
      SurvivingWireIdsDistinct(ws[1..], removed);
      var rest := SurvivingWires(ws[1..], removed);
      if Survives(removed, ws[0]) {
        assert WireIds([ws[0]] + rest) == [ws[0].id] + WireIds(rest);
        forall k | 0 <= k < |rest| ensures rest[k].id != ws[0].id {
          assert rest[k] in ws[1..];
          var m :| 0 <= m < |ws[1..]| && ws[1..][m] == rest[k];
          assert WireIds(ws[1..])[m] == rest[k].id;
        }
        DistinctCons(ws[0].id, WireIds(rest));
      }
    }
  }

  // -------------------------------------------------- the preservations

  lemma InitialCircuitWellFormed()
    ensures WellFormed(InitialCircuit())
  {
    var cs := InitialCircuit().components;
    assert PinIds(cs) == ["test-led-1-pin-0", "test-led-1-pin-1", "test-resistor-1-pin-0", "test-resistor-1-pin-1"];
  }

  /** Appending a component whose id and pin ids are new keeps all ids
      distinct. */
  lemma AppendKeepsIdsDistinct(cs: seq<Component>, n: Component)
    requires Distinct(ComponentIds(cs)) && Distinct(PinIds(cs))
    requires n.id !in ComponentIds(cs) && Distinct(PinIdsOf(n.pins))
    requires forall p :: p in PinIdsOf(n.pins) ==> p !in PinIds(cs)
    ensures Distinct(ComponentIds(cs + [n])) && Distinct(PinIds(cs + [n]))
  {
    assert ComponentIds(cs + [n]) == ComponentIds(cs) + [n.id];
    DistinctAppend(ComponentIds(cs), [n.id]);
    PinIdsAppend(cs, [n]);
    assert [n][1..] == [];
    assert PinIds([n]) == PinIdsOf(n.pins);
    DistinctAppend(PinIds(cs), PinIdsOf(n.pins));
  }

  /** Appending a component keeps every wire joining two components. */
  lemma AppendKeepsWiresJoined(cs: seq<Component>, ws: seq<Wire>, n: Component)
    requires forall w :: w in ws ==> JoinsTwoComponents(cs, w)
    ensures forall w :: w in ws ==> JoinsTwoComponents(cs + [n], w)
  {
    forall w | w in ws ensures JoinsTwoComponents(cs + [n], w) {
      PinOwnerAppend(cs, [n], w.fromPin);
      PinOwnerAppend(cs, [n], w.toPin);
    }
  }

  /** Appending a component whose pin ids are new keeps wired pins
      connected: no wire ends on the new pins. */
  lemma AppendKeepsWiredPinsConnected(cs: seq<Component>, ws: seq<Wire>, n: Component)
    requires WiredPinsConnected(cs, ws)
    requires forall w :: w in ws ==> JoinsTwoComponents(cs, w)
    requires forall p :: p in PinIdsOf(n.pins) ==> p !in PinIds(cs)
    ensures WiredPinsConnected(cs + [n], ws)
  {
    forall e | e in WireEnds(ws) ensures e in PinIds(cs) {
      var w :| w in ws && (w.fromPin == e || w.toPin == e);
      ResolvedPinIsListed(cs, e);
    }
    forall p | p in n.pins ensures p.id !in WireEnds(ws) {
      var j :| 0 <= j < |n.pins| && n.pins[j] == p;
      assert PinIdsOf(n.pins)[j] == p.id;
    }
  }

  /** Adding a component whose ids are fresh keeps the circuit well formed. */
  lemma AddComponentKeepsWellFormed(c: Circuit, tag: string, x: int, y: int, now: nat)
    requires WellFormed(c) && FreshComponent(c, tag, now)
    ensures WellFormed(WithComponentAdded(c, tag, x, y, now))
  {
    if GetComponentDefinition(tag).Some? {
      var def := GetComponentDefinition(tag).value;
      var n := Instantiate(def, tag, x, y, now);
      var cs := c.components;
      assert WithComponentAdded(c, tag, x, y, now).components == cs + [n];
      InstantiateFollowsTemplate(def, tag, x, y, now);
      forall p | p in PinIdsOf(n.pins) ensures p !in PinIds(cs) {
        var j :| 0 <= j < |n.pins| && PinIdsOf(n.pins)[j] == p;
        assert p == PinIdFor(tag, now, j);
      }
      AppendKeepsIdsDistinct(cs, n);
      AppendKeepsWiresJoined(cs, c.wires, n);
      AppendKeepsWiredPinsConnected(cs, c.wires, n);
    }
  }

  /** Removing a component keeps the circuit well formed: the cascade takes
      every wire that ended on it. */
  lemma RemoveComponentKeepsWellFormed(c: Circuit, id: string)
    requires WellFormed(c)
    ensures WellFormed(WithComponentRemoved(c, id))
  {
    var cs := c.components;
    var r := WithComponentRemoved(c, id);
    var removed := FindComponent(cs, id);
    RemovalKeepsComponentIdsDistinct(cs, id);
    RemovalKeepsPinIdsDistinct(cs, id);
    SurvivingWireIdsDistinct(c.wires, removed);
    forall w | w in r.wires ensures JoinsTwoComponents(r.components, w) {
      SurvivorOwnerRemains(cs, id, w, w.fromPin);
      SurvivorOwnerRemains(cs, id, w, w.toPin);
      PinOwnerAfterRemoval(cs, id, w.fromPin);
      PinOwnerAfterRemoval(cs, id, w.toPin);
    }
    assert WireEnds(r.wires) <= WireEnds(c.wires);
  }

  /** Removing a component takes every wire that ends on one of its pins:
      no wire is left dangling. */
  lemma RemoveComponentCascades(c: Circuit, id: string, w: Wire)
    requires WellFormed(c) && w in c.wires
    requires PinOwner(c.components, w.fromPin) == Some(id) || PinOwner(c.components, w.toPin) == Some(id)
    ensures w !in WithComponentRemoved(c, id).wires
  {
    if PinOwner(c.components, w.fromPin) == Some(id) {
      OwnerIsFound(c.components, w.fromPin);
    } else {
      OwnerIsFound(c.components, w.toPin);
    }
  }

  /** Moving a component keeps the circuit well formed. */
  lemma MoveComponentKeepsWellFormed(c: Circuit, id: string, x: int, y: int)
    requires WellFormed(c)
    ensures WellFormed(WithComponentMoved(c, id, x, y))
  {
    var r := WithComponentMoved(c, id, x, y);
    assert SameIds(c.components, r.components);
    assert ComponentIds(r.components) == ComponentIds(c.components);
    PinIdsSameIds(c.components, r.components);
    forall w | w in r.wires ensures JoinsTwoComponents(r.components, w) {
      PinOwnerSameIds(c.components, r.components, w.fromPin);
      PinOwnerSameIds(c.components, r.components, w.toPin);
    }
    forall x', p | x' in r.components && p in x'.pins && p.id in WireEnds(r.wires) ensures p.connected {
      var i :| 0 <= i < |r.components| && r.components[i] == x';
      assert p in c.components[i].pins;
    }
  }

  lemma MarkConnectedSameIds(cs: seq<Component>, a: string, b: string)
    ensures SameIds(cs, MarkConnected(cs, a, b))
    ensures ComponentIds(MarkConnected(cs, a, b)) == ComponentIds(cs)
    ensures PinIds(MarkConnected(cs, a, b)) == PinIds(cs)
  {
    PinIdsSameIds(cs, MarkConnected(cs, a, b));
  }

  /** After marking, every pin a wire ends on, or with either new id, is
      connected. */
  lemma MarkConnectedFlags(cs: seq<Component>, ws: seq<Wire>, nw: Wire)
    requires WiredPinsConnected(cs, ws)
    ensures WiredPinsConnected(MarkConnected(cs, nw.fromPin, nw.toPin), ws + [nw])
  {
    var ms := MarkConnected(cs, nw.fromPin, nw.toPin);
    assert WireEnds(ws + [nw]) == WireEnds(ws) + {nw.fromPin, nw.toPin};
    forall x', p | x' in ms && p in x'.pins && p.id in WireEnds(ws + [nw]) ensures p.connected {
      var i :| 0 <= i < |ms| && ms[i] == x';
      var j :| 0 <= j < |x'.pins| && x'.pins[j] == p;
      assert cs[i].pins[j] in cs[i].pins;
    }
  }

  lemma ConnectedWiresJoin(c: Circuit, first: string, second: string, now: nat)
    requires forall w :: w in c.wires ==> JoinsTwoComponents(c.components, w)
    ensures var r := WithWireConnected(c, first, second, now);
      forall w :: w in r.wires ==> JoinsTwoComponents(r.components, w)
  {
    var r := WithWireConnected(c, first, second, now);
    MarkConnectedSameIds(c.components, first, second);
    forall w | w in r.wires ensures JoinsTwoComponents(r.components, w) {
      PinOwnerSameIds(c.components, r.components, w.fromPin);
      PinOwnerSameIds(c.components, r.components, w.toPin);
    }
  }

  /** Connecting two pins with a fresh wire id keeps the circuit well
      formed. */
  lemma ConnectKeepsWellFormed(c: Circuit, first: string, second: string, now: nat)
    requires WellFormed(c) && FreshWire(c, now)
    ensures WellFormed(WithWireConnected(c, first, second, now))
  {
    var cs := c.components;
    var r := WithWireConnected(c, first, second, now);
    ConnectedWiresJoin(c, first, second, now);
    if r != c {
      var nw := Wire(WireIdFor(now), first, second,
        [ResolvePin(cs, first).value.pin.position, ResolvePin(cs, second).value.pin.position]);
      assert r.wires == c.wires + [nw];
      assert r.components == MarkConnected(cs, first, second);
      MarkConnectedSameIds(cs, first, second);
      assert WireIds(r.wires) == WireIds(c.wires) + [nw.id];
      DistinctAppend(WireIds(c.wires), [nw.id]);
      MarkConnectedFlags(cs, c.wires, nw);
    }
  }

  /** Completing a wire (or failing to) keeps the circuit well formed. */
  lemma CompleteWiringKeepsWellFormed(c: Circuit, firstPinId: Option<string>, second: string, now: nat)
    requires WellFormed(c) && FreshWire(c, now)
    ensures WellFormed(CompletedCircuit(c, firstPinId, second, now))
  {
    if firstPinId.Some? {
      ConnectKeepsWellFormed(c, firstPinId.value, second, now);
    }
  }

  /** Updating the canvas keeps the circuit well formed. */
  lemma CanvasUpdateKeepsWellFormed(c: Circuit, scale: Option<real>, offset: Option<Point>)
    requires WellFormed(c)
    ensures WellFormed(WithCanvasUpdated(c, scale, offset))
  {
  }

  // ------------------------------------------- what the invariant needs

  /** Two components that share an id but not their pin ids, with a wire
      from the second one to a third component. Two placements of one type
      in the same millisecond share pin ids as well; this state needs the
      clock to move on between a placement's component id and its pin ids,
      or a whole circuit handed to `setCircuit`. */
  function SharedIdCircuit(): Circuit
  {
    var pin := (id: string) => Pin(id, "A", BidirectionalPin, Point(0, 0), true, false);
    Circuit("c", "c",
      [ Component("x", "resistor", Point(0, 0), 0, [pin("a")], map[], None),
        Component("x", "resistor", Point(0, 0), 0, [pin("b")], map[], None),
        Component("y", "resistor", Point(0, 0), 0, [pin("c")], map[], None) ],
      [ Wire("w", "b", "c", []) ],
      Canvas(1.0, Point(0, 0)))
  }

  /** Without unique component ids the cascade misses wires: removing "x"
      drops both components but checks only the first one's pins, so the
      wire from "b" survives with an end that no longer resolves. */
  lemma SharedIdLeavesDanglingWire()
    ensures !Distinct(ComponentIds(SharedIdCircuit().components))
    ensures var r := WithComponentRemoved(SharedIdCircuit(), "x");
      Wire("w", "b", "c", []) in r.wires && PinOwner(r.components, "b") == None
  {
    var c := SharedIdCircuit();
    assert ComponentIds(c.components)[0] == ComponentIds(c.components)[1];
    var r := WithComponentRemoved(c, "x");
    assert r.components == [c.components[2]];
    assert r.wires == c.wires;
    assert PinIds(r.components) == ["c"];
    assert NoPin(r.components, "b");
    ResolvePinNone(r.components, "b");
  }

  /** The connected flag is never cleared: wire the test LED to the test
      resistor, remove the resistor, and the LED's pin stays connected with
      no wire left. So only "wired implies connected" holds. */
  lemma ConnectedFlagOutlivesWire()
    ensures var c1 := WithWireConnected(InitialCircuit(), "test-led-1-pin-0", "test-resistor-1-pin-0", 0);
      var c2 := WithComponentRemoved(c1, "test-resistor-1");
      c2.wires == [] && |c2.components| == 1 && c2.components[0].pins[0].connected
  {
    var c0 := InitialCircuit();
    var cs := c0.components;
    assert FirstPinAt(cs, 0, 0, "test-led-1-pin-0");
    assert FirstPinAt(cs, 1, 0, "test-resistor-1-pin-0");
    ResolvePinFirstMatch(cs, "test-led-1-pin-0", 0, 0);
    ResolvePinFirstMatch(cs, "test-resistor-1-pin-0", 1, 0);
    var c1 := WithWireConnected(c0, "test-led-1-pin-0", "test-resistor-1-pin-0", 0);
    assert |c1.wires| == 1;
    var c2 := WithComponentRemoved(c1, "test-resistor-1");
    assert c2.components == [c1.components[0]];
    assert TouchesWire(c1.components[1].pins, c1.wires[0]);
  }
}
