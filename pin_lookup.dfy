/** Finding a pin by id in the component list. The hook flattens every
    component's pins, tagging each with its owner's id, and takes the first
    match; both searches run in component order, then pin order. */
module PinLookup {
  import opened CircuitTypes

  /** Pin j of component i has the given id. */
  predicate IsPinAt(cs: seq<Component>, i: int, j: int, pinId: string)
  {
    0 <= i < |cs| && 0 <= j < |cs[i].pins| && cs[i].pins[j].id == pinId
  }

  /** Position (i, j) comes before position (k, l) in component order,
      then pin order. */
  predicate Before(i: int, j: int, k: int, l: int)
  {
    i < k || (i == k && j < l)
  }

  /** (i, j) is the first position holding a pin with the given id. */
  ghost predicate FirstPinAt(cs: seq<Component>, i: int, j: int, pinId: string)
  {
    IsPinAt(cs, i, j, pinId) &&
    forall k, l :: IsPinAt(cs, k, l, pinId) ==> !Before(k, l, i, j)
  }

  ghost predicate NoPin(cs: seq<Component>, pinId: string)
  {
    forall k, l :: !IsPinAt(cs, k, l, pinId)
  }

  /** `pins.find(p => p.id === pinId)`. */
  function FindPin(pins: seq<Pin>, pinId: string): (r: Option<Pin>)
    ensures r.Some? ==> r.value in pins && r.value.id == pinId
    ensures r.None? <==> forall j :: 0 <= j < |pins| ==> pins[j].id != pinId
  {
    if pins == [] then None
    else if pins[0].id == pinId then Some(pins[0])
    else FindPin(pins[1..], pinId)
  }

  /** `find` returns the first pin with the id. */
  lemma {:induction false} FindPinFirst(pins: seq<Pin>, pinId: string, j: int)
    requires 0 <= j < |pins| && pins[j].id == pinId
    requires forall l :: 0 <= l < j ==> pins[l].id != pinId
    ensures FindPin(pins, pinId) == Some(pins[j])
  {
    if j > 0 {
      FindPinFirst(pins[1..], pinId, j - 1);
    }
  }

  /** A pin tagged with the id of the component that owns it
      (`{ ...p, componentId: c.id }`). */
  datatype OwnedPin = OwnedPin(pin: Pin, componentId: string)

  /** `c.pins.map(p => ({ ...p, componentId: c.id }))`. */
  function TagPins(pins: seq<Pin>, componentId: string): (r: seq<OwnedPin>)
    ensures |r| == |pins|
    ensures forall j :: 0 <= j < |pins| ==> r[j] == OwnedPin(pins[j], componentId)
  {
    if pins == [] then [] else [OwnedPin(pins[0], componentId)] + TagPins(pins[1..], componentId)
  }

  /** `components.flatMap(c => c.pins.map(...))`. */
  function Tagged(cs: seq<Component>): seq<OwnedPin>
  {
    if cs == [] then [] else TagPins(cs[0].pins, cs[0].id) + Tagged(cs[1..])
  }

  /** `.find(p => p.id === pinId)` over the tagged pins. */
  function FindOwned(ops: seq<OwnedPin>, pinId: string): Option<OwnedPin>
  {
    if ops == [] then None
    else if ops[0].pin.id == pinId then Some(ops[0])
    else FindOwned(ops[1..], pinId)
  }

  /** Pin resolution as the wiring code does it. */
  function ResolvePin(cs: seq<Component>, pinId: string): Option<OwnedPin>
  {
    FindOwned(Tagged(cs), pinId)
  }

  /** The id of the component a pin resolves to. */
  function PinOwner(cs: seq<Component>, pinId: string): Option<string>
  {
    match ResolvePin(cs, pinId)
    case None => None
    case Some(op) => Some(op.componentId)
  }

  lemma {:induction false} FindOwnedAppend(a: seq<OwnedPin>, b: seq<OwnedPin>, pinId: string)
    ensures FindOwned(a + b, pinId) == if FindOwned(a, pinId).Some? then FindOwned(a, pinId) else FindOwned(b, pinId)
  {
    if a == [] {
      assert a + b == b;
    } else {
      assert (a + b)[1..] == a[1..] + b;
      FindOwnedAppend(a[1..], b, pinId);
    }
  }

  lemma {:induction false} FindOwnedTagPins(pins: seq<Pin>, componentId: string, pinId: string)
    ensures FindOwned(TagPins(pins, componentId), pinId) ==
      match FindPin(pins, pinId)
      case None => None
      case Some(p) => Some(OwnedPin(p, componentId))
  {
    if pins != [] {
      FindOwnedTagPins(pins[1..], componentId, pinId);
    }
  }

  /** Resolution looks at the first component's pins, then at the rest. */
  lemma ResolvePinCons(cs: seq<Component>, pinId: string)
    requires cs != []
    ensures ResolvePin(cs, pinId) ==
      match FindPin(cs[0].pins, pinId)
      case Some(p) => Some(OwnedPin(p, cs[0].id))
      case None => ResolvePin(cs[1..], pinId)
  {
    FindOwnedAppend(TagPins(cs[0].pins, cs[0].id), Tagged(cs[1..]), pinId);
    FindOwnedTagPins(cs[0].pins, cs[0].id, pinId);
  }

  /** The first pin with the id, in component order then pin order, is the
      one resolved, tagged with its owner. */
  lemma {:induction false} ResolvePinFirstMatch(cs: seq<Component>, pinId: string, i: int, j: int)
    requires FirstPinAt(cs, i, j, pinId)
    ensures ResolvePin(cs, pinId) == Some(OwnedPin(cs[i].pins[j], cs[i].id))
    decreases i
  {
    ResolvePinCons(cs, pinId);
    if i == 0 {
      forall l | 0 <= l < j ensures cs[0].pins[l].id != pinId {
        if cs[0].pins[l].id == pinId { assert IsPinAt(cs, 0, l, pinId); }
      }
      FindPinFirst(cs[0].pins, pinId, j);
    } else {
      forall l | 0 <= l < |cs[0].pins| ensures cs[0].pins[l].id != pinId {
        if cs[0].pins[l].id == pinId { assert IsPinAt(cs, 0, l, pinId); }
      }
      forall k, l | IsPinAt(cs[1..], k, l, pinId) ensures !Before(k, l, i - 1, j) {
        assert IsPinAt(cs, k + 1, l, pinId);
      }
      ResolvePinFirstMatch(cs[1..], pinId, i - 1, j);
    }
  }

  /** No pin with the id: nothing resolves. */
  lemma {:induction false} ResolvePinNone(cs: seq<Component>, pinId: string)
    requires NoPin(cs, pinId)
    ensures ResolvePin(cs, pinId) == None
  {
    if cs != [] {
      ResolvePinCons(cs, pinId);
      forall l | 0 <= l < |cs[0].pins| ensures cs[0].pins[l].id != pinId {
        assert !IsPinAt(cs, 0, l, pinId);
      }
      forall k, l ensures !IsPinAt(cs[1..], k, l, pinId) {
        assert !IsPinAt(cs, k + 1, l, pinId);
      }
      ResolvePinNone(cs[1..], pinId);
    }
  }

  /** Where a pin sits: component index, then pin index. */
  datatype PinLocation = PinLocation(component: nat, pin: nat)

  /** The index of the first pin with the id. */
  function FirstPinIndex(pins: seq<Pin>, pinId: string): (r: Option<nat>)
    ensures r.Some? ==> r.value < |pins| && pins[r.value].id == pinId
    ensures r.Some? ==> forall l :: 0 <= l < r.value ==> pins[l].id != pinId
    ensures r.None? ==> forall l :: 0 <= l < |pins| ==> pins[l].id != pinId
  {
    if pins == [] then None
    else if pins[0].id == pinId then Some(0)
    else match FirstPinIndex(pins[1..], pinId)
      case None => None
      case Some(k) => Some(k + 1)
  }

  /** The first position holding a pin with the id, if any: the reference
      both searches are compared against. */
  function LocatePin(cs: seq<Component>, pinId: string): (r: Option<PinLocation>)
    ensures r.Some? ==> FirstPinAt(cs, r.value.component, r.value.pin, pinId)
    ensures r.None? ==> NoPin(cs, pinId)
  {
    if cs == [] then None
    else match FirstPinIndex(cs[0].pins, pinId)
      case Some(j) => Some(PinLocation(0, j))
      case None =>
        match LocatePin(cs[1..], pinId)
        case None =>
          NoPinCons(cs, pinId);
          None
        case Some(loc) =>
          FirstPinAtCons(cs, pinId, loc.component, loc.pin);
          Some(PinLocation(loc.component + 1, loc.pin))
  }

  lemma NoPinCons(cs: seq<Component>, pinId: string)
    requires cs != [] && NoPin(cs[1..], pinId)
    requires forall l :: 0 <= l < |cs[0].pins| ==> cs[0].pins[l].id != pinId
    ensures NoPin(cs, pinId)
  {
    forall k, l ensures !IsPinAt(cs, k, l, pinId) {
      if k > 0 { assert !IsPinAt(cs[1..], k - 1, l, pinId); }
    }
  }

  lemma FirstPinAtCons(cs: seq<Component>, pinId: string, i: int, j: int)
    requires cs != [] && FirstPinAt(cs[1..], i, j, pinId)
    requires forall l :: 0 <= l < |cs[0].pins| ==> cs[0].pins[l].id != pinId
    ensures FirstPinAt(cs, i + 1, j, pinId)
  {
    forall k, l | IsPinAt(cs, k, l, pinId) ensures !Before(k, l, i + 1, j) {
      assert k > 0;
      assert IsPinAt(cs[1..], k - 1, l, pinId);
    }
  }

  /** The wiring code's resolution agrees with the reference: the pin at
      the first position, tagged with its owner, or nothing. */
  lemma ResolvePinLocates(cs: seq<Component>, pinId: string)
    ensures ResolvePin(cs, pinId) ==
      match LocatePin(cs, pinId)
      case None => None
      case Some(loc) => Some(OwnedPin(cs[loc.component].pins[loc.pin], cs[loc.component].id))
  {
    match LocatePin(cs, pinId)
    case None => ResolvePinNone(cs, pinId);
    case Some(loc) => ResolvePinFirstMatch(cs, pinId, loc.component, loc.pin);
  }

  /** Two component lists whose component ids and pin ids agree position
      by position (they may differ in positions, flags and properties). */
  ghost predicate SameIds(cs: seq<Component>, ds: seq<Component>)
  {
    |cs| == |ds| &&
    forall i :: 0 <= i < |cs| ==>
      cs[i].id == ds[i].id && |cs[i].pins| == |ds[i].pins| &&
      forall j :: 0 <= j < |cs[i].pins| ==> cs[i].pins[j].id == ds[i].pins[j].id
  }

  /** There is only one first position. */
  lemma FirstPinAtUnique(cs: seq<Component>, pinId: string, a: PinLocation, b: PinLocation)
    requires FirstPinAt(cs, a.component, a.pin, pinId) && FirstPinAt(cs, b.component, b.pin, pinId)
    ensures a == b
  {
    assert !Before(a.component, a.pin, b.component, b.pin);
    assert !Before(b.component, b.pin, a.component, a.pin);
  }

  /** Locating a pin only looks at ids. */
  lemma LocatePinSameIds(cs: seq<Component>, ds: seq<Component>, pinId: string)
    requires SameIds(cs, ds)
    ensures LocatePin(cs, pinId) == LocatePin(ds, pinId)
  {
    assert forall i, j :: IsPinAt(cs, i, j, pinId) <==> IsPinAt(ds, i, j, pinId);
    var a, b := LocatePin(cs, pinId), LocatePin(ds, pinId);
    if a.Some? && b.Some? {
      FirstPinAtUnique(cs, pinId, a.value, b.value);
    }
  }

  /** Which component owns a pin only depends on ids. */
  lemma PinOwnerSameIds(cs: seq<Component>, ds: seq<Component>, pinId: string)
    requires SameIds(cs, ds)
    ensures PinOwner(cs, pinId) == PinOwner(ds, pinId)
  {
    LocatePinSameIds(cs, ds, pinId);
    ResolvePinLocates(cs, pinId);
    ResolvePinLocates(ds, pinId);
  }
}
