/** What the wire renderer derives from the live component list: absolute
    pin positions, the drawn segment and the endpoint markers. */
module WireRenderer {
  import opened CircuitTypes
  import opened PinLookup

  /** Component position plus pin offset for the first component (in list
      order) that has a pin with the id; (0, 0) when none has. */
  function AbsolutePinPosition(cs: seq<Component>, pinId: string): Point
  {
    if cs == [] then Point(0, 0)
    else match FindPin(cs[0].pins, pinId)
      case Some(pin) => Add(cs[0].position, pin.position)
      case None => AbsolutePinPosition(cs[1..], pinId)
  }

  /** Found: the first matching pin's offset from its owner's position. */
  lemma {:induction false} AbsolutePinPositionFirstMatch(cs: seq<Component>, pinId: string, i: int, j: int)
    requires FirstPinAt(cs, i, j, pinId)
    ensures AbsolutePinPosition(cs, pinId) == Add(cs[i].position, cs[i].pins[j].position)
    decreases i
  {
    if i == 0 {
      forall l | 0 <= l < j ensures cs[0].pins[l].id != pinId {
        if cs[0].pins[l].id == pinId { assert IsPinAt(cs, 0, l, pinId); }
      }
      FindPinFirst(cs[0].pins, pinId, j);
    } else {
      forall l | 0 <= l < |cs[0].pins| ensures cs[0].pins[l].id != pinId {
        if cs[0].pins[l].id == pinId { assert IsPinAt(cs, 0, l, pinId); }
      }
      forall k, l | IsPinAt(cs[1..], k, l, pinId) ensures !Before(k, l, i - 1, j) {
        assert IsPinAt(cs, k + 1, l, pinId);
      }
      AbsolutePinPositionFirstMatch(cs[1..], pinId, i - 1, j);
    }
  }

  /** Not found: the origin. */
  lemma {:induction false} AbsolutePinPositionFallback(cs: seq<Component>, pinId: string)
    requires NoPin(cs, pinId)
    ensures AbsolutePinPosition(cs, pinId) == Point(0, 0)
  {
    if cs != [] {
      forall l | 0 <= l < |cs[0].pins| ensures cs[0].pins[l].id != pinId {
        assert !IsPinAt(cs, 0, l, pinId);
      }
      forall k, l ensures !IsPinAt(cs[1..], k, l, pinId) {
        assert !IsPinAt(cs, k + 1, l, pinId);
      }
      AbsolutePinPositionFallback(cs[1..], pinId);
    }
  }

  /** The renderer and the wiring code find the same pin: where the wiring
      code resolves a pin, the renderer draws from that pin's owner. */
  lemma AbsolutePinPositionAgreesWithResolve(cs: seq<Component>, pinId: string)
    ensures ResolvePin(cs, pinId).None? ==> AbsolutePinPosition(cs, pinId) == Point(0, 0)
    ensures ResolvePin(cs, pinId).Some? ==>
      exists i :: 0 <= i < |cs| && cs[i].id == ResolvePin(cs, pinId).value.componentId &&
        AbsolutePinPosition(cs, pinId) == Add(cs[i].position, ResolvePin(cs, pinId).value.pin.position)
  {
    ResolvePinLocates(cs, pinId);
    match LocatePin(cs, pinId)
    case None => AbsolutePinPositionFallback(cs, pinId);
    case Some(loc) => AbsolutePinPositionFirstMatch(cs, pinId, loc.component, loc.pin);
  }

  /** `[from.x, from.y, to.x, to.y]`: the straight segment drawn for a
      wire, computed from the current component positions. */
  function WireSegment(w: Wire, cs: seq<Component>): (r: seq<int>)
    ensures |r| == 4
  {
    var from := AbsolutePinPosition(cs, w.fromPin);
    var to := AbsolutePinPosition(cs, w.toPin);
    [from.x, from.y, to.x, to.y]
  }

  /** The segment runs from the `fromPin` end to the `toPin` end, each the
      first matching pin's owner position plus its offset, or (0, 0) when
      no component has that pin. */
  lemma WireSegmentEnds(w: Wire, cs: seq<Component>)
    ensures var seg := WireSegment(w, cs);
      (forall i, j :: FirstPinAt(cs, i, j, w.fromPin) ==>
        Point(seg[0], seg[1]) == Add(cs[i].position, cs[i].pins[j].position)) &&
      (NoPin(cs, w.fromPin) ==> Point(seg[0], seg[1]) == Point(0, 0))
    ensures var seg := WireSegment(w, cs);
      (forall i, j :: FirstPinAt(cs, i, j, w.toPin) ==>
        Point(seg[2], seg[3]) == Add(cs[i].position, cs[i].pins[j].position)) &&
      (NoPin(cs, w.toPin) ==> Point(seg[2], seg[3]) == Point(0, 0))
  {
    forall i, j | FirstPinAt(cs, i, j, w.fromPin)
      ensures AbsolutePinPosition(cs, w.fromPin) == Add(cs[i].position, cs[i].pins[j].position)
    {
      AbsolutePinPositionFirstMatch(cs, w.fromPin, i, j);
    }
    forall i, j | FirstPinAt(cs, i, j, w.toPin)
      ensures AbsolutePinPosition(cs, w.toPin) == Add(cs[i].position, cs[i].pins[j].position)
    {
      AbsolutePinPositionFirstMatch(cs, w.toPin, i, j);
    }
    if NoPin(cs, w.fromPin) {
      AbsolutePinPositionFallback(cs, w.fromPin);
    }
    if NoPin(cs, w.toPin) {
      AbsolutePinPositionFallback(cs, w.toPin);
    }
  }

  /** The drawn segment ignores the wire's cached points and id: it depends
      only on its two pin ids and the components. */
  lemma WireSegmentIgnoresCache(w: Wire, v: Wire, cs: seq<Component>)
    requires w.fromPin == v.fromPin && w.toPin == v.toPin
    ensures WireSegment(w, cs) == WireSegment(v, cs)
  {
  }

  /** The cross drawn at a wire end: four points at (±3, ±3) around it. */
  function EndpointMarker(p: Point): (r: seq<int>)
    ensures |r| == 8
  {
    [p.x - 3, p.y - 3, p.x + 3, p.y + 3, p.x - 3, p.y + 3, p.x + 3, p.y - 3]
  }

  /** The k-th point of a marker. */
  function MarkerPoint(marker: seq<int>, k: int): Point
    requires |marker| == 8 && 0 <= k < 4
  {
    Point(marker[2 * k], marker[2 * k + 1])
  }

  /** The marker's four points are distinct and each is offset by 3 from
      the endpoint on both axes: they are the four corners (±3, ±3). */
  lemma EndpointMarkerCorners(p: Point)
    ensures forall k :: 0 <= k < 4 ==>
      var q := MarkerPoint(EndpointMarker(p), k);
      (q.x == p.x - 3 || q.x == p.x + 3) && (q.y == p.y - 3 || q.y == p.y + 3)
    ensures forall k, m :: 0 <= k < m < 4 ==> MarkerPoint(EndpointMarker(p), k) != MarkerPoint(EndpointMarker(p), m)
  {
  }

  /** The two markers of a wire sit on the ends of its drawn segment. */
  function WireMarkers(w: Wire, cs: seq<Component>): (r: (seq<int>, seq<int>))
    ensures var seg := WireSegment(w, cs);
      r.0 == EndpointMarker(Point(seg[0], seg[1])) && r.1 == EndpointMarker(Point(seg[2], seg[3]))
  {
    (EndpointMarker(AbsolutePinPosition(cs, w.fromPin)), EndpointMarker(AbsolutePinPosition(cs, w.toPin)))
  }
}
