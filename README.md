# Schematic editor circuit core, in Dafny

This project models the editing core of a browser schematic editor:

- **The circuit hook.** It holds five state cells:
  - a circuit (components, wires, canvas);
  - the selected component id;
  - the pending placement type;
  - the `isWiring` flag;
  - the first pin of a wire in progress.

  Its operations add, remove and move components, merge canvas updates, select, and run the two-state wiring machine. That machine is start, complete and cancel, with the pin-click dispatcher on top.
- **The component catalog** the hook instantiates from.
- **The absolute pin position, segment and marker computation** of the wire renderer.
- **The circuit data types.**

Layout:

- `types.dfy`: the data types.
- `identifiers.dfy`: the time-stamped ids.
- `component_library.dfy`: the catalog.
- `pin_lookup.dfy`: the first-match pin resolution used while wiring.
- `wire_renderer.dfy`: the renderer's geometry.
- `circuit_ops.dfy`: each operation's circuit snapshot as a pure function.
- `well_formed.dfy`: the circuit invariant and its preservation.
- `use_circuit.dfy`: the hook as a class whose methods overwrite its fields.
- `seqs.dfy`: sequence notions the properties are stated with.

Three facts about the code that the model keeps as they are:

- `updateCircuitCanvas` stores any scale. The only clamp is in the editor's wheel handler, which is not part of this model.
- A new wire caches the two pins' *local* offsets, not their absolute positions (src/hooks/useCircuit.ts:157-160).
- The initial test resistor has pins at (-30, 0) and (30, 0), unlike the catalog's (0, 0) and (60, 0). The initial test LED carries an `isOn` property the catalog's LED does not have.

Model choices:

- **Time.** `Date.now()` is a parameter `now`. Ids are built from it literally:
  - a component is `tag-now`;
  - its pins are `tag-now-pin-i`;
  - a wire is `wire-now`.
- **Fresh ids.** The hook's methods that create ids require them to be fresh. This is the `FreshComponent` / `FreshWire` precondition. Under it they keep the invariant `WellFormed`:
  - component, pin and wire ids are unique;
  - every wire joins pins on two different existing components;
  - every pin a wire ends on is marked connected.
- **The wiring invariant.** `Valid()` adds `isWiring <==> firstPinId != null` to `WellFormed`.

## Model

| member | source | states |
|---|---|---|
| CircuitTypes.TypeTagInjective | src/types/circuit.ts:43-51 | the eight declared component type tags are pairwise different strings |
| Identifiers.DecimalString | src/hooks/useCircuit.ts:56 | the decimal rendering of a time stamp is non-empty and all digits, and has one digit exactly below 10 |
| Identifiers.DecimalStringInjective | src/hooks/useCircuit.ts:56 | different time stamps render differently |
| Identifiers.PinIdForInjective | src/hooks/useCircuit.ts:62 | two pins of one new component never share an id: the `-pin-index` suffix tells them apart |
| ComponentLibrary.GetComponentDefinition | src/components/circuit/ComponentLibrary.ts:121-123 | a found entry is the definition of the very type looked up (its `type` equals its key) and never the inductor; no entry only for a tag no type but the inductor has |
| ComponentLibrary.DefinedExactlyForAllButInductor | src/components/circuit/ComponentLibrary.ts:3-119 | of the declared types, exactly the inductor has no entry; every other type's entry carries that type |
| ComponentLibrary.ResistorEntry | src/components/circuit/ComponentLibrary.ts:4-17 | the resistor has two pins, A at (0,0) and B at (60,0), and defaults value '1k', tolerance '5%' |
| ComponentLibrary.Pic16Layout | src/components/circuit/ComponentLibrary.ts:79-99 | the PIC16 has 18 pins: the first nine at x=0, y=20(i+1); the last nine at x=120, y from 180 back down to 20 |
| ComponentLibrary.SinglePinEntries | src/components/circuit/ComponentLibrary.ts:49-71 | ground, VCC and the probe have exactly one pin each, with roles ground, power and input |
| ComponentLibrary.PinNamesDistinct | src/components/circuit/ComponentLibrary.ts:9-113 | within every catalog entry the pin names are distinct |
| PinLookup.FindPin | src/components/circuit/WireRenderer.tsx:21 | the pin found has the id and is in the list; nothing is found exactly when no pin has the id |
| PinLookup.FindPinFirst | src/components/circuit/WireRenderer.tsx:21 | the search returns the first pin with the id |
| PinLookup.TagPins | src/hooks/useCircuit.ts:136 | each pin is paired with its owner's id, in order and one for one |
| PinLookup.Tagged | src/hooks/useCircuit.ts:136 | every pin of every component paired with its owner's id, component by component; used by ResolvePin |
| PinLookup.FindOwned | src/hooks/useCircuit.ts:137 | the first tagged pin with the id; its meaning for circuits is stated by ResolvePinFirstMatch and ResolvePinNone |
| PinLookup.ResolvePin | src/hooks/useCircuit.ts:135-141 | the flatMap-then-find pin resolution; stated by ResolvePinFirstMatch, ResolvePinNone and ResolvePinLocates |
| PinLookup.ResolvePinFirstMatch | src/hooks/useCircuit.ts:135-141 | resolution returns the first pin with the id in component order, tagged with its owner |
| PinLookup.ResolvePinNone | src/hooks/useCircuit.ts:135-143 | when no component has a pin with the id, resolution finds nothing |
| PinLookup.LocatePin | src/hooks/useCircuit.ts:135-141 | the location found is the first pin with the id, in component-then-pin order; none is found exactly when no pin has the id |
| PinLookup.ResolvePinLocates | src/hooks/useCircuit.ts:135-141 | the flattened search and the located first match agree |
| PinLookup.FirstPinAtUnique | src/hooks/useCircuit.ts:135-141 | the first match is one location |
| PinLookup.PinOwnerSameIds | src/hooks/useCircuit.ts:135-141 | resolution depends only on the ids: changing positions or flags does not change a pin's owner |
| WireRenderer.AbsolutePinPositionFirstMatch | src/components/circuit/WireRenderer.tsx:19-28 | the position is the owner's position plus the pin's offset, from the first component with that pin |
| WireRenderer.AbsolutePinPositionFallback | src/components/circuit/WireRenderer.tsx:29 | no component has the pin: the position is (0,0) |
| WireRenderer.AbsolutePinPositionAgreesWithResolve | src/components/circuit/WireRenderer.tsx:19-30 | the renderer places each pin at the owner that the wiring code resolves it to, and at (0,0) when it does not resolve |
| WireRenderer.AbsolutePinPosition | src/components/circuit/WireRenderer.tsx:19-30 | the linear search over the components; its meaning is stated by AbsolutePinPositionFirstMatch and AbsolutePinPositionFallback |
| WireRenderer.WireSegment | src/components/circuit/WireRenderer.tsx:32-37 | the drawn segment has four coordinates; what they are is stated by WireSegmentEnds |
| WireRenderer.WireSegmentEnds | src/components/circuit/WireRenderer.tsx:32-37 | the segment is [from.x, from.y, to.x, to.y]: each end is the first matching pin's owner position plus its offset, or (0,0) when no component has that pin |
| WireRenderer.WireSegmentIgnoresCache | src/components/circuit/WireRenderer.tsx:32-37 | the segment depends only on the two pin ids and the live components, not on the cached points or the wire id |
| WireRenderer.EndpointMarker | src/components/circuit/WireRenderer.tsx:56 | the eight marker coordinates around an endpoint; their meaning is stated by EndpointMarkerCorners |
| WireRenderer.EndpointMarkerCorners | src/components/circuit/WireRenderer.tsx:56 | an endpoint marker is four distinct points, each 3 off the endpoint on both axes |
| WireRenderer.WireMarkers | src/components/circuit/WireRenderer.tsx:55-66 | the two markers sit on the two ends of the drawn segment |
| CircuitOps.InitialCircuit | src/hooks/useCircuit.ts:6-42 | the test LED and test resistor, no wires, scale 1 at offset (0,0); that it satisfies the circuit invariant is InitialCircuitWellFormed |
| CircuitOps.InstantiatePins | src/hooks/useCircuit.ts:60-65 | the catalog's pin templates given ids, unconnected and unset; stated by InstantiateFollowsTemplate |
| CircuitOps.Instantiate | src/hooks/useCircuit.ts:55-68 | the new component built from a catalog entry; stated by InstantiateFollowsTemplate |
| CircuitOps.InstantiateFollowsTemplate | src/hooks/useCircuit.ts:55-68 | the new component sits at (x,y) with rotation 0, catalog defaults and the definition name as label; its pins follow the templates in count, order, name, role and offset, are unconnected and unset, and have distinct ids |
| CircuitOps.WithComponentAdded | src/hooks/useCircuit.ts:51-76 | the circuit after `addComponent`; stated by AddComponentEffect and AddComponentKeepsWellFormed |
| CircuitOps.AddedComponentId | src/hooks/useCircuit.ts:52-53 | an id is returned exactly when the tag has a catalog entry |
| CircuitOps.AddComponentEffect | src/hooks/useCircuit.ts:51-76 | an unknown tag leaves the circuit as it was; a known one appends exactly one component at the end, with the returned id, and keeps the old components, the wires and the canvas |
| CircuitOps.AddDeclaredType | src/hooks/useCircuit.ts:52-53 | of the declared types, adding leaves the circuit unchanged exactly for the inductor |
| CircuitOps.FindComponent | src/hooks/useCircuit.ts:83 | the component found is the first one with the id; nothing is found exactly when no component has it |
| CircuitOps.WithoutComponent | src/hooks/useCircuit.ts:81 | the kept components are exactly those without the id, in their old order |
| CircuitOps.WithoutComponentCounts | src/hooks/useCircuit.ts:81 | each component without the id is kept as often as it occurs, and none with the id is kept |
| CircuitOps.TouchesWire | src/hooks/useCircuit.ts:83-85 | true exactly when some pin of the list is either end of the wire |
| CircuitOps.SurvivingWires | src/hooks/useCircuit.ts:82-86 | the kept wires are exactly those that survive, in their old order |
| CircuitOps.SurvivingWiresCounts | src/hooks/useCircuit.ts:82-86 | each surviving wire is kept as often as it occurs, and no other wire is kept |
| CircuitOps.WithComponentRemoved | src/hooks/useCircuit.ts:78-87 | the circuit after `removeComponent`; stated by RemoveComponentEffect, RemoveAbsentComponent and RemoveComponentKeepsWellFormed |
| CircuitOps.RemoveComponentEffect | src/hooks/useCircuit.ts:78-87 | no component with the id is left and the others stay, as often as before and in order; the wires touching a pin of the first component with the id go and the others stay, as often as before and in order; the canvas is kept |
| CircuitOps.RemoveAbsentComponent | src/hooks/useCircuit.ts:78-87 | removing an id no component has changes nothing |
| CircuitOps.WithComponentMoved | src/hooks/useCircuit.ts:94-101 | the circuit after `moveComponent`; stated by MoveComponentEffect and MoveTracksDrawnPins |
| CircuitOps.MoveComponentEffect | src/hooks/useCircuit.ts:94-101 | only the position of the components with the id changes; list length and order, all other fields, all wires (cached points included) and the canvas stay |
| CircuitOps.MoveTracksDrawnPins | src/hooks/useCircuit.ts:94-101 | after a move the renderer draws the moved component's pins from the new position and every other pin where it was |
| CircuitOps.MergeCanvas | src/hooks/useCircuit.ts:106 | the partial canvas merge; stated by CanvasUpdateLaws |
| CircuitOps.WithCanvasUpdated | src/hooks/useCircuit.ts:103-108 | the circuit after `updateCircuitCanvas`; stated by CanvasUpdateLaws |
| CircuitOps.CanvasUpdateLaws | src/hooks/useCircuit.ts:103-108 | a given scale is stored as given (no clamp); an empty update changes nothing; a later update overrides an earlier one field by field; nothing but the canvas changes |
| CircuitOps.WithWireConnected | src/hooks/useCircuit.ts:133-174 | the `setCircuit` callback of `completeWiring`; stated by ConnectedWireCachesLocalOffsets, ConnectMarksExactlyBothPins and ConnectSamePinRejected |
| CircuitOps.CompletedCircuit | src/hooks/useCircuit.ts:124-174 | the circuit `completeWiring` leaves; stated by CompleteWiringAppendsIff |
| CircuitOps.Connects | src/hooks/useCircuit.ts:125-150 | the four conditions under which a wire is made; CompleteWiringAppendsIff proves a wire is added exactly when they hold |
| CircuitOps.CompleteWiringAppendsIff | src/hooks/useCircuit.ts:124-173 | a wire is appended exactly when all four conditions hold (first pin set, the pins differ, both resolve, different owners), running from the first pin to the second with the new id; otherwise the circuit is unchanged |
| CircuitOps.ConnectedWireCachesLocalOffsets | src/hooks/useCircuit.ts:153-161 | the new wire caches the two first-matched pins' local offsets |
| CircuitOps.ConnectMarksExactlyBothPins | src/hooks/useCircuit.ts:166-172 | exactly the pins with the two ids become connected; every other pin's flag and everything else about every component stay |
| CircuitOps.ConnectSamePinRejected | src/hooks/useCircuit.ts:147-150 | a pin cannot be wired to itself |
| WellFormedness.InitialCircuitWellFormed | src/hooks/useCircuit.ts:6-42 | the initial circuit satisfies the circuit invariant |
| WellFormedness.AddComponentKeepsWellFormed | src/hooks/useCircuit.ts:51-76 | adding a component with fresh ids keeps the invariant |
| WellFormedness.RemoveComponentKeepsWellFormed | src/hooks/useCircuit.ts:78-87 | removing a component keeps the invariant: no wire is left on a missing pin |
| WellFormedness.RemoveComponentCascades | src/hooks/useCircuit.ts:82-86 | every wire ending on a pin of the removed component is removed |
| WellFormedness.MoveComponentKeepsWellFormed | src/hooks/useCircuit.ts:94-101 | moving keeps the invariant |
| WellFormedness.ConnectKeepsWellFormed | src/hooks/useCircuit.ts:133-174 | connecting with a fresh wire id keeps the invariant |
| WellFormedness.CompleteWiringKeepsWellFormed | src/hooks/useCircuit.ts:124-179 | completing (or failing to complete) a wire keeps the invariant |
| WellFormedness.CanvasUpdateKeepsWellFormed | src/hooks/useCircuit.ts:103-108 | a canvas update keeps the invariant |
| WellFormedness.SharedIdLeavesDanglingWire | src/hooks/useCircuit.ts:78-86 | with two components sharing an id, removing it drops both but keeps a wire on the second one's pin, which then resolves to nothing |
| WellFormedness.ConnectedFlagOutlivesWire | src/hooks/useCircuit.ts:78-87 | removal never clears `connected`: wire the LED to the resistor, remove the resistor, and the LED pin stays connected with no wire left |
| UseCircuit.CircuitHook.constructor | src/hooks/useCircuit.ts:6-49 | the initial circuit, nothing selected, not wiring, no first pin; the invariant holds |
| UseCircuit.CircuitHook.AddComponent | src/hooks/useCircuit.ts:51-76 | the circuit becomes the added snapshot, the returned id is the new component's (none for an unknown tag), all other state is kept, and the invariant is preserved |
| UseCircuit.CircuitHook.RemoveComponent | src/hooks/useCircuit.ts:78-92 | the circuit becomes the removal snapshot; the selection is cleared exactly when it was the removed id |
| UseCircuit.CircuitHook.MoveComponent | src/hooks/useCircuit.ts:94-101 | the circuit becomes the moved snapshot; all other state is kept |
| UseCircuit.CircuitHook.UpdateCircuitCanvas | src/hooks/useCircuit.ts:103-108 | the circuit becomes the merged snapshot; all other state is kept |
| UseCircuit.CircuitHook.SelectComponent | src/hooks/useCircuit.ts:110-112 | sets the selected id, unchecked; nothing else changes |
| UseCircuit.CircuitHook.SelectComponentType | src/hooks/useCircuit.ts:114-116 | sets the pending type; nothing else changes |
| UseCircuit.CircuitHook.StartWiring | src/hooks/useCircuit.ts:118-122 | wiring from the given pin with the selection cleared; the circuit is kept |
| UseCircuit.CircuitHook.CompleteWiring | src/hooks/useCircuit.ts:124-179 | the circuit becomes the completed snapshot for the held first pin; always ends not wiring with no first pin; the selections are kept |
| UseCircuit.CircuitHook.CancelWiring | src/hooks/useCircuit.ts:181-184 | ends not wiring with no first pin, whatever the state, so a second call changes nothing; the rest is kept |
| UseCircuit.CircuitHook.HandlePinClick | src/hooks/useCircuit.ts:186-194 | when idle, starts wiring from the pin; when wiring, completes to it; the invariant holds either way |
| UseCircuit.CircuitHook.HandleComponentAdd | src/App.tsx:51-55 | adds the component, then clears the pending type |

## Left out

- The schematic editor's stage handling is not part of this model: wheel zoom to the cursor, the scale clamp there, pan, grid. It is floating-point work on a drawing object.
- The component renderer, the palette and the application layout are not part of this model. They only draw.
- React semantics are not modelled: state batching, and the closures that capture `firstPinId`. The hook is one object whose calls run one after the other.
- `setCircuit` is returned raw by the hook for callers to replace the whole circuit. It is not modelled, so the invariant covers only the named operations.
- Time: `Date.now()` is the parameter `now`. One stamp serves a whole `addComponent` call, while the code reads the clock again for each pin id.
- Coordinates are `int`, since the core only adds and copies them. The canvas scale is `real`.
- Property values (`Record<string, any>`) are opaque tagged values. Their contents play no part in the core.
- The catalog lookup covers the table's own keys only. Keys inherited by a JavaScript object (such as `toString`) are not modelled.
- `Partial` canvas updates are modelled as two optional fields. An update that passes an explicit `undefined` for a field is not modelled.
- Pin `connected` and `value` are optional in the types. The model gives them `false` where the code would leave them out.
- CircuitOps.WithComponentRemoved: the invariant lemmas assume unique component ids. With a shared id, the code removes every such component but only the wires on the first one's pins; `SharedIdLeavesDanglingWire` shows the wire left behind. Two placements of one type in the same millisecond share pin ids as well, so the cascade still takes their wires. The state needs components that share an id but not pin ids. That arises when the clock moves on between a placement's component id and its pin ids, which the single `now` per call rules out, or when a whole circuit is handed to `setCircuit`.
- UseCircuit.CircuitHook.AddComponent: requires the new ids to be fresh, which the code does not check. Two additions of one type within the same millisecond would clash.
- UseCircuit.CircuitHook.CompleteWiring: requires the new wire id to be fresh when a wire is made, which the code does not check.
- UseCircuit.CircuitHook.HandlePinClick: requires the same freshness as CompleteWiring, when it completes a wire.
