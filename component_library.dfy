/** The component catalog: a constant table from run-time type tag to
    definition, and its partial lookup. */
module ComponentLibrary {
  import opened CircuitTypes

  const ResistorDefinition := ComponentDefinition(
    Resistor, "Resistor", 60, 20,
    [ PinTemplate("A", BidirectionalPin, Point(0, 0)),
      PinTemplate("B", BidirectionalPin, Point(60, 0)) ],
    map["value" := Text("1k"), "tolerance" := Text("5%")])

  const LedDefinition := ComponentDefinition(
    Led, "LED", 40, 40,
    [ PinTemplate("Anode", InputPin, Point(0, 0)),
      PinTemplate("Cathode", OutputPin, Point(40, 0)) ],
    map["color" := Text("red"), "forwardVoltage" := Number(2.1)])

  const CapacitorDefinition := ComponentDefinition(
    Capacitor, "Capacitor", 30, 50,
    [ PinTemplate("Positive", BidirectionalPin, Point(0, 0)),
      PinTemplate("Negative", BidirectionalPin, Point(30, 0)) ],
    map["value" := Text("100μF"), "voltage" := Text("25V")])

  const GroundDefinition := ComponentDefinition(
    Ground, "Ground", 30, 30,
    [ PinTemplate("GND", GroundPin, Point(15, 0)) ],
    map[])

  const VccDefinition := ComponentDefinition(
    Vcc, "VCC", 30, 30,
    [ PinTemplate("VCC", PowerPin, Point(15, 30)) ],
    map["voltage" := Text("5V")])

  /** The PIC16F84A package: pins 1-9 down the left side, pins 10-18 up
      the right side. */
  const Pic16Definition := ComponentDefinition(
    Pic16, "PIC16F84A", 120, 200,
    [ PinTemplate("RA2", BidirectionalPin, Point(0, 20)),
      PinTemplate("RA3", BidirectionalPin, Point(0, 40)),
      PinTemplate("RA4/T0CKI", BidirectionalPin, Point(0, 60)),
      PinTemplate("MCLR", InputPin, Point(0, 80)),
      PinTemplate("VSS", GroundPin, Point(0, 100)),
      PinTemplate("RB0/INT", BidirectionalPin, Point(0, 120)),
      PinTemplate("RB1", BidirectionalPin, Point(0, 140)),
      PinTemplate("RB2", BidirectionalPin, Point(0, 160)),
      PinTemplate("RB3", BidirectionalPin, Point(0, 180)),
      PinTemplate("RB4", BidirectionalPin, Point(120, 180)),
      PinTemplate("RB5", BidirectionalPin, Point(120, 160)),
      PinTemplate("RB6", BidirectionalPin, Point(120, 140)),
      PinTemplate("RB7", BidirectionalPin, Point(120, 120)),
      PinTemplate("VDD", PowerPin, Point(120, 100)),
      PinTemplate("OSC2", OutputPin, Point(120, 80)),
      PinTemplate("OSC1", InputPin, Point(120, 60)),
      PinTemplate("RA0", BidirectionalPin, Point(120, 40)),
      PinTemplate("RA1", BidirectionalPin, Point(120, 20)) ],
    map["model" := Text("PIC16F84A"), "clockFrequency" := Text("4MHz")])

  const ProbeDefinition := ComponentDefinition(
    Probe, "Probe", 20, 20,
    [ PinTemplate("Input", InputPin, Point(0, 10)) ],
    map["color" := Text("yellow")])

  /** The table itself, keyed by run-time tag. 'inductor' has no entry. */
  const Definitions: map<string, ComponentDefinition> := map[
    "resistor" := ResistorDefinition,
    "led" := LedDefinition,
    "capacitor" := CapacitorDefinition,
    "ground" := GroundDefinition,
    "vcc" := VccDefinition,
    "pic16" := Pic16Definition,
    "probe" := ProbeDefinition]

  /** The entry for a tag, or None for a tag the table does not have. An
      entry found under a tag is the definition of that very type. */
  function GetComponentDefinition(tag: string): (r: Option<ComponentDefinition>)
    ensures r.Some? ==> TypeTag(r.value.tag) == tag && r.value.tag != Inductor
    ensures r.None? ==> forall t :: TypeTag(t) == tag ==> t == Inductor
  {
    if tag in Definitions then Some(Definitions[tag]) else None
  }

  /** Of the declared type tags, every one but 'inductor' has an entry. */
  lemma DefinedExactlyForAllButInductor(t: ComponentType)
    ensures GetComponentDefinition(TypeTag(t)).Some? <==> t != Inductor
    ensures GetComponentDefinition(TypeTag(t)).Some? ==> GetComponentDefinition(TypeTag(t)).value.tag == t
  {
    if GetComponentDefinition(TypeTag(t)).Some? {
      TypeTagInjective(GetComponentDefinition(TypeTag(t)).value.tag, t);
    }
  }

  lemma ResistorEntry()
    ensures GetComponentDefinition("resistor") == Some(ResistorDefinition)
    ensures |ResistorDefinition.pins| == 2
    ensures ResistorDefinition.pins[0].name == "A" && ResistorDefinition.pins[0].position == Point(0, 0)
    ensures ResistorDefinition.pins[1].name == "B" && ResistorDefinition.pins[1].position == Point(60, 0)
    ensures ResistorDefinition.defaultProperties == map["value" := Text("1k"), "tolerance" := Text("5%")]
  {
  }

  /** The first nine pins of the PIC16 sit on the left edge 20 apart going
      down; the last nine on the right edge, going back up. */
  lemma Pic16Layout()
    ensures GetComponentDefinition("pic16") == Some(Pic16Definition)
    ensures |Pic16Definition.pins| == 18
    ensures forall i :: 0 <= i < 9 ==> Pic16Definition.pins[i].position == Point(0, 20 * (i + 1))
    ensures forall i :: 9 <= i < 18 ==> Pic16Definition.pins[i].position == Point(120, 20 * (18 - i))
  {
  }

  /** Ground, VCC and the probe each have a single pin, whose role is
      ground, power and input respectively. */
  lemma SinglePinEntries()
    ensures GetComponentDefinition("ground") == Some(GroundDefinition)
    ensures GetComponentDefinition("vcc") == Some(VccDefinition)
    ensures GetComponentDefinition("probe") == Some(ProbeDefinition)
    ensures |GroundDefinition.pins| == 1 && GroundDefinition.pins[0].role == GroundPin
    ensures |VccDefinition.pins| == 1 && VccDefinition.pins[0].role == PowerPin
    ensures |ProbeDefinition.pins| == 1 && ProbeDefinition.pins[0].role == InputPin
  {
  }

  predicate DistinctPinNames(d: ComponentDefinition)
  {
    forall i, j :: 0 <= i < j < |d.pins| ==> d.pins[i].name != d.pins[j].name
  }

  /** Within every entry, pin names are distinct. */
  lemma PinNamesDistinct(tag: string)
    requires tag in Definitions
    ensures DistinctPinNames(Definitions[tag])
  {
  }
}
