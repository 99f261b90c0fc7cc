/** The circuit data model: points, pins, components, wires, the circuit
    aggregate and the catalog's component definitions. */
module CircuitTypes {

  /** A value that may be absent (`T | null` or `T | undefined`). */
  datatype Option<+T> = None | Some(value: T)

  /** A point on the canvas, or an offset local to a component's origin.
      Coordinates only flow through addition and copying, so they are
      integers here. */
  datatype Point = Point(x: int, y: int)

  function Add(a: Point, b: Point): Point
  {
    Point(a.x + b.x, a.y + b.y)
  }

  /** The electrical role of a pin: exactly one of five. */
  datatype PinRole = InputPin | OutputPin | BidirectionalPin | PowerPin | GroundPin

  /** A placed pin. `connected` and `value` are optional in the source;
      every pin the core creates carries both. */
  datatype Pin = Pin(
    id: string,
    name: string,
    role: PinRole,
    position: Point,   // local to the owning component
    connected: bool,
    value: bool)

  /** The untyped values of a component's property record. */
  datatype PropValue = Text(text: string) | Number(number: real) | Flag(flag: bool)

  /** A placed component. Its `type` is a plain string at run time. */
  datatype Component = Component(
    id: string,
    tag: string,
    position: Point,
    rotation: int,
    pins: seq<Pin>,
    properties: map<string, PropValue>,
    labelText: Option<string>)  // the source's optional `label`

  /** A wire refers to its endpoints by pin id only, and carries a separate
      list of cached points. */
  datatype Wire = Wire(id: string, fromPin: string, toPin: string, points: seq<Point>)

  /** The view transform: exactly a scale and an offset. */
  datatype Canvas = Canvas(scale: real, offset: Point)

  datatype Circuit = Circuit(
    id: string,
    name: string,
    components: seq<Component>,
    wires: seq<Wire>,
    canvas: Canvas)

  /** The declared component type tags. */
  datatype ComponentType = Resistor | Led | Capacitor | Inductor | Pic16 | Ground | Vcc | Probe

  /** The string a type tag is at run time. */
  function TypeTag(t: ComponentType): string
  {
    match t
    case Resistor => "resistor"
    case Led => "led"
    case Capacitor => "capacitor"
    case Inductor => "inductor"
    case Pic16 => "pic16"
    case Ground => "ground"
    case Vcc => "vcc"
    case Probe => "probe"
  }

  /** A catalog pin template: a pin without id, connected flag or value,
      which are supplied when a component is instantiated. */
  datatype PinTemplate = PinTemplate(name: string, role: PinRole, position: Point)

  datatype ComponentDefinition = ComponentDefinition(
    tag: ComponentType,
    name: string,
    width: int,
    height: int,
    pins: seq<PinTemplate>,
    defaultProperties: map<string, PropValue>)

  /** The template a placed pin was made from. */
  function TemplateOf(p: Pin): PinTemplate
  {
    PinTemplate(p.name, p.role, p.position)
  }

  /** Distinct run-time tags for distinct type tags. */
  lemma TypeTagInjective(s: ComponentType, t: ComponentType)
    requires TypeTag(s) == TypeTag(t)
    ensures s == t
  {
    // Two distinct tags differ in length or in one of their first two letters.
    assert TypeTag(s)[0] == TypeTag(t)[0] && |TypeTag(s)| == |TypeTag(t)|;
    assert TypeTag(s)[1] == TypeTag(t)[1];
  }
}
