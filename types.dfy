/**
 * The records shared by the input-binding engine: what a binding is, what a
 * detected controller is, and the small enumerations they use.
 */
module Types {

  datatype Option<+T> = None | Some(value: T)

  datatype Result<+T, +E> = Ok(value: T) | Err(error: E)

  /** Whether a binding refers to a button slot or an axis slot. */
  datatype InputType = Button | Axis

  /** The sign of an axis deflection; a button binding carries none. */
  datatype Direction = Positive | Negative

  /**
   * How the game maps an axis onto its range. The four named values are the
   * ones the program offers; `Unrecognised` holds any other text an imported
   * file carries in its `type` attribute, which the importer stores without
   * checking it.
   */
  datatype Calibration = BiDirLower | BiDirUpper | UniDirNeg | UniDirPos | Unrecognised(text: string)

  /** The text the program writes for each named calibration. */
  function CalibrationName(c: Calibration): string
  {
    match c
    case BiDirLower => "biDirLower"
    case BiDirUpper => "biDirUpper"
    case UniDirNeg => "uniDirNeg"
    case UniDirPos => "uniDirPos"
    case Unrecognised(t) => t
  }

  /** The names of the four recognised calibrations. */
  const CalibrationNames: set<string> := {"biDirLower", "biDirUpper", "uniDirNeg", "uniDirPos"}

  /** Reads a `type` attribute back into a calibration. */
  function CalibrationOf(text: string): (c: Calibration)
    ensures CalibrationName(c) == text
    ensures c.Unrecognised? <==> text !in CalibrationNames
  {
    if text == "biDirLower" then BiDirLower
    else if text == "biDirUpper" then BiDirUpper
    else if text == "uniDirNeg" then UniDirNeg
    else if text == "uniDirPos" then UniDirPos
    else Unrecognised(text)
  }

  /**
   * A calibration is fixed by its text together with whether it is
   * recognised: no `Unrecognised` value carries one of the four names.
   */
  lemma CalibrationFixedByName(text: string, c: Calibration)
    requires CalibrationName(c) == text
    requires c.Unrecognised? <==> text !in CalibrationNames
    ensures c == CalibrationOf(text)
  {
  }

  /**
   * A slot number as the program holds it: a JavaScript number that is an
   * integer, or NaN when an imported id had no digits where a number was
   * expected.
   */
  datatype Index = Num(value: int) | NaN

  /** JavaScript's `===` on two slot numbers: NaN equals nothing, itself included. */
  predicate StrictEquals(a: Index, b: Index)
  {
    a.Num? && b.Num? && a.value == b.value
  }

  /**
   * One binding of a physical input to an action. `deviceGuid` is the
   * durable identity; `deviceIndex` and `deviceName` are a cached copy of
   * the live device's fields. The optional fields of the record are `Option`s.
   */
  datatype InputMapping = InputMapping(
    deviceGuid: string,
    deviceIndex: int,
    deviceName: string,
    kind: InputType,
    index: Index,
    direction: Option<Direction>,
    calibration: Option<Calibration>,
    deadzone: Option<real>,
    saturation: Option<real>)

  /** Action id to the ordered list of its bindings. */
  type MappingState = map<string, seq<InputMapping>>

  /** A connected controller as one poll of the platform describes it. */
  datatype DetectedDevice = DetectedDevice(
    index: nat,
    id: string,
    name: string,
    vid: string,
    pid: string,
    guid: string,
    axesCount: nat,
    buttonsCount: nat)
}
