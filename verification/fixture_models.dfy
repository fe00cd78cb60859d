/** The rows of the fixture tables: fixture types (profiles), their
    channels, and fixtures patched into a show. */
module FixtureModels {
  import opened Common

  /** The DMX attribute a channel drives (`AttributeType`). */
  datatype AttributeType =
    | Dimmer | Strobe | Shutter
    | Pan | PanFine | Tilt | TiltFine
    | ColorRed | ColorGreen | ColorBlue | ColorWhite | ColorWheel
    | Fog | Fan | Speed
    | Unknown

  /** The string value each member is stored and transmitted as. */
  function AttributeValue(a: AttributeType): string
  {
    match a
    case Dimmer => "dimmer"
    case Strobe => "strobe"
    case Shutter => "shutter"
    case Pan => "pan"
    case PanFine => "pan_fine"
    case Tilt => "tilt"
    case TiltFine => "tilt_fine"
    case ColorRed => "color_red"
    case ColorGreen => "color_green"
    case ColorBlue => "color_blue"
    case ColorWhite => "color_white"
    case ColorWheel => "color_wheel"
    case Fog => "fog"
    case Fan => "fan"
    case Speed => "speed"
    case Unknown => "unknown"
  }

  /** Looking a member up by its value, as `AttributeType(value)` does;
      `None` where the enum raises. */
  function AttributeFromValue(s: string): (r: Option<AttributeType>)
    ensures r.Some? ==> AttributeValue(r.value) == s
  {
    if s == "dimmer" then Some(Dimmer)
    else if s == "strobe" then Some(Strobe)
    else if s == "shutter" then Some(Shutter)
    else if s == "pan" then Some(Pan)
    else if s == "pan_fine" then Some(PanFine)
    else if s == "tilt" then Some(Tilt)
    else if s == "tilt_fine" then Some(TiltFine)
    else if s == "color_red" then Some(ColorRed)
    else if s == "color_green" then Some(ColorGreen)
    else if s == "color_blue" then Some(ColorBlue)
    else if s == "color_white" then Some(ColorWhite)
    else if s == "color_wheel" then Some(ColorWheel)
    else if s == "fog" then Some(Fog)
    else if s == "fan" then Some(Fan)
    else if s == "speed" then Some(Speed)
    else if s == "unknown" then Some(Unknown)
    else None
  }

  /** Every member is found again by its value, so the sixteen values are
      pairwise distinct. */
  lemma AttributeRoundTrip(a: AttributeType)
    ensures AttributeFromValue(AttributeValue(a)) == Some(a)
  {
  }

  /** Two members with the same value are the same member. */
  lemma AttributeValueInjective(a: AttributeType, b: AttributeType)
    requires AttributeValue(a) == AttributeValue(b)
    ensures a == b
  {
    AttributeRoundTrip(a);
    AttributeRoundTrip(b);
  }

  /** A row of `fixture_types`. */
  datatype FixtureType = FixtureType(id: Uuid, manufacturerId: Uuid, model: string, modeName: string)

  /** A row of `fixture_channels`; its integer primary key is not modelled. */
  datatype FixtureChannel = FixtureChannel(
    fixtureTypeId: Uuid,
    dmxOffset: int,
    attribute: AttributeType,
    defaultValue: int,
    highlightValue: int,
    invertDefault: bool)

  /** A row of `fixtures`: an instance of a fixture type patched at a
      universe and start address in a show. */
  datatype Fixture = Fixture(
    id: Uuid,
    showId: Uuid,
    fid: int,
    name: string,
    fixtureTypeId: Uuid,
    universe: int,
    startAddress: int,
    isActive: bool,
    invertPan: bool,
    invertTilt: bool)
}
