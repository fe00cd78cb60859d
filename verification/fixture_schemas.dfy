/** The request bodies of the fixture endpoints and the field constraints
    their validation enforces. A field left out of the request is `None`;
    validation either yields the body with defaults filled in or reports
    the names of the offending fields, in declaration order. */
module FixtureSchemas {
  import opened Common
  import opened FixtureModels

  /** The field names a failed validation reports. */
  datatype ValidationError = ValidationError(fields: seq<string>)

  /** `FixtureChannelCreate`: one channel of a new fixture type. */
  datatype FixtureChannelCreate = FixtureChannelCreate(
    dmxOffset: int,
    attribute: AttributeType,
    defaultValue: int,
    highlightValue: int,
    invertDefault: bool)

  /** `CreateFixtureType`. The manufacturer id is free text here; it is
      parsed only by the service. */
  datatype CreateFixtureType = CreateFixtureType(
    manufacturerId: string,
    model: string,
    modeName: string,
    channels: seq<FixtureChannelCreate>)

  /** `CreateFixturePatch`: where to patch an instance of a fixture type. */
  datatype CreateFixturePatch = CreateFixturePatch(
    showId: Uuid,
    fixtureTypeId: Uuid,
    name: string,
    fid: int,
    universe: int,
    startAddress: int,
    invertPan: bool,
    invertTilt: bool)

  const DefaultChannelValue: int := 0
  const DefaultHighlightValue: int := 255
  const DefaultUniverse: int := 0
  const MaxStartAddress: int := 512

  /** 2^76 and 2^62: the positions of the version nibble and of the two
      variant bits in a UUID's 128-bit value. */
  const VersionShift: nat := 0x1000_0000_0000_0000_0000
  const VariantShift: nat := 0x4000_0000_0000_0000
  const UuidBound: nat := 0x1_0000_0000_0000_0000_0000_0000_0000_0000

  /** A field typed `UUID7`: a 128-bit value of the RFC 4122 variant (bits
      10) whose version nibble is 7. An id of any other version or variant
      is refused. */
  predicate IsUuid7(u: Uuid)
  {
    u < UuidBound && (u / VariantShift) % 4 == 2 && (u / VersionShift) % 16 == 7
  }

  /** The sample version-7 UUID 017F22E2-79B0-7CC3-98C4-DC0C0C07398F is
      accepted; the same value with version nibble 4 is not, nor is a
      version-7 nibble under the Microsoft variant (bits 110). */
  lemma Uuid7Examples()
    ensures IsUuid7(0x017F22E2_79B0_7CC3_98C4_DC0C0C07398F)
    ensures !IsUuid7(0x017F22E2_79B0_4CC3_98C4_DC0C0C07398F)
    ensures !IsUuid7(0x017F22E2_79B0_7CC3_C8C4_DC0C0C07398F)
  {
  }

  /** What a validated channel is known to satisfy. */
  predicate ValidChannel(c: FixtureChannelCreate)
  {
    c.dmxOffset >= 1
  }

  /** What a validated patch request is known to satisfy. */
  predicate ValidPatch(p: CreateFixturePatch)
  {
    IsUuid7(p.showId) && IsUuid7(p.fixtureTypeId)
    && p.universe >= 0 && 1 <= p.startAddress <= MaxStartAddress
  }

  /** Validation of `FixtureChannelCreate`: `dmx_offset` is required and at
      least 1, `attribute` must be a member's value, the rest default to
      0, 255 and false. There is no upper bound on any of the values. */
  function ValidateChannel(dmxOffset: Option<int>, attribute: Option<string>,
                           defaultValue: Option<int>, highlightValue: Option<int>,
                           invertDefault: Option<bool>): (r: Result<FixtureChannelCreate, ValidationError>)
    ensures r.Ok? <==> dmxOffset.Some? && dmxOffset.value >= 1
                       && attribute.Some? && AttributeFromValue(attribute.value).Some?
    ensures r.Ok? ==> ValidChannel(r.value)
                      && r.value.dmxOffset == dmxOffset.value
                      && AttributeValue(r.value.attribute) == attribute.value
    ensures r.Ok? ==> r.value.defaultValue == defaultValue.GetOr(DefaultChannelValue)
                      && r.value.highlightValue == highlightValue.GetOr(DefaultHighlightValue)
                      && r.value.invertDefault == invertDefault.GetOr(false)
    ensures r.Err? ==> ("dmx_offset" in r.error.fields <==> !(dmxOffset.Some? && dmxOffset.value >= 1))
    ensures r.Err? ==> ("attribute" in r.error.fields <==>
                          !(attribute.Some? && AttributeFromValue(attribute.value).Some?))
  {
    var offsetOk := dmxOffset.Some? && dmxOffset.value >= 1;
    var attr := if attribute.Some? then AttributeFromValue(attribute.value) else None;
    if offsetOk && attr.Some? then
      Ok(FixtureChannelCreate(dmxOffset.value, attr.value,
                              defaultValue.GetOr(DefaultChannelValue),
                              highlightValue.GetOr(DefaultHighlightValue),
                              invertDefault.GetOr(false)))
    else
      Err(ValidationError((if offsetOk then [] else ["dmx_offset"])
                          + (if attr.Some? then [] else ["attribute"])))
  }

  /** Validation of `CreateFixturePatch`: both ids must be version-7
      UUIDs, `universe` defaults to 0 and must not be negative, `start_address` is required and lies in 1..512, the
      inversion flags default to false. */
  function ValidatePatch(showId: Uuid, fixtureTypeId: Uuid, name: string, fid: int,
                         universe: Option<int>, startAddress: Option<int>,
                         invertPan: Option<bool>, invertTilt: Option<bool>): (r: Result<CreateFixturePatch, ValidationError>)
    ensures r.Ok? <==> IsUuid7(showId) && IsUuid7(fixtureTypeId)
                       && universe.GetOr(DefaultUniverse) >= 0
                       && startAddress.Some? && 1 <= startAddress.value <= MaxStartAddress
    ensures r.Ok? ==> ValidPatch(r.value)
                      && r.value.universe == universe.GetOr(DefaultUniverse)
                      && r.value.startAddress == startAddress.value
                      && r.value.invertPan == invertPan.GetOr(false)
                      && r.value.invertTilt == invertTilt.GetOr(false)
    ensures r.Ok? ==> r.value.showId == showId && r.value.fixtureTypeId == fixtureTypeId
                      && r.value.name == name && r.value.fid == fid
    ensures r.Err? ==> ("show_id" in r.error.fields <==> !IsUuid7(showId))
    ensures r.Err? ==> ("fixture_type_id" in r.error.fields <==> !IsUuid7(fixtureTypeId))
    ensures r.Err? ==> ("universe" in r.error.fields <==> universe.GetOr(DefaultUniverse) < 0)
    ensures r.Err? ==> ("start_address" in r.error.fields <==>
                          !(startAddress.Some? && 1 <= startAddress.value <= MaxStartAddress))
  {
    var u := universe.GetOr(DefaultUniverse);
    var startOk := startAddress.Some? && 1 <= startAddress.value <= MaxStartAddress;
    if IsUuid7(showId) && IsUuid7(fixtureTypeId) && u >= 0 && startOk then
      Ok(CreateFixturePatch(showId, fixtureTypeId, name, fid, u, startAddress.value,
                            invertPan.GetOr(false), invertTilt.GetOr(false)))
    else
      Err(ValidationError((if IsUuid7(showId) then [] else ["show_id"])
                          + (if IsUuid7(fixtureTypeId) then [] else ["fixture_type_id"])
                          + (if u >= 0 then [] else ["universe"])
                          + (if startOk then [] else ["start_address"])))
  }

  /** A channel that names only its offset and attribute gets the value 0,
      the highlight 255 and no inversion. */
  lemma ChannelDefaults(dmxOffset: int, a: AttributeType)
    requires dmxOffset >= 1
    ensures ValidateChannel(Some(dmxOffset), Some(AttributeValue(a)), None, None, None)
            == Ok(FixtureChannelCreate(dmxOffset, a, 0, 255, false))
  {
    AttributeRoundTrip(a);
  }

  /** Channel values are not limited to a DMX byte: 300 and -5 are accepted. */
  lemma ChannelValuesUnbounded()
    ensures ValidateChannel(Some(1), Some("dimmer"), Some(300), Some(-5), None).Ok?
  {
  }

  /** The universe has no upper bound, and a request without one goes to
      universe 0. */
  lemma UniverseBounds(showId: Uuid, typeId: Uuid, name: string, fid: int, start: int)
    requires IsUuid7(showId) && IsUuid7(typeId)
    requires 1 <= start <= MaxStartAddress
    ensures ValidatePatch(showId, typeId, name, fid, None, Some(start), None, None).Ok?
    ensures ValidatePatch(showId, typeId, name, fid, None, Some(start), None, None).value.universe == 0
    ensures ValidatePatch(showId, typeId, name, fid, Some(1000000), Some(start), None, None).Ok?
    ensures ValidatePatch(showId, typeId, name, fid, Some(-1), Some(start), None, None).Err?
  {
  }
}
