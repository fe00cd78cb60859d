/** `FixtureService`: creating fixture types with their channels, and
    patching fixtures into a show's DMX universes without address
    collisions. The database session is the `FixtureDb` object; a rolled
    back transaction leaves it unchanged. */
module FixtureService {
  import opened Common
  import opened FixtureModels
  import opened FixtureSchemas

  const UniverseSize: int := 512

  /** The `ValueError`s and the re-raised `IntegrityError` of `patch_fixture`. */
  datatype PatchError =
    | TypeNotFound
    | DoesNotFit(endAddress: int)
    | Collision(name: string, startAddress: int, endAddress: int)
    | DuplicateInShow

  /** The exceptions `create_fixture_type` re-raises after rolling back. */
  datatype CreateTypeError = MalformedManufacturerId | IntegrityViolation

  /** The number of channels a fixture type has. */
  function ChannelCount(channels: seq<FixtureChannel>, typeId: Uuid): (n: nat)
    ensures n <= |channels|
    ensures n == 0 <==> forall c :: c in channels ==> c.fixtureTypeId != typeId
  {
    if channels == [] then 0
    else ChannelCount(channels[..|channels| - 1], typeId)
         + (if channels[|channels| - 1].fixtureTypeId == typeId then 1 else 0)
  }

  /** Adding rows adds their channels to each type's count. */
  lemma {:induction false} ChannelCountAppend(channels: seq<FixtureChannel>, rows: seq<FixtureChannel>, typeId: Uuid)
    ensures ChannelCount(channels + rows, typeId) == ChannelCount(channels, typeId) + ChannelCount(rows, typeId)
    decreases |rows|
  {
    if rows != [] {
      var all := channels + rows;
      assert all[..|all| - 1] == channels + rows[..|rows| - 1];
      ChannelCountAppend(channels, rows[..|rows| - 1], typeId);
    } else {
      assert channels + rows == channels;
    }
  }

  /** The last address a fixture occupies, given its channel count. */
  function EndAddress(start: int, channelCount: nat): int
  {
    start + channelCount - 1
  }

  function FixtureEnd(f: Fixture, channels: seq<FixtureChannel>): int
  {
    EndAddress(f.startAddress, ChannelCount(channels, f.fixtureTypeId))
  }

  /** The collision test of `patch_fixture`: the closed ranges
      [start, end] and [otherStart, otherEnd] share an address. */
  predicate Collides(start: int, end: int, otherStart: int, otherEnd: int)
  {
    start <= otherEnd && otherStart <= end
  }

  /** The test is symmetric. */
  lemma CollidesSymmetric(s1: int, e1: int, s2: int, e2: int)
    ensures Collides(s1, e1, s2, e2) == Collides(s2, e2, s1, e1)
  {
  }

  /** Ranges that only touch end to start do not collide, and ranges
      that share one address do. */
  lemma AdjacentRanges(start: int, end: int, next: int)
    requires start <= end && end < next
    ensures !Collides(next, next, start, end)
    ensures Collides(end, end, start, end)
  {
  }

  /** The fixtures of one show and universe, in table order. */
  function InSlot(fixtures: seq<Fixture>, showId: Uuid, universe: int): (r: seq<Fixture>)
    ensures forall f :: f in r <==> f in fixtures && f.showId == showId && f.universe == universe
    ensures |r| <= |fixtures|
  {
    if fixtures == [] then []
    else
      var init := InSlot(fixtures[..|fixtures| - 1], showId, universe);
      var last := fixtures[|fixtures| - 1];
      assert fixtures == fixtures[..|fixtures| - 1] + [last];
      if last.showId == showId && last.universe == universe then init + [last] else init
  }

  /** No fixture of the show and universe shares an address with
      [start, end]. Whether a fixture is active plays no part. */
  ghost predicate FreeRange(fixtures: seq<Fixture>, channels: seq<FixtureChannel>,
                            showId: Uuid, universe: int, start: int, end: int)
  {
    forall f :: f in fixtures && f.showId == showId && f.universe == universe ==>
      !Collides(start, end, f.startAddress, FixtureEnd(f, channels))
  }

  /** Two fixtures patched into the same show and universe. */
  predicate SameSlot(a: Fixture, b: Fixture)
  {
    a.showId == b.showId && a.universe == b.universe
  }

  /** The patch invariant: every fixture lies within 1..512, and no two
      fixtures of the same show and universe overlap. */
  ghost predicate PatchSound(fixtures: seq<Fixture>, channels: seq<FixtureChannel>)
  {
    (forall i :: 0 <= i < |fixtures| ==>
       1 <= fixtures[i].startAddress && FixtureEnd(fixtures[i], channels) <= UniverseSize)
    && (forall i, j :: 0 <= i < j < |fixtures| && SameSlot(fixtures[i], fixtures[j]) ==>
          !Collides(fixtures[i].startAddress, FixtureEnd(fixtures[i], channels),
                    fixtures[j].startAddress, FixtureEnd(fixtures[j], channels)))
  }

  /** Patching a fixture that lies in the universe on a free range keeps the
      patch invariant. */
  lemma PatchKeepsSound(fixtures: seq<Fixture>, channels: seq<FixtureChannel>, f: Fixture)
    requires PatchSound(fixtures, channels)
    requires 1 <= f.startAddress && FixtureEnd(f, channels) <= UniverseSize
    requires FreeRange(fixtures, channels, f.showId, f.universe, f.startAddress, FixtureEnd(f, channels))
    ensures PatchSound(fixtures + [f], channels)
  {
    var all := fixtures + [f];
    forall i, j | 0 <= i < j < |all| && SameSlot(all[i], all[j])
      ensures !Collides(all[i].startAddress, FixtureEnd(all[i], channels),
                        all[j].startAddress, FixtureEnd(all[j], channels))
    {
      if j == |fixtures| {
        assert all[i] in fixtures;
      }
    }
  }

  /** Channels of a type no fixture uses leave every fixture's range, and so
      the patch invariant, as they were. */
  lemma NewChannelsKeepSound(fixtures: seq<Fixture>, channels: seq<FixtureChannel>,
                             rows: seq<FixtureChannel>, typeId: Uuid)
    requires PatchSound(fixtures, channels)
    requires forall f :: f in fixtures ==> f.fixtureTypeId != typeId
    requires forall c :: c in rows ==> c.fixtureTypeId == typeId
    ensures forall f :: f in fixtures ==> FixtureEnd(f, channels + rows) == FixtureEnd(f, channels)
    ensures PatchSound(fixtures, channels + rows)
  {
    forall f | f in fixtures
      ensures FixtureEnd(f, channels + rows) == FixtureEnd(f, channels)
    {
      ChannelCountAppend(channels, rows, f.fixtureTypeId);
    }
    assert forall i :: 0 <= i < |fixtures| ==> FixtureEnd(fixtures[i], channels + rows) == FixtureEnd(fixtures[i], channels);
  }

  /** Fixtures of other shows or universes never block a range. */
  lemma OtherSlotsNeverBlock(fixtures: seq<Fixture>, others: seq<Fixture>, channels: seq<FixtureChannel>,
                             showId: Uuid, universe: int, start: int, end: int)
    requires forall f :: f in others ==> f.showId != showId || f.universe != universe
    ensures FreeRange(fixtures + others, channels, showId, universe, start, end)
            == FreeRange(fixtures, channels, showId, universe, start, end)
  {
  }

  /** An inactive fixture blocks its addresses as much as an active one. */
  lemma InactiveStillBlocks(fixtures: seq<Fixture>, channels: seq<FixtureChannel>, f: Fixture, start: int, end: int)
    requires f in fixtures && !f.isActive
    requires Collides(start, end, f.startAddress, FixtureEnd(f, channels))
    ensures !FreeRange(fixtures, channels, f.showId, f.universe, start, end)
  {
  }

  /** The loop of `patch_fixture` over the fixtures already in the slot:
      the index of the first one whose range meets [start, end]. */
  method FindCollision(existing: seq<Fixture>, channels: seq<FixtureChannel>, start: int, end: int)
    returns (hit: Option<nat>)
    ensures hit.None? <==> forall f :: f in existing ==> !Collides(start, end, f.startAddress, FixtureEnd(f, channels))
    ensures hit.Some? ==> hit.value < |existing|
                          && Collides(start, end, existing[hit.value].startAddress, FixtureEnd(existing[hit.value], channels))
                          && forall k :: 0 <= k < hit.value ==>
                               !Collides(start, end, existing[k].startAddress, FixtureEnd(existing[k], channels))
  {
    var i := 0;
    while i < |existing|
      invariant 0 <= i <= |existing|
      invariant forall k :: 0 <= k < i ==> !Collides(start, end, existing[k].startAddress, FixtureEnd(existing[k], channels))
    {
      var e := existing[i];
      var existingEnd := EndAddress(e.startAddress, ChannelCount(channels, e.fixtureTypeId));
      if start <= existingEnd && e.startAddress <= end {
        return Some(i);
      }
      i := i + 1;
    }
    return None;
  }

  /** The ids of the fixture types in the table. */
  ghost function TypeIds(types: seq<FixtureType>): set<Uuid>
  {
    set t | t in types :: t.id
  }

  /** The first fixture type with the given id. */
  function FindType(types: seq<FixtureType>, id: Uuid): (r: Option<FixtureType>)
    ensures r.None? <==> id !in TypeIds(types)
    ensures r.Some? ==> r.value in types && r.value.id == id
  {
    if types == [] then None
    else if types[0].id == id then Some(types[0])
    else
      var r := FindType(types[1..], id);
      assert types == [types[0]] + types[1..];
      r
  }

  /** The `(manufacturer_id, model, mode_name)` key is already taken. */
  predicate KeyTaken(types: seq<FixtureType>, manufacturerId: Uuid, model: string, modeName: string)
  {
    exists t :: t in types && t.manufacturerId == manufacturerId && t.model == model && t.modeName == modeName
  }

  /** The channel row `create_fixture_type` inserts for one request entry. */
  function ChannelRow(typeId: Uuid, c: FixtureChannelCreate): (row: FixtureChannel)
    ensures row.fixtureTypeId == typeId
  {
    FixtureChannel(typeId, c.dmxOffset, c.attribute, c.defaultValue, c.highlightValue, c.invertDefault)
  }

  /** The rows for all entries, in request order. */
  function ChannelRows(typeId: Uuid, entries: seq<FixtureChannelCreate>): (rows: seq<FixtureChannel>)
    ensures |rows| == |entries|
    ensures forall k :: 0 <= k < |entries| ==> rows[k] == ChannelRow(typeId, entries[k])
  {
    if entries == [] then []
    else ChannelRows(typeId, entries[..|entries| - 1]) + [ChannelRow(typeId, entries[|entries| - 1])]
  }

  /** All the rows belong to the new type, which therefore has exactly one
      channel per request entry. */
  lemma {:induction false} ChannelRowsCount(typeId: Uuid, entries: seq<FixtureChannelCreate>)
    ensures forall c :: c in ChannelRows(typeId, entries) ==> c.fixtureTypeId == typeId
    ensures ChannelCount(ChannelRows(typeId, entries), typeId) == |entries|
    decreases |entries|
  {
    if entries != [] {
      var init := entries[..|entries| - 1];
      ChannelRowsCount(typeId, init);
      var rows := ChannelRows(typeId, entries);
      assert rows[..|rows| - 1] == ChannelRows(typeId, init);
    }
  }

  /** The fixture `patch_fixture` inserts; `is_active` takes its column
      default. */
  function NewFixture(data: CreateFixturePatch, id: Uuid): (f: Fixture)
    ensures f.isActive
  {
    Fixture(id, data.showId, data.fid, data.name, data.fixtureTypeId, data.universe,
            data.startAddress, true, data.invertPan, data.invertTilt)
  }

  /** The end address a patch request would occupy. */
  function RequestEnd(data: CreateFixturePatch, channels: seq<FixtureChannel>): int
  {
    EndAddress(data.startAddress, ChannelCount(channels, data.fixtureTypeId))
  }

  /** The table constraints (primary keys, foreign keys, the unique
      fixture-type key) and the patch invariant. */
  ghost predicate Tables(shows: set<Uuid>, manufacturers: set<Uuid>, types: seq<FixtureType>,
                         channels: seq<FixtureChannel>, fixtures: seq<Fixture>)
  {
    (forall i, j :: 0 <= i < j < |types| ==> types[i].id != types[j].id && !SameKey(types[i], types[j]))
    && (forall t :: t in types ==> t.manufacturerId in manufacturers)
    && (forall c :: c in channels ==> c.fixtureTypeId in TypeIds(types))
    && (forall i, j :: 0 <= i < j < |fixtures| ==> fixtures[i].id != fixtures[j].id)
    && (forall f :: f in fixtures ==> f.fixtureTypeId in TypeIds(types) && f.showId in shows)
    && PatchSound(fixtures, channels)
  }

  /** Whether a patched fixture already has the id: the primary key an
      insert must not repeat. */
  function FixtureIdTaken(fixtures: seq<Fixture>, id: Uuid): (b: bool)
    ensures b <==> exists f :: f in fixtures && f.id == id
  {
    if fixtures == [] then false
    else
      assert fixtures == [fixtures[0]] + fixtures[1..];
      fixtures[0].id == id || FixtureIdTaken(fixtures[1..], id)
  }

  predicate SameKey(a: FixtureType, b: FixtureType)
  {
    a.manufacturerId == b.manufacturerId && a.model == b.model && a.modeName == b.modeName
  }

  /** Inserting a fixture type under an existing manufacturer, with a fresh
      id and key, together with channels of that type only, keeps the
      constraints. */
  lemma AddTypeKeepsTables(shows: set<Uuid>, manufacturers: set<Uuid>, types: seq<FixtureType>,
                           channels: seq<FixtureChannel>, fixtures: seq<Fixture>,
                           t: FixtureType, rows: seq<FixtureChannel>)
    requires Tables(shows, manufacturers, types, channels, fixtures)
    requires t.manufacturerId in manufacturers && t.id !in TypeIds(types)
    requires !KeyTaken(types, t.manufacturerId, t.model, t.modeName)
    requires forall c :: c in rows ==> c.fixtureTypeId == t.id
    ensures Tables(shows, manufacturers, types + [t], channels + rows, fixtures)
  {
    var all := types + [t];
    assert TypeIds(all) == TypeIds(types) + {t.id};
    forall i, j | 0 <= i < j < |all|
      ensures all[i].id != all[j].id && !SameKey(all[i], all[j])
    {
      if j == |types| {
        assert all[i] in types;
      }
    }
    NewChannelsKeepSound(fixtures, channels, rows, t.id);
  }

  /** Inserting a fixture with a fresh id, of a known type, into a known
      show on a free range within the universe keeps the constraints. */
  lemma AddFixtureKeepsTables(shows: set<Uuid>, manufacturers: set<Uuid>, types: seq<FixtureType>,
                              channels: seq<FixtureChannel>, fixtures: seq<Fixture>, f: Fixture)
    requires Tables(shows, manufacturers, types, channels, fixtures)
    requires f.fixtureTypeId in TypeIds(types) && f.showId in shows
    requires !FixtureIdTaken(fixtures, f.id)
    requires 1 <= f.startAddress && FixtureEnd(f, channels) <= UniverseSize
    requires FreeRange(fixtures, channels, f.showId, f.universe, f.startAddress, FixtureEnd(f, channels))
    ensures Tables(shows, manufacturers, types, channels, fixtures + [f])
  {
    PatchKeepsSound(fixtures, channels, f);
  }

  class FixtureDb {
    /** Ids of the rows of `shows` and `manufacturers`. */
    var shows: set<Uuid>
    var manufacturers: set<Uuid>
    var fixtureTypes: seq<FixtureType>
    var channels: seq<FixtureChannel>
    var fixtures: seq<Fixture>

    /** The table constraints and the patch invariant. */
    ghost predicate Valid()
      reads this
    {
      Tables(shows, manufacturers, fixtureTypes, channels, fixtures)
    }

    constructor (shows: set<Uuid>, manufacturers: set<Uuid>)
      ensures Valid()
      ensures this.shows == shows && this.manufacturers == manufacturers
      ensures fixtureTypes == [] && channels == [] && fixtures == []
    {
      this.shows := shows;
      this.manufacturers := manufacturers;
      fixtureTypes := [];
      channels := [];
      fixtures := [];
    }

    /** `create_fixture_type`: parse the manufacturer id, insert the type
        (flush), insert one channel per entry, commit. `newId` is the
        generated primary key; `parseUuid` is `uuid.UUID(str(...))`. */
    method CreateFixtureType(data: CreateFixtureType, newId: Uuid, parseUuid: string -> Option<Uuid>)
      returns (r: Result<FixtureType, CreateTypeError>)
      requires Valid()
      modifies this
      ensures Valid()
      ensures shows == old(shows) && manufacturers == old(manufacturers) && fixtures == old(fixtures)
      ensures r == Err(MalformedManufacturerId) <==> parseUuid(data.manufacturerId).None?
      ensures r == Err(IntegrityViolation) <==>
                parseUuid(data.manufacturerId).Some?
                && var m := parseUuid(data.manufacturerId).value;
                   m !in manufacturers || newId in TypeIds(old(fixtureTypes))
                   || KeyTaken(old(fixtureTypes), m, data.model, data.modeName)
      ensures r.Err? ==> fixtureTypes == old(fixtureTypes) && channels == old(channels)
      ensures r.Ok? ==> r.value == FixtureType(newId, parseUuid(data.manufacturerId).value, data.model, data.modeName)
                        && fixtureTypes == old(fixtureTypes) + [r.value]
                        && channels == old(channels) + ChannelRows(newId, data.channels)
      ensures r.Ok? ==> ChannelCount(channels, newId) == |data.channels|
    {
      var manufacturerId := parseUuid(data.manufacturerId);
      if manufacturerId.None? {
        return Err(MalformedManufacturerId);
      }
      var m := manufacturerId.value;
      if m !in manufacturers || FindType(fixtureTypes, newId).Some? || HasKey(fixtureTypes, m, data.model, data.modeName) {
        return Err(IntegrityViolation);
      }
      var t := FixtureType(newId, m, data.model, data.modeName);
      fixtureTypes := fixtureTypes + [t];

      var i := 0;
      while i < |data.channels|
        invariant 0 <= i <= |data.channels|
        invariant fixtureTypes == old(fixtureTypes) + [t] && fixtures == old(fixtures)
        invariant shows == old(shows) && manufacturers == old(manufacturers)
        invariant channels == old(channels) + ChannelRows(newId, data.channels[..i])
      {
        assert data.channels[..i + 1][..i] == data.channels[..i];
        channels := channels + [ChannelRow(newId, data.channels[i])];
        i := i + 1;
      }
      assert data.channels[..i] == data.channels;

      ChannelRowsCount(newId, data.channels);
      AddTypeKeepsTables(shows, manufacturers, old(fixtureTypes), old(channels), fixtures,
                         t, ChannelRows(newId, data.channels));
      ChannelCountAppend(old(channels), ChannelRows(newId, data.channels), newId);
      return Ok(t);
    }

    /** `patch_fixture`: look the type up, compute the end address, refuse a
        fixture that leaves the universe or meets a fixture already patched
        in the same show and universe (the first such fixture is reported),
        then insert; a repeated primary key or a failed foreign key at
        commit is reported as a duplicate. `newId` is the generated
        primary key. */
    method PatchFixture(data: CreateFixturePatch, newId: Uuid) returns (r: Result<Fixture, PatchError>)
      requires Valid() && ValidPatch(data)
      modifies this
      ensures Valid()
      ensures shows == old(shows) && manufacturers == old(manufacturers)
      ensures fixtureTypes == old(fixtureTypes) && channels == old(channels)
      ensures r.Ok? <==> data.fixtureTypeId in TypeIds(fixtureTypes)
                         && RequestEnd(data, channels) <= UniverseSize
                         && FreeRange(old(fixtures), channels, data.showId, data.universe,
                                      data.startAddress, RequestEnd(data, channels))
                         && data.showId in shows && !FixtureIdTaken(old(fixtures), newId)
      ensures r.Ok? ==> r.value == NewFixture(data, newId) && fixtures == old(fixtures) + [r.value]
      ensures r.Err? ==> fixtures == old(fixtures)
      ensures r == Err(TypeNotFound) <==> data.fixtureTypeId !in TypeIds(fixtureTypes)
      ensures r.Err? && r.error.DoesNotFit? <==>
                data.fixtureTypeId in TypeIds(fixtureTypes) && RequestEnd(data, channels) > UniverseSize
      ensures r.Err? && r.error.DoesNotFit? ==> r.error.endAddress == RequestEnd(data, channels)
      ensures r.Err? && r.error.Collision? <==>
                data.fixtureTypeId in TypeIds(fixtureTypes) && RequestEnd(data, channels) <= UniverseSize
                && !FreeRange(old(fixtures), channels, data.showId, data.universe,
                              data.startAddress, RequestEnd(data, channels))
      ensures r.Err? && r.error.Collision? ==>
                exists f :: f in old(fixtures) && f.showId == data.showId && f.universe == data.universe
                  && Collides(data.startAddress, RequestEnd(data, channels), f.startAddress, FixtureEnd(f, channels))
                  && r.error == Collision(f.name, f.startAddress, FixtureEnd(f, channels))
      ensures r == Err(DuplicateInShow) <==>
                data.fixtureTypeId in TypeIds(fixtureTypes) && RequestEnd(data, channels) <= UniverseSize
                && FreeRange(old(fixtures), channels, data.showId, data.universe,
                             data.startAddress, RequestEnd(data, channels))
                && (data.showId !in shows || FixtureIdTaken(old(fixtures), newId))
    {
      var fixtureType := FindType(fixtureTypes, data.fixtureTypeId);
      if fixtureType.None? {
        return Err(TypeNotFound);
      }
      var channelCount := ChannelCount(channels, data.fixtureTypeId);
      var endAddress := EndAddress(data.startAddress, channelCount);
      if endAddress > UniverseSize {
        return Err(DoesNotFit(endAddress));
      }
      var existing := InSlot(fixtures, data.showId, data.universe);
      var hit := FindCollision(existing, channels, data.startAddress, endAddress);
      if hit.Some? {
        var e := existing[hit.value];
        return Err(Collision(e.name, e.startAddress, FixtureEnd(e, channels)));
      }
      if data.showId !in shows || FixtureIdTaken(fixtures, newId) {
        return Err(DuplicateInShow);
      }
      var f := NewFixture(data, newId);
      AddFixtureKeepsTables(shows, manufacturers, fixtureTypes, channels, fixtures, f);
      fixtures := fixtures + [f];
      return Ok(f);
    }
  }

  /** Executable test of `KeyTaken`. */
  function HasKey(types: seq<FixtureType>, manufacturerId: Uuid, model: string, modeName: string): (b: bool)
    ensures b <==> KeyTaken(types, manufacturerId, model, modeName)
  {
    if types == [] then false
    else
      assert types == [types[0]] + types[1..];
      (types[0].manufacturerId == manufacturerId && types[0].model == model && types[0].modeName == modeName)
      || HasKey(types[1..], manufacturerId, model, modeName)
  }

  /** Patching never places a fixture outside 1..512, and two successful
      patches into the same show and universe never overlap. */
  lemma PatchedFixturesDisjoint(fixtures: seq<Fixture>, channels: seq<FixtureChannel>, i: int, j: int)
    requires PatchSound(fixtures, channels)
    requires 0 <= i < |fixtures| && 0 <= j < |fixtures| && i != j
    requires SameSlot(fixtures[i], fixtures[j])
    ensures 1 <= fixtures[i].startAddress && FixtureEnd(fixtures[i], channels) <= UniverseSize
    ensures !Collides(fixtures[i].startAddress, FixtureEnd(fixtures[i], channels),
                      fixtures[j].startAddress, FixtureEnd(fixtures[j], channels))
  {
    if j < i {
      CollidesSymmetric(fixtures[j].startAddress, FixtureEnd(fixtures[j], channels),
                        fixtures[i].startAddress, FixtureEnd(fixtures[i], channels));
    }
  }
}
