# Hyperion backend core in Dafny

Hyperion is a lighting-control backend. Operators patch DMX fixtures into
universes of a show. Consoles and other devices pair with the server by a
one-time PIN and then stream DMX frames over a WebSocket. Users log in with
a password and hold short-lived access tokens and longer-lived refresh
tokens. Five nested access levels guard the routes.

This project models that core as Dafny values, functions and classes, and
proves what the code promises about it:

- `DmxProtocol` and `Base64`: the DMX frame (a big-endian unsigned short
  universe, then one unsigned byte per channel) and its Base64 transport
  text. Both round trips are proved, plus the canonical form of the text.
- `FixtureModels`, `FixtureSchemas` and `FixtureService` (class `FixtureDb`):
  - the attribute enumeration;
  - the request schemas with their bounds and defaults;
  - creating a fixture type with its channels;
  - patching a fixture into a free address range of a universe. The table
    invariant "no two fixtures of a show overlap in a universe, and each
    lies within 1..512" is preserved.
- `Access`: the roles, the role checker, the five ACLs and the
  `require_*` checkers. The ACLs are proved nested, with admin passing
  every one.
- `Dependencies`: admitting a device WebSocket by the hash of its token.
- `DeviceManagement` (class `DeviceDb`): issuing a unique six-character
  pairing PIN in at most five attempts, and redeeming it once for a
  device secret that the WebSocket dependency then admits.
- `AccountModels` and `AccountService` (class `AccountDb`):
  - the password policy;
  - looking users up;
  - creating users;
  - logging in;
  - token claims;
  - refresh-token rotation with replay rejection;
  - purging the used-token table.
- `ShowService`: listing shows newest first, one page at a time, with a
  one-row look-ahead; and listing the fixtures of a show its owner
  patched.

Database sessions are modelled as classes whose fields are the tables
(`seq`s of rows). The table constraints (unique keys, foreign keys, the
patch invariant) are a `Valid()` predicate that every method keeps.

The following are parameters of the operations:

- hash functions (SHA3-512 hex digests, the Argon2 hasher and verifier);
- UUID parsing and printing;
- JWT decoding;
- the clock (integer seconds since the epoch);
- random draws;
- newly generated ids.

A naive timestamp read back from the database is taken as UTC, as the code
does.

## Model

| member | source | states |
|---|---|---|
| DmxProtocol.PackFrame | backend/src/services/dmx_protocol.py:30-44 | packs iff the universe fits an unsigned short and every channel an unsigned char; a bad universe is reported as such, and otherwise a bad channel is; the frame is 2 + n bytes, universe high byte then low byte, then the channels in order |
| DmxProtocol.UnpackPack | backend/src/services/dmx_protocol.py:43-44 | reading a packed frame back gives the universe and channels that were packed |
| DmxProtocol.PackUnpack | backend/src/services/dmx_protocol.py:43-44 | every byte string of length at least 2 is the packing of exactly what it unpacks to |
| DmxProtocol.PackInjective | backend/src/services/dmx_protocol.py:30-44 | two packings that give the same frame came from the same universe and channels |
| DmxProtocol.ToTransport | backend/src/services/dmx_protocol.py:46-57 | fails exactly when packing fails, with the same error; otherwise the text is 4*ceil((n+2)/3) characters from the Base64 alphabet, padded only at the end |
| DmxProtocol.TransportRoundTrip | backend/src/services/dmx_protocol.py:46-64 | `from_transport(to_transport(u, c))` is the packed frame |
| DmxProtocol.FromTransportCanonical | backend/src/services/dmx_protocol.py:59-64 | any text that decodes is the encoding of what it decodes to |
| DmxProtocol.RedFrameExample | backend/src/services/dmx_protocol.py:30-57 | universe 0 with channels 255,0,0 packs to 00 00 FF 00 00 and travels as "AAD/AAA=" |
| DmxProtocol.NoChannelCap | backend/src/services/dmx_protocol.py:43-44 | a frame of 513 channels still packs (515 bytes): nothing caps the channel count |
| Base64.Encode | backend/src/services/dmx_protocol.py:57 | the output length is 4*ceil(n/3); every character is in the alphabet, with padding only in the last two places |
| Base64.DecodeEncode | backend/src/services/dmx_protocol.py:57-64 | decoding the encoding of any byte string gives it back |
| Base64.EncodeDecode | backend/src/services/dmx_protocol.py:59-64 | encoding what a text decodes to gives that text back (decoding accepts only canonical text) |
| FixtureModels.AttributeFromValue | backend/src/models/fixtures.py:25-67 | a string maps to an attribute only if that attribute's value is the string |
| FixtureModels.AttributeRoundTrip | backend/src/models/fixtures.py:25-67 | every attribute is recovered from its value |
| FixtureModels.AttributeValueInjective | backend/src/models/fixtures.py:25-67 | no two attributes share a value |
| FixtureSchemas.ValidateChannel | backend/src/schemas/fixtures.py:24-29 | accepts iff dmx_offset is at least 1 and the attribute names one of the enumeration; the error lists exactly the failing fields; default_value defaults to 0; values are not range-checked |
| FixtureSchemas.ValidatePatch | backend/src/schemas/fixtures.py:39-47 | accepts iff show_id and fixture_type_id are version-7 UUIDs, universe (default 0) is non-negative and start_address lies in 1..512; the error lists exactly the failing fields; the accepted request carries the given ids, name and fid, and the inversion flags default to false |
| FixtureSchemas.Uuid7Examples | backend/src/schemas/fixtures.py:40-41 | a version-7 UUID is accepted; the same value with version 4, or with a non-RFC 4122 variant, is refused |
| FixtureSchemas.ChannelDefaults | backend/src/schemas/fixtures.py:24-29 | a channel given only offset and attribute is accepted with default 0 and no bounds |
| FixtureSchemas.ChannelValuesUnbounded | backend/src/schemas/fixtures.py:24-29 | a default of 300 and a minimum of -5 are accepted |
| FixtureSchemas.UniverseBounds | backend/src/schemas/fixtures.py:44-45 | universe defaults to 0, has no upper bound and rejects -1 |
| FixtureService.ChannelCount | backend/src/services/fixture_service.py:83 | counts channel rows of a type; zero iff the type has none |
| FixtureService.ChannelCountAppend | backend/src/services/fixture_service.py:83 | the count over two tables is the sum of the counts |
| FixtureService.CollidesSymmetric | backend/src/services/fixture_service.py:108-113 | the overlap test is symmetric |
| FixtureService.AdjacentRanges | backend/src/services/fixture_service.py:108-113 | a fixture starting right after another's end does not collide with it; the end address itself does |
| FixtureService.InSlot | backend/src/services/fixture_service.py:91-102 | exactly the fixtures of the show and universe, active or not |
| FixtureService.FindCollision | backend/src/services/fixture_service.py:104-113 | finds a colliding fixture iff one exists, and returns its index |
| FixtureService.PatchKeepsSound | backend/src/services/fixture_service.py:83-125 | adding a fixture that fits 1..512 and collides with nothing in its slot keeps the patch invariant |
| FixtureService.NewChannelsKeepSound | backend/src/services/fixture_service.py:35-58 | channels of a new type change no patched fixture's end address and keep the patch invariant |
| FixtureService.OtherSlotsNeverBlock | backend/src/services/fixture_service.py:91-102 | fixtures in other shows or universes never block a range |
| FixtureService.InactiveStillBlocks | backend/src/services/fixture_service.py:91-113 | an inactive fixture still blocks the addresses it occupies |
| FixtureService.FindType | backend/src/services/fixture_service.py:72-81 | finds the type with the id iff one exists |
| FixtureService.ChannelRows | backend/src/services/fixture_service.py:47-56 | one channel row per entry, in order, each tied to the new type |
| FixtureService.ChannelRowsCount | backend/src/services/fixture_service.py:47-56 | the new type's channel count is the number of entries |
| FixtureService.NewFixture | backend/src/services/fixture_service.py:115-125 | a newly patched fixture is active |
| FixtureService.HasKey | backend/src/models/fixtures.py:92-132 | true iff a type with the same manufacturer, model and mode already exists |
| FixtureService.AddTypeKeepsTables | backend/src/services/fixture_service.py:35-69 | inserting a type with a fresh id and key, of a known manufacturer, keeps every table constraint |
| FixtureService.FixtureIdTaken | backend/src/models/fixtures.py:180 | true iff a patched fixture already has the id (the primary key) |
| FixtureService.AddFixtureKeepsTables | backend/src/services/fixture_service.py:71-135 | inserting a fitting, non-colliding fixture with a fresh id, of a known type and show, keeps every table constraint, including the fixture primary key |
| FixtureService.PatchedFixturesDisjoint | backend/src/services/fixture_service.py:86-113 | any two fixtures in the same show and universe lie within 1..512 and do not overlap |
| FixtureService.FixtureDb.CreateFixtureType | backend/src/services/fixture_service.py:35-69 | a malformed manufacturer id and an integrity violation (unknown manufacturer, taken key) are reported as such and leave the tables unchanged; otherwise the type and one channel row per entry are added |
| FixtureService.FixtureDb.PatchFixture | backend/src/services/fixture_service.py:71-135 | unknown type, not fitting below 513 (with its end address), collision (with the fixture hit), and an integrity error at commit (unknown show or an id already taken, reported as a duplicate) are each reported iff they hold, in that order, leaving the tables unchanged; otherwise exactly the new fixture is appended |
| AccountService.MatchedPart | backend/src/services/accounts.py:34-36 | the part the pattern's `$` anchors on: the password without its final character when that is a newline, otherwise the whole password |
| AccountService.PolicyLength | backend/src/services/accounts.py:34-36 | a password meeting the policy is 8 to 65 characters, with no newline except possibly the last |
| AccountService.TrailingNewline | backend/src/services/accounts.py:34-36 | one trailing newline is ignored by the match, two are rejected |
| AccountService.PolicyAcceptsExample | backend/src/services/accounts.py:34-36 | "Test1234!" meets the policy |
| AccountService.PolicyNeedsUpper | backend/src/services/accounts.py:34-36 | a password without an upper-case letter fails |
| AccountService.PolicyNeedsLength | backend/src/services/accounts.py:34-36 | a seven-character password fails |
| AccountService.PasswordHash | backend/src/services/accounts.py:200-212 | hashes iff the password meets the policy, otherwise reports an invalid password |
| AccountService.Lower | backend/src/services/accounts.py:60-78 | keeps the length; each upper-case letter becomes its lower-case letter and every other character is kept |
| AccountService.LowerIdempotent | backend/src/services/accounts.py:60-78 | lower-casing twice is lower-casing once |
| AccountService.FindById | backend/src/services/accounts.py:60-78 | finds the account with the id iff one exists |
| AccountService.FindByUsername | backend/src/services/accounts.py:60-78 | finds the account with the username iff one exists |
| AccountService.GetUser | backend/src/services/accounts.py:60-78 | an id wins over a username; a username is compared lower-cased; neither (or an empty username) is an error |
| AccountService.EncodeJwt | backend/src/services/accounts.py:269-318 | both tokens carry the issuer, the subject, iat = now and nbf = now - 3; access has scope "access" and expires at now + 15 min 3 s; refresh has scope "refresh" and expires at now + 7 days 3 s |
| AccountService.TokenLifetimes | backend/src/services/accounts.py:284-304 | nbf < iat < access exp < refresh exp, and the refresh token outlives the access token by 7 days less 15 minutes |
| AccountService.RefreshCheck | backend/src/services/accounts.py:214-256 | redeems iff the scope is refresh, the jti parses and is unused, the subject names an existing user, and exp is present; every failure is the one invalid-token error; the grant records the jti, user and expiry |
| AccountService.RefreshSingleUse | backend/src/services/accounts.py:230-252 | after its row is recorded, the same refresh token is refused |
| AccountService.IssuedRefreshTokenRedeemable | backend/src/services/accounts.py:214-318 | a freshly issued refresh token of an existing user is redeemed for that user and its jti |
| AccountService.AccessTokenNotRedeemable | backend/src/services/accounts.py:227-229 | an access token is never accepted as a refresh token |
| AccountService.KeepUnexpired | backend/src/services/accounts.py:258-262 | keeps exactly the used-token rows not yet expired |
| AccountService.PurgeKeepsUnexpiredBlocked | backend/src/services/accounts.py:258-262 | purging keeps every unexpired jti blocked |
| AccountService.FindRoleByName | backend/src/services/accounts.py:80-114 | finds the role with the name iff one exists |
| AccountService.FindActive | backend/src/services/accounts.py:157-198 | finds an active account with the username iff one exists |
| AccountService.UpdatePassword | backend/src/services/accounts.py:188-196 | replaces the hash of the account with the id, keeping every other field and row |
| AccountService.AddAccountKeepsTables | backend/src/models/accounts.py:53-70 | adding an account with a fresh id and username and a known role keeps the table constraints |
| AccountService.NewAccountFound | backend/src/services/accounts.py:60-114 | a newly created account is found by its username in any case |
| AccountService.UpdatePasswordKeepsTables | backend/src/models/accounts.py:53-70 | a re-hash keeps the table constraints |
| AccountService.AccountDb.CreateUser | backend/src/services/accounts.py:80-114 | unknown role, a password failing the policy and a taken lower-cased username are reported iff they hold, in that order, and change nothing; otherwise the account is added with the lower-cased username and the hash, and `get_user` finds it |
| AccountService.AccountDb.AuthoriseUser | backend/src/services/accounts.py:157-198 | succeeds iff an active account has the lower-cased username and the password verifies; both failures give one error; a re-hash is stored; the token pair is issued for that account |
| AccountService.AccountDb.RefreshSession | backend/src/services/accounts.py:214-256 | succeeds iff the token is redeemable; on success records the jti and issues a new pair, after which the same token is refused |
| AccountService.AccountDb.DeleteRefreshTokens | backend/src/services/accounts.py:258-262 | the used-token table becomes exactly its unexpired rows |
| Access.RoleValueInjective | backend/src/core/security/access.py:34-40 | no two roles share a value |
| Access.NewRoleChecker | backend/src/core/security/access.py:44-45 | the allowed list is the roles' values in order |
| Access.CheckerHasRole | backend/src/core/security/access.py:44-45 | a role's value is allowed iff the role was listed |
| Access.CheckerValue | backend/src/core/security/access.py:44-45 | every allowed value is the value of a listed role |
| Access.Status | backend/src/core/security/access.py:60-69 | 401 iff the user is missing, 403 iff suspended or the role is not allowed |
| Access.Decide | backend/src/core/security/access.py:58-71 | missing user (401), then suspended account (403), then a role name not allowed (403, naming the allowed list and the actual role); otherwise the user is returned; an active user whose role row is missing fails unhandled |
| Access.Call | backend/src/core/security/access.py:47-71 | fails unhandled iff the token does not decode, has no subject, the subject is not a UUID, or the active account's role row is missing; every other error is the decision for the account with the subject's id; a returned user is that account |
| Access.CallMonotone | backend/src/core/security/access.py:47-71 | a token that passes a checker passes any checker allowing more roles |
| Access.CheckerIncluded | backend/src/core/security/access.py:44-45 | an ACL contained in another gives a checker contained in the other's |
| Access.AclsNested | backend/src/core/security/access.py:74-95 | admin within tech lead within programmer within operator within viewer |
| Access.AdminPassesAll | backend/src/core/security/access.py:74-95 | a token passing `require_admin` passes every other `require_*` |
| Access.SuspendedRoleRefused | backend/src/core/security/access.py:34-40 | a role named "suspended" is refused by every ACL with 403 |
| Access.AdminRoleAdmitted | backend/src/core/security/access.py:74-89 | an active admin is admitted by every ACL |
| Access.InactiveRefused | backend/src/core/security/access.py:63-64 | an inactive account is refused with 403 whatever its role |
| Dependencies.FindClient | backend/src/core/dependencies.py:51-55 | finds the client with the id iff one exists |
| Dependencies.FindTokenRow | backend/src/core/dependencies.py:51-58 | the first token row with the hash that joins a client; none iff no such row |
| Dependencies.GetCurrentDevice | backend/src/core/dependencies.py:28-76 | admits, returning the joined client, iff a row exists and its expiry (naive read as UTC) is not before now; otherwise closes with 1008 |
| Dependencies.AdmittedIff | backend/src/core/dependencies.py:49-76 | with unique hashes and ids, a device is admitted exactly while its token has not expired, and the client's active flag is not consulted |
| Dependencies.ExpiryBoundary | backend/src/core/dependencies.py:72-74 | a token expiring this second is admitted; one that expired a second ago is not |
| Dependencies.NaiveReadAsUtc | backend/src/core/dependencies.py:68-70 | a naive expiry admits exactly as the same instant in UTC |
| DeviceManagement.PinAlphabetShape | backend/src/services/device_management.py:62 | the PIN alphabet is the ten digits then the 26 upper-case letters, in order: 36 distinct characters |
| DeviceManagement.PinOf | backend/src/services/device_management.py:68 | a valid draw gives six characters of digits and upper-case letters |
| DeviceManagement.HexString | backend/src/services/device_management.py:127 | 2n lower-case hex digits for n bytes |
| DeviceManagement.HexValue | backend/src/services/device_management.py:127 | defined iff the character is a hex digit, and inverts the digit printer |
| DeviceManagement.ParseHexString | backend/src/services/device_management.py:127 | the hex text of a secret reads back as its bytes |
| DeviceManagement.FindOtp | backend/src/services/device_management.py:109-116 | finds a challenge with the hash iff one exists |
| DeviceManagement.RemoveAt | backend/src/services/device_management.py:118-146 | deleting the row at i keeps every other row in order, and only that row leaves the table |
| DeviceManagement.NameTaken | backend/src/models/accounts.py:85-106 | true iff a client already has the name |
| DeviceManagement.TokenTaken | backend/src/models/accounts.py:109-128 | true iff a token row already has the id or the hash |
| DeviceManagement.FindClientAppend | backend/src/core/dependencies.py:51-55 | after adding a client the lookup finds it by its id and is otherwise unchanged |
| DeviceManagement.FindTokenRowAppend | backend/src/core/dependencies.py:51-58 | a token row with a fresh hash, added with its client, is the row the join finds |
| DeviceManagement.NewDeviceAdmitted | backend/src/services/device_management.py:127-146 | a newly paired device is admitted by the WebSocket dependency up to its expiry |
| DeviceManagement.AddDeviceKeepsTables | backend/src/models/accounts.py:85-136 | adding a client with a fresh id and name and its token with fresh id and hash keeps the table constraints |
| DeviceManagement.RemoveOtpKeepsDistinct | backend/src/models/accounts.py:131-136 | removing a challenge keeps the challenge hashes distinct |
| DeviceManagement.NewDeviceAdmittedUntil | backend/src/services/device_management.py:127-146 | the new device's secret admits it at every instant up to the token's expiry |
| DeviceManagement.DeviceDb.GenerateUniqueOtp | backend/src/services/device_management.py:49-93 | fails iff all five attempts collide, leaving the challenges unchanged; otherwise the first non-colliding attempt's PIN is issued, valid 15 minutes, and its hash is stored |
| DeviceManagement.DeviceDb.AuthenticateOtp | backend/src/services/device_management.py:95-151 | an unknown PIN is invalid and changes nothing; an expired one is invalid and is deleted; a live one whose name, id or token is taken is a conflict and changes nothing; otherwise the challenge is consumed, the client and a 30-day token are added, and the 128-hex-digit secret is returned and admitted until its expiry |
| DeviceManagement.IssuedPinLive | backend/src/services/device_management.py:64-125 | an issued PIN is live until its expiry and expired after it |
| DeviceManagement.PinSingleUse | backend/src/services/device_management.py:131-146 | once consumed, a PIN is no longer found |
| ShowService.InsertDesc | backend/src/services/shows.py:60 | inserting keeps the rows (as a multiset) and the descending order |
| ShowService.SortDesc | backend/src/services/shows.py:60 | a descending permutation of the rows |
| ShowService.InsertDescStrict | backend/src/services/shows.py:60 | with distinct keys, inserting keeps the order strict |
| ShowService.SortDescStrict | backend/src/services/shows.py:60 | with distinct keys, the sorted rows are strictly descending |
| ShowService.StrictPositionsDiffer | backend/src/services/shows.py:60 | in a strictly descending list, different positions hold different rows |
| ShowService.EffectiveLimit | backend/src/services/shows.py:58 | the limit capped at 512 |
| ShowService.PageOffsetIsProduct | backend/src/services/shows.py:62-63 | the offset is (page - 1) * limit |
| ShowService.PageOfPosition | backend/src/services/shows.py:62-63 | the position idx falls within page idx / limit + 1 |
| ShowService.Window | backend/src/services/shows.py:60-63 | an OFFSET/LIMIT slice: the rows from the offset, at most count of them |
| ShowService.GetShowfilesPage | backend/src/services/shows.py:51-68 | returns at most the effective limit plus one rows |
| ShowService.WindowDescending | backend/src/services/shows.py:60-63 | a slice of a descending list is descending |
| ShowService.WindowWithin | backend/src/services/shows.py:60-63 | a slice holds only rows of the list |
| ShowService.ShowfilesFromTable | backend/src/services/shows.py:51-68 | a page holds rows of the table, newest first |
| ShowService.ShowfilesWindow | backend/src/services/shows.py:58-63 | a page is the slice of the sorted table at (page - 1) * limit, of length limit + 1 or what is left |
| ShowService.ShowfilesStrictlyDescending | backend/src/services/shows.py:60 | with unique ids, a page is strictly newest first |
| ShowService.WindowsShareOne | backend/src/services/shows.py:60-63 | two overlapping slices of a strictly sorted list share exactly one row |
| ShowService.FullWindowThenNext | backend/src/services/shows.py:60-63 | a full look-ahead slice and the next one share exactly one row |
| ShowService.ConsecutivePagesShareOne | backend/src/services/shows.py:58-63 | a full page and the next page share exactly the look-ahead row |
| ShowService.PositionOnPage | backend/src/services/shows.py:58-63 | the row at a sorted position is on the page that position falls in |
| ShowService.SortedPosition | backend/src/services/shows.py:60 | every row of the table has a position in the sorted list |
| ShowService.EveryShowOnSomePage | backend/src/services/shows.py:51-68 | every show is on some page |
| ShowService.ShowfilesIgnoreUser | backend/src/services/shows.py:51-68 | the page does not depend on the requesting user |
| ShowService.OwnedBy | backend/src/services/shows.py:70-81 | true iff the show exists and was created by the user |
| ShowService.PatchOf | backend/src/services/shows.py:70-81 | exactly the fixtures of the show when the user owns it, and rows of the table |
| ShowService.GetPatching | backend/src/services/shows.py:70-81 | a malformed id or user is an error; otherwise exactly the show's fixtures when the user owns it, none otherwise, as rows of the table with the highest id first |
| ShowService.PatchingHiddenFromOthers | backend/src/services/shows.py:70-81 | a user who did not create the show sees no fixtures |
| ShowService.PatchOfUnowned | backend/src/services/shows.py:70-81 | without ownership the filter keeps nothing |
| ShowService.PatchingStrictlyDescending | backend/src/services/shows.py:70-81 | with unique fixture ids, the patching is strictly descending by id |
| ShowService.PatchedTableStrictlyDescending | backend/src/models/fixtures.py:180 | the fixture table of a session that keeps its constraints has unique ids, so its patching is strictly descending |
| ShowService.SubsequenceDistinct | backend/src/services/shows.py:70-81 | the filtered fixtures keep distinct ids |

## Left out

- Transport and framework code are not part of this model: Redis publishing, WebSocket streaming, routers, HTTP cookies and HS512 JWT signing and verification. `decode_jwt` is an oracle that yields the claims or nothing.
- `from_transport` uses Python's lenient `b64decode`, which ignores non-alphabet characters and accepts some non-canonical padding. The model decodes only canonical RFC 4648 text and treats everything else as an error.
- The design documentation describes a 512-channel cap on a DMX frame. `pack_frame` has none, and the model follows the code (`NoChannelCap`).
- `\d` and `str.lower()` are Unicode-aware in Python. The model uses their ASCII meaning only.
- These are oracles given as function parameters, not modelled: SHA3-512, Argon2 hashing and verification, UUID parsing and printing, and UUIDv7 generation.
- Randomness is a parameter:
  - the PIN draws from `secrets.choice`;
  - the 64 bytes from `secrets.token_hex`;
  - new row ids.
- Clocks are parameters, in integer seconds. Sub-second precision is left out.
- String column lengths (`String(n)`) and the data errors they raise are not modelled.
- The database is modelled as tables held in the classes. Rows come back in table order where the SQL has no ORDER BY. Transactions, rollbacks, concurrent sessions and autoincrement ids are left out. An IntegrityError is modelled as the constraint it would violate.
- The `Conflict` raised by `authenticate_otp` is not defined in `core/exc.py`. The model reports it as the `Conflict` outcome the code evidently means.
- `create_showfile`, `create_scene`, `add_fixtures_to_scene`, `create_cue`, `add_role` and `amount_users` are outside the modelled core.
- `AccountService.AccountDb.CreateUser`: `password_confirm` is not compared with `password`. A schema docstring promises that check, but no code performs it, and the model follows the code.
- `ShowService.GetPatching`: the show join relies on show ids being unique, as the primary key guarantees.
- `FixtureSchemas.ValidatePatch`: `name` and `fid` are required fields. The model takes them as given, so a request missing either one, which the schema refuses, is not represented.
- `DeviceManagement.DeviceDb.GenerateUniqueOtp` takes all five possible draws up front, so draws after the first success go unused. The internal retry counter is not kept as state.
