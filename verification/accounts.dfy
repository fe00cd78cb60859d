/** `AccountService`: the password policy, user lookup and creation, login,
    the JWT payloads it issues, refresh-token rotation with replay
    rejection, and the purge of used refresh tokens. Hashing, password
    verification, JWT decoding and UUID parsing and printing are library
    calls, passed in as functions. */
module AccountService {
  import opened Common
  import opened AccountModels

  // ---------------------------------------------------------------------
  // Password policy (`PATTERN`)

  const SpecialCharacters: string := "!@#$%^&*(),.?\":{}|<>"
  const MinPasswordLength: int := 8
  const MaxPasswordLength: int := 64

  predicate IsAsciiLower(c: char) { 'a' <= c <= 'z' }
  predicate IsAsciiUpper(c: char) { 'A' <= c <= 'Z' }
  predicate IsDigit(c: char) { '0' <= c <= '9' }
  predicate IsSpecial(c: char) { c in SpecialCharacters }

  /** The part of the password that `.{8,64}` has to span: `$` also
      matches just before one final newline. */
  function MatchedPart(p: string): (b: string)
    ensures |b| <= |p| <= |b| + 1
    ensures b == p || p == b + "\n"
    ensures |p| > 0 && p[|p| - 1] == '\n' ==> p == b + "\n"
    ensures (|p| == 0 || p[|p| - 1] != '\n') ==> b == p
  {
    if |p| > 0 && p[|p| - 1] == '\n' then p[..|p| - 1] else p
  }

  /** `PATTERN.match(p)`: 8 to 64 characters, none of them a newline
      (except one final newline, which is not counted), with at least one
      lower-case letter, one upper-case letter, one digit and one of the
      special characters. The look-aheads use `.*`, which cannot pass a
      newline; the spanned part has none, so they search all of it. */
  predicate MeetsPolicy(p: string)
  {
    var b := MatchedPart(p);
    MinPasswordLength <= |b| <= MaxPasswordLength
    && (forall i :: 0 <= i < |b| ==> b[i] != '\n')
    && (exists i :: 0 <= i < |b| && IsAsciiLower(b[i]))
    && (exists i :: 0 <= i < |b| && IsAsciiUpper(b[i]))
    && (exists i :: 0 <= i < |b| && IsDigit(b[i]))
    && (exists i :: 0 <= i < |b| && IsSpecial(b[i]))
  }

  /** An accepted password has 8 to 65 characters, and a newline can only
      be its last one. */
  lemma PolicyLength(p: string)
    requires MeetsPolicy(p)
    ensures MinPasswordLength <= |p| <= MaxPasswordLength + 1
    ensures forall i :: 0 <= i < |p| - 1 ==> p[i] != '\n'
  {
    var b := MatchedPart(p);
    forall i | 0 <= i < |p| - 1
      ensures p[i] != '\n'
    {
      assert i < |b| && b[i] == p[i];
    }
  }

  /** One trailing newline changes nothing; a second one is refused. */
  lemma TrailingNewline(p: string)
    requires forall i :: 0 <= i < |p| ==> p[i] != '\n'
    ensures MeetsPolicy(p + "\n") == MeetsPolicy(p)
    ensures !MeetsPolicy(p + "\n\n")
  {
    assert MatchedPart(p + "\n") == p;
    var q := p + "\n\n";
    assert MatchedPart(q) == p + "\n";
    assert MatchedPart(q)[|p|] == '\n';
  }

  /** A password with every required class of character is accepted. */
  lemma PolicyAcceptsExample()
    ensures MeetsPolicy("Test1234!")
  {
    var p := "Test1234!";
    assert MatchedPart(p) == p;
    assert IsAsciiLower(p[1]) && IsAsciiUpper(p[0]) && IsDigit(p[4]) && IsSpecial(p[8]);
  }

  /** Without an upper-case letter the password is refused. */
  lemma PolicyNeedsUpper()
    ensures !MeetsPolicy("test1234!")
  {
    var q := "test1234!";
    assert MatchedPart(q) == q;
    assert forall i :: 0 <= i < |q| ==> !IsAsciiUpper(q[i]);
  }

  /** Seven characters are too few, whatever they are. */
  lemma PolicyNeedsLength()
    ensures !MeetsPolicy("Test12!")
  {
  }

  datatype InvalidPasswordError = InvalidPasswordError

  /** `password_hash`: the policy decides, then the library hashes. */
  function PasswordHash(p: string, hasher: string -> string): (r: Result<string, InvalidPasswordError>)
    ensures r.Ok? <==> MeetsPolicy(p)
    ensures r.Ok? ==> r.value == hasher(p)
  {
    if MeetsPolicy(p) then Ok(hasher(p)) else Err(InvalidPasswordError)
  }

  // ---------------------------------------------------------------------
  // Usernames and lookup

  /** `str.lower` on one character, for the ASCII letters. */
  function LowerChar(c: char): char
  {
    if IsAsciiUpper(c) then (c as int + 32) as char else c
  }

  /** `str.lower()`: every ASCII upper-case letter becomes its lower-case
      letter, every other character is kept. */
  function Lower(s: string): (r: string)
    ensures |r| == |s|
    ensures forall i :: 0 <= i < |r| ==> !IsAsciiUpper(r[i])
    ensures forall i :: 0 <= i < |s| ==>
              (IsAsciiUpper(s[i]) ==> IsAsciiLower(r[i]) && r[i] as int == s[i] as int + 32)
              && (!IsAsciiUpper(s[i]) ==> r[i] == s[i])
  {
    seq(|s|, i requires 0 <= i < |s| => LowerChar(s[i]))
  }

  /** Lower-casing twice is lower-casing once. */
  lemma LowerIdempotent(s: string)
    ensures Lower(Lower(s)) == Lower(s)
  {
    var l := Lower(s);
    assert forall i :: 0 <= i < |l| ==> LowerChar(l[i]) == l[i];
  }

  /** `UserGet`: the search criteria. */
  datatype UserGet = UserGet(id: Option<Uuid>, username: Option<string>)

  /** The `ValueError` raised when neither criterion is given. */
  datatype GetUserError = NoCriteria

  /** The account with the given id (at most one: the primary key). */
  function FindById(accounts: seq<Account>, id: Uuid): (r: Option<Account>)
    ensures r.None? <==> forall a :: a in accounts ==> a.id != id
    ensures r.Some? ==> r.value in accounts && r.value.id == id
  {
    if accounts == [] then None
    else if accounts[0].id == id then Some(accounts[0])
    else
      assert accounts == [accounts[0]] + accounts[1..];
      FindById(accounts[1..], id)
  }

  /** The account with the given username (at most one: it is unique). */
  function FindByUsername(accounts: seq<Account>, username: string): (r: Option<Account>)
    ensures r.None? <==> forall a :: a in accounts ==> a.username != username
    ensures r.Some? ==> r.value in accounts && r.value.username == username
  {
    if accounts == [] then None
    else if accounts[0].username == username then Some(accounts[0])
    else
      assert accounts == [accounts[0]] + accounts[1..];
      FindByUsername(accounts[1..], username)
  }

  /** `get_user`: by id when one is given, else by the lower-cased
      username; an empty username counts as none. */
  function GetUser(q: UserGet, accounts: seq<Account>): (r: Result<Option<Account>, GetUserError>)
    ensures r.Err? <==> q.id.None? && (q.username.None? || q.username.value == "")
    ensures r.Ok? && r.value.Some? ==> r.value.value in accounts
    ensures q.id.Some? ==> r.Ok?
                           && (r.value.Some? <==> exists a :: a in accounts && a.id == q.id.value)
                           && (r.value.Some? ==> r.value.value.id == q.id.value)
    ensures q.id.None? && r.Ok? ==>
              (r.value.Some? <==> exists a :: a in accounts && a.username == Lower(q.username.value))
              && (r.value.Some? ==> r.value.value.username == Lower(q.username.value))
  {
    if q.id.Some? then Ok(FindById(accounts, q.id.value))
    else if q.username.Some? && q.username.value != "" then Ok(FindByUsername(accounts, Lower(q.username.value)))
    else Err(NoCriteria)
  }

  // ---------------------------------------------------------------------
  // JWT payloads (`encode_jwt`); signing with HS512 is not modelled

  const Issuer: string := "hyperion_backend"
  const NotBeforeSkew: int := 3
  const AccessLifetime: int := 15 * SecondsPerMinute + 3
  const RefreshLifetime: int := 7 * SecondsPerDay + 3

  /** The claims of one token; times in seconds. */
  datatype Claims = Claims(iss: string, iat: int, nbf: int, sub: string, exp: int, jti: string, scope: string)

  /** The access token and the refresh token `encode_jwt` returns, each
      with its expiry. */
  datatype TokenPair = TokenPair(access: Claims, refresh: Claims)

  /** `encode_jwt(sub)` at time `now`; `sub` is already `str(sub)` and the
      two jti are the text of two fresh UUIDv7. */
  function EncodeJwt(sub: string, now: int, accessJti: string, refreshJti: string): (r: TokenPair)
    ensures r.access.iss == Issuer && r.refresh.iss == Issuer
    ensures r.access.sub == sub && r.refresh.sub == sub
    ensures r.access.iat == now && r.refresh.iat == now
    ensures r.access.nbf == now - 3 && r.refresh.nbf == now - 3
    ensures r.access.scope == "access" && r.access.jti == accessJti
    ensures r.refresh.scope == "refresh" && r.refresh.jti == refreshJti
    ensures r.access.exp == now + 903 && r.refresh.exp == now + 604803
  {
    TokenPair(
      Claims(Issuer, now, now - NotBeforeSkew, sub, now + AccessLifetime, accessJti, "access"),
      Claims(Issuer, now, now - NotBeforeSkew, sub, now + RefreshLifetime, refreshJti, "refresh"))
  }

  /** Both tokens are valid from 3 seconds before issue, and the refresh
      token outlives the access token. */
  lemma TokenLifetimes(sub: string, now: int, accessJti: string, refreshJti: string)
    ensures var t := EncodeJwt(sub, now, accessJti, refreshJti);
            t.access.nbf < t.access.iat < t.access.exp < t.refresh.exp
            && t.refresh.exp - t.access.exp == 7 * SecondsPerDay - 15 * SecondsPerMinute
  {
  }

  /** The claims a decoded token carries, each possibly absent. */
  datatype Payload = Payload(scope: Option<string>, jti: Option<string>, sub: Option<string>, exp: Option<int>)

  /** The payload of a token as issued. */
  function PayloadOf(c: Claims): Payload
  {
    Payload(Some(c.scope), Some(c.jti), Some(c.sub), Some(c.exp))
  }

  // ---------------------------------------------------------------------
  // Refresh-token rotation

  /** `Unauthorised`, with the two messages the code uses. */
  datatype AuthError = IncorrectCredentials | InvalidRefreshToken

  /** What a redeemed refresh token yields: the used-token row to record
      and the user to issue new tokens to. */
  datatype RefreshGrant = RefreshGrant(used: UsedRefreshToken, user: Account)

  predicate JtiUsed(used: seq<UsedRefreshToken>, jti: Uuid)
  {
    exists u :: u in used && u.jti == jti
  }

  /** The conditions under which a decoded refresh token is redeemed, all
      at once: refresh scope, a jti that parses and was not used, a
      non-empty subject naming an existing user, and an expiry. The user's
      `is_active` flag is not among them. */
  ghost predicate Redeemable(payload: Option<Payload>, parseUuid: string -> Option<Uuid>,
                             accounts: seq<Account>, used: seq<UsedRefreshToken>)
  {
    payload.Some?
    && var p := payload.value;
    p.scope == Some("refresh")
    && p.jti.Some? && parseUuid(p.jti.value).Some? && !JtiUsed(used, parseUuid(p.jti.value).value)
    && p.sub.Some? && p.sub.value != "" && parseUuid(p.sub.value).Some?
    && (exists a :: a in accounts && a.id == parseUuid(p.sub.value).value)
    && p.exp.Some?
  }

  /** The checks of `refresh_session`, in the order the code makes them;
      every failure, raised or not, ends as the one `Unauthorised`. */
  function RefreshCheck(payload: Option<Payload>, parseUuid: string -> Option<Uuid>,
                        accounts: seq<Account>, used: seq<UsedRefreshToken>): (r: Result<RefreshGrant, AuthError>)
    ensures r.Ok? <==> Redeemable(payload, parseUuid, accounts, used)
    ensures r.Err? ==> r.error == InvalidRefreshToken
    ensures r.Ok? ==> var p := payload.value;
                      parseUuid(p.jti.value) == Some(r.value.used.jti)
                      && parseUuid(p.sub.value) == Some(r.value.user.id)
                      && r.value.used.userId == r.value.user.id
                      && r.value.used.expiresAt == Aware(p.exp.value)
                      && r.value.user in accounts
  {
    if payload.None? then Err(InvalidRefreshToken)
    else
      var p := payload.value;
      if p.scope != Some("refresh") then Err(InvalidRefreshToken)
      else if p.jti.None? || parseUuid(p.jti.value).None? then Err(InvalidRefreshToken)
      else
        var jti := parseUuid(p.jti.value).value;
        if JtiUsed(used, jti) then Err(InvalidRefreshToken)
        else if p.sub.None? || p.sub.value == "" then Err(InvalidRefreshToken)
        else if parseUuid(p.sub.value).None? then Err(InvalidRefreshToken)
        else
          match FindById(accounts, parseUuid(p.sub.value).value)
          case None => Err(InvalidRefreshToken)
          case Some(user) =>
            if p.exp.None? then Err(InvalidRefreshToken)
            else Ok(RefreshGrant(UsedRefreshToken(jti, user.id, Aware(p.exp.value)), user))
  }

  /** Replay rejection: once its row is recorded, the same refresh token is
      refused. */
  lemma RefreshSingleUse(payload: Option<Payload>, parseUuid: string -> Option<Uuid>,
                         accounts: seq<Account>, used: seq<UsedRefreshToken>)
    requires RefreshCheck(payload, parseUuid, accounts, used).Ok?
    ensures RefreshCheck(payload, parseUuid, accounts,
                         used + [RefreshCheck(payload, parseUuid, accounts, used).value.used]) == Err(InvalidRefreshToken)
  {
    var g := RefreshCheck(payload, parseUuid, accounts, used).value;
    assert g.used in used + [g.used];
  }

  /** A refresh token as `encode_jwt` issues it, for an existing user, with
      a jti not yet used, is redeemed for that user; `parseUuid` must read
      back what `uuidText` prints. */
  lemma IssuedRefreshTokenRedeemable(user: Account, accounts: seq<Account>, used: seq<UsedRefreshToken>,
                                     now: int, accessJti: Uuid, refreshJti: Uuid,
                                     parseUuid: string -> Option<Uuid>, uuidText: Uuid -> string)
    requires user in accounts && !JtiUsed(used, refreshJti)
    requires parseUuid(uuidText(user.id)) == Some(user.id) && parseUuid(uuidText(refreshJti)) == Some(refreshJti)
    requires uuidText(user.id) != ""
    ensures var t := EncodeJwt(uuidText(user.id), now, uuidText(accessJti), uuidText(refreshJti));
            var r := RefreshCheck(Some(PayloadOf(t.refresh)), parseUuid, accounts, used);
            r.Ok? && r.value.used.jti == refreshJti && r.value.user.id == user.id
  {
  }

  /** An access token is never redeemed as a refresh token. */
  lemma AccessTokenNotRedeemable(sub: string, now: int, accessJti: string, refreshJti: string,
                                 parseUuid: string -> Option<Uuid>, accounts: seq<Account>, used: seq<UsedRefreshToken>)
    ensures RefreshCheck(Some(PayloadOf(EncodeJwt(sub, now, accessJti, refreshJti).access)), parseUuid, accounts, used).Err?
  {
  }

  /** `delete_refresh_tokens`: the rows whose expiry is not before `now`,
      in table order. */
  function KeepUnexpired(used: seq<UsedRefreshToken>, now: int): (r: seq<UsedRefreshToken>)
    ensures forall u :: u in r <==> u in used && AsUtc(u.expiresAt) >= now
    ensures |r| <= |used|
  {
    if used == [] then []
    else
      var init := KeepUnexpired(used[..|used| - 1], now);
      var last := used[|used| - 1];
      assert used == used[..|used| - 1] + [last];
      if AsUtc(last.expiresAt) < now then init else init + [last]
  }

  /** Purging keeps replay protection for every token that has not yet
      expired. */
  lemma PurgeKeepsUnexpiredBlocked(used: seq<UsedRefreshToken>, now: int, u: UsedRefreshToken)
    requires u in used && AsUtc(u.expiresAt) >= now
    ensures JtiUsed(KeepUnexpired(used, now), u.jti)
  {
  }

  // ---------------------------------------------------------------------
  // The account tables

  /** `UserCreate`; `password_confirm` is declared but never compared. */
  datatype UserCreate = UserCreate(username: string, firstName: string, lastName: string,
                                   password: string, passwordConfirm: string)

  /** `UserLogin`. */
  datatype UserLogin = UserLogin(username: string, password: string)

  /** The `ValueError` for an unknown role, `InvalidPasswordError` and
      `DuplicateEntryError` of `create_user`. */
  datatype CreateUserError = RoleNotFound | InvalidPassword | DuplicateEntry

  const DefaultRole: string := "viewer"

  function FindRoleByName(roles: seq<Role>, name: string): (r: Option<Role>)
    ensures r.None? <==> forall x :: x in roles ==> x.name != name
    ensures r.Some? ==> r.value in roles && r.value.name == name
  {
    if roles == [] then None
    else if roles[0].name == name then Some(roles[0])
    else
      assert roles == [roles[0]] + roles[1..];
      FindRoleByName(roles[1..], name)
  }

  /** The active account with the given username. */
  function FindActive(accounts: seq<Account>, username: string): (r: Option<Account>)
    ensures r.None? <==> forall a :: a in accounts ==> a.username != username || !a.isActive
    ensures r.Some? ==> r.value in accounts && r.value.username == username && r.value.isActive
  {
    if accounts == [] then None
    else if accounts[0].username == username && accounts[0].isActive then Some(accounts[0])
    else
      assert accounts == [accounts[0]] + accounts[1..];
      FindActive(accounts[1..], username)
  }

  /** The `UPDATE` that stores a re-hashed password for one account. */
  function UpdatePassword(accounts: seq<Account>, id: Uuid, hash: string): (r: seq<Account>)
    ensures |r| == |accounts|
    ensures forall i :: 0 <= i < |r| ==>
              r[i] == (if accounts[i].id == id then accounts[i].(password := hash) else accounts[i])
  {
    seq(|accounts|, i requires 0 <= i < |accounts| =>
      if accounts[i].id == id then accounts[i].(password := hash) else accounts[i])
  }

  /** The constraints of the account tables: unique role ids and names,
      unique account ids and usernames, roles that exist, and used tokens
      with a unique jti and an existing user. */
  ghost predicate AccountTables(roles: seq<Role>, accounts: seq<Account>, used: seq<UsedRefreshToken>)
  {
    (forall i, j :: 0 <= i < j < |roles| ==> roles[i].id != roles[j].id && roles[i].name != roles[j].name)
    && (forall i, j :: 0 <= i < j < |accounts| ==>
          accounts[i].id != accounts[j].id && accounts[i].username != accounts[j].username)
    && (forall a :: a in accounts ==> exists x :: x in roles && x.id == a.roleId)
    && (forall u, v :: u in used && v in used && u.jti == v.jti ==> u == v)
    && (forall u :: u in used ==> exists a :: a in accounts && a.id == u.userId)
  }

  /** The lookup of a username appended last finds the new account when no
      earlier account has that username. */
  lemma FindByUsernameAppend(accounts: seq<Account>, a: Account)
    requires forall x :: x in accounts ==> x.username != a.username
    ensures FindByUsername(accounts + [a], a.username) == Some(a)
  {
    if accounts != [] {
      assert (accounts + [a])[1..] == accounts[1..] + [a];
      FindByUsernameAppend(accounts[1..], a);
    }
  }

  /** An account with a fresh id and username and an existing role keeps
      the constraints. */
  lemma AddAccountKeepsTables(roles: seq<Role>, accounts: seq<Account>, used: seq<UsedRefreshToken>, a: Account)
    requires AccountTables(roles, accounts, used)
    requires exists x :: x in roles && x.id == a.roleId
    requires forall x :: x in accounts ==> x.id != a.id && x.username != a.username
    ensures AccountTables(roles, accounts + [a], used)
  {
    var r := accounts + [a];
    forall i, j | 0 <= i < j < |r|
      ensures r[i].id != r[j].id && r[i].username != r[j].username
    {
      if j == |accounts| {
        assert r[i] in accounts;
      }
    }
    forall u | u in used
      ensures exists b :: b in r && b.id == u.userId
    {
      var b :| b in accounts && b.id == u.userId;
      assert b in r;
    }
  }

  /** A new account is what a lookup by the username it was created with
      finds. */
  lemma NewAccountFound(accounts: seq<Account>, a: Account, username: string)
    requires a.username == Lower(username) && username != ""
    requires forall x :: x in accounts ==> x.username != a.username
    ensures GetUser(UserGet(None, Some(username)), accounts + [a]) == Ok(Some(a))
  {
    FindByUsernameAppend(accounts, a);
  }

  /** Re-hashing a password changes no id, username or role. */
  lemma UpdatePasswordKeepsTables(roles: seq<Role>, accounts: seq<Account>, used: seq<UsedRefreshToken>,
                                  id: Uuid, hash: string)
    requires AccountTables(roles, accounts, used)
    ensures AccountTables(roles, UpdatePassword(accounts, id, hash), used)
  {
    var r := UpdatePassword(accounts, id, hash);
    forall a | a in r
      ensures exists x :: x in roles && x.id == a.roleId
    {
      var i :| 0 <= i < |r| && r[i] == a;
      assert accounts[i] in accounts;
    }
    forall u | u in used
      ensures exists a :: a in r && a.id == u.userId
    {
      var a :| a in accounts && a.id == u.userId;
      var i :| 0 <= i < |accounts| && accounts[i] == a;
      assert r[i] in r;
    }
  }

  class AccountDb {
    var roles: seq<Role>
    var accounts: seq<Account>
    var usedTokens: seq<UsedRefreshToken>

    ghost predicate Valid()
      reads this
    {
      AccountTables(roles, accounts, usedTokens)
    }

    constructor (roles: seq<Role>)
      requires forall i, j :: 0 <= i < j < |roles| ==> roles[i].id != roles[j].id && roles[i].name != roles[j].name
      ensures Valid()
      ensures this.roles == roles && accounts == [] && usedTokens == []
    {
      this.roles := roles;
      accounts := [];
      usedTokens := [];
    }

    /** `create_user`: find the role, hash the password (the policy may
        refuse it), insert the account with its username lower-cased and
        active; a taken username or id fails the commit. */
    method CreateUser(user: UserCreate, roleName: string, newId: Uuid, hasher: string -> string)
      returns (r: Result<Account, CreateUserError>)
      requires Valid()
      modifies this
      ensures Valid()
      ensures roles == old(roles) && usedTokens == old(usedTokens)
      ensures r == Err(RoleNotFound) <==> FindRoleByName(roles, roleName).None?
      ensures r == Err(InvalidPassword) <==> FindRoleByName(roles, roleName).Some? && !MeetsPolicy(user.password)
      ensures r == Err(DuplicateEntry) <==>
                FindRoleByName(roles, roleName).Some? && MeetsPolicy(user.password)
                && (FindByUsername(old(accounts), Lower(user.username)).Some? || FindById(old(accounts), newId).Some?)
      ensures r.Err? ==> accounts == old(accounts)
      ensures r.Ok? ==> r.value == Account(newId, Lower(user.username), hasher(user.password), user.firstName,
                                           user.lastName, FindRoleByName(roles, roleName).value.id, true)
                        && accounts == old(accounts) + [r.value]
      ensures r.Ok? && user.username != "" ==> GetUser(UserGet(None, Some(user.username)), accounts) == Ok(Some(r.value))
    {
      var role := FindRoleByName(roles, roleName);
      if role.None? {
        return Err(RoleNotFound);
      }
      var hash := PasswordHash(user.password, hasher);
      if hash.Err? {
        return Err(InvalidPassword);
      }
      var account := Account(newId, Lower(user.username), hash.value, user.firstName, user.lastName, role.value.id, true);
      if FindByUsername(accounts, account.username).Some? || FindById(accounts, newId).Some? {
        return Err(DuplicateEntry);
      }
      AddAccountKeepsTables(roles, accounts, usedTokens, account);
      if user.username != "" {
        NewAccountFound(accounts, account, user.username);
      }
      accounts := accounts + [account];
      return Ok(account);
    }

    /** `authorise_user`: the active account with the lower-cased username,
        then the password; both failures give the same error. A re-hash the
        library recommends is stored. */
    method AuthoriseUser(login: UserLogin, verify: (string, string) -> (bool, Option<string>),
                         uuidText: Uuid -> string, now: int, accessJti: string, refreshJti: string)
      returns (r: Result<TokenPair, AuthError>)
      requires Valid()
      modifies this
      ensures Valid()
      ensures roles == old(roles) && usedTokens == old(usedTokens)
      ensures r.Ok? <==> exists a :: a in old(accounts) && a.username == Lower(login.username) && a.isActive
                                     && verify(login.password, a.password).0
      ensures r.Err? ==> r.error == IncorrectCredentials && accounts == old(accounts)
      ensures r.Ok? ==> exists a :: a in old(accounts) && a.username == Lower(login.username) && a.isActive
                          && r.value == EncodeJwt(uuidText(a.id), now, accessJti, refreshJti)
                          && var rehash := verify(login.password, a.password).1;
                             accounts == (if rehash.Some? && rehash.value != "" then UpdatePassword(old(accounts), a.id, rehash.value)
                                          else old(accounts))
    {
      var account := FindActive(accounts, Lower(login.username));
      if account.None? {
        return Err(IncorrectCredentials);
      }
      var a := account.value;
      var (verified, updatedHash) := verify(login.password, a.password);
      if !verified {
        assert forall b :: b in accounts && b.username == Lower(login.username) && b.isActive ==> b == a;
        return Err(IncorrectCredentials);
      }
      if updatedHash.Some? && updatedHash.value != "" {
        UpdatePasswordKeepsTables(roles, accounts, usedTokens, a.id, updatedHash.value);
        accounts := UpdatePassword(accounts, a.id, updatedHash.value);
      }
      return Ok(EncodeJwt(uuidText(a.id), now, accessJti, refreshJti));
    }

    /** `refresh_session`: decode, run the checks, record the token as used
        and issue a new pair. A redeemed token is refused from then on. */
    method RefreshSession(refreshToken: string, decode: string -> Option<Payload>,
                          parseUuid: string -> Option<Uuid>, uuidText: Uuid -> string,
                          now: int, accessJti: string, refreshJti: string)
      returns (r: Result<TokenPair, AuthError>)
      requires Valid()
      modifies this
      ensures Valid()
      ensures roles == old(roles) && accounts == old(accounts)
      ensures r.Ok? <==> Redeemable(decode(refreshToken), parseUuid, old(accounts), old(usedTokens))
      ensures r.Err? ==> r.error == InvalidRefreshToken && usedTokens == old(usedTokens)
      ensures r.Ok? ==> var g := RefreshCheck(decode(refreshToken), parseUuid, old(accounts), old(usedTokens)).value;
                        usedTokens == old(usedTokens) + [g.used]
                        && r.value == EncodeJwt(uuidText(g.user.id), now, accessJti, refreshJti)
      ensures r.Ok? ==> RefreshCheck(decode(refreshToken), parseUuid, accounts, usedTokens) == Err(InvalidRefreshToken)
    {
      var outcome := RefreshCheck(decode(refreshToken), parseUuid, accounts, usedTokens);
      if outcome.Err? {
        return Err(InvalidRefreshToken);
      }
      var g := outcome.value;
      RefreshSingleUse(decode(refreshToken), parseUuid, accounts, usedTokens);
      usedTokens := usedTokens + [g.used];
      return Ok(EncodeJwt(uuidText(g.user.id), now, accessJti, refreshJti));
    }

    /** `delete_refresh_tokens`: drop the used-token rows that expired
        before `now`. */
    method DeleteRefreshTokens(now: int)
      requires Valid()
      modifies this
      ensures Valid()
      ensures roles == old(roles) && accounts == old(accounts)
      ensures usedTokens == KeepUnexpired(old(usedTokens), now)
    {
      usedTokens := KeepUnexpired(usedTokens, now);
    }
  }
}
