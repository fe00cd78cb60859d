/** `DeviceService`: pairing a device with a one-time PIN. A PIN is drawn
    and only its hash stored, retrying on a hash collision; presenting an
    unexpired PIN once creates the client and its session token and
    consumes the PIN. The random draws, the clock readings and the new
    primary keys are parameters; `sha3` is the hex SHA3-512 digest. */
module DeviceManagement {
  import opened Common
  import opened Base64
  import opened AccountModels
  import opened Dependencies

  const MaxRetries: int := 5
  const PinLength: int := 6
  const Digits: string := "0123456789"
  const AsciiUppercase: string := "ABCDEFGHIJKLMNOPQRSTUVWXYZ"
  /** `string.digits + string.ascii_uppercase`. */
  const PinAlphabet: string := Digits + AsciiUppercase
  const OtpValidity: int := 15 * SecondsPerMinute
  const TokenValidity: int := 30 * SecondsPerDay
  /** `secrets.token_hex(64)` draws 64 random bytes. */
  const SecretBytes: int := 64

  /** The alphabet is the ten digits in order, then the 26 upper-case
      letters in order: 36 distinct characters, so distinct draws spell
      distinct PINs and there are 36^6 of them. */
  lemma PinAlphabetShape()
    ensures |PinAlphabet| == 36
    ensures forall i :: 0 <= i < 10 ==> PinAlphabet[i] as int == '0' as int + i
    ensures forall i :: 10 <= i < 36 ==> PinAlphabet[i] as int == 'A' as int + (i - 10)
  {
    forall i | 0 <= i < 10
      ensures PinAlphabet[i] as int == '0' as int + i
    {
      assert PinAlphabet[i] == Digits[i];
    }
    forall i | 10 <= i < 36
      ensures PinAlphabet[i] as int == 'A' as int + (i - 10)
    {
      assert PinAlphabet[i] == AsciiUppercase[i - 10];
    }
  }

  /** The random part of one attempt: six `secrets.choice` picks, as
      indices into the alphabet, and the clock reading. */
  datatype Attempt = Attempt(draw: seq<int>, now: int)

  predicate ValidDraw(draw: seq<int>)
  {
    |draw| == PinLength && forall i :: 0 <= i < |draw| ==> 0 <= draw[i] < |PinAlphabet|
  }

  predicate IsPin(p: string)
  {
    |p| == PinLength && forall i :: 0 <= i < |p| ==> p[i] in PinAlphabet
  }

  /** The PIN the picks spell. */
  function PinOf(draw: seq<int>): (pin: string)
    requires ValidDraw(draw)
    ensures IsPin(pin)
  {
    seq(PinLength, i requires 0 <= i < PinLength => PinAlphabet[draw[i]])
  }

  /** What `generate_unique_otp` returns: the plain PIN and its expiry. */
  datatype IssuedOtp = IssuedOtp(otp: string, exp: int)

  /** The `RuntimeError` raised after the last collision. */
  datatype OtpGenerationError = PinSpaceExhausted

  /** What `authenticate_otp` returns: the plain device secret and its
      expiry. */
  datatype AuthenticatedDevice = AuthenticatedDevice(deviceSecret: string, exp: int)

  /** `Unauthorised` and `Conflict`. */
  datatype PairingError = InvalidOtp | Conflict

  // ---------------------------------------------------------------------
  // Hexadecimal text (`token_hex`)

  /** The lower-case hexadecimal digit for `d`. */
  function HexDigit(d: int): (c: char)
    requires 0 <= d < 16
    ensures IsHexDigit(c)
  {
    if d < 10 then (48 + d) as char else (97 + d - 10) as char
  }

  predicate IsHexDigit(c: char)
  {
    '0' <= c <= '9' || 'a' <= c <= 'f'
  }

  /** Each byte as two lower-case hex digits, high nibble first. */
  function HexString(bytes: seq<Byte>): (s: string)
    ensures |s| == 2 * |bytes|
    ensures forall i :: 0 <= i < |s| ==> IsHexDigit(s[i])
  {
    if bytes == [] then []
    else [HexDigit(bytes[0] / 16), HexDigit(bytes[0] % 16)] + HexString(bytes[1..])
  }

  function HexValue(c: char): (r: Option<int>)
    ensures r.Some? <==> IsHexDigit(c)
    ensures r.Some? ==> 0 <= r.value < 16 && HexDigit(r.value) == c
  {
    if '0' <= c <= '9' then Some(c as int - 48)
    else if 'a' <= c <= 'f' then Some(c as int - 97 + 10)
    else None
  }

  /** Reads two hex digits per byte; `None` for anything else. */
  function ParseHex(s: string): (r: Option<seq<Byte>>)
    decreases |s|
  {
    if s == [] then Some([])
    else if |s| == 1 then None
    else
      match (HexValue(s[0]), HexValue(s[1]), ParseHex(s[2..]))
      case (Some(hi), Some(lo), Some(rest)) => Some([hi * 16 + lo] + rest)
      case _ => None
  }

  /** The secret text determines the secret bytes. */
  lemma {:induction false} ParseHexString(bytes: seq<Byte>)
    ensures ParseHex(HexString(bytes)) == Some(bytes)
    decreases |bytes|
  {
    if bytes != [] {
      var s := HexString(bytes);
      assert s[2..] == HexString(bytes[1..]);
      ParseHexString(bytes[1..]);
      var hi: int, lo: int := bytes[0] / 16, bytes[0] % 16;
      assert HexValue(HexDigit(hi)) == Some(hi);
      assert HexValue(HexDigit(lo)) == Some(lo);
      assert bytes == [hi * 16 + lo] + bytes[1..];
    }
  }

  // ---------------------------------------------------------------------
  // The OTP, client and token tables

  /** The row holding the given PIN hash (at most one: it is unique). */
  function FindOtp(otps: seq<OtpChallenge>, hash: string): (r: Option<nat>)
    ensures r.None? <==> forall o :: o in otps ==> o.otp != hash
    ensures r.Some? ==> r.value < |otps| && otps[r.value].otp == hash
  {
    if otps == [] then None
    else if otps[|otps| - 1].otp == hash then Some(|otps| - 1)
    else
      var r := FindOtp(otps[..|otps| - 1], hash);
      assert otps == otps[..|otps| - 1] + [otps[|otps| - 1]];
      r
  }

  /** An attempt whose PIN hash is already stored fails its insert. */
  predicate AttemptCollides(otps: seq<OtpChallenge>, a: Attempt, sha3: string -> string)
    requires ValidDraw(a.draw)
  {
    FindOtp(otps, sha3(PinOf(a.draw))).Some?
  }

  /** Deleting the row at `i`: the rows before it and after it keep their
      order, and only that row leaves the table. */
  function RemoveAt<T>(s: seq<T>, i: nat): (r: seq<T>)
    requires i < |s|
    ensures |r| == |s| - 1
    ensures forall k :: 0 <= k < |r| ==> r[k] == (if k < i then s[k] else s[k + 1])
    ensures multiset(r) + multiset{s[i]} == multiset(s)
  {
    assert s == s[..i] + [s[i]] + s[i + 1..];
    s[..i] + s[i + 1..]
  }

  /** The unique constraints and the foreign key of the three tables. */
  ghost predicate DeviceTables(otps: seq<OtpChallenge>, clients: seq<Client>, tokens: seq<ClientToken>)
  {
    (forall i, j :: 0 <= i < j < |otps| ==> otps[i].otp != otps[j].otp)
    && (forall i, j :: 0 <= i < j < |clients| ==> clients[i].id != clients[j].id && clients[i].name != clients[j].name)
    && (forall i, j :: 0 <= i < j < |tokens| ==>
          tokens[i].id != tokens[j].id && tokens[i].tokenHash != tokens[j].tokenHash
          && tokens[i].clientId != tokens[j].clientId)
    && (forall t :: t in tokens ==> FindClient(clients, t.clientId).Some?)
  }

  /** Removing a row keeps the remaining hashes distinct, and the removed
      hash is gone. */
  lemma RemoveOtpKeepsDistinct(otps: seq<OtpChallenge>, i: nat)
    requires i < |otps|
    requires forall a, b :: 0 <= a < b < |otps| ==> otps[a].otp != otps[b].otp
    ensures var r := RemoveAt(otps, i);
            (forall a, b :: 0 <= a < b < |r| ==> r[a].otp != r[b].otp)
            && FindOtp(r, otps[i].otp).None?
  {
    var r := RemoveAt(otps, i);
    assert forall a :: 0 <= a < |r| ==> r[a] == otps[if a < i then a else a + 1];
  }

  /** A client appended with a fresh id is found by that id. */
  lemma FindClientAppend(clients: seq<Client>, c: Client, id: Uuid)
    requires forall x :: x in clients ==> x.id != c.id
    ensures FindClient(clients + [c], id) == if id == c.id then Some(c) else FindClient(clients, id)
  {
    if clients != [] {
      assert (clients + [c])[1..] == clients[1..] + [c];
      FindClientAppend(clients[1..], c, id);
    }
  }

  /** A token row appended with a fresh hash is the join row for that
      hash. */
  lemma FindTokenRowAppend(tokens: seq<ClientToken>, clients: seq<Client>, t: ClientToken, c: Client)
    requires forall x :: x in tokens ==> x.tokenHash != t.tokenHash
    requires FindClient(clients, t.clientId) == Some(c)
    ensures FindTokenRow(tokens + [t], clients, t.tokenHash) == Some((t, c))
  {
    if tokens != [] {
      assert (tokens + [t])[1..] == tokens[1..] + [t];
      FindTokenRowAppend(tokens[1..], clients, t, c);
    }
  }

  /** A device whose fresh token row and client were appended is admitted
      with that client until the token expires. */
  lemma NewDeviceAdmitted(tokens: seq<ClientToken>, clients: seq<Client>, secret: string, t: ClientToken, c: Client,
                          sha3: string -> string, at: int)
    requires forall x :: x in tokens ==> x.tokenHash != sha3(secret)
    requires forall x :: x in clients ==> x.id != c.id
    requires t.tokenHash == sha3(secret) && t.clientId == c.id && at <= AsUtc(t.expiresAt)
    ensures GetCurrentDevice(secret, tokens + [t], clients + [c], at, sha3) == Admission(Some(c), None)
  {
    FindClientAppend(clients, c, c.id);
    FindTokenRowAppend(tokens, clients + [c], t, c);
  }

  /** Adding a client with a fresh id and name, and a token row for it with
      a fresh id and hash, keeps the constraints. */
  lemma AddDeviceKeepsTables(otps: seq<OtpChallenge>, clients: seq<Client>, tokens: seq<ClientToken>,
                             c: Client, t: ClientToken)
    requires DeviceTables(otps, clients, tokens)
    requires forall x :: x in clients ==> x.id != c.id && x.name != c.name
    requires forall x :: x in tokens ==> x.id != t.id && x.tokenHash != t.tokenHash
    requires t.clientId == c.id
    ensures DeviceTables(otps, clients + [c], tokens + [t])
  {
    var cs := clients + [c];
    var ts := tokens + [t];
    forall x | x in ts
      ensures FindClient(cs, x.clientId).Some?
    {
      FindClientAppend(clients, c, x.clientId);
    }
    forall i, j | 0 <= i < j < |ts|
      ensures ts[i].clientId != ts[j].clientId
    {
      if j == |tokens| {
        assert ts[i] in tokens;
        assert FindClient(clients, ts[i].clientId).Some?;
      }
    }
    forall i, j | 0 <= i < j < |ts|
      ensures ts[i].id != ts[j].id && ts[i].tokenHash != ts[j].tokenHash
    {
      if j == |tokens| {
        assert ts[i] in tokens;
      }
    }
    forall i, j | 0 <= i < j < |cs|
      ensures cs[i].id != cs[j].id && cs[i].name != cs[j].name
    {
      if j == |clients| {
        assert cs[i] in clients;
      }
    }
  }

  /** The executable test for a taken client name. */
  function NameTaken(clients: seq<Client>, name: string): (b: bool)
    ensures b <==> exists c :: c in clients && c.name == name
  {
    if clients == [] then false
    else
      assert clients == [clients[0]] + clients[1..];
      clients[0].name == name || NameTaken(clients[1..], name)
  }

  /** The executable test for a taken token id or hash. */
  function TokenTaken(tokens: seq<ClientToken>, id: Uuid, hash: string): (b: bool)
    ensures b <==> exists t :: t in tokens && (t.id == id || t.tokenHash == hash)
  {
    if tokens == [] then false
    else
      assert tokens == [tokens[0]] + tokens[1..];
      tokens[0].id == id || tokens[0].tokenHash == hash || TokenTaken(tokens[1..], id, hash)
  }

  /** The PIN's row exists and has expired. */
  predicate PinExpired(otps: seq<OtpChallenge>, hash: string, now: int)
  {
    FindOtp(otps, hash).Some? && AsUtc(otps[FindOtp(otps, hash).value].expiresAt) < now
  }

  /** The PIN's row exists and has not expired. */
  predicate PinLive(otps: seq<OtpChallenge>, hash: string, now: int)
  {
    FindOtp(otps, hash).Some? && AsUtc(otps[FindOtp(otps, hash).value].expiresAt) >= now
  }

  /** The new client or its token row would break a unique constraint. */
  predicate DeviceConflict(clients: seq<Client>, tokens: seq<ClientToken>, name: string,
                           clientId: Uuid, tokenId: Uuid, tokenHash: string)
  {
    NameTaken(clients, name) || FindClient(clients, clientId).Some? || TokenTaken(tokens, tokenId, tokenHash)
  }

  /** The device secret is admitted as client `c` at every instant up to
      and including `exp`. */
  ghost predicate AdmittedUntil(secret: string, tokens: seq<ClientToken>, clients: seq<Client>, exp: int,
                                c: Client, sha3: string -> string)
  {
    forall at :: at <= exp ==> GetCurrentDevice(secret, tokens, clients, at, sha3) == Admission(Some(c), None)
  }

  /** A device whose fresh token row and client were appended is admitted
      until its token expires. */
  lemma NewDeviceAdmittedUntil(tokens: seq<ClientToken>, clients: seq<Client>, secret: string, t: ClientToken,
                               c: Client, sha3: string -> string)
    requires forall x :: x in tokens ==> x.tokenHash != sha3(secret)
    requires forall x :: x in clients ==> x.id != c.id
    requires t.tokenHash == sha3(secret) && t.clientId == c.id
    ensures AdmittedUntil(secret, tokens + [t], clients + [c], AsUtc(t.expiresAt), c, sha3)
  {
    forall at | at <= AsUtc(t.expiresAt)
      ensures GetCurrentDevice(secret, tokens + [t], clients + [c], at, sha3) == Admission(Some(c), None)
    {
      NewDeviceAdmitted(tokens, clients, secret, t, c, sha3, at);
    }
  }

  class DeviceDb {
    var otps: seq<OtpChallenge>
    var clients: seq<Client>
    var tokens: seq<ClientToken>

    ghost predicate Valid()
      reads this
    {
      DeviceTables(otps, clients, tokens)
    }

    constructor ()
      ensures Valid()
      ensures otps == [] && clients == [] && tokens == []
    {
      otps := [];
      clients := [];
      tokens := [];
    }

    /** `generate_unique_otp`: up to five attempts; each draws a PIN and
        inserts its hash with an expiry 15 minutes after that attempt's
        clock reading; a hash already stored rolls the attempt back. */
    method GenerateUniqueOtp(attempts: seq<Attempt>, sha3: string -> string)
      returns (r: Result<IssuedOtp, OtpGenerationError>)
      requires Valid()
      requires |attempts| == MaxRetries && forall k :: 0 <= k < |attempts| ==> ValidDraw(attempts[k].draw)
      modifies this
      ensures Valid()
      ensures clients == old(clients) && tokens == old(tokens)
      ensures r.Err? <==> forall k :: 0 <= k < MaxRetries ==> AttemptCollides(old(otps), attempts[k], sha3)
      ensures r.Err? ==> otps == old(otps)
      ensures r.Ok? ==> IsPin(r.value.otp)
      ensures r.Ok? ==> exists k :: 0 <= k < MaxRetries
                          && (forall j :: 0 <= j < k ==> AttemptCollides(old(otps), attempts[j], sha3))
                          && !AttemptCollides(old(otps), attempts[k], sha3)
                          && r.value == IssuedOtp(PinOf(attempts[k].draw), attempts[k].now + OtpValidity)
      ensures r.Ok? ==> otps == old(otps) + [OtpChallenge(sha3(r.value.otp), Aware(r.value.exp))]
    {
      var retry := 0;
      while retry < MaxRetries
        invariant 0 <= retry <= MaxRetries
        invariant otps == old(otps) && clients == old(clients) && tokens == old(tokens)
        invariant forall j :: 0 <= j < retry ==> AttemptCollides(otps, attempts[j], sha3)
      {
        var pin := PinOf(attempts[retry].draw);
        var expiry := attempts[retry].now + OtpValidity;
        var hash := sha3(pin);
        if FindOtp(otps, hash).None? {
          otps := otps + [OtpChallenge(hash, Aware(expiry))];
          return Ok(IssuedOtp(pin, expiry));
        }
        retry := retry + 1;
      }
      return Err(PinSpaceExhausted);
    }

    /** `authenticate_otp`: find the PIN's row; an expired one is deleted
        and refused; otherwise create the client and its token row and
        delete the PIN's row in one commit, or roll everything back on a
        taken name, id or token hash. */
    method AuthenticateOtp(pin: string, name: string, now: int, secret: seq<Byte>,
                           newClientId: Uuid, newTokenId: Uuid, sha3: string -> string)
      returns (r: Result<AuthenticatedDevice, PairingError>)
      requires Valid() && |secret| == SecretBytes
      modifies this
      ensures Valid()
      ensures FindOtp(old(otps), sha3(pin)).None? ==>
                r == Err(InvalidOtp) && otps == old(otps) && clients == old(clients) && tokens == old(tokens)
      ensures PinExpired(old(otps), sha3(pin), now) ==>
                r == Err(InvalidOtp) && otps == RemoveAt(old(otps), FindOtp(old(otps), sha3(pin)).value)
                && clients == old(clients) && tokens == old(tokens)
      ensures PinLive(old(otps), sha3(pin), now)
              && DeviceConflict(old(clients), old(tokens), name, newClientId, newTokenId, sha3(HexString(secret))) ==>
                r == Err(Conflict) && otps == old(otps) && clients == old(clients) && tokens == old(tokens)
      ensures PinLive(old(otps), sha3(pin), now)
              && !DeviceConflict(old(clients), old(tokens), name, newClientId, newTokenId, sha3(HexString(secret))) ==>
                r == Ok(AuthenticatedDevice(HexString(secret), now + TokenValidity))
                && otps == RemoveAt(old(otps), FindOtp(old(otps), sha3(pin)).value)
                && clients == old(clients) + [Client(newClientId, name, true)]
                && tokens == old(tokens) + [ClientToken(newTokenId, newClientId, sha3(HexString(secret)),
                                                        Aware(now + TokenValidity))]
      ensures r.Ok? ==> |r.value.deviceSecret| == 2 * SecretBytes
      ensures r.Ok? ==> FindOtp(otps, sha3(pin)).None?
      ensures r.Ok? ==> AdmittedUntil(r.value.deviceSecret, tokens, clients, r.value.exp,
                                      Client(newClientId, name, true), sha3)
    {
      var otpHash := sha3(pin);
      var found := FindOtp(otps, otpHash);
      if found.None? {
        return Err(InvalidOtp);
      }
      var i := found.value;
      if AsUtc(otps[i].expiresAt) < now {
        RemoveOtpKeepsDistinct(otps, i);
        otps := RemoveAt(otps, i);
        return Err(InvalidOtp);
      }
      var tokenPlain := HexString(secret);
      var tokenHash := sha3(tokenPlain);
      var exp := now + TokenValidity;
      if DeviceConflict(clients, tokens, name, newClientId, newTokenId, tokenHash) {
        return Err(Conflict);
      }
      var client := Client(newClientId, name, true);
      var clientToken := ClientToken(newTokenId, newClientId, tokenHash, Aware(exp));
      AddDeviceKeepsTables(otps, clients, tokens, client, clientToken);
      RemoveOtpKeepsDistinct(otps, i);
      NewDeviceAdmittedUntil(tokens, clients, tokenPlain, clientToken, client, sha3);
      clients := clients + [client];
      tokens := tokens + [clientToken];
      otps := RemoveAt(otps, i);
      return Ok(AuthenticatedDevice(tokenPlain, exp));
    }
  }

  /** A PIN just issued is found by `authenticate_otp`: live up to and
      including its expiry, expired after it. */
  lemma IssuedPinLive(otps: seq<OtpChallenge>, pin: string, exp: int, now: int, sha3: string -> string)
    requires FindOtp(otps, sha3(pin)).None?
    ensures now <= exp ==> PinLive(otps + [OtpChallenge(sha3(pin), Aware(exp))], sha3(pin), now)
    ensures now > exp ==> PinExpired(otps + [OtpChallenge(sha3(pin), Aware(exp))], sha3(pin), now)
  {
  }

  /** A PIN authenticates at most once: after a successful pairing its hash
      is no longer stored, so presenting it again is refused with no
      change. */
  lemma PinSingleUse(otps: seq<OtpChallenge>, pin: string, sha3: string -> string)
    requires FindOtp(otps, sha3(pin)).Some?
    requires forall a, b :: 0 <= a < b < |otps| ==> otps[a].otp != otps[b].otp
    ensures FindOtp(RemoveAt(otps, FindOtp(otps, sha3(pin)).value), sha3(pin)).None?
  {
    RemoveOtpKeepsDistinct(otps, FindOtp(otps, sha3(pin)).value);
  }
}
