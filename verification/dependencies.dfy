/** `get_current_device`: admitting a WebSocket connection by the hash of
    the token in its query string. A refusal closes the socket with the
    policy-violation code and yields no client. */
module Dependencies {
  import opened Common
  import opened AccountModels

  /** WebSocket close code 1008 (policy violation). */
  const PolicyViolation: int := 1008

  /** What the dependency returns and whether it closed the socket. */
  datatype Admission = Admission(client: Option<Client>, closeCode: Option<int>)

  /** The client a token row belongs to. */
  function FindClient(clients: seq<Client>, id: Uuid): (r: Option<Client>)
    ensures r.None? <==> forall c :: c in clients ==> c.id != id
    ensures r.Some? ==> r.value in clients && r.value.id == id
  {
    if clients == [] then None
    else if clients[0].id == id then Some(clients[0])
    else
      assert clients == [clients[0]] + clients[1..];
      FindClient(clients[1..], id)
  }

  /** The first row of the inner join of token rows with the given hash
      and their clients, in token-table order. */
  function FindTokenRow(tokens: seq<ClientToken>, clients: seq<Client>, hash: string): (r: Option<(ClientToken, Client)>)
    ensures r.None? <==> forall t :: t in tokens && t.tokenHash == hash ==> FindClient(clients, t.clientId).None?
    ensures r.Some? ==> r.value.0 in tokens && r.value.0.tokenHash == hash
                        && r.value.1 in clients && r.value.1.id == r.value.0.clientId
  {
    if tokens == [] then None
    else
      assert tokens == [tokens[0]] + tokens[1..];
      if tokens[0].tokenHash == hash && FindClient(clients, tokens[0].clientId).Some? then
        Some((tokens[0], FindClient(clients, tokens[0].clientId).value))
      else FindTokenRow(tokens[1..], clients, hash)
  }

  /** `get_current_device(token)` at time `now`; `sha3` is the hex SHA3-512
      digest. A naive expiry is read as UTC; a token expiring exactly now
      is still admitted. */
  function GetCurrentDevice(token: string, tokens: seq<ClientToken>, clients: seq<Client>,
                            now: int, sha3: string -> string): (r: Admission)
    ensures r.client.Some? <==> r.closeCode.None?
    ensures r.closeCode.Some? ==> r.closeCode.value == PolicyViolation
    ensures r.client.Some? <==> FindTokenRow(tokens, clients, sha3(token)).Some?
                                && AsUtc(FindTokenRow(tokens, clients, sha3(token)).value.0.expiresAt) >= now
    ensures r.client.Some? ==> r.client.value == FindTokenRow(tokens, clients, sha3(token)).value.1
  {
    match FindTokenRow(tokens, clients, sha3(token))
    case None => Admission(None, Some(PolicyViolation))
    case Some((record, client)) =>
      if AsUtc(record.expiresAt) < now then Admission(None, Some(PolicyViolation))
      else Admission(Some(client), None)
  }

  /** When token hashes are unique, a token is admitted exactly when a row
      with its hash, joined to a client, has not expired; that client is
      returned. Neither the client's `is_active` flag nor anything else is
      consulted. */
  lemma AdmittedIff(token: string, tokens: seq<ClientToken>, clients: seq<Client>, now: int,
                    sha3: string -> string, t: ClientToken, c: Client)
    requires forall i, j :: 0 <= i < j < |tokens| ==> tokens[i].tokenHash != tokens[j].tokenHash
    requires forall i, j :: 0 <= i < j < |clients| ==> clients[i].id != clients[j].id
    requires t in tokens && t.tokenHash == sha3(token) && c in clients && c.id == t.clientId
    ensures GetCurrentDevice(token, tokens, clients, now, sha3).client == (if AsUtc(t.expiresAt) >= now then Some(c) else None)
  {
    var row := FindTokenRow(tokens, clients, sha3(token));
    assert row.Some?;
    var (t', c') := row.value;
    var i :| 0 <= i < |tokens| && tokens[i] == t;
    var j :| 0 <= j < |tokens| && tokens[j] == t';
    assert i == j;
    var k :| 0 <= k < |clients| && clients[k] == c;
    var l :| 0 <= l < |clients| && clients[l] == c';
    assert k == l;
  }

  /** The comparison is strict: a token that expires at this very second is
      admitted, one that expired a second ago is not. */
  lemma ExpiryBoundary(token: string, tokens: seq<ClientToken>, clients: seq<Client>, now: int, sha3: string -> string)
    requires FindTokenRow(tokens, clients, sha3(token)).Some?
    ensures AsUtc(FindTokenRow(tokens, clients, sha3(token)).value.0.expiresAt) == now ==>
              GetCurrentDevice(token, tokens, clients, now, sha3).client.Some?
    ensures AsUtc(FindTokenRow(tokens, clients, sha3(token)).value.0.expiresAt) == now - 1 ==>
              GetCurrentDevice(token, tokens, clients, now, sha3) == Admission(None, Some(PolicyViolation))
  {
  }

  /** A naive expiry admits exactly as the same instant in UTC does. */
  lemma NaiveReadAsUtc(token: string, tokens: seq<ClientToken>, clients: seq<Client>, now: int,
                       sha3: string -> string, i: int, seconds: int)
    requires 0 <= i < |tokens| && tokens[i].expiresAt == Naive(seconds)
    ensures GetCurrentDevice(token, tokens, clients, now, sha3)
            == GetCurrentDevice(token, tokens[i := tokens[i].(expiresAt := Aware(seconds))], clients, now, sha3)
  {
    var tokens' := tokens[i := tokens[i].(expiresAt := Aware(seconds))];
    SameRowsUpToExpiry(tokens, tokens', clients, sha3(token), now);
  }

  /** Token tables that differ only in how expiries are written (same UTC
      instant) give the same join row, up to that field. */
  lemma {:induction false} SameRowsUpToExpiry(tokens: seq<ClientToken>, tokens': seq<ClientToken>,
                                             clients: seq<Client>, hash: string, now: int)
    requires |tokens| == |tokens'|
    requires forall k :: 0 <= k < |tokens| ==>
               tokens'[k] == tokens[k].(expiresAt := tokens'[k].expiresAt)
               && AsUtc(tokens'[k].expiresAt) == AsUtc(tokens[k].expiresAt)
    ensures FindTokenRow(tokens, clients, hash).Some? == FindTokenRow(tokens', clients, hash).Some?
    ensures FindTokenRow(tokens, clients, hash).Some? ==>
              FindTokenRow(tokens, clients, hash).value.1 == FindTokenRow(tokens', clients, hash).value.1
              && AsUtc(FindTokenRow(tokens, clients, hash).value.0.expiresAt)
                 == AsUtc(FindTokenRow(tokens', clients, hash).value.0.expiresAt)
    decreases |tokens|
  {
    if tokens != [] {
      SameRowsUpToExpiry(tokens[1..], tokens'[1..], clients, hash, now);
    }
  }
}
