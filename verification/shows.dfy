/** `ShowService`: listing show files a page at a time and reading a show's
    patch. The database's `ORDER BY ... DESC` is a descending insertion sort
    on the primary key; the rest is arithmetic and filtering. */
module ShowService {
  import opened Common
  import opened FixtureModels
  import FixtureService

  /** The hard cap on a page, whatever the request asks for. */
  const MaxPageSize: int := 512

  /** A row of `shows`. */
  datatype Show = Show(id: Uuid, name: string, createdBy: Option<Uuid>)

  /** The listing request: `limit` in 1..512 and `page` from 1, as the
      request schema enforces. */
  datatype GetShowfiles = GetShowfiles(user: string, limit: int, page: int)

  /** The patch request: the show's id and the user's id, as text. */
  datatype GetShowfile = GetShowfile(id: string, user: string)

  /** `uuid.UUID(...)` raised `ValueError`. */
  datatype PatchingError = MalformedUuid

  predicate ValidListing(req: GetShowfiles)
  {
    0 < req.limit <= MaxPageSize && req.page > 0
  }

  // ---------------------------------------------------------------------
  // Descending order on a key

  predicate DescendingBy<T>(s: seq<T>, key: T -> int)
  {
    forall i, j :: 0 <= i < j < |s| ==> key(s[i]) >= key(s[j])
  }

  predicate StrictlyDescendingBy<T>(s: seq<T>, key: T -> int)
  {
    forall i, j :: 0 <= i < j < |s| ==> key(s[i]) > key(s[j])
  }

  /** No two rows share a key: the key is the primary key. */
  predicate DistinctKeys<T>(s: seq<T>, key: T -> int)
  {
    forall i, j :: 0 <= i < j < |s| ==> key(s[i]) != key(s[j])
  }

  /** `x` placed before the first row whose key is not above its own. */
  function InsertDesc<T(!new)>(x: T, s: seq<T>, key: T -> int): (r: seq<T>)
    requires DescendingBy(s, key)
    ensures |r| == |s| + 1
    ensures multiset(r) == multiset(s) + multiset{x}
    ensures DescendingBy(r, key)
  {
    if s == [] then [x]
    else if key(x) >= key(s[0]) then [x] + s
    else
      var rest := InsertDesc(x, s[1..], key);
      assert s == [s[0]] + s[1..];
      HeadAboveInsert(x, s, key, rest);
      [s[0]] + rest
  }

  /** When `x` goes after the head, the head stays above everything the
      rest of the insertion holds. */
  lemma HeadAboveInsert<T>(x: T, s: seq<T>, key: T -> int, rest: seq<T>)
    requires s != [] && DescendingBy(s, key) && key(x) < key(s[0])
    requires multiset(rest) == multiset(s[1..]) + multiset{x}
    requires DescendingBy(rest, key)
    ensures DescendingBy([s[0]] + rest, key)
  {
    forall e | e in rest
      ensures key(s[0]) >= key(e)
    {
      assert e in multiset(rest);
      if e != x {
        assert e in multiset(s[1..]);
      }
    }
  }

  /** The rows ordered by descending key: a permutation. */
  function SortDesc<T(!new)>(s: seq<T>, key: T -> int): (r: seq<T>)
    ensures |r| == |s|
    ensures multiset(r) == multiset(s)
    ensures DescendingBy(r, key)
  {
    if s == [] then []
    else
      assert s == [s[0]] + s[1..];
      InsertDesc(s[0], SortDesc(s[1..], key), key)
  }

  /** Inserting a row whose key is new keeps the order strict. */
  lemma {:induction false} InsertDescStrict<T(!new)>(x: T, s: seq<T>, key: T -> int)
    requires StrictlyDescendingBy(s, key)
    requires forall e | e in s :: key(e) != key(x)
    ensures StrictlyDescendingBy(InsertDesc(x, s, key), key)
  {
    if s != [] && key(x) < key(s[0]) {
      assert s == [s[0]] + s[1..];
      InsertDescStrict(x, s[1..], key);
      HeadStrictlyAbove(x, s, key, InsertDesc(x, s[1..], key));
    }
  }

  /** The strict counterpart of `HeadAboveInsert`. */
  lemma HeadStrictlyAbove<T>(x: T, s: seq<T>, key: T -> int, rest: seq<T>)
    requires s != [] && StrictlyDescendingBy(s, key) && key(x) < key(s[0])
    requires multiset(rest) == multiset(s[1..]) + multiset{x}
    requires StrictlyDescendingBy(rest, key)
    ensures StrictlyDescendingBy([s[0]] + rest, key)
  {
    forall e | e in rest
      ensures key(s[0]) > key(e)
    {
      assert e in multiset(rest);
      if e != x {
        assert e in multiset(s[1..]);
      }
    }
  }

  /** With distinct keys the sorted rows are strictly descending. */
  lemma {:induction false} SortDescStrict<T(!new)>(s: seq<T>, key: T -> int)
    requires DistinctKeys(s, key)
    ensures StrictlyDescendingBy(SortDesc(s, key), key)
  {
    if s != [] {
      assert s == [s[0]] + s[1..];
      SortDescStrict(s[1..], key);
      var sorted := SortDesc(s[1..], key);
      forall e | e in sorted
        ensures key(e) != key(s[0])
      {
        assert e in multiset(sorted);
        var k :| 1 <= k < |s| && s[k] == e;
      }
      InsertDescStrict(s[0], sorted, key);
    }
  }

  /** In a strictly descending sequence, different positions hold
      different rows. */
  lemma StrictPositionsDiffer<T>(s: seq<T>, key: T -> int, i: int, j: int)
    requires StrictlyDescendingBy(s, key)
    requires 0 <= i < |s| && 0 <= j < |s| && i != j
    ensures s[i] != s[j]
  {
  }

  // ---------------------------------------------------------------------
  // get_showfiles

  function ShowId(sh: Show): int
  {
    sh.id
  }

  /** `min(limit, 512)`. */
  function EffectiveLimit(limit: int): (n: int)
    ensures n <= MaxPageSize && n <= limit
    ensures n == limit || n == MaxPageSize
  {
    if limit < MaxPageSize then limit else MaxPageSize
  }

  /** `(page - 1) * effective_limit`, as repeated addition. */
  function PageOffset(page: int, limit: int): (o: nat)
    requires page > 0 && limit > 0
    decreases page
  {
    if page == 1 then 0 else PageOffset(page - 1, limit) + limit
  }

  /** The offset skips exactly the `page - 1` earlier pages. */
  lemma {:induction false} PageOffsetIsProduct(page: int, limit: int)
    requires page > 0 && limit > 0
    ensures PageOffset(page, limit) == (page - 1) * limit
    decreases page
  {
    if page > 1 {
      PageOffsetIsProduct(page - 1, limit);
      assert (page - 1) * limit == (page - 2) * limit + limit;
    }
  }

  /** Position `idx` lies on page `idx / limit + 1`. */
  lemma PageOfPosition(idx: nat, limit: int)
    requires limit > 0
    ensures PageOffset(idx / limit + 1, limit) <= idx < PageOffset(idx / limit + 1, limit) + limit
  {
    PageOffsetIsProduct(idx / limit + 1, limit);
    var q, m := idx / limit, idx % limit;
    assert idx == q * limit + m && 0 <= m < limit;
  }

  /** Up to `count` rows of `s` starting at `lo`: SQL's `OFFSET lo LIMIT
      count`. */
  function Window<T>(s: seq<T>, lo: nat, count: nat): (r: seq<T>)
    ensures |r| == if lo >= |s| then 0 else if |s| - lo < count then |s| - lo else count
    ensures lo + |r| <= |s| ==> r == s[lo..lo + |r|]
    ensures lo + |r| > |s| ==> r == []
  {
    if lo >= |s| then []
    else if |s| - lo < count then s[lo..]
    else s[lo..lo + count]
  }

  /** `get_showfiles`: from the shows in descending id order, skip
      `offset` and take up to one more than the effective limit. */
  function GetShowfilesPage(shows: seq<Show>, req: GetShowfiles): (r: seq<Show>)
    requires ValidListing(req)
    ensures |r| <= EffectiveLimit(req.limit) + 1
  {
    Window(SortDesc(shows, ShowId), PageOffset(req.page, EffectiveLimit(req.limit)), EffectiveLimit(req.limit) + 1)
  }

  /** A window of a descending sequence is descending. */
  lemma WindowDescending<T>(s: seq<T>, key: T -> int, lo: nat, count: nat)
    requires DescendingBy(s, key)
    ensures DescendingBy(Window(s, lo, count), key)
  {
    var r := Window(s, lo, count);
    forall i, j | 0 <= i < j < |r|
      ensures key(r[i]) >= key(r[j])
    {
      assert r[i] == s[lo + i] && r[j] == s[lo + j];
    }
  }

  /** A window takes nothing the sequence does not hold. */
  lemma WindowWithin<T>(s: seq<T>, lo: nat, count: nat)
    ensures multiset(Window(s, lo, count)) <= multiset(s)
  {
    var r := Window(s, lo, count);
    if lo < |s| {
      assert s == s[..lo] + r + s[lo + |r|..];
    }
  }

  /** A page holds shows of the table, each at most as often as the table
      does, in descending id order. */
  lemma ShowfilesFromTable(shows: seq<Show>, req: GetShowfiles)
    requires ValidListing(req)
    ensures multiset(GetShowfilesPage(shows, req)) <= multiset(shows)
    ensures DescendingBy(GetShowfilesPage(shows, req), ShowId)
  {
    var n := EffectiveLimit(req.limit);
    WindowDescending(SortDesc(shows, ShowId), ShowId, PageOffset(req.page, n), n + 1);
    WindowWithin(SortDesc(shows, ShowId), PageOffset(req.page, n), n + 1);
  }

  /** The page is the window of the sorted shows that starts at the
      offset: its size is what is left there, capped at one more than the
      effective limit. */
  lemma ShowfilesWindow(shows: seq<Show>, req: GetShowfiles)
    requires ValidListing(req)
    ensures var off := PageOffset(req.page, EffectiveLimit(req.limit));
            var r := GetShowfilesPage(shows, req);
            |r| == if off >= |shows| then 0
                   else if |shows| - off < EffectiveLimit(req.limit) + 1 then |shows| - off
                   else EffectiveLimit(req.limit) + 1
    ensures var off := PageOffset(req.page, EffectiveLimit(req.limit));
            var r := GetShowfilesPage(shows, req);
            off + |r| <= |shows| ==> r == SortDesc(shows, ShowId)[off..off + |r|]
  {
  }

  /** Ids are a primary key, so a page is in strictly descending id
      order. */
  lemma ShowfilesStrictlyDescending(shows: seq<Show>, req: GetShowfiles)
    requires ValidListing(req)
    requires DistinctKeys(shows, ShowId)
    ensures StrictlyDescendingBy(GetShowfilesPage(shows, req), ShowId)
  {
    SortDescStrict(shows, ShowId);
    ShowfilesWindow(shows, req);
  }

  /** `q` continues `p`: the last row of the full page `p` is the first
      of `q`, and no other row is on both. */
  predicate ShareExactlyOne<T(==)>(p: seq<T>, q: seq<T>)
  {
    |p| >= 1 && |q| >= 1 && p[|p| - 1] == q[0]
    && (forall k :: 0 <= k < |p| - 1 ==> p[k] !in q)
    && (forall k :: 1 <= k < |q| ==> q[k] !in p)
  }

  /** Two windows of a strictly descending sequence that overlap in one
      position share exactly the row at that position. */
  lemma WindowsShareOne<T>(s: seq<T>, key: T -> int, off: nat, n: nat, hi: nat)
    requires StrictlyDescendingBy(s, key)
    requires off + n < hi <= |s|
    ensures ShareExactlyOne(s[off..off + n + 1], s[off + n..hi])
  {
  }

  /** A full window and the one starting at its last position share
      exactly that position's row. */
  lemma FullWindowThenNext<T>(s: seq<T>, key: T -> int, off: nat, n: nat)
    requires StrictlyDescendingBy(s, key)
    requires |Window(s, off, n + 1)| == n + 1
    ensures ShareExactlyOne(Window(s, off, n + 1), Window(s, off + n, n + 1))
  {
    var q := Window(s, off + n, n + 1);
    assert Window(s, off, n + 1) == s[off..off + n + 1];
    assert 1 <= |q| && q == s[off + n..off + n + |q|];
    WindowsShareOne(s, key, off, n, off + n + |q|);
  }

  /** Because a page fetches one row beyond the limit, a full page and the
      next one share exactly one show: the last of the first is the first
      of the next, and no other show is on both. */
  lemma ConsecutivePagesShareOne(shows: seq<Show>, req: GetShowfiles)
    requires ValidListing(req)
    requires DistinctKeys(shows, ShowId)
    requires |GetShowfilesPage(shows, req)| == EffectiveLimit(req.limit) + 1
    ensures ShareExactlyOne(GetShowfilesPage(shows, req), GetShowfilesPage(shows, req.(page := req.page + 1)))
  {
    var n := EffectiveLimit(req.limit);
    assert PageOffset(req.page + 1, n) == PageOffset(req.page, n) + n;
    SortDescStrict(shows, ShowId);
    FullWindowThenNext(SortDesc(shows, ShowId), ShowId, PageOffset(req.page, n), n);
  }

  /** The show at sorted position `idx` is on the page whose window covers
      that position. */
  lemma PositionOnPage(shows: seq<Show>, limit: int, page: int, idx: nat)
    requires 0 < limit <= MaxPageSize && page > 0
    requires idx < |shows|
    requires PageOffset(page, EffectiveLimit(limit)) <= idx < PageOffset(page, EffectiveLimit(limit)) + EffectiveLimit(limit)
    ensures SortDesc(shows, ShowId)[idx] in GetShowfilesPage(shows, GetShowfiles("", limit, page))
  {
    var off := PageOffset(page, EffectiveLimit(limit));
    var r := GetShowfilesPage(shows, GetShowfiles("", limit, page));
    ShowfilesWindow(shows, GetShowfiles("", limit, page));
    assert r[idx - off] == SortDesc(shows, ShowId)[idx];
  }

  /** Sorting keeps every show, at some position. */
  lemma SortedPosition(shows: seq<Show>, sh: Show) returns (idx: nat)
    requires sh in shows
    ensures idx < |shows| && SortDesc(shows, ShowId)[idx] == sh
  {
    var sorted := SortDesc(shows, ShowId);
    assert sh in multiset(sorted);
    idx :| idx < |sorted| && sorted[idx] == sh;
  }

  /** Paging never loses a show: every show is on the page its position in
      the descending order falls in. */
  lemma EveryShowOnSomePage(shows: seq<Show>, limit: int, sh: Show) returns (page: int)
    requires 0 < limit <= MaxPageSize
    requires sh in shows
    ensures page > 0 && sh in GetShowfilesPage(shows, GetShowfiles("", limit, page))
  {
    var n := EffectiveLimit(limit);
    var idx := SortedPosition(shows, sh);
    page := idx / n + 1;
    PageOfPosition(idx, n);
    PositionOnPage(shows, limit, page, idx);
  }

  /** The requesting user plays no part in the listing. */
  lemma ShowfilesIgnoreUser(shows: seq<Show>, req: GetShowfiles, user: string)
    requires ValidListing(req)
    ensures GetShowfilesPage(shows, req) == GetShowfilesPage(shows, req.(user := user))
  {
  }

  // ---------------------------------------------------------------------
  // get_patching

  function FixtureId(f: Fixture): int
  {
    f.id
  }

  /** Some show with this id was created by this user. */
  function OwnedBy(shows: seq<Show>, showId: Uuid, userId: Uuid): (b: bool)
    ensures b <==> exists sh :: sh in shows && sh.id == showId && sh.createdBy == Some(userId)
  {
    if shows == [] then false
    else
      assert shows == [shows[0]] + shows[1..];
      (shows[0].id == showId && shows[0].createdBy == Some(userId)) || OwnedBy(shows[1..], showId, userId)
  }

  /** The inner join of fixtures with their show, restricted to the show
      and its creator, in table order. */
  function PatchOf(fixtures: seq<Fixture>, shows: seq<Show>, showId: Uuid, userId: Uuid): (r: seq<Fixture>)
    ensures forall f :: f in r <==> f in fixtures && f.showId == showId && OwnedBy(shows, showId, userId)
    ensures multiset(r) <= multiset(fixtures)
  {
    if fixtures == [] then []
    else
      var last := fixtures[|fixtures| - 1];
      var init := PatchOf(fixtures[..|fixtures| - 1], shows, showId, userId);
      assert fixtures == fixtures[..|fixtures| - 1] + [last];
      if last.showId == showId && OwnedBy(shows, showId, userId) then init + [last] else init
  }

  /** `get_patching`: both ids must parse; the show's fixtures are
      returned only to the show's creator, newest id first. */
  function GetPatching(req: GetShowfile, parseUuid: string -> Option<Uuid>,
                       fixtures: seq<Fixture>, shows: seq<Show>): (r: Result<seq<Fixture>, PatchingError>)
    ensures r.Err? <==> parseUuid(req.id).None? || parseUuid(req.user).None?
    ensures r.Ok? ==> forall f :: f in r.value <==>
                        f in fixtures && f.showId == parseUuid(req.id).value
                        && OwnedBy(shows, parseUuid(req.id).value, parseUuid(req.user).value)
    ensures r.Ok? ==> multiset(r.value) <= multiset(fixtures)
    ensures r.Ok? ==> DescendingBy(r.value, FixtureId)
  {
    match (parseUuid(req.id), parseUuid(req.user))
    case (Some(showId), Some(userId)) =>
      var patch := PatchOf(fixtures, shows, showId, userId);
      var sorted := SortDesc(patch, FixtureId);
      assert forall f :: f in sorted <==> f in multiset(patch);
      Ok(sorted)
    case _ => Err(MalformedUuid)
  }

  /** A user who did not create the show gets an empty patch, never
      another user's fixtures. */
  lemma PatchingHiddenFromOthers(req: GetShowfile, parseUuid: string -> Option<Uuid>,
                                 fixtures: seq<Fixture>, shows: seq<Show>)
    requires parseUuid(req.id).Some? && parseUuid(req.user).Some?
    requires forall sh :: sh in shows && sh.id == parseUuid(req.id).value ==> sh.createdBy != Some(parseUuid(req.user).value)
    ensures GetPatching(req, parseUuid, fixtures, shows) == Ok([])
  {
    PatchOfUnowned(fixtures, shows, parseUuid(req.id).value, parseUuid(req.user).value);
  }

  /** Nothing passes the owner condition of the join. */
  lemma {:induction false} PatchOfUnowned(fixtures: seq<Fixture>, shows: seq<Show>, showId: Uuid, userId: Uuid)
    requires forall sh :: sh in shows && sh.id == showId ==> sh.createdBy != Some(userId)
    ensures PatchOf(fixtures, shows, showId, userId) == []
  {
    if fixtures != [] {
      PatchOfUnowned(fixtures[..|fixtures| - 1], shows, showId, userId);
    }
  }

  /** Fixture ids are a primary key, so the patch is in strictly
      descending id order. */
  lemma PatchingStrictlyDescending(req: GetShowfile, parseUuid: string -> Option<Uuid>,
                                   fixtures: seq<Fixture>, shows: seq<Show>)
    requires DistinctKeys(fixtures, FixtureId)
    requires GetPatching(req, parseUuid, fixtures, shows).Ok?
    ensures StrictlyDescendingBy(GetPatching(req, parseUuid, fixtures, shows).value, FixtureId)
  {
    var patch := PatchOf(fixtures, shows, parseUuid(req.id).value, parseUuid(req.user).value);
    SubsequenceDistinct(fixtures, parseUuid(req.id).value, parseUuid(req.user).value, shows);
    SortDescStrict(patch, FixtureId);
  }

  /** The fixture table of a session that keeps its constraints has
      distinct ids, so every patching read from it is strictly descending. */
  lemma PatchedTableStrictlyDescending(req: GetShowfile, parseUuid: string -> Option<Uuid>,
                                       fixtures: seq<Fixture>, shows: seq<Show>,
                                       showIds: set<Uuid>, manufacturers: set<Uuid>,
                                       types: seq<FixtureType>, channels: seq<FixtureChannel>)
    requires FixtureService.Tables(showIds, manufacturers, types, channels, fixtures)
    requires GetPatching(req, parseUuid, fixtures, shows).Ok?
    ensures StrictlyDescendingBy(GetPatching(req, parseUuid, fixtures, shows).value, FixtureId)
  {
    PatchingStrictlyDescending(req, parseUuid, fixtures, shows);
  }

  /** The filtered rows keep the primary key distinct. */
  lemma {:induction false} SubsequenceDistinct(fixtures: seq<Fixture>, showId: Uuid, userId: Uuid, shows: seq<Show>)
    requires DistinctKeys(fixtures, FixtureId)
    ensures DistinctKeys(PatchOf(fixtures, shows, showId, userId), FixtureId)
  {
    if fixtures != [] {
      var init := fixtures[..|fixtures| - 1];
      var last := fixtures[|fixtures| - 1];
      SubsequenceDistinct(init, showId, userId, shows);
      var p := PatchOf(init, shows, showId, userId);
      forall e | e in p
        ensures e.id != last.id
      {
        var k :| 0 <= k < |init| && init[k] == e;
      }
    }
  }
}
