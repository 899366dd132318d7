/**
 * The in-memory list and counter logic of the user record: the calendar
 * connection upsert, the login counter, and the derived fields `fullName`
 * and `activeCalendarConnections`. Persisting the record (`save()`) is not
 * part of this model.
 */
module UserModel {
  import opened Wrappers

  /** The tokens handed to `addCalendarConnection`. */
  datatype Tokens = Tokens(accessToken: string, refreshToken: string, expiresAt: int)

  /** One element of `connectedCalendars`. */
  datatype CalendarConnection = CalendarConnection(
    provider: string,
    accountId: string,
    accessToken: string,
    refreshToken: string,
    expiresAt: int,
    isActive: bool,
    connectedAt: int)

  /** A connection is identified by its provider together with its account id. */
  predicate HasKey(c: CalendarConnection, provider: string, accountId: string)
  {
    c.provider == provider && c.accountId == accountId
  }

  /** No two entries share a (provider, accountId) key. */
  predicate UniqueKeys(cals: seq<CalendarConnection>)
  {
    forall i, j :: 0 <= i < j < |cals| ==> !HasKey(cals[j], cals[i].provider, cals[i].accountId)
  }

  // ---------------------------------------------------------------------------
  // addCalendarConnection
  // ---------------------------------------------------------------------------

  /** `connectedCalendars.find(...)`: the position of the first entry with the key. */
  function FindConnection(cals: seq<CalendarConnection>, provider: string, accountId: string): (r: Option<nat>)
    ensures r.None? <==> forall c :: c in cals ==> !HasKey(c, provider, accountId)
    ensures r.Some? ==> r.value < |cals| && HasKey(cals[r.value], provider, accountId)
                        && forall k :: 0 <= k < r.value ==> !HasKey(cals[k], provider, accountId)
  {
    if cals == [] then None
    else if HasKey(cals[0], provider, accountId) then Some(0)
    else
      match FindConnection(cals[1..], provider, accountId)
      case None => None
      case Some(i) =>
        assert forall k :: 1 <= k <= i ==> cals[k] == cals[1..][k - 1];
        Some(i + 1)
  }

  /** An existing connection with fresh tokens, switched back on. */
  function Refreshed(c: CalendarConnection, tokens: Tokens): (r: CalendarConnection)
    ensures HasKey(r, c.provider, c.accountId) && r.connectedAt == c.connectedAt && r.isActive
    ensures r.accessToken == tokens.accessToken && r.refreshToken == tokens.refreshToken
            && r.expiresAt == tokens.expiresAt
  {
    c.(accessToken := tokens.accessToken, refreshToken := tokens.refreshToken,
       expiresAt := tokens.expiresAt, isActive := true)
  }

  /** A new active connection, connected at `now`. */
  function NewConnection(provider: string, accountId: string, tokens: Tokens, now: int): (r: CalendarConnection)
    ensures HasKey(r, provider, accountId) && r.connectedAt == now && r.isActive
    ensures r.accessToken == tokens.accessToken && r.refreshToken == tokens.refreshToken
            && r.expiresAt == tokens.expiresAt
  {
    CalendarConnection(provider, accountId, tokens.accessToken, tokens.refreshToken, tokens.expiresAt, true, now)
  }

  /** The connection list after `addCalendarConnection(provider, accountId, tokens)` at time `now`. */
  function AddConnection(cals: seq<CalendarConnection>, provider: string, accountId: string, tokens: Tokens, now: int)
    : (r: seq<CalendarConnection>)
    ensures |r| == |cals| <==> FindConnection(cals, provider, accountId).Some?
    ensures |r| == |cals| || |r| == |cals| + 1
    ensures r[..|cals|] == cals || |r| == |cals|
  {
    match FindConnection(cals, provider, accountId)
    case Some(i) => cals[i := Refreshed(cals[i], tokens)]
    case None => cals + [NewConnection(provider, accountId, tokens, now)]
  }

  /** Existing key: the first entry with that key gets the new tokens and is
      active again; its key and connection time, the length of the list and
      every other entry stay as they were. */
  lemma AddConnectionExisting(cals: seq<CalendarConnection>, provider: string, accountId: string, tokens: Tokens, now: int, i: nat)
    requires i < |cals| && HasKey(cals[i], provider, accountId)
    requires forall k :: 0 <= k < i ==> !HasKey(cals[k], provider, accountId)
    ensures var r := AddConnection(cals, provider, accountId, tokens, now);
            && |r| == |cals|
            && r[i].provider == provider && r[i].accountId == accountId
            && r[i].accessToken == tokens.accessToken && r[i].refreshToken == tokens.refreshToken
            && r[i].expiresAt == tokens.expiresAt && r[i].isActive
            && r[i].connectedAt == cals[i].connectedAt
            && forall k :: 0 <= k < |cals| && k != i ==> r[k] == cals[k]
  {
    var f := FindConnection(cals, provider, accountId);
    assert f == Some(i);
  }

  /** New key: exactly one active entry is appended, and the entries before it are untouched. */
  lemma AddConnectionNew(cals: seq<CalendarConnection>, provider: string, accountId: string, tokens: Tokens, now: int)
    requires forall c :: c in cals ==> !HasKey(c, provider, accountId)
    ensures var r := AddConnection(cals, provider, accountId, tokens, now);
            && |r| == |cals| + 1
            && r[..|cals|] == cals
            && r[|cals|] == CalendarConnection(provider, accountId, tokens.accessToken, tokens.refreshToken,
                                               tokens.expiresAt, true, now)
  {
  }

  /** Whichever case applies, afterwards an active entry with the key exists. */
  lemma AddConnectionLeavesActiveEntry(cals: seq<CalendarConnection>, provider: string, accountId: string, tokens: Tokens, now: int)
    ensures var r := AddConnection(cals, provider, accountId, tokens, now);
            exists k :: 0 <= k < |r| && HasKey(r[k], provider, accountId) && r[k].isActive
  {
    var r := AddConnection(cals, provider, accountId, tokens, now);
    match FindConnection(cals, provider, accountId)
    case Some(i) =>
      assert HasKey(r[i], provider, accountId) && r[i].isActive;
    case None =>
      assert HasKey(r[|cals|], provider, accountId) && r[|cals|].isActive;
  }

  /** The upsert never introduces a second entry for a key. */
  lemma AddConnectionKeepsKeysUnique(cals: seq<CalendarConnection>, provider: string, accountId: string, tokens: Tokens, now: int)
    requires UniqueKeys(cals)
    ensures UniqueKeys(AddConnection(cals, provider, accountId, tokens, now))
  {
    var r := AddConnection(cals, provider, accountId, tokens, now);
    match FindConnection(cals, provider, accountId)
    case Some(i) =>
      forall a, b | 0 <= a < b < |r| ensures !HasKey(r[b], r[a].provider, r[a].accountId) {
        assert HasKey(r[a], cals[a].provider, cals[a].accountId);
        assert HasKey(r[b], cals[b].provider, cals[b].accountId);
      }
    case None =>
      forall a, b | 0 <= a < b < |r| ensures !HasKey(r[b], r[a].provider, r[a].accountId) {
        if b == |cals| {
          assert r[a] == cals[a] && cals[a] in cals;
        }
      }
  }

  /** Connecting the same account twice leaves one entry, holding the second
      call's tokens and the first call's connection time. */
  lemma AddConnectionTwice(cals: seq<CalendarConnection>, provider: string, accountId: string,
                           t1: Tokens, now1: int, t2: Tokens, now2: int)
    ensures AddConnection(AddConnection(cals, provider, accountId, t1, now1), provider, accountId, t2, now2)
         == AddConnection(cals, provider, accountId, t2, now1)
  {
    var once := AddConnection(cals, provider, accountId, t1, now1);
    match FindConnection(cals, provider, accountId)
    case Some(i) =>
      assert once == cals[i := Refreshed(cals[i], t1)];
      assert FindConnection(once, provider, accountId) == Some(i) by {
        assert forall k :: 0 <= k < i ==> once[k] == cals[k];
        assert HasKey(once[i], provider, accountId);
      }
      assert Refreshed(once[i], t2) == Refreshed(cals[i], t2);
    case None =>
      var c1 := NewConnection(provider, accountId, t1, now1);
      assert once == cals + [c1];
      assert FindConnection(once, provider, accountId) == Some(|cals|) by {
        assert forall k :: 0 <= k < |cals| ==> once[k] == cals[k] && cals[k] in cals;
        assert HasKey(once[|cals|], provider, accountId);
      }
      assert Refreshed(c1, t2) == NewConnection(provider, accountId, t2, now1);
      assert once[|cals| := Refreshed(c1, t2)] == cals + [NewConnection(provider, accountId, t2, now1)];
  }

  // ---------------------------------------------------------------------------
  // activeCalendarConnections
  // ---------------------------------------------------------------------------

  /** The number of active entries. */
  function CountActive(cals: seq<CalendarConnection>): (n: nat)
    ensures n <= |cals|
    ensures n == |cals| <==> forall c :: c in cals ==> c.isActive
    ensures n == 0 <==> forall c :: c in cals ==> !c.isActive
  {
    if cals == [] then 0
    else
      assert forall c :: c in cals <==> c == cals[0] || c in cals[1..];
      (if cals[0].isActive then 1 else 0) + CountActive(cals[1..])
  }

  /** The `isActive` flags of the entries, in order. */
  function ActiveFlags(cals: seq<CalendarConnection>): (flags: seq<bool>)
  {
    seq(|cals|, i requires 0 <= i < |cals| => cals[i].isActive)
  }

  /** The count is the number of entries whose `isActive` flag is true. */
  lemma {:induction false} CountActiveIsActiveFlags(cals: seq<CalendarConnection>)
    ensures CountActive(cals) == multiset(ActiveFlags(cals))[true]
  {
    if cals != [] {
      CountActiveIsActiveFlags(cals[1..]);
      assert ActiveFlags(cals) == [cals[0].isActive] + ActiveFlags(cals[1..]);
    }
  }

  /** The virtual `activeCalendarConnections`: the number of active entries, 0
      when the list is absent. */
  function ActiveCalendarConnections(cals: Option<seq<CalendarConnection>>): (n: nat)
    ensures cals.None? ==> n == 0
    ensures cals.Some? ==> n <= |cals.value| && n == multiset(ActiveFlags(cals.value))[true]
  {
    match cals
    case None => 0
    case Some(list) =>
      CountActiveIsActiveFlags(list);
      CountActive(list)
  }

  /** Replacing one entry changes the count only by that entry's activity. */
  lemma {:induction false} CountActiveUpdate(cals: seq<CalendarConnection>, i: nat, c: CalendarConnection)
    requires i < |cals|
    ensures CountActive(cals[i := c]) + (if cals[i].isActive then 1 else 0)
         == CountActive(cals) + (if c.isActive then 1 else 0)
  {
    var u := cals[i := c];
    if i > 0 {
      assert u[0] == cals[0];
      assert u[1..] == cals[1..][i - 1 := c];
      CountActiveUpdate(cals[1..], i - 1, c);
    } else {
      assert u[0] == c;
      assert u[1..] == cals[1..];
    }
  }

  lemma {:induction false} CountActiveAppend(cals: seq<CalendarConnection>, c: CalendarConnection)
    ensures CountActive(cals + [c]) == CountActive(cals) + (if c.isActive then 1 else 0)
  {
    if cals != [] {
      assert (cals + [c])[1..] == cals[1..] + [c];
      CountActiveAppend(cals[1..], c);
    }
  }

  /** `addCalendarConnection` raises the active count by one, unless it refreshed
      an entry that was already active, in which case the count is unchanged. */
  lemma AddConnectionActiveCount(cals: seq<CalendarConnection>, provider: string, accountId: string, tokens: Tokens, now: int)
    ensures var f := FindConnection(cals, provider, accountId);
            CountActive(AddConnection(cals, provider, accountId, tokens, now))
            == CountActive(cals) + (if f.Some? && cals[f.value].isActive then 0 else 1)
  {
    match FindConnection(cals, provider, accountId)
    case Some(i) =>
      CountActiveUpdate(cals, i, Refreshed(cals[i], tokens));
    case None =>
      CountActiveAppend(cals, NewConnection(provider, accountId, tokens, now));
  }

  // ---------------------------------------------------------------------------
  // fullName
  // ---------------------------------------------------------------------------

  /** The characters `String.prototype.trim` removes: ECMAScript WhiteSpace and LineTerminator. */
  predicate IsJsWhitespace(c: char)
    ensures IsJsWhitespace(c) ==> !('0' <= c <= '9' || 'A' <= c <= 'Z' || 'a' <= c <= 'z')
  {
    c == '\t' || c == '\n' || c == '\U{000B}' || c == '\U{000C}' || c == '\r' || c == ' '
    || c == '\U{00A0}' || c == '\U{1680}' || ('\U{2000}' <= c <= '\U{200A}')
    || c == '\U{2028}' || c == '\U{2029}' || c == '\U{202F}' || c == '\U{205F}'
    || c == '\U{3000}' || c == '\U{FEFF}'
  }

  /** Every character of `s` is whitespace. */
  predicate AllWhitespace(s: string)
  {
    forall k :: 0 <= k < |s| ==> IsJsWhitespace(s[k])
  }

  /** Drops leading whitespace. */
  function TrimStart(s: string): (r: string)
    ensures r == [] || !IsJsWhitespace(r[0])
    ensures |r| <= |s| && r == s[|s| - |r|..] && AllWhitespace(s[..|s| - |r|])
  {
    if s != [] && IsJsWhitespace(s[0]) then
      var r := TrimStart(s[1..]);
      assert s[|s| - |r|..] == s[1..][|s| - 1 - |r|..];
      assert forall k :: 1 <= k < |s| - |r| ==> s[k] == s[1..][k - 1];
      r
    else s
  }

  /** Drops trailing whitespace. */
  function TrimEnd(s: string): (r: string)
    ensures r == [] || !IsJsWhitespace(r[|r| - 1])
    ensures |r| <= |s| && r == s[..|r|] && AllWhitespace(s[|r|..])
  {
    if s != [] && IsJsWhitespace(s[|s| - 1]) then
      var r := TrimEnd(s[..|s| - 1]);
      assert s[..|r|] == s[..|s| - 1][..|r|];
      r
    else s
  }

  /** `String.prototype.trim`: `s` without its leading and trailing whitespace. */
  function Trim(s: string): (r: string)
    ensures r == [] || (!IsJsWhitespace(r[0]) && !IsJsWhitespace(r[|r| - 1]))
  {
    TrimEnd(TrimStart(s))
  }

  /** What trimming removes is whitespace at either end, and what it keeps is one
      contiguous piece of the input. */
  lemma TrimIsMiddle(s: string)
    ensures exists i :: 0 <= i <= i + |Trim(s)| <= |s| && Trim(s) == s[i..i + |Trim(s)|]
                        && AllWhitespace(s[..i]) && AllWhitespace(s[i + |Trim(s)|..])
  {
    var t := TrimStart(s);
    var i := |s| - |t|;
    SliceOfSuffix(s, t, TrimEnd(t));
    assert 0 <= i <= i + |Trim(s)| <= |s| && Trim(s) == s[i..i + |Trim(s)|]
           && AllWhitespace(s[..i]) && AllWhitespace(s[i + |Trim(s)|..]);
  }

  /** A prefix `r` of a suffix `t` of `s` is a slice of `s`. */
  lemma SliceOfSuffix(s: string, t: string, r: string)
    requires |t| <= |s| && t == s[|s| - |t|..]
    requires |r| <= |t| && r == t[..|r|]
    ensures r == s[|s| - |t|..|s| - |t| + |r|]
    ensures s[|s| - |t| + |r|..] == t[|r|..]
  {
  }

  /** Trimming twice is trimming once. */
  lemma TrimIdempotent(s: string)
    ensures Trim(Trim(s)) == Trim(s)
  {
    var r := Trim(s);
    if r != [] {
      assert TrimStart(r) == r;
      assert TrimEnd(r) == r;
    }
  }

  /** Names that are already trimmed and non-empty are joined with exactly one space. */
  lemma FullNameOfTrimmedNames(first: string, last: string)
    ensures first != [] && last != [] && Trim(first) == first && Trim(last) == last
            ==> Trim(first + " " + last) == first + " " + last
  {
    if first != [] && last != [] && Trim(first) == first && Trim(last) == last {
      var s := first + " " + last;
      assert s[0] == first[0] && s[|s| - 1] == last[|last| - 1];
      assert TrimStart(s) == s;
      assert TrimEnd(s) == s;
    }
  }

  // ---------------------------------------------------------------------------
  // The user record
  // ---------------------------------------------------------------------------

  /** The fields of a user document that the modelled methods read or write. */
  class User {
    var firstName: string
    var lastName: string
    var loginCount: int
    var lastLoginAt: Option<int>
    var connectedCalendars: seq<CalendarConnection>

    /** A new document: schema defaults for the counter, the last login and the connection list. */
    constructor (firstName: string, lastName: string)
      ensures this.firstName == firstName && this.lastName == lastName
      ensures loginCount == 0 && lastLoginAt == None && connectedCalendars == []
    {
      this.firstName := firstName;
      this.lastName := lastName;
      loginCount := 0;
      lastLoginAt := None;
      connectedCalendars := [];
    }

    /** The virtual `fullName`. */
    function FullName(): (name: string)
      reads this
      ensures name == [] || (!IsJsWhitespace(name[0]) && !IsJsWhitespace(name[|name| - 1]))
      ensures firstName != [] && lastName != [] && Trim(firstName) == firstName && Trim(lastName) == lastName
              ==> name == firstName + " " + lastName
    {
      FullNameOfTrimmedNames(firstName, lastName);
      Trim(firstName + " " + lastName)
    }

    /** `incrementLoginCount`: one more login, stamped with the current time `now`. */
    method IncrementLoginCount(now: int)
      modifies this`loginCount, this`lastLoginAt
      ensures loginCount == old(loginCount) + 1
      ensures lastLoginAt == Some(now)
    {
      loginCount := loginCount + 1;
      lastLoginAt := Some(now);
    }

    /** `addCalendarConnection`: refresh the entry with this key in place, or append a new one. */
    method AddCalendarConnection(provider: string, accountId: string, tokens: Tokens, now: int)
      modifies this`connectedCalendars
      ensures connectedCalendars == AddConnection(old(connectedCalendars), provider, accountId, tokens, now)
      ensures UniqueKeys(old(connectedCalendars)) ==> UniqueKeys(connectedCalendars)
      ensures exists k :: 0 <= k < |connectedCalendars| && HasKey(connectedCalendars[k], provider, accountId)
                          && connectedCalendars[k].isActive
    {
      ghost var before := connectedCalendars;
      var existing := FindConnection(connectedCalendars, provider, accountId);
      if existing.Some? {
        var i := existing.value;
        var connection := connectedCalendars[i];
        connectedCalendars := connectedCalendars[i := connection.(
          accessToken := tokens.accessToken,
          refreshToken := tokens.refreshToken,
          expiresAt := tokens.expiresAt,
          isActive := true)];
      } else {
        connectedCalendars := connectedCalendars + [CalendarConnection(
          provider, accountId, tokens.accessToken, tokens.refreshToken, tokens.expiresAt, true, now)];
      }
      AddConnectionLeavesActiveEntry(before, provider, accountId, tokens, now);
      if UniqueKeys(before) {
        AddConnectionKeepsKeysUnique(before, provider, accountId, tokens, now);
      }
    }
  }
}
