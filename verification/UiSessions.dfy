/**
 Admin UI sessions (app/storage/sqlite_store.py). Every time is stored as text and every decision compares
 text; that the text is `isoformat` matters only through `OrdersByTime`, which IsoTime proves of it. A token
 stands for its SHA-256 digest, which is the key of its row.
 */
module UiSessions {
  import opened Wrappers
  import opened Text
  import opened IsoTime

  datatype Row = Row(keyId: string, expiresAt: Option<string>, lastActivityAt: Option<string>)

  type Table = map<string, Row>

  /** `datetime + timedelta`; past either end of the calendar Python raises OverflowError. */
  function Shift(t: Instant, micros: int): Option<Instant> {
    var u := t + micros;
    if 0 <= u < (LAST_ORDINAL + 1) * MICROS_PER_DAY then Some(u) else None
  }

  function TtlMicros(ttlHours: int): nat {
    (if ttlHours < 1 then 1 else ttlHours) * MICROS_PER_HOUR
  }

  datatype Lookup = Owner(keyId: string) | Refused | Overflow

  /** `a or b` on columns that may be NULL */
  function Or(a: Option<string>, b: string): string {
    if a.Some? && a.value != "" then a.value else b
  }

  predicate TtlPassed(f: Format, row: Row, now: Instant) {
    row.expiresAt.Some? && Leq(row.expiresAt.value, f.iso(now))
  }

  /** What a lookup answers for a row that is there. */
  function Judge(f: Format, row: Row, idleMinutes: int, now: Instant): Lookup {
    if TtlPassed(f, row, now) then Refused
    else if idleMinutes > 0 then
      match Shift(now, -idleMinutes * MICROS_PER_MINUTE)
      case None => Overflow
      case Some(cutoff) =>
        if Leq(Or(row.lastActivityAt, Or(row.expiresAt, f.iso(now))), f.iso(cutoff)) then Refused
        else Owner(row.keyId)
    else Owner(row.keyId)
  }

  /** The table after a lookup: a refused session is deleted, a served one is touched. */
  function AfterLookup(f: Format, table: Table, token: string, idleMinutes: int, now: Instant): Table {
    if token !in table then table
    else
      match Judge(f, table[token], idleMinutes, now)
      case Owner(_) => table[token := table[token].(lastActivityAt := Some(f.iso(now)))]
      case Refused => table - {token}
      case Overflow => table
  }

  function Expired(f: Format, table: Table, now: Instant): set<string> {
    set token | token in table && TtlPassed(f, table[token], now)
  }

  function OwnedBy(table: Table, keyId: string): set<string> {
    set token | token in table && table[token].keyId == keyId
  }

  class UiSessionStore {
    const f: Format
    var table: Table

    constructor (format: Format)
      ensures f == format && table == map[]
    {
      f, table := format, map[];
    }

    /** `create_ui_session`; false where Python raises (the expiry overflows, or the token is taken). */
    method Create(token: string, keyId: string, ttlHours: int, now: Instant) returns (ok: bool)
      modifies this
      ensures ok <==> token !in old(table) && Shift(now, TtlMicros(ttlHours)).Some?
      ensures table == if ok
        then old(table)[token := Row(keyId, Some(f.iso(Shift(now, TtlMicros(ttlHours)).value)), Some(f.iso(now)))]
        else old(table)
      ensures forall idle :: table == Step(f, old(table), Event(now, Action.Create(token, keyId, ttlHours)), idle)
    {
      var expires := Shift(now, TtlMicros(ttlHours));
      ok := expires.Some? && token !in table;
      if ok {
        table := table[token := Row(keyId, Some(f.iso(expires.value)), Some(f.iso(now)))];
      }
    }

    /** `get_ui_session_key_id`, statement by statement. */
    method GetKeyId(token: string, idleMinutes: int, now: Instant) returns (r: Lookup)
      modifies this
      ensures table == AfterLookup(f, old(table), token, idleMinutes, now)
      ensures table == Step(f, old(table), Event(now, Action.Get(token)), idleMinutes)
      ensures r == if token in old(table) then Judge(f, old(table)[token], idleMinutes, now) else Refused
    {
      if token !in table {
        return Refused;
      }
      var row := table[token];
      var nowIso := f.iso(now);
      if row.expiresAt.Some? && Leq(row.expiresAt.value, nowIso) {
        table := table - {token};
        return Refused;
      }
      if idleMinutes > 0 {
        var last := Or(row.lastActivityAt, Or(row.expiresAt, nowIso));
        var cutoff := Shift(now, -idleMinutes * MICROS_PER_MINUTE);
        if cutoff.None? {
          return Overflow;
        }
        if Leq(last, f.iso(cutoff.value)) {
          table := table - {token};
          return Refused;
        }
      }
      table := table[token := row.(lastActivityAt := Some(nowIso))];
      r := Owner(row.keyId);
    }

    /** `delete_ui_session` */
    method Delete(token: string)
      modifies this
      ensures table == old(table) - {token}
      ensures forall now, idle :: table == Step(f, old(table), Event(now, Action.Delete(token)), idle)
    {
      table := table - {token};
    }

    /** `invalidate_sessions_for_key_id`; returns the number of rows deleted. */
    method Invalidate(keyId: string) returns (count: nat)
      modifies this
      ensures table == old(table) - OwnedBy(old(table), keyId)
      ensures forall now, idle :: table == Step(f, old(table), Event(now, Action.Invalidate(keyId)), idle)
      ensures count == |OwnedBy(old(table), keyId)|
    {
      var gone := OwnedBy(table, keyId);
      table, count := table - gone, |gone|;
    }

    /** `purge_expired_ui_sessions`; returns the number of rows deleted. */
    method Purge(now: Instant) returns (count: nat)
      modifies this
      ensures table == old(table) - Expired(f, old(table), now)
      ensures forall idle :: table == Step(f, old(table), Event(now, Action.Purge), idle)
      ensures count == |Expired(f, old(table), now)|
    {
      var gone := Expired(f, table, now);
      table, count := table - gone, |gone|;
    }
  }

  /**
   What a lookup makes of a row, told on its columns: past its expiry, or without activity for the idle minutes, it is
   refused and gone; otherwise its owner is told and its activity is now. Columns may be NULL or empty.
   */
  lemma LookupMeans(f: Format, table: Table, token: string, idle: int, now: Instant)
    requires token in table
    ensures var row, cutoff := table[token], now - idle * 60000000;
      var last := if row.lastActivityAt.Some? && row.lastActivityAt.value != "" then row.lastActivityAt.value
                  else if row.expiresAt.Some? && row.expiresAt.value != "" then row.expiresAt.value else f.iso(now);
      Judge(f, row, idle, now)
        == if row.expiresAt.Some? && !Less(f.iso(now), row.expiresAt.value) then Refused
           else if idle <= 0 then Owner(row.keyId)
           else if cutoff < 0 then Overflow
           else if !Less(f.iso(cutoff), last) then Refused
           else Owner(row.keyId)
    ensures AfterLookup(f, table, token, idle, now) == match Judge(f, table[token], idle, now)
      case Owner(_) => table[token := table[token].(lastActivityAt := Some(f.iso(now)))]
      case Refused => table - {token}
      case Overflow => table
  {
  }

  /** Which rows a purge and an invalidation delete. */
  lemma RemovalMeans(f: Format, table: Table, now: Instant, keyId: string, token: string)
    ensures token in Expired(f, table, now) <==> (
      token in table && table[token].expiresAt.Some? && !Less(f.iso(now), table[token].expiresAt.value))
    ensures token in OwnedBy(table, keyId) <==> token in table && table[token].keyId == keyId
  {
  }

  // ---------------------------------------------------------------- runs

  datatype Action =
    | Create(token: string, keyId: string, ttlHours: int)
    | Get(token: string)
    | Delete(token: string)
    | Invalidate(keyId: string)
    | Purge

  datatype Event = Event(at: Instant, action: Action)

  /** One store call, as the methods of `UiSessionStore` make it. */
  function Step(f: Format, table: Table, e: Event, idle: int): Table {
    match e.action
    case Create(token, keyId, ttl) =>
      if token in table || Shift(e.at, TtlMicros(ttl)).None? then table
      else table[token := Row(keyId, Some(f.iso(Shift(e.at, TtlMicros(ttl)).value)), Some(f.iso(e.at)))]
    case Get(token) => AfterLookup(f, table, token, idle, e.at)
    case Delete(token) => table - {token}
    case Invalidate(keyId) => table - OwnedBy(table, keyId)
    case Purge => table - Expired(f, table, e.at)
  }

  /** The table after the first n calls. */
  function After(f: Format, events: seq<Event>, idle: int, n: nat): Table
    requires n <= |events|
  {
    if n == 0 then map[] else Step(f, After(f, events, idle, n - 1), events[n - 1], idle)
  }

  /** What the n-th call, a lookup, answers. */
  function Answer(f: Format, events: seq<Event>, idle: int, n: nat): Lookup
    requires n < |events| && events[n].action.Get?
  {
    var table, token := After(f, events, idle, n), events[n].action.token;
    if token in table then Judge(f, table[token], idle, events[n].at) else Refused
  }

  /** A clock that never goes back, tokens that are never minted twice, and arithmetic that stays on the calendar. */
  predicate ProperRun(events: seq<Event>, idle: int) {
    && (forall i, j :: 0 <= i < j < |events| ==> events[i].at <= events[j].at)
    && (forall i, j :: 0 <= i < j < |events| && events[i].action.Create? && events[j].action.Create?
          ==> events[i].action.token != events[j].action.token)
    && (forall i :: 0 <= i < |events| && events[i].action.Create?
          ==> Shift(events[i].at, TtlMicros(events[i].action.ttlHours)).Some?)
    && (forall i :: 0 <= i < |events| && idle > 0 ==> Shift(events[i].at, -idle * MICROS_PER_MINUTE).Some?)
  }

  /** Call c mints the session. */
  predicate Mints(events: seq<Event>, c: nat, token: string) {
    c < |events| && events[c].action.Create? && events[c].action.token == token
  }

  function ExpiryOf(events: seq<Event>, c: nat): int
    requires c < |events| && events[c].action.Create?
  {
    events[c].at + (if events[c].action.ttlHours < 1 then 1 else events[c].action.ttlHours) * 3600000000
  }

  /** The session is deleted, or its owner's sessions are. */
  predicate Ends(e: Event, token: string, keyId: string) {
    e.action == Delete(token) || e.action == Invalidate(keyId)
  }

  /** A sign of life: the session is minted or looked up. */
  predicate Touches(e: Event, token: string) {
    (e.action.Create? || e.action.Get?) && e.action.token == token
  }

  /** Some sign of life since the session was minted is less than the idle limit old; 0 disables the limit. */
  predicate Fresh(events: seq<Event>, idle: int, c: nat, j: nat, token: string)
    requires j < |events|
  {
    idle <= 0
    || exists i :: c <= i < j && Touches(events[i], token) && events[j].at - events[i].at < idle * 60000000
  }

  /**
   The rule, stated on the calls alone: never ended since it was minted, not past its TTL, and every lookup up
   to and including this one came before the idle limit had passed since the sign of life before it.
   */
  predicate Alive(events: seq<Event>, idle: int, c: nat, n: nat)
    requires c < n < |events| && events[c].action.Create?
  {
    var token, keyId := events[c].action.token, events[c].action.keyId;
    && (forall j :: c < j < n ==> !Ends(events[j], token, keyId))
    && events[n].at < ExpiryOf(events, c)
    && (forall j :: c < j <= n && events[j].action == Get(token) ==> Fresh(events, idle, c, j, token))
  }

  // ---------------------------------------------------------------- rows as instants

  /** What a row means: its times as instants instead of text. */
  datatype Session = Session(keyId: string, expiry: Instant, last: Instant)

  function Encode(f: Format, s: Session): Row {
    Row(s.keyId, Some(f.iso(s.expiry)), Some(f.iso(s.last)))
  }

  /** A lookup of a row that is there is served exactly when the TTL and the idle limit allow it. */
  lemma JudgeRow(f: Format, keyId: string, expiry: Instant, last: Instant, idle: int, now: Instant)
    requires f.OrdersByTime()
    requires idle > 0 ==> Shift(now, -idle * MICROS_PER_MINUTE).Some?
    ensures var row := Row(keyId, Some(f.iso(expiry)), Some(f.iso(last)));
      Judge(f, row, idle, now)
        == if now < expiry && (idle <= 0 || now - last < idle * MICROS_PER_MINUTE) then Owner(keyId) else Refused
    ensures TtlPassed(f, Row(keyId, Some(f.iso(expiry)), Some(f.iso(last))), now) <==> expiry <= now
  {
    if idle > 0 {
      var cutoff := Shift(now, -idle * MICROS_PER_MINUTE).value;
      JudgeText(f, keyId, f.iso(expiry), f.iso(last), idle, now, cutoff);
    }
  }

  lemma JudgeText(f: Format, keyId: string, expiry: string, last: string, idle: int, now: Instant, cutoff: Instant)
    requires idle > 0 && Shift(now, -idle * MICROS_PER_MINUTE) == Some(cutoff) && last != ""
    ensures Judge(f, Row(keyId, Some(expiry), Some(last)), idle, now)
      == if Leq(expiry, f.iso(now)) || Leq(last, f.iso(cutoff)) then Refused else Owner(keyId)
  {
  }

  /** One call's effect on one session, decided by comparing instants. */
  function StepSession(s: Option<Session>, e: Event, token: string, idle: int): Option<Session> {
    if s.None? then None
    else if e.action == Get(token) then
      if e.at < s.value.expiry && (idle <= 0 || e.at - s.value.last < idle * MICROS_PER_MINUTE)
      then Some(s.value.(last := e.at)) else None
    else if Ends(e, token, s.value.keyId) || (e.action.Purge? && s.value.expiry <= e.at) then None
    else s
  }

  predicate Holds(f: Format, table: Table, token: string, s: Option<Session>) {
    if s.Some? then token in table && table[token] == Encode(f, s.value) else token !in table
  }

  lemma LookupHolds(f: Format, table: Table, token: string, s: Option<Session>, e: Event, idle: int)
    requires Holds(f, table, token, s) && e.action == Get(token)
    requires f.OrdersByTime()
    requires idle > 0 ==> Shift(e.at, -idle * MICROS_PER_MINUTE).Some?
    ensures Holds(f, AfterLookup(f, table, token, idle, e.at), token, StepSession(s, e, token, idle))
  {
    if s.Some? {
      JudgeRow(f, s.value.keyId, s.value.expiry, s.value.last, idle, e.at);
    }
  }

  lemma OtherLookupHolds(f: Format, table: Table, token: string, s: Option<Session>, other: string, idle: int,
                         now: Instant)
    requires Holds(f, table, token, s) && other != token
    ensures Holds(f, AfterLookup(f, table, other, idle, now), token, s)
  {
  }

  lemma PurgeHolds(f: Format, table: Table, token: string, s: Option<Session>, now: Instant)
    requires Holds(f, table, token, s)
    requires f.OrdersByTime()
    ensures Holds(f, table - Expired(f, table, now), token, if s.Some? && s.value.expiry <= now then None else s)
  {
  }

  lemma RemovalHolds(f: Format, table: Table, token: string, s: Option<Session>, gone: set<string>)
    requires Holds(f, table, token, s)
    ensures Holds(f, table - gone, token, if token in gone then None else s)
  {
  }

  lemma GetHolds(f: Format, table: Table, token: string, s: Option<Session>, e: Event, idle: int)
    requires f.OrdersByTime()
    requires Holds(f, table, token, s) && e.action.Get?
    requires idle > 0 ==> Shift(e.at, -idle * MICROS_PER_MINUTE).Some?
    ensures Holds(f, AfterLookup(f, table, e.action.token, idle, e.at), token, StepSession(s, e, token, idle))
  {
    if e.action.token == token {
      assert e.action == Get(token);
      LookupHolds(f, table, token, s, e, idle);
    } else {
      assert StepSession(s, e, token, idle) == s;
      OtherLookupHolds(f, table, token, s, e.action.token, idle, e.at);
    }
  }

  lemma InvalidateHolds(f: Format, table: Table, token: string, s: Option<Session>, keyId: string)
    requires Holds(f, table, token, s)
    ensures Holds(f, table - OwnedBy(table, keyId), token, if s.Some? && s.value.keyId == keyId then None else s)
  {
    RemovalHolds(f, table, token, s, OwnedBy(table, keyId));
    assert s.Some? ==> table[token].keyId == s.value.keyId;
  }

  lemma EndingHolds(f: Format, table: Table, token: string, s: Option<Session>, e: Event, idle: int)
    requires Holds(f, table, token, s) && (e.action.Delete? || e.action.Invalidate?)
    ensures Holds(f, Step(f, table, e, idle), token, StepSession(s, e, token, idle))
  {
    if e.action.Delete? {
      RemovalHolds(f, table, token, s, {e.action.token});
    } else {
      InvalidateHolds(f, table, token, s, e.action.keyId);
    }
  }

  /** Comparing text, the store does to each session what comparing instants would. */
  lemma StepHolds(f: Format, table: Table, token: string, s: Option<Session>, e: Event, idle: int)
    requires Holds(f, table, token, s)
    requires f.OrdersByTime()
    requires !(e.action.Create? && e.action.token == token)
    requires idle > 0 ==> Shift(e.at, -idle * MICROS_PER_MINUTE).Some?
    ensures Holds(f, Step(f, table, e, idle), token, StepSession(s, e, token, idle))
  {
    if e.action.Get? {
      GetHolds(f, table, token, s, e, idle);
    } else if e.action.Purge? {
      PurgeHolds(f, table, token, s, e.at);
    } else if !e.action.Create? {
      EndingHolds(f, table, token, s, e, idle);
    } else {
      CreateHolds(f, table, token, s, e, idle);
    }
  }

  lemma CreateHolds(f: Format, table: Table, token: string, s: Option<Session>, e: Event, idle: int)
    requires Holds(f, table, token, s) && e.action.Create? && e.action.token != token
    ensures Holds(f, Step(f, table, e, idle), token, s)
  {
  }

  /** The session minted by call c, as it stands after n calls. */
  function SessionAfter(events: seq<Event>, idle: int, c: nat, n: nat): Option<Session>
    requires c < n <= |events| && events[c].action.Create?
    requires Shift(events[c].at, TtlMicros(events[c].action.ttlHours)).Some?
    decreases n
  {
    var a := events[c].action;
    if n == c + 1 then Some(Session(a.keyId, Shift(events[c].at, TtlMicros(a.ttlHours)).value, events[c].at))
    else StepSession(SessionAfter(events, idle, c, n - 1), events[n - 1], a.token, idle)
  }

  /** Before it is minted, a token is in no row. */
  lemma {:induction false} NotYet(f: Format, events: seq<Event>, idle: int, n: nat, token: string)
    requires n <= |events| && forall i :: 0 <= i < n ==> !Mints(events, i, token)
    ensures token !in After(f, events, idle, n)
  {
    if n > 0 {
      NotYet(f, events, idle, n - 1, token);
      assert !Mints(events, n - 1, token);
    }
  }

  lemma ProperCall(events: seq<Event>, idle: int, c: nat, n: nat)
    requires ProperRun(events, idle) && c < n < |events| && events[c].action.Create?
    ensures !(events[n].action.Create? && events[n].action.token == events[c].action.token)
    ensures idle > 0 ==> Shift(events[n].at, -idle * MICROS_PER_MINUTE).Some?
    ensures Shift(events[c].at, TtlMicros(events[c].action.ttlHours)).Some?
  {
  }

  lemma OnlyMint(events: seq<Event>, idle: int, c: nat, token: string)
    requires ProperRun(events, idle) && Mints(events, c, token)
    ensures forall i :: 0 <= i < c ==> !Mints(events, i, token)
  {
  }

  lemma MintHolds(f: Format, events: seq<Event>, idle: int, c: nat, token: string)
    requires ProperRun(events, idle) && Mints(events, c, token)
    requires Shift(events[c].at, TtlMicros(events[c].action.ttlHours)).Some?
    ensures Holds(f, After(f, events, idle, c + 1), token, SessionAfter(events, idle, c, c + 1))
  {
    OnlyMint(events, idle, c, token);
    NotYet(f, events, idle, c, token);
  }

  lemma {:induction false} TableHolds(f: Format, events: seq<Event>, idle: int, c: nat, n: nat, token: string)
    requires ProperRun(events, idle) && c < n <= |events| && Mints(events, c, token)
    requires f.OrdersByTime()
    ensures Holds(f, After(f, events, idle, n), token, SessionAfter(events, idle, c, n))
    decreases n
  {
    if n == c + 1 {
      MintHolds(f, events, idle, c, token);
    } else {
      TableHolds(f, events, idle, c, n - 1, token);
      TableStep(f, events, idle, c, n - 1, token);
    }
  }

  lemma TableStep(f: Format, events: seq<Event>, idle: int, c: nat, n: nat, token: string)
    requires ProperRun(events, idle) && c < n < |events| && Mints(events, c, token)
    requires f.OrdersByTime()
    requires Holds(f, After(f, events, idle, n), token, SessionAfter(events, idle, c, n))
    ensures Holds(f, After(f, events, idle, n + 1), token, SessionAfter(events, idle, c, n + 1))
  {
    ProperCall(events, idle, c, n);
    StepHolds(f, After(f, events, idle, n), token, SessionAfter(events, idle, c, n), events[n], idle);
  }

  // ---------------------------------------------------------------- the rule, call by call

  /** The latest sign of life among the calls from c up to n. */
  function LastTouch(events: seq<Event>, c: nat, n: nat, token: string): (i: nat)
    requires c < n <= |events| && Mints(events, c, token)
    ensures c <= i < n && Touches(events[i], token)
    ensures forall k :: i < k < n ==> !Touches(events[k], token)
    decreases n
  {
    if Touches(events[n - 1], token) then n - 1 else LastTouch(events, c, n - 1, token)
  }

  predicate Unended(events: seq<Event>, c: nat, n: nat)
    requires c < n <= |events| && events[c].action.Create?
  {
    forall j :: c < j < n ==> !Ends(events[j], events[c].action.token, events[c].action.keyId)
  }

  predicate AllFresh(events: seq<Event>, idle: int, c: nat, n: nat)
    requires c < n <= |events| && events[c].action.Create?
  {
    var token := events[c].action.token;
    forall j :: c < j < n && events[j].action == Get(token) ==> Fresh(events, idle, c, j, token)
  }

  /** A session that is still there has kept the rule; one that is gone has broken it for good. */
  predicate Tells(events: seq<Event>, idle: int, c: nat, n: nat, s: Option<Session>)
    requires c < n <= |events| && events[c].action.Create?
  {
    var a := events[c].action;
    match s
    case Some(x) =>
      x.keyId == a.keyId && x.expiry == ExpiryOf(events, c) && x.last == events[LastTouch(events, c, n, a.token)].at
      && Unended(events, c, n) && AllFresh(events, idle, c, n)
    case None =>
      !Unended(events, c, n) || !AllFresh(events, idle, c, n)
      || exists j :: c < j < n && events[j].at >= ExpiryOf(events, c)
  }

  /** The closest sign of life decides freshness. */
  lemma FreshByLast(events: seq<Event>, idle: int, c: nat, n: nat, token: string)
    requires ProperRun(events, idle) && c < n < |events| && Mints(events, c, token)
    ensures Fresh(events, idle, c, n, token)
      <==> (idle <= 0 || events[n].at - events[LastTouch(events, c, n, token)].at < idle * MICROS_PER_MINUTE)
  {
  }

  lemma StepTells(events: seq<Event>, idle: int, c: nat, n: nat, s: Option<Session>)
    requires ProperRun(events, idle) && c < n < |events| && events[c].action.Create?
    requires Tells(events, idle, c, n, s)
    ensures Tells(events, idle, c, n + 1, StepSession(s, events[n], events[c].action.token, idle))
  {
    var token := events[c].action.token;
    FreshByLast(events, idle, c, n, token);
    assert events[n].action.Create? ==> events[n].action.token != token;
  }

  lemma MintedTells(events: seq<Event>, idle: int, c: nat)
    requires ProperRun(events, idle) && c < |events| && events[c].action.Create?
    ensures Tells(events, idle, c, c + 1, SessionAfter(events, idle, c, c + 1))
  {
  }

  lemma {:induction false} SessionTells(events: seq<Event>, idle: int, c: nat, n: nat)
    requires ProperRun(events, idle) && c < n <= |events| && events[c].action.Create?
    ensures Tells(events, idle, c, n, SessionAfter(events, idle, c, n))
    decreases n
  {
    if n > c + 1 {
      SessionTells(events, idle, c, n - 1);
      NextTells(events, idle, c, n - 1);
    } else {
      MintedTells(events, idle, c);
    }
  }

  lemma NextTells(events: seq<Event>, idle: int, c: nat, n: nat)
    requires ProperRun(events, idle) && c < n < |events| && events[c].action.Create?
    requires Tells(events, idle, c, n, SessionAfter(events, idle, c, n))
    ensures Tells(events, idle, c, n + 1, SessionAfter(events, idle, c, n + 1))
  {
    StepTells(events, idle, c, n, SessionAfter(events, idle, c, n));
  }

  /**
   Session lifetime. In every run of the store, a lookup of a minted token is answered with its owner exactly
   when the session is alive by the rule on the calls, and is refused otherwise.
   */
  lemma SessionLifetime(f: Format, events: seq<Event>, idle: int, c: nat, n: nat, token: string)
    requires ProperRun(events, idle) && c < n < |events| && Mints(events, c, token) && events[n].action == Get(token)
    requires f.OrdersByTime()
    ensures Answer(f, events, idle, n) == if Alive(events, idle, c, n) then Owner(events[c].action.keyId) else Refused
  {
    var s := SessionAfter(events, idle, c, n);
    TableHolds(f, events, idle, c, n, token);
    ProperCall(events, idle, c, n);
    AnswerHolds(f, After(f, events, idle, n), token, s, idle, events[n].at);
    SessionTells(events, idle, c, n);
    AliveTells(events, idle, c, n, s);
  }

  lemma AnswerHolds(f: Format, table: Table, token: string, s: Option<Session>, idle: int, now: Instant)
    requires Holds(f, table, token, s) && (idle > 0 ==> Shift(now, -idle * MICROS_PER_MINUTE).Some?)
    requires f.OrdersByTime()
    ensures (if token in table then Judge(f, table[token], idle, now) else Refused)
      == if s.Some? && now < s.value.expiry && (idle <= 0 || now - s.value.last < idle * MICROS_PER_MINUTE)
         then Owner(s.value.keyId) else Refused
  {
    if s.Some? {
      JudgeRow(f, s.value.keyId, s.value.expiry, s.value.last, idle, now);
    }
  }

  lemma AliveTells(events: seq<Event>, idle: int, c: nat, n: nat, s: Option<Session>)
    requires ProperRun(events, idle) && c < n < |events| && events[c].action.Create?
    requires events[n].action == Get(events[c].action.token) && Tells(events, idle, c, n, s)
    ensures Alive(events, idle, c, n) <==> (
      && s.Some? && events[n].at < s.value.expiry
      && (idle <= 0 || events[n].at - s.value.last < idle * MICROS_PER_MINUTE))
    ensures s.Some? ==> s.value.keyId == events[c].action.keyId
  {
    FreshByLast(events, idle, c, n, events[c].action.token);
  }

  /** A session that was refused once is refused ever after. */
  lemma RefusedForGood(f: Format, events: seq<Event>, idle: int, c: nat, n: nat, m: nat, token: string)
    requires ProperRun(events, idle) && c < n < m < |events| && Mints(events, c, token)
    requires f.OrdersByTime()
    requires events[n].action == Get(token) && events[m].action == Get(token)
    requires Answer(f, events, idle, n) == Refused
    ensures Answer(f, events, idle, m) == Refused
  {
    SessionLifetime(f, events, idle, c, n, token);
    SessionLifetime(f, events, idle, c, m, token);
  }
}
