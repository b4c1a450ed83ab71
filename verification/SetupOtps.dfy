/** First-run one-time tokens (app/storage/sqlite_store.py). A token stands for its SHA-256 digest. */
module SetupOtps {
  import opened Wrappers
  import opened Text
  import opened IsoTime
  import U = UiSessions

  datatype Row = Row(keyId: string, expiresAt: string, consumedAt: Option<string>)

  type Table = map<string, Row>

  function TtlMicros(ttlSeconds: int): nat {
    (if ttlSeconds < 30 then 30 else ttlSeconds) * MICROS_PER_SECOND
  }

  predicate Redeemable(f: Format, table: Table, token: string, now: Instant) {
    token in table && table[token].consumedAt.None? && !Leq(table[token].expiresAt, f.iso(now))
  }

  function AfterConsume(f: Format, table: Table, token: string, now: Instant): Table {
    if Redeemable(f, table, token, now) then table[token := table[token].(consumedAt := Some(f.iso(now)))] else table
  }

  /** Rows a purge deletes: expired or spent. */
  function Dead(f: Format, table: Table, now: Instant): set<string> {
    set token | token in table && (Leq(table[token].expiresAt, f.iso(now)) || table[token].consumedAt.Some?)
  }

  class SetupOtpStore {
    const f: Format
    var table: Table

    constructor (format: Format)
      ensures f == format && table == map[]
    {
      f, table := format, map[];
    }

    /** `create_setup_otp`; false where Python raises. */
    method Create(token: string, keyId: string, ttlSeconds: int, now: Instant) returns (ok: bool)
      modifies this
      ensures ok <==> token !in old(table) && U.Shift(now, TtlMicros(ttlSeconds)).Some?
      ensures table == if ok
        then old(table)[token := Row(keyId, f.iso(U.Shift(now, TtlMicros(ttlSeconds)).value), None)]
        else old(table)
      ensures table == Step(f, old(table), Event(now, Action.Create(token, keyId, ttlSeconds)))
    {
      var expires := U.Shift(now, TtlMicros(ttlSeconds));
      ok := expires.Some? && token !in table;
      if ok {
        table := table[token := Row(keyId, f.iso(expires.value), None)];
      }
    }

    /** `consume_setup_otp` */
    method Consume(token: string, now: Instant) returns (owner: Option<string>)
      modifies this
      ensures table == AfterConsume(f, old(table), token, now)
      ensures table == Step(f, old(table), Event(now, Action.Consume(token)))
      ensures owner == if Redeemable(f, old(table), token, now) then Some(old(table)[token].keyId) else None
    {
      if token !in table {
        return None;
      }
      var row := table[token];
      if row.consumedAt.Some? {
        return None;
      }
      if Leq(row.expiresAt, f.iso(now)) {
        return None;
      }
      table := table[token := row.(consumedAt := Some(f.iso(now)))];
      owner := Some(row.keyId);
    }

    /** `purge_expired_setup_otps` */
    method Purge(now: Instant) returns (count: nat)
      modifies this
      ensures table == old(table) - Dead(f, old(table), now)
      ensures table == Step(f, old(table), Event(now, Action.Purge))
      ensures count == |Dead(f, old(table), now)|
    {
      var gone := Dead(f, table, now);
      table, count := table - gone, |gone|;
    }
  }

  /** What an attempt changes, and which rows a purge deletes, told on the columns. */
  lemma ConsumeMeans(f: Format, table: Table, token: string, now: Instant)
    ensures var fits := token in table && table[token].consumedAt == None && Less(f.iso(now), table[token].expiresAt);
      && (Redeemable(f, table, token, now) <==> fits)
      && AfterConsume(f, table, token, now)
         == if fits then table[token := Row(table[token].keyId, table[token].expiresAt, Some(f.iso(now)))] else table
    ensures token in Dead(f, table, now) <==> (
      token in table && (table[token].consumedAt.Some? || !Less(f.iso(now), table[token].expiresAt)))
  {
  }

  // ---------------------------------------------------------------- runs

  datatype Action = Create(token: string, keyId: string, ttlSeconds: int) | Consume(token: string) | Purge

  datatype Event = Event(at: Instant, action: Action)

  function Step(f: Format, table: Table, e: Event): Table {
    match e.action
    case Create(token, keyId, ttl) =>
      if token in table || U.Shift(e.at, TtlMicros(ttl)).None? then table
      else table[token := Row(keyId, f.iso(U.Shift(e.at, TtlMicros(ttl)).value), None)]
    case Consume(token) => AfterConsume(f, table, token, e.at)
    case Purge => table - Dead(f, table, e.at)
  }

  function After(f: Format, events: seq<Event>, n: nat): Table
    requires n <= |events|
  {
    if n == 0 then map[] else Step(f, After(f, events, n - 1), events[n - 1])
  }

  /** What the n-th call, a redemption, answers. */
  function Answer(f: Format, events: seq<Event>, n: nat): Option<string>
    requires n < |events| && events[n].action.Consume?
  {
    var table, token := After(f, events, n), events[n].action.token;
    if Redeemable(f, table, token, events[n].at) then Some(table[token].keyId) else None
  }

  predicate ProperRun(events: seq<Event>) {
    && (forall i, j :: 0 <= i < j < |events| ==> events[i].at <= events[j].at)
    && (forall i, j :: 0 <= i < j < |events| && events[i].action.Create? && events[j].action.Create?
          ==> events[i].action.token != events[j].action.token)
    && (forall i :: 0 <= i < |events| && events[i].action.Create?
          ==> U.Shift(events[i].at, TtlMicros(events[i].action.ttlSeconds)).Some?)
  }

  predicate Mints(events: seq<Event>, c: nat, token: string) {
    c < |events| && events[c].action.Create? && events[c].action.token == token
  }

  function ExpiryOf(events: seq<Event>, c: nat): int
    requires c < |events| && events[c].action.Create?
  {
    events[c].at + (if events[c].action.ttlSeconds < 30 then 30 else events[c].action.ttlSeconds) * 1000000
  }

  /** No call after c and before n tried to redeem the token. */
  predicate Untried(events: seq<Event>, c: nat, n: nat)
    requires c < n <= |events| && events[c].action.Create?
  {
    forall j :: c < j < n ==> events[j].action != Consume(events[c].action.token)
  }

  /** The row of an unspent token waits until it expires; a spent or purged one never comes back to life. */
  predicate RowTells(f: Format, table: Table, events: seq<Event>, c: nat, n: nat)
    requires c < n <= |events| && events[c].action.Create?
    requires U.Shift(events[c].at, TtlMicros(events[c].action.ttlSeconds)).Some?
  {
    var a := events[c].action;
    var unspent := Row(a.keyId, f.iso(U.Shift(events[c].at, TtlMicros(a.ttlSeconds)).value), None);
    var waiting := a.token in table && table[a.token] == unspent;
    var spent := a.token !in table || table[a.token].consumedAt.Some?;
    && (waiting || spent)
    && (waiting && !Untried(events, c, n) ==> events[n - 1].at >= ExpiryOf(events, c))
    && (spent && Untried(events, c, n) ==> events[n - 1].at >= ExpiryOf(events, c))
  }

  lemma {:induction false} NotYet(f: Format, events: seq<Event>, n: nat, token: string)
    requires n <= |events| && forall i :: 0 <= i < n ==> !Mints(events, i, token)
    ensures token !in After(f, events, n)
  {
    if n > 0 {
      NotYet(f, events, n - 1, token);
      assert !Mints(events, n - 1, token);
    }
  }

  lemma StepTells(f: Format, table: Table, events: seq<Event>, c: nat, n: nat)
    requires f.OrdersByTime() && ProperRun(events) && c < n < |events| && events[c].action.Create?
    requires RowTells(f, table, events, c, n)
    ensures RowTells(f, Step(f, table, events[n]), events, c, n + 1)
  {
    var token := events[c].action.token;
    assert events[n].action.Create? ==> events[n].action.token != token;
    assert Untried(events, c, n + 1) <==> Untried(events, c, n) && events[n].action != Consume(token);
  }

  lemma {:induction false} TableTells(f: Format, events: seq<Event>, c: nat, n: nat)
    requires f.OrdersByTime() && ProperRun(events) && c < n <= |events| && events[c].action.Create?
    ensures RowTells(f, After(f, events, n), events, c, n)
    decreases n
  {
    if n == c + 1 {
      NotYet(f, events, c, events[c].action.token);
    } else {
      TableTells(f, events, c, n - 1);
      StepTells(f, After(f, events, n - 1), events, c, n - 1);
    }
  }

  /**
   One redemption. In every run, a redemption of a minted token succeeds exactly when it is the first attempt
   and comes before the token expires; so no token ever opens two sessions.
   */
  lemma RedeemedOnce(f: Format, events: seq<Event>, c: nat, n: nat)
    requires f.OrdersByTime() && ProperRun(events) && c < n < |events| && events[c].action.Create?
    requires events[n].action == Consume(events[c].action.token)
    ensures Answer(f, events, n) == if Untried(events, c, n) && events[n].at < ExpiryOf(events, c)
      then Some(events[c].action.keyId) else None
  {
    TableTells(f, events, c, n);
  }
}
