/**
 * The Postgres-backed fixed-window rate limiter (apps/api/lib/rate-limit.ts,
 * apps/api/db/migrations/5_rate_limit.up.sql).
 *
 * Times are in microseconds, the resolution of TIMESTAMPTZ. `now()` is taken to be
 * non-decreasing in the order in which the statements take effect.
 */
module RateLimit {
  import opened Options

  const API_LIMIT: int := 100
  const AUTH_LIMIT: int := 10
  const WINDOW: int := 60_000_000
  /** The largest INTEGER; adding one to it is an error, not a wrap-around. */
  const MAX_INTEGER: int := 0x7FFF_FFFF

  datatype Row = Row(count: int, windowStart: int, expiresAt: int)

  /** The row the upsert leaves, or `None` when the statement fails on a full counter. */
  function Upserted(row: Option<Row>, now: int): Option<Row> {
    match row
    case None => Some(Row(1, now, now + WINDOW))
    case Some(r) =>
      if r.expiresAt < now then Some(Row(1, now, now + WINDOW))
      else if r.count >= MAX_INTEGER then None
      else Some(r.(count := r.count + 1))
  }

  datatype Reply = Admitted | Denied | FailedOpen

  /** Whether the statement runs at all, and whether its result comes back. */
  datatype Backend = Down | Silent | Answers

  /** One request on one bucket. */
  datatype Attempt = Attempt(now: int, backend: Backend)

  function Counted(row: Option<Row>, a: Attempt): Option<Row> {
    if a.backend.Down? then None else Upserted(row, a.now)
  }

  function Next(row: Option<Row>, a: Attempt): Option<Row> {
    if Counted(row, a).Some? then Counted(row, a) else row
  }

  function ReplyTo(row: Option<Row>, limit: int, a: Attempt): Reply {
    match Counted(row, a)
    case None => FailedOpen
    case Some(r) =>
      if a.backend.Silent? then FailedOpen
      else if r.count > limit then Denied
      else Admitted
  }

  // ---- The counter table ----

  datatype Tier = Api | Auth

  function TierName(t: Tier): string {
    match t
    case Api => "api"
    case Auth => "auth"
  }

  function LimitOf(t: Tier): int {
    match t
    case Api => API_LIMIT
    case Auth => AUTH_LIMIT
  }

  function Bucket(tier: Tier, key: string): string {
    TierName(tier) + ":" + key
  }

  type Table = map<string, Row>

  function Lookup(t: Table, bucket: string): Option<Row> {
    if bucket in t then Some(t[bucket]) else None
  }

  function Store(t: Table, bucket: string, row: Option<Row>): Table {
    if row.Some? then t[bucket := row.value] else t
  }

  /** `DELETE FROM rate_limit_counter WHERE expires_at < now()` */
  function Pruned(t: Table, now: int): Table {
    map bucket | bucket in t && !(t[bucket].expiresAt < now) :: t[bucket]
  }

  class RateLimiter {
    var counters: Table

    /** `None` when the backend is unavailable, refuses or is not heard of again. */
    method Increment(bucket: string, now: int, backend: Backend) returns (count: Option<int>)
      modifies this
      ensures counters == Store(old(counters), bucket, Counted(Lookup(old(counters), bucket), Attempt(now, backend)))
      ensures match Counted(Lookup(old(counters), bucket), Attempt(now, backend))
              case None => count == None
              case Some(row) => count == if backend.Silent? then None else Some(row.count)
    {
      if backend.Down? { return None; }
      if bucket !in counters {
        counters := counters[bucket := Row(1, now, now + WINDOW)];
      } else {
        var old_ := counters[bucket];
        if old_.expiresAt < now {
          counters := counters[bucket := Row(1, now, now + WINDOW)];
        } else if old_.count >= MAX_INTEGER {
          return None;
        } else {
          counters := counters[bucket := Row(old_.count + 1, old_.windowStart, old_.expiresAt)];
        }
      }
      if backend.Silent? { return None; }
      return Some(counters[bucket].count);
    }

    method WithinLimit(tier: Tier, key: string, limit: int, now: int, backend: Backend) returns (ok: bool)
      modifies this
      ensures var row := Lookup(old(counters), Bucket(tier, key));
              var a := Attempt(now, backend);
              && counters == Store(old(counters), Bucket(tier, key), Counted(row, a))
              && (ok <==> ReplyTo(row, limit, a) != Denied)
    {
      var count := Increment(Bucket(tier, key), now, backend);
      if count.None? { return true; }
      if count.value > limit { return false; }
      return true;
    }
  }

  // ---- Runs ----

  /** Attempts in time order, from `start` on. */
  predicate Ordered(attempts: seq<Attempt>) {
    forall i, j :: 0 <= i < j < |attempts| ==> attempts[i].now <= attempts[j].now
  }

  /** The row after a run of attempts on one bucket. */
  function After(row: Option<Row>, attempts: seq<Attempt>): Option<Row> {
    if attempts == [] then row
    else Next(After(row, attempts[..|attempts| - 1]), attempts[|attempts| - 1])
  }

  function Replies(row: Option<Row>, limit: int, attempts: seq<Attempt>): (r: seq<Reply>)
    ensures |r| == |attempts|
  {
    if attempts == [] then []
    else
      var n := |attempts| - 1;
      Replies(row, limit, attempts[..n]) + [ReplyTo(After(row, attempts[..n]), limit, attempts[n])]
  }

  datatype Event =
    | Request(tier: Tier, key: string, now: int, backend: Backend)
    | Prune(now: int)

  predicate EventsOrdered(events: seq<Event>) {
    forall i, j :: 0 <= i < j < |events| ==> events[i].now <= events[j].now
  }

  function TableStep(t: Table, e: Event): Table {
    match e
    case Request(tier, key, now, backend) =>
      var bucket := Bucket(tier, key);
      Store(t, bucket, Counted(Lookup(t, bucket), Attempt(now, backend)))
    case Prune(now) => Pruned(t, now)
  }

  function TableAfter(t: Table, events: seq<Event>): Table {
    if events == [] then t
    else TableStep(TableAfter(t, events[..|events| - 1]), events[|events| - 1])
  }

  predicate IsFrom(e: Event, tier: Tier, key: string) {
    e.Request? && e.tier == tier && e.key == key
  }

  /** The answers one client gets while everybody's requests and prunings run. */
  function RepliesTo(t: Table, events: seq<Event>, tier: Tier, key: string): seq<Reply> {
    if events == [] then []
    else
      var n := |events| - 1;
      var before := RepliesTo(t, events[..n], tier, key);
      if IsFrom(events[n], tier, key) then
        before + [ReplyTo(Lookup(TableAfter(t, events[..n]), Bucket(tier, key)), LimitOf(tier),
                          Attempt(events[n].now, events[n].backend))]
      else before
  }

  /** The client's own requests, stripped of everything else that happened. */
  function AttemptsOf(events: seq<Event>, tier: Tier, key: string): seq<Attempt> {
    if events == [] then []
    else
      var n := |events| - 1;
      var before := AttemptsOf(events[..n], tier, key);
      if IsFrom(events[n], tier, key) then before + [Attempt(events[n].now, events[n].backend)]
      else before
  }

  // ---- Isolation and invisible pruning ----

  /** Bucket names never collide, whatever the client key holds. */
  lemma BucketInjective(t1: Tier, k1: string, t2: Tier, k2: string)
    ensures Bucket(t1, k1) == Bucket(t2, k2) <==> t1 == t2 && k1 == k2
    ensures Bucket(Api, k1) == "api:" + k1 && Bucket(Auth, k1) == "auth:" + k1
  {
    var b1, b2 := Bucket(t1, k1), Bucket(t2, k2);
    if b1 == b2 {
      assert b1[1] == TierName(t1)[1] && b2[1] == TierName(t2)[1];
      assert t1 == t2;
      assert b1[|TierName(t1)| + 1..] == k1 && b2[|TierName(t2)| + 1..] == k2;
    }
  }

  /** A prune takes exactly the rows whose window is over, and changes no other. */
  lemma PruneTakesExpired(t: Table, now: int)
    ensures forall bucket :: bucket in t && t[bucket].expiresAt >= now ==> Lookup(Pruned(t, now), bucket) == Some(t[bucket])
    ensures forall bucket :: bucket !in t || t[bucket].expiresAt < now ==> bucket !in Pruned(t, now)
  {}

  /** Equal as far as any request at `now` or later can tell. */
  predicate SameFrom(a: Option<Row>, b: Option<Row>, now: int) {
    a == b || (a.None? && b.Some? && b.value.expiresAt < now)
  }

  lemma SameAnswers(a: Option<Row>, b: Option<Row>, since: int, limit: int, attempt: Attempt)
    requires SameFrom(a, b, since) && since <= attempt.now
    ensures ReplyTo(a, limit, attempt) == ReplyTo(b, limit, attempt)
    ensures SameFrom(Next(a, attempt), Next(b, attempt), attempt.now)
  {}

  /** Steps that are not the client's leave its row alone or delete it once it has expired. */
  lemma ForeignStep(t: Table, e: Event, tier: Tier, key: string)
    requires !IsFrom(e, tier, key)
    ensures SameFrom(Lookup(TableStep(t, e), Bucket(tier, key)), Lookup(t, Bucket(tier, key)), e.now)
  {
    if e.Request? { BucketInjective(e.tier, e.key, tier, key); }
  }

  lemma OwnStep(t: Table, e: Event)
    requires e.Request?
    ensures Lookup(TableStep(t, e), Bucket(e.tier, e.key))
         == Next(Lookup(t, Bucket(e.tier, e.key)), Attempt(e.now, e.backend))
  {}

  lemma IsolationStep(t: Table, own: Option<Row>, since: int, e: Event, tier: Tier, key: string)
    requires SameFrom(Lookup(t, Bucket(tier, key)), own, since) && since <= e.now
    ensures IsFrom(e, tier, key) ==>
            && ReplyTo(Lookup(t, Bucket(tier, key)), LimitOf(tier), Attempt(e.now, e.backend))
               == ReplyTo(own, LimitOf(tier), Attempt(e.now, e.backend))
            && SameFrom(Lookup(TableStep(t, e), Bucket(tier, key)), Next(own, Attempt(e.now, e.backend)), e.now)
    ensures !IsFrom(e, tier, key) ==> SameFrom(Lookup(TableStep(t, e), Bucket(tier, key)), own, e.now)
  {
    if IsFrom(e, tier, key) {
      OwnStep(t, e);
      SameAnswers(Lookup(t, Bucket(tier, key)), own, since, LimitOf(tier), Attempt(e.now, e.backend));
    } else {
      ForeignStep(t, e, tier, key);
    }
  }

  lemma AppendAttempt(row: Option<Row>, limit: int, attempts: seq<Attempt>, a: Attempt)
    ensures After(row, attempts + [a]) == Next(After(row, attempts), a)
    ensures Replies(row, limit, attempts + [a]) == Replies(row, limit, attempts) + [ReplyTo(After(row, attempts), limit, a)]
  {}

  lemma {:induction false} IsolationHolds(t: Table, events: seq<Event>, tier: Tier, key: string)
    requires EventsOrdered(events) && events != []
    ensures var row := Lookup(t, Bucket(tier, key));
            var own := AttemptsOf(events, tier, key);
            && RepliesTo(t, events, tier, key) == Replies(row, LimitOf(tier), own)
            && SameFrom(Lookup(TableAfter(t, events), Bucket(tier, key)), After(row, own), events[|events| - 1].now)
  {
    var n := |events| - 1;
    var e, row, before := events[n], Lookup(t, Bucket(tier, key)), events[..n];
    if n > 0 { IsolationHolds(t, before, tier, key); }
    var here, own := TableAfter(t, before), AttemptsOf(before, tier, key);
    IsolationStep(here, After(row, own), if n == 0 then e.now else events[n - 1].now, e, tier, key);
    if IsFrom(e, tier, key) {
      AppendAttempt(row, LimitOf(tier), own, Attempt(e.now, e.backend));
    }
  }

  /**
   * A client's answers are those of a limiter that sees its requests alone: other
   * clients, the other tier and deletions of expired rows at any moments are invisible.
   */
  lemma Isolation(t: Table, events: seq<Event>, tier: Tier, key: string)
    requires EventsOrdered(events)
    ensures RepliesTo(t, events, tier, key)
         == Replies(Lookup(t, Bucket(tier, key)), LimitOf(tier), AttemptsOf(events, tier, key))
  {
    if events != [] { IsolationHolds(t, events, tier, key); }
  }

  // ---- The limiter that keeps the whole log ----

  /** When the current window of a log of counted requests began. */
  function WindowStart(log: seq<int>): int
    requires log != []
  {
    var n := |log| - 1;
    if n == 0 then log[0]
    else
      var s := WindowStart(log[..n]);
      if s + WINDOW < log[n] then log[n] else s
  }

  /** The logged requests of the current window. */
  ghost function InWindow(log: seq<int>): set<int>
    requires log != []
  {
    set i | 0 <= i < |log| && log[i] >= WindowStart(log)
  }

  ghost function LogCount(log: seq<int>): nat
    requires log != []
  {
    |InWindow(log)|
  }

  ghost predicate LogAccepts(log: seq<int>, a: Attempt) {
    !a.backend.Down? && LogCount(log + [a.now]) <= MAX_INTEGER
  }

  ghost function LogReply(log: seq<int>, limit: int, a: Attempt): Reply {
    if !LogAccepts(log, a) || a.backend.Silent? then FailedOpen
    else if LogCount(log + [a.now]) > limit then Denied
    else Admitted
  }

  /** The times of all requests counted so far. */
  ghost function Log(attempts: seq<Attempt>): seq<int> {
    if attempts == [] then []
    else
      var n := |attempts| - 1;
      var log := Log(attempts[..n]);
      if LogAccepts(log, attempts[n]) then log + [attempts[n].now] else log
  }

  ghost function LogReplies(limit: int, attempts: seq<Attempt>): seq<Reply> {
    if attempts == [] then []
    else
      var n := |attempts| - 1;
      LogReplies(limit, attempts[..n]) + [LogReply(Log(attempts[..n]), limit, attempts[n])]
  }

  /** The one row says what the whole log says. */
  ghost predicate Represents(row: Option<Row>, log: seq<int>) {
    match row
    case None => log == []
    case Some(r) =>
      && log != []
      && r.windowStart == WindowStart(log)
      && r.expiresAt == WindowStart(log) + WINDOW
      && r.count == LogCount(log)
      && (forall i :: 0 <= i < |log| ==> log[i] <= WindowStart(log) + WINDOW)
      && 1 <= r.count <= MAX_INTEGER
  }

  lemma LogGrows(row: Option<Row>, log: seq<int>, now: int)
    requires Represents(row, log)
    requires forall i :: 0 <= i < |log| ==> log[i] <= now
    ensures LogCount(log + [now]) <= MAX_INTEGER <==> Upserted(row, now).Some?
    ensures Upserted(row, now).Some? ==> Represents(Upserted(row, now), log + [now])
  {
    var grown := log + [now];
    assert grown[..|log|] == log;
    if row.None? || row.value.expiresAt < now {
      assert InWindow(grown) == {|log|};
    } else {
      assert InWindow(grown) == InWindow(log) + {|log|};
    }
  }

  lemma RefineStep(limit: int, row: Option<Row>, log: seq<int>, a: Attempt)
    requires Represents(row, log) && forall i :: 0 <= i < |log| ==> log[i] <= a.now
    ensures ReplyTo(row, limit, a) == LogReply(log, limit, a)
    ensures Represents(Next(row, a), if LogAccepts(log, a) then log + [a.now] else log)
  {
    if !a.backend.Down? { LogGrows(row, log, a.now); }
  }

  lemma AppendLog(limit: int, attempts: seq<Attempt>, a: Attempt)
    ensures Log(attempts + [a]) == if LogAccepts(Log(attempts), a) then Log(attempts) + [a.now] else Log(attempts)
    ensures LogReplies(limit, attempts + [a]) == LogReplies(limit, attempts) + [LogReply(Log(attempts), limit, a)]
  {
    assert (attempts + [a])[..|attempts|] == attempts;
  }

  /** What row and log have in common after a run. */
  ghost predicate Refines(limit: int, attempts: seq<Attempt>) {
    && Represents(After(None, attempts), Log(attempts))
    && Replies(None, limit, attempts) == LogReplies(limit, attempts)
    && forall i :: 0 <= i < |Log(attempts)| ==> attempts != [] && Log(attempts)[i] <= attempts[|attempts| - 1].now
  }

  lemma RefinesOneMore(limit: int, before: seq<Attempt>, a: Attempt)
    requires Refines(limit, before) && (before != [] ==> before[|before| - 1].now <= a.now)
    ensures Refines(limit, before + [a])
  {
    RefineStep(limit, After(None, before), Log(before), a);
    AppendAttempt(None, limit, before, a);
    AppendLog(limit, before, a);
  }

  /** One row per bucket answers exactly like a limiter keeping every counted request. */
  lemma {:induction false} RowRefinesLog(limit: int, attempts: seq<Attempt>)
    requires Ordered(attempts)
    ensures Represents(After(None, attempts), Log(attempts))
    ensures Replies(None, limit, attempts) == LogReplies(limit, attempts)
    ensures Refines(limit, attempts)
  {
    if attempts != [] {
      var n := |attempts| - 1;
      RowRefinesLog(limit, attempts[..n]);
      assert attempts == attempts[..n] + [attempts[n]];
      RefinesOneMore(limit, attempts[..n], attempts[n]);
    }
  }

  /** The starts of all windows a run has opened. */
  function WindowStarts(attempts: seq<Attempt>): seq<int> {
    if attempts == [] then []
    else
      var before := WindowStarts(attempts[..|attempts| - 1]);
      match After(None, attempts)
      case None => before
      case Some(row) =>
        if before != [] && before[|before| - 1] == row.windowStart then before else before + [row.windowStart]
  }

  /** Each window opens more than sixty seconds after the one before, whatever was refused meanwhile. */
  lemma {:induction false} WindowsAreApart(attempts: seq<Attempt>)
    ensures var starts, row := WindowStarts(attempts), After(None, attempts);
            && (forall i :: 0 < i < |starts| ==> starts[i] > starts[i - 1] + WINDOW)
            && (row.None? <==> starts == [])
            && (row.Some? ==> starts[|starts| - 1] == row.value.windowStart
                              && row.value.expiresAt == row.value.windowStart + WINDOW)
  {
    if attempts != [] { WindowsAreApart(attempts[..|attempts| - 1]); }
  }
}
