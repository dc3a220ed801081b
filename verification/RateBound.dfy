/** How much the rate limiter lets through in any interval (apps/api/lib/rate-limit.ts). */
module RateBound {
  import opened Options
  import opened RateLimit

  /** Requests admitted by a count, at a time from `from` to `to`. */
  function AdmittedIn(limit: int, attempts: seq<Attempt>, from: int, to: int): nat {
    if attempts == [] then 0
    else
      var n := |attempts| - 1;
      AdmittedIn(limit, attempts[..n], from, to)
      + if Replies(None, limit, attempts)[n] == Admitted && from <= attempts[n].now <= to then 1 else 0
  }

  function Min(a: int, b: int): int { if a < b then a else b }

  /** The number of whole minutes needed to cover `length` microseconds. */
  function Windows(length: nat): nat { (length + 59_999_999) / 60_000_000 }

  /** What can have been admitted since `from` while the current window is `row`. */
  function Quota(limit: int, row: Option<Row>, from: int): int {
    match row
    case None => 0
    case Some(r) =>
      if r.windowStart < from then Min(r.count, limit) - 1
      else limit * ((r.windowStart - from) / (WINDOW + 1)) + limit - 1 + Min(r.count, limit)
  }

  lemma {:induction false} NothingAdmittedYet(limit: int, attempts: seq<Attempt>, from: int, to: int)
    requires forall i :: 0 <= i < |attempts| ==> attempts[i].now < from
    ensures AdmittedIn(limit, attempts, from, to) == 0
  {
    if attempts != [] { NothingAdmittedYet(limit, attempts[..|attempts| - 1], from, to); }
  }

  lemma QuotaGrows(limit: int, row: Option<Row>, now: int, from: int)
    requires limit >= 1 && Upserted(row, now).Some?
    requires row.Some? ==> row.value.count >= 1 && row.value.expiresAt == row.value.windowStart + WINDOW
    requires from <= now
    ensures Quota(limit, row, from) <= Quota(limit, Upserted(row, now), from)
    ensures Upserted(row, now).value.count <= limit ==> Quota(limit, row, from) + 1 <= Quota(limit, Upserted(row, now), from)
  {
    if row.Some? && row.value.expiresAt < now {
      var s, w := row.value.windowStart, WINDOW + 1;
      if s >= from {
        var q, q' := (s - from) / w, (now - from) / w;
        assert q' >= q + 1 by { assert (s - from + w) / w == q + 1; }
        LimitTimes(limit, q, q');
      } else {
        LimitTimes(limit, 0, (now - from) / w);
      }
    }
  }

  lemma {:induction false} LimitTimes(limit: int, q: int, q': int)
    requires limit >= 1 && q <= q'
    ensures limit * q <= limit * q'
    ensures q < q' ==> limit * q + limit <= limit * q'
    decreases q' - q
  {
    if q < q' {
      LimitTimes(limit, q, q' - 1);
      assert limit * q' == limit * (q' - 1) + limit;
    }
  }

  ghost predicate IsWindow(row: Option<Row>, latest: int) {
    row.Some? ==>
      row.value.count >= 1 && row.value.windowStart <= latest
      && row.value.expiresAt == row.value.windowStart + WINDOW
  }

  lemma AppendAdmission(limit: int, attempts: seq<Attempt>, a: Attempt, from: int, to: int)
    ensures AdmittedIn(limit, attempts + [a], from, to) == AdmittedIn(limit, attempts, from, to)
            + if ReplyTo(After(None, attempts), limit, a) == Admitted && from <= a.now <= to then 1 else 0
  {}

  lemma {:induction false} WindowHolds(attempts: seq<Attempt>)
    requires Ordered(attempts) && attempts != []
    ensures IsWindow(After(None, attempts), attempts[|attempts| - 1].now)
  {
    if |attempts| > 1 { WindowHolds(attempts[..|attempts| - 1]); }
  }

  /** One more request stays within the quota if those before it did. */
  lemma QuotaStep(limit: int, before: seq<Attempt>, a: Attempt, from: int, to: int)
    requires limit >= 1 && from <= a.now <= to && IsWindow(After(None, before), a.now)
    requires AdmittedIn(limit, before, from, to) <= Quota(limit, After(None, before), from)
    ensures AdmittedIn(limit, before + [a], from, to) <= Quota(limit, After(None, before + [a]), from)
  {
    AppendAttempt(None, limit, before, a);
    AppendAdmission(limit, before, a, from, to);
    if Counted(After(None, before), a).Some? { QuotaGrows(limit, After(None, before), a.now, from); }
  }

  /** While the interval lasts, what it admitted stays within the quota of the current window. */
  lemma {:induction false} QuotaHolds(limit: int, attempts: seq<Attempt>, from: int, to: int)
    requires Ordered(attempts) && limit >= 1 && from <= to && attempts != []
    requires attempts[|attempts| - 1].now <= to
    ensures IsWindow(After(None, attempts), attempts[|attempts| - 1].now)
    ensures AdmittedIn(limit, attempts, from, to) <= Quota(limit, After(None, attempts), from)
  {
    var n := |attempts| - 1;
    var before := attempts[..n];
    assert attempts == before + [attempts[n]];
    WindowHolds(attempts);
    if attempts[n].now < from {
      NothingAdmittedYet(limit, attempts, from, to);
    } else {
      if n > 0 {
        WindowHolds(before);
        QuotaHolds(limit, before, from, to);
      }
      QuotaStep(limit, before, attempts[n], from, to);
    }
  }

  /** Requests after the interval add nothing to it. */
  lemma {:induction false} LaterRequestsDoNotCount(limit: int, attempts: seq<Attempt>, k: nat, from: int, to: int)
    requires k <= |attempts| && forall i :: k <= i < |attempts| ==> attempts[i].now > to
    ensures AdmittedIn(limit, attempts, from, to) == AdmittedIn(limit, attempts[..k], from, to)
  {
    if k < |attempts| {
      var n := |attempts| - 1;
      LaterRequestsDoNotCount(limit, attempts[..n], k, from, to);
      assert attempts[..n][..k] == attempts[..k];
    } else {
      assert attempts[..k] == attempts;
    }
  }

  lemma QuotaWithin(limit: int, row: Option<Row>, from: int, length: nat)
    requires limit >= 1 && length > 0 && IsWindow(row, from + length)
    ensures Quota(limit, row, from) <= limit * Windows(length) + limit - 1
  {
    LimitTimes(limit, 0, Windows(length));
    if row.Some? && row.value.windowStart >= from {
      var q := (row.value.windowStart - from) / (WINDOW + 1);
      assert q + 1 <= Windows(length);
      LimitTimes(limit, q, Windows(length));
    }
  }

  /**
   * Any closed interval of positive length admits, by count, fewer than `limit`
   * requests more than `limit` for each window needed to cover it.
   */
  lemma SlidingIntervalBound(limit: int, attempts: seq<Attempt>, from: int, length: nat)
    requires Ordered(attempts) && limit >= 1 && length > 0
    ensures AdmittedIn(limit, attempts, from, from + length) <= limit * Windows(length) + limit - 1
  {
    var to := from + length;
    var k := FirstAfter(attempts, to);
    LaterRequestsDoNotCount(limit, attempts, k, from, to);
    if k == 0 {
      LimitTimes(limit, 0, Windows(length));
    } else {
      QuotaHolds(limit, attempts[..k], from, to);
      QuotaWithin(limit, After(None, attempts[..k]), from, length);
    }
  }

  /** The index of the first attempt later than `to`. */
  ghost function FirstAfter(attempts: seq<Attempt>, to: int): (k: nat)
    requires Ordered(attempts)
    ensures k <= |attempts|
    ensures forall i :: 0 <= i < k ==> attempts[i].now <= to
    ensures forall i :: k <= i < |attempts| ==> attempts[i].now > to
  {
    if attempts == [] || attempts[|attempts| - 1].now <= to then |attempts|
    else FirstAfter(attempts[..|attempts| - 1], to)
  }

  /** In any sixty seconds: at most 199 on the API tier and 19 on the auth tier. */
  lemma AnyMinute(attempts: seq<Attempt>, from: int)
    requires Ordered(attempts)
    ensures AdmittedIn(LimitOf(Api), attempts, from, from + 60_000_000) <= 199
    ensures AdmittedIn(LimitOf(Auth), attempts, from, from + 60_000_000) <= 19
  {
    SlidingIntervalBound(LimitOf(Api), attempts, from, 60_000_000);
    SlidingIntervalBound(LimitOf(Auth), attempts, from, 60_000_000);
  }

  // ---- The same bound for one client among all ----

  /** How many of these replies are admissions at a time from `from` to `to`. */
  function AdmissionsIn(replies: seq<Reply>, attempts: seq<Attempt>, from: int, to: int): nat
    requires |replies| == |attempts|
  {
    if attempts == [] then 0
    else
      var n := |attempts| - 1;
      AdmissionsIn(replies[..n], attempts[..n], from, to)
      + if replies[n] == Admitted && from <= attempts[n].now <= to then 1 else 0
  }

  lemma {:induction false} AdmittedAreAdmissions(limit: int, attempts: seq<Attempt>, from: int, to: int)
    ensures AdmittedIn(limit, attempts, from, to) == AdmissionsIn(Replies(None, limit, attempts), attempts, from, to)
  {
    if attempts != [] {
      var n := |attempts| - 1;
      AdmittedAreAdmissions(limit, attempts[..n], from, to);
      assert Replies(None, limit, attempts)[..n] == Replies(None, limit, attempts[..n]);
    }
  }

  lemma {:induction false} AttemptsAreOrdered(events: seq<Event>, tier: Tier, key: string)
    requires EventsOrdered(events)
    ensures Ordered(AttemptsOf(events, tier, key))
    ensures forall i :: 0 <= i < |AttemptsOf(events, tier, key)| ==>
              events != [] && AttemptsOf(events, tier, key)[i].now <= events[|events| - 1].now
  {
    if events != [] {
      var n := |events| - 1;
      AttemptsAreOrdered(events[..n], tier, key);
      assert n > 0 ==> events[..n][n - 1].now <= events[n].now;
    }
  }

  /** Whatever else happens on the table, a client's counted admissions stay within the bound of its tier. */
  lemma ClientBound(events: seq<Event>, tier: Tier, key: string, from: int, length: nat)
    requires EventsOrdered(events) && length > 0
    ensures var replies, own, limit := RepliesTo(map[], events, tier, key), AttemptsOf(events, tier, key), LimitOf(tier);
            && |replies| == |own|
            && AdmissionsIn(replies, own, from, from + length) <= limit * Windows(length) + limit - 1
  {
    Isolation(map[], events, tier, key);
    AttemptsAreOrdered(events, tier, key);
    AdmittedAreAdmissions(LimitOf(tier), AttemptsOf(events, tier, key), from, from + length);
    SlidingIntervalBound(LimitOf(tier), AttemptsOf(events, tier, key), from, length);
  }

  // ---- The bound is reached ----

  function Burst(now: int, n: nat): (r: seq<Attempt>)
    ensures |r| == n && forall i :: 0 <= i < n ==> r[i] == Attempt(now, Answers)
  {
    seq(n, _ => Attempt(now, Answers))
  }

  lemma BurstStep(before: seq<Attempt>, now: int, n: nat)
    requires n > 0
    ensures before + Burst(now, n) == (before + Burst(now, n - 1)) + [Attempt(now, Answers)]
  {}

  function Grown(row: Row, n: nat): Row { row.(count := row.count + n) }

  lemma {:induction false} BurstIsCounted(before: seq<Attempt>, row: Row, now: int, n: nat)
    requires After(None, before) == Some(row) && now <= row.expiresAt && row.count + n <= MAX_INTEGER
    ensures After(None, before + Burst(now, n)) == Some(Grown(row, n))
  {
    if n == 0 {
      assert before + Burst(now, 0) == before;
    } else {
      BurstIsCounted(before, row, now, n - 1);
      BurstStep(before, now, n);
      AppendAttempt(None, 0, before + Burst(now, n - 1), Attempt(now, Answers));
    }
  }

  lemma {:induction false} BurstIsAdmitted(limit: int, before: seq<Attempt>, row: Row, now: int, n: nat, from: int, to: int)
    requires After(None, before) == Some(row) && limit <= MAX_INTEGER
    requires now <= row.expiresAt && row.count + n <= limit && from <= now <= to
    ensures AdmittedIn(limit, before + Burst(now, n), from, to) == AdmittedIn(limit, before, from, to) + n
  {
    if n == 0 {
      assert before + Burst(now, 0) == before;
    } else {
      BurstIsAdmitted(limit, before, row, now, n - 1, from, to);
      BurstIsCounted(before, row, now, n - 1);
      BurstStep(before, now, n);
      AppendAdmission(limit, before + Burst(now, n - 1), Attempt(now, Answers), from, to);
    }
  }

  /** One request opens a window, the rest of it comes at its end. */
  function FirstWindow(limit: nat): seq<Attempt>
    requires limit >= 1
  {
    [Attempt(0, Answers)] + Burst(WINDOW, limit - 1)
  }

  /** And a whole new window comes right after. */
  function WorstCase(limit: nat): (r: seq<Attempt>)
    requires limit >= 1
    ensures Ordered(r)
  {
    (FirstWindow(limit) + [Attempt(WINDOW + 1, Answers)]) + Burst(WINDOW + 1, limit - 1)
  }

  lemma OneAttempt(limit: int, a: Attempt, from: int, to: int)
    requires limit >= 1 && a.backend.Answers? && a.now < from
    ensures After(None, [a]) == Some(Row(1, a.now, a.now + WINDOW))
    ensures AdmittedIn(limit, [a], from, to) == 0
  {
    assert [] + [a] == [a];
    AppendAttempt(None, limit, [], a);
    AppendAdmission(limit, [], a, from, to);
  }

  lemma FirstWindowIsFull(limit: nat)
    requires 1 <= limit <= MAX_INTEGER
    ensures After(None, FirstWindow(limit)) == Some(Row(limit, 0, WINDOW))
  {
    OneAttempt(limit, Attempt(0, Answers), WINDOW, WINDOW + 1);
    BurstIsCounted([Attempt(0, Answers)], Row(1, 0, WINDOW), WINDOW, limit - 1);
  }

  lemma FirstWindowAdmits(limit: nat)
    requires 1 <= limit <= MAX_INTEGER
    ensures AdmittedIn(limit, FirstWindow(limit), WINDOW, WINDOW + 1) == limit - 1
  {
    OneAttempt(limit, Attempt(0, Answers), WINDOW, WINDOW + 1);
    BurstIsAdmitted(limit, [Attempt(0, Answers)], Row(1, 0, WINDOW), WINDOW, limit - 1, WINDOW, WINDOW + 1);
  }

  /** For every limit some history lets `2 * limit - 1` requests through within a microsecond. */
  lemma BoundIsReached(limit: nat)
    requires 1 <= limit <= MAX_INTEGER
    ensures AdmittedIn(limit, WorstCase(limit), 60_000_000, 60_000_001) == 2 * limit - 1
  {
    var to := WINDOW + 1;
    var half, next := FirstWindow(limit), Attempt(to, Answers);
    FirstWindowIsFull(limit);
    FirstWindowAdmits(limit);
    AppendAttempt(None, limit, half, next);
    AppendAdmission(limit, half, next, WINDOW, to);
    BurstIsAdmitted(limit, half + [next], Row(1, to, to + WINDOW), to, limit - 1, WINDOW, to);
  }

  /** So the bounds of the two tiers are reached. */
  lemma TierBoundsAreReached()
    ensures AdmittedIn(LimitOf(Api), WorstCase(100), 60_000_000, 60_000_001) == 199
    ensures AdmittedIn(LimitOf(Auth), WorstCase(10), 60_000_000, 60_000_001) == 19
  {
    BoundIsReached(100);
    BoundIsReached(10);
  }

  /** After as many requests as the counter can hold, the next one in the window is let through. */
  lemma FullCounterAdmits(limit: int, start: int, now: int, n: nat)
    requires n == 2_147_483_646 && start <= now <= start + 60_000_000
    ensures var row := After(None, [Attempt(start, Answers)] + Burst(start, n));
            && row == Some(Row(2_147_483_647, start, start + 60_000_000))
            && ReplyTo(row, limit, Attempt(now, Answers)) == FailedOpen
            && Next(row, Attempt(now, Answers)) == row
  {
    var first := Attempt(start, Answers);
    assert [] + [first] == [first];
    AppendAttempt(None, limit, [], first);
    BurstIsCounted([first], Row(1, start, start + WINDOW), start, n);
  }

  // ---- Nobody is refused for less ----

  lemma {:induction false} ReplyAt(row: Option<Row>, limit: int, attempts: seq<Attempt>, n: nat)
    requires n < |attempts|
    ensures Replies(row, limit, attempts)[n] == ReplyTo(After(row, attempts[..n]), limit, attempts[n])
    decreases |attempts|
  {
    if n < |attempts| - 1 {
      ReplyAt(row, limit, attempts[..|attempts| - 1], n);
      assert attempts[..|attempts| - 1][..n] == attempts[..n];
    }
  }

  /** The requests that reached the database since `from`. */
  ghost function RunSince(attempts: seq<Attempt>, from: int): set<nat> {
    set i: nat | i < |attempts| && !attempts[i].backend.Down? && attempts[i].now >= from
  }

  lemma RunSinceOneMore(attempts: seq<Attempt>, from: int)
    requires attempts != []
    ensures var n := |attempts| - 1;
            && RunSince(attempts, from) == RunSince(attempts[..n], from)
               + (if !attempts[n].backend.Down? && attempts[n].now >= from then {n} else {})
            && n !in RunSince(attempts[..n], from)
  {}

  /** The count of a window is of requests made in it. */
  lemma {:induction false} CountIsOfRequests(attempts: seq<Attempt>)
    requires Ordered(attempts) && After(None, attempts).Some?
    ensures var row := After(None, attempts).value;
            && row.count <= |RunSince(attempts, row.windowStart)|
            && row.expiresAt == row.windowStart + 60_000_000
  {
    var n := |attempts| - 1;
    var before, after := After(None, attempts[..n]), After(None, attempts);
    WindowHolds(attempts);
    RunSinceOneMore(attempts, after.value.windowStart);
    if before.Some? { CountIsOfRequests(attempts[..n]); }
  }

  /**
   * A request is refused only if the backend answered and at least `limit` requests of
   * the same client had reached it within the sixty seconds before.
   */
  lemma RefusedOnlyWhenBusy(limit: int, attempts: seq<Attempt>, n: nat)
    requires Ordered(attempts) && n < |attempts| && Replies(None, limit, attempts)[n] == Denied
    ensures attempts[n].backend == Answers
    ensures |RunSince(attempts[..n], attempts[n].now - 60_000_000)| >= limit
  {
    ReplyAt(None, limit, attempts, n);
    var before, from := After(None, attempts[..n]), attempts[n].now - 60_000_000;
    if limit >= 1 {
      CountIsOfRequests(attempts[..n]);
      assert RunSince(attempts[..n], before.value.windowStart) <= RunSince(attempts[..n], from);
      Subset(RunSince(attempts[..n], before.value.windowStart), RunSince(attempts[..n], from));
    }
  }

  lemma Subset(part: set<nat>, whole: set<nat>)
    requires part <= whole
    ensures |part| <= |whole|
  {
    assert whole == part + (whole - part);
  }
}
