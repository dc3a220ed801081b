/**
 * The service-to-service token cache (apps/api/gateway/token-cache.ts).
 *
 * The code between two awaits runs as one step. Times are milliseconds on a clock that
 * does not go back; a fetch is identified by the number of fetches started before it.
 */
module TokenCache {
  import opened Options

  const EXPIRY_BUFFER_MS: int := 60_000
  const DEFAULT_TTL_SECONDS: int := 3600

  datatype CachedToken = CachedToken(token: string, expiresAt: int)

  /** What a call of `getAccessToken` does before its first await. */
  datatype Decision = Serve(token: string) | Join(fetch: nat) | Begin

  function Decide(cached: Option<CachedToken>, inflight: Option<nat>, now: int): Decision {
    if cached.Some? && cached.value.expiresAt - EXPIRY_BUFFER_MS > now then Serve(cached.value.token)
    else if inflight.Some? then Join(inflight.value)
    else Begin
  }

  /** The token endpoint's answer; `None` is a refused or failed request. */
  datatype Response = Response(token: string, expiresIn: Option<int>)

  function LifetimeMs(r: Response): int {
    (if r.expiresIn.Some? then r.expiresIn.value else DEFAULT_TTL_SECONDS) * 1000
  }

  function Remembered(r: Response, now: int): CachedToken {
    CachedToken(r.token, now + LifetimeMs(r))
  }

  /** The module variables and the code that changes them. */
  class Cache {
    var cached: Option<CachedToken>
    var inflight: Option<nat>

    /** `newFetch` is the request that starts if one must. */
    method GetAccessToken(now: int, newFetch: nat) returns (d: Decision)
      modifies this
      ensures d == Decide(old(cached), old(inflight), now)
      ensures cached == old(cached)
      ensures inflight == if d.Begin? then Some(newFetch) else old(inflight)
    {
      if cached.Some? && cached.value.expiresAt - EXPIRY_BUFFER_MS > now {
        return Serve(cached.value.token);
      }
      if inflight.Some? { return Join(inflight.value); }
      inflight := Some(newFetch);
      return Begin;
    }

    /** The end of `fetchToken`. */
    method OnResponse(r: Option<Response>, now: int) returns (outcome: Option<string>)
      modifies this
      ensures inflight == old(inflight)
      ensures cached == if r.Some? then Some(Remembered(r.value, now)) else old(cached)
      ensures outcome == if r.Some? then Some(r.value.token) else None
    {
      if r.None? { return None; }
      var ttlMs := (if r.value.expiresIn.Some? then r.value.expiresIn.value else DEFAULT_TTL_SECONDS) * 1000;
      cached := Some(CachedToken(r.value.token, now + ttlMs));
      return Some(r.value.token);
    }

    /** The `finally` handler: it clears whatever request is registered. */
    method OnFinally()
      modifies this
      ensures inflight == None && cached == old(cached)
    {
      inflight := None;
    }

    method Reset()
      modifies this
      ensures cached == None && inflight == None
    {
      cached := None;
      inflight := None;
    }
  }

  // ---- Interleavings ----

  /** A success keeps when it came and what the endpoint said of the token's lifetime. */
  datatype Outcome = Token(cached: CachedToken, at: int, expiresIn: Option<int>) | Failure

  /** A request is pending until it is answered and settling until its `finally` has run. */
  datatype Fetch =
    | Pending(startedAt: int)
    | Settling(startedAt: int, outcome: Outcome)
    | Settled(startedAt: int, outcome: Outcome)

  predicate Succeeded(f: Fetch) {
    !f.Pending? && f.outcome.Token?
  }

  datatype Caller =
    | Waiting(fetch: nat)
    | Returned(fetch: nat, outcome: Outcome)
    | Served(token: string, at: int)

  datatype State = State(
    now: int, cached: Option<CachedToken>, inflight: Option<nat>,
    fetches: seq<Fetch>, callers: map<nat, Caller>, resets: nat)

  datatype Action =
    | Call(caller: nat)
    | Answer(fetch: nat, response: Option<Response>)
    | Finally(fetch: nat)
    | Resume(caller: nat)
    | Reset
    | Tick(ms: nat)

  const Initial: State := State(0, None, None, [], map[], 0)

  predicate CanResume(s: State, c: nat) {
    c in s.callers && s.callers[c].Waiting? && s.callers[c].fetch < |s.fetches| && s.fetches[s.callers[c].fetch].Settled?
  }

  predicate Enabled(s: State, a: Action) {
    match a
    case Call(c) => c !in s.callers
    case Answer(f, _) => f < |s.fetches| && s.fetches[f].Pending?
    case Finally(f) => f < |s.fetches| && s.fetches[f].Settling?
    case Resume(c) => CanResume(s, c)
    case Reset => true
    case Tick(_) => true
  }

  function OutcomeOf(response: Option<Response>, now: int): Outcome {
    if response.Some? then Token(Remembered(response.value, now), now, response.value.expiresIn) else Failure
  }

  function Step(s: State, a: Action): State
    requires Enabled(s, a)
  {
    match a
    case Call(c) =>
      (match Decide(s.cached, s.inflight, s.now)
       case Serve(token) => s.(callers := s.callers[c := Served(token, s.now)])
       case Join(f) => s.(callers := s.callers[c := Waiting(f)])
       case Begin =>
         s.(inflight := Some(|s.fetches|), fetches := s.fetches + [Pending(s.now)],
            callers := s.callers[c := Waiting(|s.fetches|)]))
    case Answer(f, response) =>
      s.(fetches := s.fetches[f := Settling(s.fetches[f].startedAt, OutcomeOf(response, s.now))],
         cached := if response.Some? then Some(Remembered(response.value, s.now)) else s.cached)
    case Finally(f) =>
      s.(fetches := s.fetches[f := Settled(s.fetches[f].startedAt, s.fetches[f].outcome)], inflight := None)
    case Resume(c) =>
      s.(callers := s.callers[c := Returned(s.callers[c].fetch, s.fetches[s.callers[c].fetch].outcome)])
    case Reset => s.(cached := None, inflight := None, resets := s.resets + 1)
    case Tick(ms) => s.(now := s.now + ms)
  }

  ghost predicate Leads(s: State, actions: seq<Action>, s': State)
    decreases |actions|
  {
    if actions == [] then s' == s
    else Enabled(s, actions[0]) && Leads(Step(s, actions[0]), actions[1..], s')
  }

  ghost predicate Reachable(s: State) {
    exists actions :: Leads(Initial, actions, s)
  }

  /** Requests whose `finally` has not run. */
  ghost function Outstanding(fetches: seq<Fetch>): set<nat> {
    set f | 0 <= f < |fetches| && !fetches[f].Settled?
  }

  /** Outstanding requests that no later call can join. */
  ghost function Orphans(fetches: seq<Fetch>, inflight: Option<nat>): set<nat> {
    Outstanding(fetches) - if inflight.Some? then {inflight.value} else {}
  }

  // ---- How many requests ----

  ghost predicate Counted(s: State) {
    && (s.inflight.Some? ==> s.inflight.value in Outstanding(s.fetches))
    && |Orphans(s.fetches, s.inflight)| <= s.resets
  }

  lemma BeginOutstanding(fetches: seq<Fetch>, inflight: Option<nat>, f: Fetch)
    requires inflight.None? && f.Pending?
    ensures Orphans(fetches + [f], Some(|fetches|)) == Orphans(fetches, inflight)
    ensures |fetches| in Outstanding(fetches + [f])
  {}

  lemma AnswerOutstanding(fetches: seq<Fetch>, f: nat, settling: Fetch)
    requires f < |fetches| && fetches[f].Pending? && settling.Settling?
    ensures Outstanding(fetches[f := settling]) == Outstanding(fetches)
  {}

  lemma SwapOne(whole: set<nat>, leaves: nat, comes: nat)
    requires leaves in whole && comes !in whole
    ensures |whole - {leaves} + {comes}| == |whole|
  {}

  lemma FinishOutstanding(fetches: seq<Fetch>, f: nat, settled: Fetch)
    requires f < |fetches| && fetches[f].Settling? && settled.Settled?
    ensures Outstanding(fetches[f := settled]) == Outstanding(fetches) - {f} && f in Outstanding(fetches)
  {}

  /** One request leaves; if another was registered, that one takes its place among the orphans. */
  lemma FinallyOutstanding(s: State, f: nat, settled: Fetch)
    requires Counted(s) && f < |s.fetches| && s.fetches[f].Settling? && settled.Settled?
    ensures |Orphans(s.fetches[f := settled], None)| <= s.resets
  {
    FinishOutstanding(s.fetches, f, settled);
    var orphans, after := Orphans(s.fetches, s.inflight), Orphans(s.fetches[f := settled], None);
    if s.inflight.Some? && s.inflight.value != f {
      SwapOne(orphans, f, s.inflight.value);
      assert after == orphans - {f} + {s.inflight.value};
    } else {
      assert after == orphans - {f};
    }
  }

  lemma ResetOutstanding(s: State)
    requires Counted(s)
    ensures Counted(Step(s, Reset))
  {}

  lemma CountedKeeps(s: State, a: Action)
    requires Counted(s) && Enabled(s, a)
    ensures Counted(Step(s, a))
  {
    match a
    case Call(_) =>
      if Decide(s.cached, s.inflight, s.now).Begin? { BeginOutstanding(s.fetches, s.inflight, Pending(s.now)); }
    case Answer(f, _) => AnswerOutstanding(s.fetches, f, Step(s, a).fetches[f]);
    case Finally(f) => FinallyOutstanding(s, f, Step(s, a).fetches[f]);
    case Reset => ResetOutstanding(s);
    case _ =>
  }

  // ---- Which token ----

  /** Request `f` brought this token. */
  predicate Brought(fetches: seq<Fetch>, f: nat, cached: CachedToken) {
    f < |fetches| && Succeeded(fetches[f]) && fetches[f].outcome.cached == cached
  }

  ghost predicate CallerOk(fetches: seq<Fetch>, c: Caller) {
    match c
    case Waiting(f) => f < |fetches|
    case Returned(f, outcome) => f < |fetches| && fetches[f].Settled? && fetches[f].outcome == outcome
    case Served(token, at) =>
      exists f, expiresAt :: Brought(fetches, f, CachedToken(token, expiresAt)) && expiresAt - at > EXPIRY_BUFFER_MS
  }

  ghost predicate Sourced(s: State) {
    && (forall c :: c in s.callers ==> CallerOk(s.fetches, s.callers[c]))
    && (s.cached.Some? ==> exists f :: Brought(s.fetches, f, s.cached.value))
    && (s.inflight.Some? ==> s.inflight.value < |s.fetches|)
  }

  /** Outcomes are final. */
  ghost predicate Grows(fetches: seq<Fetch>, fetches': seq<Fetch>) {
    && |fetches| <= |fetches'|
    && forall f :: 0 <= f < |fetches| ==>
         && fetches'[f].startedAt == fetches[f].startedAt
         && (!fetches[f].Pending? ==> !fetches'[f].Pending? && fetches'[f].outcome == fetches[f].outcome)
         && (fetches[f].Settled? ==> fetches'[f].Settled?)
  }

  lemma CallersStay(s: State, fetches': seq<Fetch>)
    requires Sourced(s) && Grows(s.fetches, fetches')
    ensures forall c :: c in s.callers ==> CallerOk(fetches', s.callers[c])
    ensures s.cached.Some? ==> exists f :: Brought(fetches', f, s.cached.value)
  {
    forall c | c in s.callers ensures CallerOk(fetches', s.callers[c]) {
      assert CallerOk(s.fetches, s.callers[c]);
      if s.callers[c].Served? {
        var f, expiresAt :| Brought(s.fetches, f, CachedToken(s.callers[c].token, expiresAt))
                            && expiresAt - s.callers[c].at > EXPIRY_BUFFER_MS;
        assert Brought(fetches', f, CachedToken(s.callers[c].token, expiresAt));
      }
    }
    if s.cached.Some? {
      var f :| Brought(s.fetches, f, s.cached.value);
      assert Brought(fetches', f, s.cached.value);
    }
  }

  lemma SourcedKeeps(s: State, a: Action)
    requires Sourced(s) && Enabled(s, a)
    ensures Sourced(Step(s, a)) && Grows(s.fetches, Step(s, a).fetches)
  {
    var s' := Step(s, a);
    CallersStay(s, s'.fetches);
    match a
    case Call(c) =>
      if s'.callers[c].Served? {
        var f :| Brought(s.fetches, f, s.cached.value);
        assert s.cached.value == CachedToken(s.cached.value.token, s.cached.value.expiresAt);
      }
    case Answer(f, response) =>
      if response.Some? { assert Brought(s'.fetches, f, s'.cached.value); }
    case _ =>
  }

  // ---- When requests start, without resets ----

  ghost predicate BroughtLast(fetches: seq<Fetch>, f: nat, cached: CachedToken) {
    Brought(fetches, f, cached) && forall g :: f < g < |fetches| ==> !Succeeded(fetches[g])
  }

  /** The last request to succeed, if any, is the one whose token is cached. */
  ghost predicate CachesLast(fetches: seq<Fetch>, cached: Option<CachedToken>) {
    match cached
    case None => forall f :: 0 <= f < |fetches| ==> !Succeeded(fetches[f])
    case Some(c) => exists f :: BroughtLast(fetches, f, c)
  }

  /** The lifetime in milliseconds: what the endpoint stated in seconds, or an hour. */
  function StatedMs(expiresIn: Option<int>): int {
    match expiresIn
    case Some(seconds) => 1000 * seconds
    case None => 3_600_000
  }

  /** Requests never overlap, and after a success none starts before its token is due. */
  ghost predicate Spaced(fetches: seq<Fetch>, now: int) {
    && (forall f :: 0 <= f < |fetches| ==> fetches[f].startedAt <= now)
    && (forall f :: 0 <= f < |fetches| && Succeeded(fetches[f]) ==>
          && fetches[f].startedAt <= fetches[f].outcome.at <= now
          && fetches[f].outcome.cached.expiresAt == fetches[f].outcome.at + StatedMs(fetches[f].outcome.expiresIn))
    && (forall f :: 0 <= f < |fetches| - 1 ==> fetches[f].Settled?)
    && (forall f, g :: 0 <= f < g < |fetches| ==> fetches[f].startedAt <= fetches[g].startedAt)
    && (forall f, g :: 0 <= f < g < |fetches| && Succeeded(fetches[f]) ==>
          fetches[g].startedAt >= fetches[f].outcome.cached.expiresAt - EXPIRY_BUFFER_MS)
  }

  ghost predicate Timely(s: State) {
    s.resets == 0 ==>
      && Spaced(s.fetches, s.now) && CachesLast(s.fetches, s.cached)
      && (s.inflight.None? ==> forall f :: 0 <= f < |s.fetches| ==> s.fetches[f].Settled?)
  }

  lemma DueSince(fetches: seq<Fetch>, cached: Option<CachedToken>, now: int, f: nat)
    requires Spaced(fetches, now) && CachesLast(fetches, cached)
    requires cached.Some? ==> cached.value.expiresAt - EXPIRY_BUFFER_MS <= now
    requires f < |fetches| && Succeeded(fetches[f])
    ensures now >= fetches[f].outcome.cached.expiresAt - EXPIRY_BUFFER_MS
  {}

  lemma BeginIsTimely(s: State, c: nat)
    requires s.resets == 0 && Timely(s) && c !in s.callers && Decide(s.cached, s.inflight, s.now).Begin?
    ensures Timely(Step(s, Call(c)))
  {
    var fetches' := s.fetches + [Pending(s.now)];
    forall f | 0 <= f < |s.fetches| && Succeeded(s.fetches[f])
      ensures s.now >= s.fetches[f].outcome.cached.expiresAt - EXPIRY_BUFFER_MS
    {
      DueSince(s.fetches, s.cached, s.now, f);
    }
    assert Spaced(fetches', s.now);
    if s.cached.Some? {
      var last: nat :| BroughtLast(s.fetches, last, s.cached.value);
      assert BroughtLast(fetches', last, s.cached.value);
    }
  }

  /** Without resets the unsettled request is the newest. */
  lemma NewestIsOpen(s: State, f: nat)
    requires s.resets == 0 && Timely(s) && f < |s.fetches| && !s.fetches[f].Settled?
    ensures f == |s.fetches| - 1
  {}

  lemma AnswerIsTimely(s: State, f: nat, response: Option<Response>)
    requires s.resets == 0 && Timely(s) && Enabled(s, Answer(f, response))
    ensures Timely(Step(s, Answer(f, response)))
  {
    var s' := Step(s, Answer(f, response));
    NewestIsOpen(s, f);
    if response.Some? {
      assert BroughtLast(s'.fetches, f, s'.cached.value);
    } else if s.cached.Some? {
      var last: nat :| BroughtLast(s.fetches, last, s.cached.value);
      assert BroughtLast(s'.fetches, last, s.cached.value);
    }
  }

  lemma FinallyIsTimely(s: State, f: nat)
    requires s.resets == 0 && Timely(s) && Enabled(s, Finally(f))
    ensures Timely(Step(s, Finally(f)))
  {
    var s' := Step(s, Finally(f));
    NewestIsOpen(s, f);
    assert Spaced(s'.fetches, s.now);
    if s.cached.Some? {
      var last: nat :| BroughtLast(s.fetches, last, s.cached.value);
      assert BroughtLast(s'.fetches, last, s.cached.value);
    }
  }

  lemma TimelyKeeps(s: State, a: Action)
    requires Timely(s) && Enabled(s, a)
    ensures Timely(Step(s, a))
  {
    if s.resets == 0 {
      match a
      case Call(c) => if Decide(s.cached, s.inflight, s.now).Begin? { BeginIsTimely(s, c); }
      case Answer(f, response) => AnswerIsTimely(s, f, response);
      case Finally(f) => FinallyIsTimely(s, f);
      case _ =>
    }
  }

  // ---- What holds in every interleaving ----

  lemma {:induction false} RunKeeps(s: State, actions: seq<Action>, s': State)
    requires Counted(s) && Sourced(s) && Timely(s) && Leads(s, actions, s')
    ensures Counted(s') && Sourced(s') && Timely(s')
    decreases |actions|
  {
    if actions != [] {
      CountedKeeps(s, actions[0]);
      SourcedKeeps(s, actions[0]);
      TimelyKeeps(s, actions[0]);
      RunKeeps(Step(s, actions[0]), actions[1..], s');
    }
  }

  lemma ReachableKeeps(s: State)
    requires Reachable(s)
    ensures Counted(s) && Sourced(s) && Timely(s)
  {
    var actions :| Leads(Initial, actions, s);
    assert Orphans(Initial.fetches, None) == {};
    RunKeeps(Initial, actions, s);
  }

  /** At most one request is outstanding, and one more per reset. */
  lemma OutstandingRequests(s: State)
    requires Reachable(s)
    ensures |Outstanding(s.fetches)| <= 1 + s.resets
  {
    ReachableKeeps(s);
    var orphans := Orphans(s.fetches, s.inflight);
    if s.inflight.Some? {
      assert Outstanding(s.fetches) == orphans + {s.inflight.value};
    } else {
      assert Outstanding(s.fetches) == orphans;
    }
  }

  /** The registered request is outstanding: no caller joins one that is over. */
  lemma RegisteredIsOutstanding(s: State)
    requires Reachable(s) && s.inflight.Some?
    ensures s.inflight.value < |s.fetches| && !s.fetches[s.inflight.value].Settled?
  {
    ReachableKeeps(s);
  }

  /** A reset during a request lets a second one start beside it. */
  lemma ResetBreaksSingleFlight()
    ensures exists s :: Reachable(s) && s.resets == 1 && |Outstanding(s.fetches)| == 2
  {
    var s1 := Step(Initial, Call(0));
    var s2 := Step(s1, Reset);
    var s3 := Step(s2, Call(1));
    var actions := [Call(0), Reset, Call(1)];
    assert actions[1..] == [Reset, Call(1)] && actions[1..][1..] == [Call(1)];
    assert Leads(s3, [], s3);
    assert Leads(s2, [Call(1)], s3) by { assert [Call(1)][1..] == []; }
    assert Leads(s1, [Reset, Call(1)], s3);
    assert Leads(Initial, actions, s3);
    assert Outstanding(s3.fetches) == {0, 1};
  }

  /** All callers that waited for one request leave with the same token or the same failure. */
  lemma JoinersAgree(s: State, c: nat, d: nat)
    requires Reachable(s) && c in s.callers && d in s.callers
    requires s.callers[c].Returned? && s.callers[d].Returned? && s.callers[c].fetch == s.callers[d].fetch
    ensures s.callers[c].outcome == s.callers[d].outcome
  {
    ReachableKeeps(s);
    assert CallerOk(s.fetches, s.callers[c]) && CallerOk(s.fetches, s.callers[d]);
  }

  /** Without resets, all callers waiting for an unsettled request wait for the same one. */
  lemma WaitersShareOneRequest(s: State, c: nat, d: nat)
    requires Reachable(s) && s.resets == 0 && c in s.callers && d in s.callers
    requires s.callers[c].Waiting? && s.callers[d].Waiting?
    requires {s.callers[c].fetch, s.callers[d].fetch} <= Outstanding(s.fetches)
    ensures s.callers[c].fetch == s.callers[d].fetch && s.inflight == Some(s.callers[c].fetch)
  {
    ReachableKeeps(s);
    var f, g := s.callers[c].fetch, s.callers[d].fetch;
    assert f !in Orphans(s.fetches, s.inflight) && g !in Orphans(s.fetches, s.inflight);
  }

  /** Resets or not, a token served from the cache was fetched and had more than sixty seconds left. */
  lemma ServedTokensAreFresh(s: State, c: nat)
    requires Reachable(s) && c in s.callers && s.callers[c].Served?
    ensures exists f :: 0 <= f < |s.fetches| && Succeeded(s.fetches[f])
              && s.fetches[f].outcome.cached.token == s.callers[c].token
              && s.fetches[f].outcome.cached.expiresAt - s.callers[c].at > 60_000
  {
    ReachableKeeps(s);
    assert CallerOk(s.fetches, s.callers[c]);
  }

  /**
   * Without resets, requests never overlap, and after a success the next one starts at
   * most sixty seconds before that token expires: its lifetime less sixty seconds later.
   */
  lemma RequestsAreSpaced(s: State, f: nat, g: nat)
    requires Reachable(s) && s.resets == 0 && f < g < |s.fetches|
    ensures s.fetches[f].Settled?
    ensures Succeeded(s.fetches[f]) ==>
              && s.fetches[g].startedAt >= s.fetches[f].outcome.cached.expiresAt - 60_000
              && s.fetches[g].startedAt - s.fetches[f].startedAt >= StatedMs(s.fetches[f].outcome.expiresIn) - 60_000
  {
    ReachableKeeps(s);
  }

  // ---- What a caller gets ----

  /**
   * Whenever its request is answered, a waiting caller gets the token of the answer, and
   * the cache keeps it with the stated lifetime; a failed request gives it the failure.
   */
  lemma WaiterGetsTheAnswer(s: State, c: nat, response: Option<Response>)
    requires Reachable(s) && c in s.callers && s.callers[c].Waiting?
    requires s.callers[c].fetch < |s.fetches| ==> s.fetches[s.callers[c].fetch].Pending?
    ensures var f := s.callers[c].fetch;
            && Enabled(s, Answer(f, response))
            && var answered := Step(s, Answer(f, response));
            && Enabled(answered, Finally(f))
            && var settled := Step(answered, Finally(f));
            && Enabled(settled, Resume(c))
            && var s' := Step(settled, Resume(c));
            && s'.inflight.None?
            && match response
               case Some(r) =>
                 var token := CachedToken(r.token, s.now + StatedMs(r.expiresIn));
                 s'.cached == Some(token) && s'.callers[c] == Returned(f, Token(token, s.now, r.expiresIn))
               case None => s'.cached == s.cached && s'.callers[c] == Returned(f, Failure)
  {
    ReachableKeeps(s);
    assert CallerOk(s.fetches, s.callers[c]);
  }

  /**
   * A cached token is served as long as more than sixty seconds of it are left. From then
   * on, or without one, a call waits for the registered request or starts one.
   */
  lemma CallAfter(s: State, ms: nat, c: nat)
    requires Reachable(s) && c !in s.callers
    ensures var s' := Step(s, Tick(ms));
            && Enabled(s', Call(c))
            && var called, now := Step(s', Call(c)), s.now + ms;
            && called.cached == s.cached && called.now == now && called.callers.Keys == s.callers.Keys + {c}
            && if s.cached.Some? && now + 60_000 < s.cached.value.expiresAt then
                 called.fetches == s.fetches && called.callers[c] == Served(s.cached.value.token, now)
               else if s.inflight.Some? then
                 called.fetches == s.fetches && called.callers[c] == Waiting(s.inflight.value)
               else
                 && called.fetches == s.fetches + [Pending(now)]
                 && called.callers[c] == Waiting(|s.fetches|) && called.inflight == Some(|s.fetches|)
  {}

  /** After a reset the next call starts a request, whatever was cached or under way. */
  lemma CallAfterReset(s: State, c: nat)
    requires Reachable(s) && c !in s.callers
    ensures var s' := Step(s, Reset);
            Enabled(s', Call(c)) && Step(s', Call(c)).fetches == s.fetches + [Pending(s.now)]
  {}
}
