/** That logouts come to their end, and pass when nothing is in the way (apps/web/src/stores/auth.store.ts). */
module LogoutProgress {
  import opened Options
  import opened Text
  import opened PercentCodec
  import opened Cookies
  import opened SetCookies
  import opened Csrf
  import opened AuthStore

  // ---- Every logout can come to its end ----

  /** Whoever waits for a token waits for a fetch that runs. */
  ghost predicate WaitersFetch(s: State) {
    forall l :: l in s.logouts && s.logouts[l].Waiting? ==> s.fetching
  }

  lemma WaitersStep(s: State, a: Action)
    requires WaitersFetch(s) && Enabled(s, a)
    ensures WaitersFetch(Step(s, a))
  {
    var s' := Step(s, a);
    forall l | l in s'.logouts && s'.logouts[l].Waiting? ensures s'.fetching {
      assert a == Begin(l) || (l in s.logouts && s.logouts[l].Waiting?);
    }
  }

  lemma {:induction false} WaitersRun(s: State, actions: seq<Action>, s': State)
    requires WaitersFetch(s) && Leads(s, actions, s')
    ensures WaitersFetch(s')
    decreases |actions|
  {
    if actions != [] {
      WaitersStep(s, actions[0]);
      WaitersRun(Step(s, actions[0]), actions[1..], s');
    }
  }

  function StepsLeft(p: Logout): nat {
    match p
    case Waiting => 4
    case Ready(_) => 3
    case Sent(_) => 2
    case Answered(_) => 1
    case Over(_) => 0
  }

  /** Some step takes a logout on that is not over. */
  lemma LogoutGoesOn(s: State, l: nat) returns (a: Action)
    requires Reachable(s) && l in s.logouts && !s.logouts[l].Over?
    ensures Enabled(s, a) && l in Step(s, a).logouts && StepsLeft(Step(s, a).logouts[l]) < StepsLeft(s.logouts[l])
  {
    match s.logouts[l]
    case Waiting =>
      var start, actions :| IsInitial(start) && Leads(start, actions, s);
      WaitersRun(start, actions, s);
      a := FetchFails(None);
    case Ready(_) =>
      PostIsPossible(s, l);
      var pairs :| Enabled(s, Post(l, pairs));
      a := Post(l, pairs);
    case Sent(_) => a := Respond(l, false);
    case Answered(_) => a := Finish(l);
  }

  /** From every reachable state every logout can come to its end, even if its fetch and its request fail. */
  lemma {:induction false} LogoutCanEnd(s: State, l: nat) returns (actions: seq<Action>, s': State)
    requires Reachable(s) && l in s.logouts
    ensures Leads(s, actions, s') && Reachable(s') && l in s'.logouts && s'.logouts[l].Over?
    decreases StepsLeft(s.logouts[l])
  {
    if s.logouts[l].Over? {
      actions, s' := [], s;
    } else {
      var a := LogoutGoesOn(s, l);
      ReachOneMore(s, a);
      var rest;
      rest, s' := LogoutCanEnd(Step(s, a), l);
      actions := [a] + rest;
      assert ([a] + rest)[1..] == rest;
    }
  }

  /** A logout begins with the token held, or waits for a fetch. */
  lemma LogoutBegins(s: State, l: nat)
    requires Reachable(s) && l !in s.logouts
    ensures var begun := Step(s, Begin(l));
            && Enabled(s, Begin(l)) && begun.csrfToken == s.csrfToken && begun.jar == s.jar && begun.now == s.now
            && if s.csrfToken.Some? then begun.logouts == s.logouts[l := Ready(true)] && begun.fetching == s.fetching
               else begun.logouts == s.logouts[l := Waiting] && begun.fetching
  {
    ReachableIsSafe(s);
  }

  lemma NobodyResumes(logouts: map<nat, Logout>, l: nat)
    requires l !in logouts && forall k :: k in logouts ==> !logouts[k].Waiting?
    ensures Resumed(logouts[l := Waiting], true) == logouts[l := Ready(true)]
  {}

  lemma NobodyWaits(s: State)
    requires Reachable(s) && !s.fetching
    ensures forall k :: k in s.logouts ==> !s.logouts[k].Waiting?
  {
    var start, before :| IsInitial(start) && Leads(start, before, s);
    WaitersRun(start, before, s);
  }

  lemma TokenComes(s: State, c: CsrfCookie)
    requires Reachable(s) && s.fetching && CookieOk(c)
    ensures var s' := Step(s, TokenArrives(c));
            && Enabled(s, TokenArrives(c)) && Reachable(s') && IsLive(s'.jar, CSRF_COOKIE, s'.now)
            && s'.csrfToken == Some(c.token) && s'.logouts == Resumed(s.logouts, true)
            && s'.jar - {CSRF_COOKIE} == s.jar - {CSRF_COOKIE}
  {
    ReachableIsSafe(s);
    TokenArrivesAt(s, c);
    ReachOneMore(s, TokenArrives(c));
  }

  /** The token of a logout that began on its own has come. */
  lemma LoneTokenArrives(s: State, l: nat, c: CsrfCookie) returns (actions: seq<Action>, s': State)
    requires Reachable(s) && s.csrfToken.None? && !s.fetching && l !in s.logouts && CookieOk(c)
    ensures Leads(s, actions, s') && Reachable(s') && IsLive(s'.jar, CSRF_COOKIE, s'.now)
    ensures s'.csrfToken == Some(c.token) && s'.logouts == s.logouts[l := Ready(true)]
    ensures s'.jar - {CSRF_COOKIE} == s.jar - {CSRF_COOKIE}
  {
    NobodyWaits(s);
    LogoutBegins(s, l);
    ReachOneMore(s, Begin(l));
    TokenComes(Step(s, Begin(l)), c);
    NobodyResumes(s.logouts, l);
    actions, s' := [Begin(l), TokenArrives(c)], Step(Step(s, Begin(l)), TokenArrives(c));
    LeadsByTwo(s, Begin(l), TokenArrives(c));
  }

  lemma LeadsByTwo(s: State, a: Action, b: Action)
    requires Enabled(s, a) && Enabled(Step(s, a), b)
    ensures Leads(s, [a, b], Step(Step(s, a), b))
  {
    var mid := Step(s, a);
    assert Leads(Step(mid, b), [], Step(mid, b));
    LeadsOneMore(mid, [], mid, b);
    assert [] + [b] == [b] && [a, b][1..] == [b];
  }

  /** It is sent and passes. */
  lemma LoneLogoutIsSent(s: State, l: nat) returns (a: Action)
    requires Reachable(s) && l in s.logouts && s.logouts[l] == Ready(true)
    requires s.csrfToken.Some? && IsLive(s.jar, CSRF_COOKIE, s.now)
    ensures Enabled(s, a) && Step(s, a) == s.(logouts := s.logouts[l := Sent(Request(true, true, true, Passed))])
  {
    PostIsPossible(s, l);
    var pairs :| Enabled(s, Post(l, pairs));
    a := Post(l, pairs);
    ReachableIsSafe(s);
    PostIsJudged(s, pairs);
  }

  lemma LoneLogoutEnds(s: State, l: nat)
    requires l in s.logouts && s.logouts[l] == Sent(Request(true, true, true, Passed))
    ensures Leads(s, [Respond(l, true), Finish(l)],
                  s.(csrfToken := None, jar := s.jar - {Lit("access_token"), Lit("refresh_token"), Lit("csrf_token")},
                     logouts := s.logouts[l := Over(Request(true, true, true, Passed))]))
  {
    var answered := Step(s, Respond(l, true));
    LeadsByTwo(s, Respond(l, true), Finish(l));
    assert s.logouts[l := Answered(s.logouts[l].request)][l := Over(s.logouts[l].request)]
           == s.logouts[l := Over(s.logouts[l].request)];
  }

  /**
   * In every reachable state in which no token is held or fetched, a logout whose fetch
   * succeeds can pass, and leaves no token and none of the three cookies behind.
   */
  lemma LoneLogoutPasses(s: State, l: nat, c: CsrfCookie) returns (actions: seq<Action>, s': State)
    requires Reachable(s) && s.csrfToken.None? && !s.fetching && l !in s.logouts && CookieOk(c)
    ensures Leads(s, actions, s') && s'.csrfToken.None?
    ensures s'.logouts == s.logouts[l := Over(Request(true, true, true, Passed))]
    ensures s'.jar == s.jar - {Lit("access_token"), Lit("refresh_token"), Lit("csrf_token")}
  {
    var first, ready := LoneTokenArrives(s, l, c);
    var post := LoneLogoutIsSent(ready, l);
    LeadsOneMore(s, first, ready, post);
    var sent := Step(ready, post);
    LoneLogoutEnds(sent, l);
    actions := first + [post] + [Respond(l, true), Finish(l)];
    s' := sent.(csrfToken := None, jar := sent.jar - {Lit("access_token"), Lit("refresh_token"), Lit("csrf_token")},
                logouts := sent.logouts[l := Over(Request(true, true, true, Passed))]);
    LeadsOn(s, first + [post], sent, [Respond(l, true), Finish(l)], s');
    SameWithout(ready.jar, s.jar);
  }

  lemma SameWithout(a: Jar, b: Jar)
    requires a - {CSRF_COOKIE} == b - {CSRF_COOKIE}
    ensures a - {Lit("access_token"), Lit("refresh_token"), Lit("csrf_token")} ==
            b - {Lit("access_token"), Lit("refresh_token"), Lit("csrf_token")}
  {
    var rest := {Lit("access_token"), Lit("refresh_token")};
    assert a - ({CSRF_COOKIE} + rest) == (a - {CSRF_COOKIE}) - rest;
    assert b - ({CSRF_COOKIE} + rest) == (b - {CSRF_COOKIE}) - rest;
    assert {CSRF_COOKIE} + rest == {Lit("access_token"), Lit("refresh_token"), Lit("csrf_token")};
  }

  lemma {:induction false} LeadsOn(a: State, first: seq<Action>, b: State, second: seq<Action>, c: State)
    requires Leads(a, first, b) && Leads(b, second, c)
    ensures Leads(a, first + second, c)
    decreases |first|
  {
    if first == [] {
      assert first + second == second;
    } else {
      LeadsOn(Step(a, first[0]), first[1..], b, second, c);
      assert (first + second)[1..] == first[1..] + second;
    }
  }
}
