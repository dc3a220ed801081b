/**
 * The browser side of the double submit: the store's token, the cookie jar and the
 * logout request (apps/web/src/stores/auth.store.ts, apps/api/auth/csrf-token.ts).
 */
module AuthStore {
  import opened Options
  import opened Text
  import opened PercentCodec
  import opened Cookies
  import opened SetCookies
  import opened Csrf

  const LOGOUT_PATH: Str := Lit("/api/v1/auth/logout")
  const MUTATIONS: seq<Str> := [Lit("post"), Lit("put"), Lit("patch"), Lit("delete")]

  /** The four methods, in the lower case axios gives them. */
  predicate IsMutation(httpMethod: Str) {
    httpMethod == Lit("post") || httpMethod == Lit("put") || httpMethod == Lit("patch") || httpMethod == Lit("delete")
  }

  lemma MutationsMean(httpMethod: Str)
    ensures httpMethod in MUTATIONS <==> IsMutation(httpMethod)
  {
    assert MUTATIONS[0] == Lit("post") && MUTATIONS[1] == Lit("put");
    assert MUTATIONS[2] == Lit("patch") && MUTATIONS[3] == Lit("delete");
  }

  /** `randomBytes(32).toString("hex")` */
  predicate IsCsrfToken(t: Str) {
    |t| == 64 && forall i :: 0 <= i < |t| ==> 0x30 <= t[i] <= 0x39 || 0x61 <= t[i] <= 0x66
  }

  // ---- The module variables ----

  datatype Ensured = HasToken | JoinsFetch | StartsFetch

  function Ensure(csrfToken: Option<Str>, fetching: bool): Ensured {
    if csrfToken.Some? && csrfToken.value != [] then HasToken
    else if fetching then JoinsFetch
    else StartsFetch
  }

  /** The header the request interceptor adds. */
  function HeaderFor(csrfToken: Option<Str>, httpMethod: Option<Str>): Option<Str> {
    if csrfToken.Some? && csrfToken.value != [] && httpMethod.Some? && httpMethod.value in MUTATIONS
    then csrfToken else None
  }

  class Store {
    var csrfToken: Option<Str>
    var fetching: bool

    constructor ()
      ensures csrfToken == None && !fetching
    {
      csrfToken, fetching := None, false;
    }

    /** `ensureCsrfToken` up to its first await. */
    method EnsureCsrfToken() returns (e: Ensured)
      modifies this
      ensures e == Ensure(old(csrfToken), old(fetching))
      ensures e.HasToken? <==> old(csrfToken).Some? && old(csrfToken).value != []
      ensures e.StartsFetch? <==> !e.HasToken? && !old(fetching)
      ensures csrfToken == old(csrfToken) && fetching == (old(fetching) || e.StartsFetch?)
    {
      if csrfToken.Some? && csrfToken.value != [] { return HasToken; }
      if fetching { return JoinsFetch; }
      fetching := true;
      return StartsFetch;
    }

    /** The rest of the fetch; `None` is a request that failed. */
    method OnFetched(token: Option<Str>)
      modifies this
      ensures csrfToken == (if token.Some? then token else old(csrfToken)) && !fetching
    {
      if token.Some? { csrfToken := token; }
      fetching := false;
    }

    /** The held token goes on the four mutations, and nothing goes elsewhere. */
    method Intercept(httpMethod: Option<Str>) returns (header: Option<Str>)
      ensures header.Some? <==>
              csrfToken.Some? && csrfToken.value != [] && httpMethod.Some? && IsMutation(httpMethod.value)
      ensures header.Some? ==> header == csrfToken
      ensures header == HeaderFor(csrfToken, httpMethod)
    {
      if httpMethod.Some? { MutationsMean(httpMethod.value); }
      if csrfToken.Some? && csrfToken.value != [] && httpMethod.Some? && httpMethod.value in MUTATIONS {
        return csrfToken;
      }
      return None;
    }

    /** The `finally` block of `logout`. */
    method OnLogoutOver()
      modifies this
      ensures csrfToken == None && fetching == old(fetching)
    {
      csrfToken := None;
    }
  }

  // ---- Runs of one browser ----

  /** A request that went out: whether its token was fetched and still held, its cookie live, and the verdict. */
  datatype Request = Request(fetched: bool, held: bool, live: bool, verdict: Verdict)

  /**
   * A logout waits for a token, is ready to send, has sent, has the response (whose
   * cookies the browser has taken) and has run its `finally` block.
   */
  datatype Logout =
    | Waiting
    | Ready(fetched: bool)
    | Sent(request: Request)
    | Answered(request: Request)
    | Over(request: Request)

  datatype State = State(
    csrfToken: Option<Str>, fetching: bool, jar: Jar, now: int, logouts: map<nat, Logout>)

  /** The server's Set-Cookie text for a new csrf token. */
  datatype CsrfCookie = CsrfCookie(token: Str, production: bool, expires: Str)

  datatype Action =
    | Begin(l: nat)
    | TokenArrives(cookie: CsrfCookie)
    | FetchFails(stray: Option<CsrfCookie>)         // the cookie may have arrived without the body
    | Post(l: nat, pairs: seq<Pair>)
    | Respond(l: nat, cleared: bool)                // not cleared: refused, or no response
    | Finish(l: nat)
    | OtherCookie(name: Str, value: Str, opts: CookieOptions, expires: Str)
    | ClearedElsewhere                              // a refresh was denied
    | Tick(ms: nat)

  ghost predicate CookieOk(c: CsrfCookie) {
    IsCsrfToken(c.token) && SEMICOLON !in c.expires
  }

  function Sealed(c: CsrfCookie): Option<Str> {
    CsrfCookieText(c.token, c.production, c.expires)
  }

  ghost predicate Enabled(s: State, a: Action) {
    match a
    case Begin(l) => l !in s.logouts
    case TokenArrives(c) => s.fetching && CookieOk(c)
    case FetchFails(c) => s.fetching && (c.Some? ==> CookieOk(c.value))
    case Post(l, pairs) => l in s.logouts && s.logouts[l].Ready? && ListsLive(pairs, s.jar, s.now)
    case Respond(l, cleared) => l in s.logouts && s.logouts[l].Sent? && (cleared ==> s.logouts[l].request.verdict.Passed?)
    case Finish(l) => l in s.logouts && s.logouts[l].Answered?
    case OtherCookie(name, value, opts, expires) =>
      name != CSRF_COOKIE && IsCookieName(name) && WellFormed(value) && ArePlain(opts, expires)
    case ClearedElsewhere => true
    case Tick(_) => true
  }

  const ALL_AUTH_COOKIES: set<Str> := {ACCESS_COOKIE, REFRESH_COOKIE, CSRF_COOKIE}

  function Arrived(jar: Jar, c: CsrfCookie, now: int): Jar {
    if Sealed(c).Some? then Receive(jar, Sealed(c).value, now) else jar
  }

  /** All logouts that waited for the token go on. */
  function Resumed(logouts: map<nat, Logout>, fetched: bool): map<nat, Logout> {
    map l | l in logouts :: if logouts[l].Waiting? then Ready(fetched) else logouts[l]
  }

  /** What the check says to the request the store and the browser make up. */
  function LogoutVerdict(s: State, pairs: seq<Pair>): Verdict
    requires forall p :: p in pairs ==> IsPrintable(p)
  {
    Check(Lit("POST"), LOGOUT_PATH, HeaderFor(s.csrfToken, Some(Lit("post"))), Some(CookieHeader(pairs)))
  }

  ghost function Step(s: State, a: Action): State {
    match a
    case Begin(l) =>
      (match Ensure(s.csrfToken, s.fetching)
       case HasToken => s.(logouts := s.logouts[l := Ready(true)])
       case JoinsFetch => s.(logouts := s.logouts[l := Waiting])
       case StartsFetch => s.(fetching := true, logouts := s.logouts[l := Waiting]))
    case TokenArrives(c) =>
      s.(csrfToken := Some(c.token), fetching := false, jar := Arrived(s.jar, c, s.now),
         logouts := Resumed(s.logouts, true))
    case FetchFails(c) =>
      s.(fetching := false, jar := if c.Some? then Arrived(s.jar, c.value, s.now) else s.jar,
         logouts := Resumed(s.logouts, false))
    case Post(l, pairs) =>
      if l in s.logouts && s.logouts[l].Ready? && ListsLive(pairs, s.jar, s.now) then
        s.(logouts := s.logouts[l := Sent(Request(
             s.logouts[l].fetched, s.csrfToken.Some?, IsLive(s.jar, CSRF_COOKIE, s.now), LogoutVerdict(s, pairs)))])
      else s
    case Respond(l, cleared) =>
      if l in s.logouts && s.logouts[l].Sent? then
        s.(jar := if cleared then s.jar - ALL_AUTH_COOKIES else s.jar,
           logouts := s.logouts[l := Answered(s.logouts[l].request)])
      else s
    case Finish(l) =>
      if l in s.logouts && s.logouts[l].Answered? then
        s.(csrfToken := None, logouts := s.logouts[l := Over(s.logouts[l].request)])
      else s
    case OtherCookie(name, value, opts, expires) =>
      var text := Serialized(name, value, opts, expires);
      s.(jar := if text.Some? then Receive(s.jar, text.value, s.now) else s.jar)
    case ClearedElsewhere => s.(jar := s.jar - ALL_AUTH_COOKIES)
    case Tick(ms) => s.(now := s.now + ms)
  }

  ghost predicate Idle(s: State) {
    forall l :: l in s.logouts ==> s.logouts[l].Over?
  }

  /** Some interleaving leads from `s` to `s'`. */
  ghost predicate Leads(s: State, actions: seq<Action>, s': State)
    decreases |actions|
  {
    if actions == [] then s' == s
    else Enabled(s, actions[0]) && Leads(Step(s, actions[0]), actions[1..], s')
  }

  /** Runs in which no logout begins before the one before it is over. */
  ghost predicate LeadsSerially(s: State, actions: seq<Action>, s': State)
    decreases |actions|
  {
    if actions == [] then s' == s
    else
      && Enabled(s, actions[0]) && (actions[0].Begin? ==> Idle(s))
      && LeadsSerially(Step(s, actions[0]), actions[1..], s')
  }

  /** A new page in a browser that may hold other cookies. */
  ghost predicate IsInitial(s: State) {
    s.csrfToken == None && !s.fetching && s.logouts == map[] && JarOk(s.jar)
  }

  /** Every cookie of the jar was printed by `serializeCookie`. */
  ghost predicate JarOk(jar: Jar) {
    forall name :: name in jar ==> IsCookieName(name) && exists v :: IsEncodingOf(jar[name].raw, v)
  }

  predicate IsEncodingOf(raw: Str, v: Str) {
    WellFormed(v) && EncodeComponent(v) == Some(raw)
  }

  /** What the check must say to a logout. */
  function Expected(held: bool, live: bool): Verdict {
    if held && live then Passed else Missing
  }

  /** A held token is the one in the cookie, as long as there is a cookie. */
  ghost predicate TokenOk(s: State) {
    s.csrfToken.Some? ==>
      && IsCsrfToken(s.csrfToken.value)
      && (CSRF_COOKIE in s.jar ==> EncodeComponent(s.csrfToken.value) == Some(s.jar[CSRF_COOKIE].raw))
  }

  predicate HasSent(p: Logout) {
    p.Sent? || p.Answered? || p.Over?
  }

  ghost predicate Judged(logouts: map<nat, Logout>) {
    forall l :: l in logouts && HasSent(logouts[l]) ==>
      logouts[l].request.verdict == Expected(logouts[l].request.held, logouts[l].request.live)
  }

  /** What holds in every interleaving. */
  ghost predicate Safe(s: State) {
    TokenOk(s) && JarOk(s.jar) && (s.fetching ==> s.csrfToken.None?) && Judged(s.logouts)
  }

  // ---- What holds besides when logouts do not overlap ----

  ghost predicate LogoutOk(s: State, p: Logout) {
    match p
    case Waiting => s.csrfToken.None? && s.fetching
    case Ready(fetched) => s.csrfToken.Some? == fetched && !s.fetching
    case Sent(request) => request.held == request.fetched && !s.fetching
    case Answered(request) => request.held == request.fetched && !s.fetching
    case Over(request) => request.held == request.fetched
  }

  ghost predicate Serial(s: State) {
    && (forall l :: l in s.logouts ==> LogoutOk(s, s.logouts[l]))
    && (forall l, k :: l in s.logouts && k in s.logouts && !s.logouts[l].Over? && !s.logouts[k].Over? ==> l == k)
    && (Idle(s) ==> s.csrfToken.None? && !s.fetching)
  }

  // ---- Cookies ----

  lemma TokensAreWellFormed(t: Str)
    requires IsCsrfToken(t)
    ensures WellFormed(t) && EncodeComponent(t).Some?
  {
    TextBelowSurrogatesIsWellFormed(t);
    EncodeAlphabet(t);
  }

  lemma JarGains(jar: Jar, name: Str, v: Str, raw: Str, expiry: Option<int>)
    requires JarOk(jar) && IsCookieName(name) && IsEncodingOf(raw, v)
    ensures JarOk(jar[name := Stored(raw, expiry)])
  {}

  lemma CsrfCookieArrives(jar: Jar, c: CsrfCookie, now: int)
    requires JarOk(jar) && CookieOk(c)
    ensures var jar' := Arrived(jar, c, now);
            && JarOk(jar') && EncodeComponent(c.token).Some?
            && jar' == jar[CSRF_COOKIE := Stored(EncodeComponent(c.token).value, Some(now + 900_000))]
  {
    AuthCookieNames();
    TokensAreWellFormed(c.token);
    var raw := EncodeComponent(c.token).value;
    PrintedCookieIsStored(jar, CSRF_COOKIE, c.token, AuthCookieOptions(c.production, ACCESS_TOKEN_MAX_AGE), c.expires, now);
    JarGains(jar, CSRF_COOKIE, c.token, raw, Some(now + 900_000));
  }

  lemma LogoutIsChecked()
    ensures !IsCsrfExempt(Lit("POST"), LOGOUT_PATH)
    ensures Lit("post") in MUTATIONS
  {
    assert MUTATIONS[0] == Lit("post");
    var post := Upper(Lit("POST"));
    assert post[1] == 0x4F && |post| == 4;
    assert Lit("HEAD")[1] == 0x45;
    assert |LOGOUT_PATH| == 19 && |Lit("/callback")| == 9 && |Lit("/auth/refresh")| == 13;
    assert LOGOUT_PATH[10..][8] == LOGOUT_PATH[18] == 0x74 && Lit("/callback")[8] == 0x6B;
    assert LOGOUT_PATH[6..][12] == LOGOUT_PATH[18] && Lit("/auth/refresh")[12] == 0x68;
    forall i | 0 <= i < |EXEMPT_SUFFIXES| ensures !EndsWith(LOGOUT_PATH, EXEMPT_SUFFIXES[i]) {
      assert i == 0 || i == 1;
    }
  }

  /** The heart of the double submit: what the check says to a logout's request. */
  lemma PostIsJudged(s: State, pairs: seq<Pair>)
    requires TokenOk(s) && ListsLive(pairs, s.jar, s.now)
    ensures LogoutVerdict(s, pairs) == Expected(s.csrfToken.Some?, IsLive(s.jar, CSRF_COOKIE, s.now))
  {
    LogoutIsChecked();
    assert Upper(Lit("post")) == Lit("POST") by { assert |Lit("post")| == 4 && |Lit("POST")| == 4; }
    MutationIsJudged(s, pairs, Lit("post"), LOGOUT_PATH);
  }

  /** Any mutation on any path: the interceptor and the check agree on what needs a token. */
  lemma MutationIsJudged(s: State, pairs: seq<Pair>, httpMethod: Str, path: Str)
    requires TokenOk(s) && ListsLive(pairs, s.jar, s.now) && IsMutation(httpMethod)
    ensures Check(Upper(httpMethod), path, HeaderFor(s.csrfToken, Some(httpMethod)), Some(CookieHeader(pairs))) ==
            if IsExemptPath(path) then Passed
            else Expected(s.csrfToken.Some?, IsLive(s.jar, CSRF_COOKIE, s.now))
  {
    MutationsMean(httpMethod);
    MutationsAreUnsafe(httpMethod);
    UpperTwice(httpMethod);
    if s.csrfToken.Some? {
      TokensAreWellFormed(s.csrfToken.value);
      CsrfCookieIsRead(pairs, s.jar, s.now, s.csrfToken.value);
    }
  }

  lemma UpperTwice(s: Str)
    ensures Upper(Upper(s)) == Upper(s)
  {}

  lemma MutationsAreUnsafe(httpMethod: Str)
    requires httpMethod in MUTATIONS
    ensures Upper(httpMethod) !in SAFE_METHODS
  {
    var m := Upper(httpMethod);
    assert Lit("post")[0] == 0x70 && Lit("put")[0] == 0x70 && Lit("patch")[0] == 0x70 && Lit("delete")[0] == 0x64;
    assert m[0] == 0x50 || m[0] == 0x44;
    assert Lit("GET")[0] == 0x47 && Lit("HEAD")[0] == 0x48 && Lit("OPTIONS")[0] == 0x4F && Lit("TRACE")[0] == 0x54;
  }

  // ---- Every interleaving ----

  lemma JarShrinks(jar: Jar, names: set<Str>)
    requires JarOk(jar)
    ensures JarOk(jar - names)
  {
    forall name | name in jar - names ensures exists v :: IsEncodingOf((jar - names)[name].raw, v) {
      assert (jar - names)[name] == jar[name];
    }
  }

  lemma OtherCookieArrives(jar: Jar, name: Str, value: Str, opts: CookieOptions, expires: Str, now: int)
    requires JarOk(jar) && name != CSRF_COOKIE && IsCookieName(name) && WellFormed(value) && ArePlain(opts, expires)
    ensures Serialized(name, value, opts, expires).Some?
    ensures var jar' := Receive(jar, Serialized(name, value, opts, expires).value, now);
            && JarOk(jar') && (CSRF_COOKIE in jar' <==> CSRF_COOKIE in jar)
            && (CSRF_COOKIE in jar ==> jar'[CSRF_COOKIE] == jar[CSRF_COOKIE])
  {
    PrintedCookieIsStored(jar, name, value, opts, expires, now);
    var jar' := Receive(jar, Serialized(name, value, opts, expires).value, now);
    if opts.maxAge == Some(0) {
      JarShrinks(jar, {name});
    } else {
      JarGains(jar, name, value, EncodeComponent(value).value, jar'[name].expiry);
    }
  }

  /** A cookie that comes with another response is kept, also when a csrf token's body is lost. */
  lemma CookiesArrive(s: State, a: Action)
    requires JarOk(s.jar) && Enabled(s, a)
    ensures a.OtherCookie? && a.opts.maxAge != Some(0) ==>
              a.name in Step(s, a).jar && EncodeComponent(a.value) == Some(Step(s, a).jar[a.name].raw)
    ensures a.FetchFails? && a.stray.Some? ==>
              CSRF_COOKIE in Step(s, a).jar && EncodeComponent(a.stray.value.token) == Some(Step(s, a).jar[CSRF_COOKIE].raw)
  {
    match a
    case OtherCookie(name, value, opts, expires) => PrintedCookieIsStored(s.jar, name, value, opts, expires, s.now);
    case FetchFails(stray) => if stray.Some? { CsrfCookieArrives(s.jar, stray.value, s.now); }
    case _ =>
  }

  lemma SafeKeeps(s: State, a: Action)
    requires Safe(s) && Enabled(s, a)
    ensures Safe(Step(s, a))
  {
    match a
    case TokenArrives(c) => CsrfCookieArrives(s.jar, c, s.now);
    case FetchFails(c) => if c.Some? { CsrfCookieArrives(s.jar, c.value, s.now); }
    case Post(l, pairs) => PostIsJudged(s, pairs);
    case Respond(_, _) => JarShrinks(s.jar, ALL_AUTH_COOKIES);
    case ClearedElsewhere => JarShrinks(s.jar, ALL_AUTH_COOKIES);
    case OtherCookie(name, value, opts, expires) => OtherCookieArrives(s.jar, name, value, opts, expires, s.now);
    case _ =>
  }

  lemma {:induction false} SafeRun(s: State, actions: seq<Action>, s': State)
    requires Safe(s) && Leads(s, actions, s')
    ensures Safe(s')
    decreases |actions|
  {
    if actions != [] {
      SafeKeeps(s, actions[0]);
      SafeRun(Step(s, actions[0]), actions[1..], s');
    }
  }

  /**
   * However logouts overlap, a request passes exactly when it went out with a token held
   * and the csrf cookie live; otherwise its token is missing. It is never a mismatch.
   */
  lemma EveryLogoutIsJudged(start: State, actions: seq<Action>, s: State, l: nat)
    requires IsInitial(start) && Leads(start, actions, s)
    requires l in s.logouts && HasSent(s.logouts[l])
    ensures s.logouts[l].request.verdict ==
            if s.logouts[l].request.held && s.logouts[l].request.live then Passed else Missing
  {
    SafeRun(start, actions, s);
  }

  // ---- Serial runs ----

  /** While a fetch runs, the one logout under way waits for it. */
  lemma FetchIsAwaited(s: State)
    requires Serial(s) && s.fetching
    ensures exists l :: l in s.logouts && s.logouts[l].Waiting?
                        && forall k :: k in s.logouts && k != l ==> s.logouts[k].Over?
  {
    assert !Idle(s);
    var busy :| busy in s.logouts && !s.logouts[busy].Over?;
    assert LogoutOk(s, s.logouts[busy]);
  }

  /** Waiters go on, and the rest is as before. */
  lemma FetchEnds(s: State, s': State, fetched: bool)
    requires Serial(s) && s.fetching && !s'.fetching && s'.logouts == Resumed(s.logouts, fetched)
    requires s'.csrfToken.Some? == fetched
    ensures Serial(s')
  {
    FetchIsAwaited(s);
    var l :| l in s.logouts && s.logouts[l].Waiting? && forall k :: k in s.logouts && k != l ==> s.logouts[k].Over?;
    forall k | k in s'.logouts ensures LogoutOk(s', s'.logouts[k]) { assert LogoutOk(s, s.logouts[k]); }
    assert s'.logouts[l].Ready?;
  }

  /** One logout moves on, the others being over. */
  lemma LogoutMoves(s: State, s': State, l: nat)
    requires Serial(s) && l in s'.logouts && s'.logouts == s.logouts[l := s'.logouts[l]]
    requires if l in s.logouts then !s.logouts[l].Over? else Idle(s)
    requires LogoutOk(s', s'.logouts[l])
    requires s'.logouts[l].Over? ==> s'.csrfToken.None? && !s'.fetching
    ensures Serial(s')
  {
    forall k | k in s'.logouts ensures LogoutOk(s', s'.logouts[k]) {
      if k != l { assert s.logouts[k].Over? && LogoutOk(s, s.logouts[k]); }
    }
  }

  lemma SerialKeeps(s: State, a: Action)
    requires Safe(s) && Serial(s) && Enabled(s, a) && (a.Begin? ==> Idle(s))
    ensures Serial(Step(s, a))
  {
    var s' := Step(s, a);
    match a
    case Begin(l) => LogoutMoves(s, s', l);
    case TokenArrives(c) => FetchEnds(s, s', true);
    case FetchFails(c) => FetchEnds(s, s', false);
    case Post(l, _) => assert LogoutOk(s, s.logouts[l]); LogoutMoves(s, s', l);
    case Respond(l, _) => assert LogoutOk(s, s.logouts[l]); LogoutMoves(s, s', l);
    case Finish(l) => assert LogoutOk(s, s.logouts[l]); LogoutMoves(s, s', l);
    case _ =>
      forall l | l in s.logouts ensures LogoutOk(s', s.logouts[l]) { assert LogoutOk(s, s.logouts[l]); }
  }

  lemma {:induction false} SerialRun(s: State, actions: seq<Action>, s': State)
    requires Safe(s) && Serial(s) && LeadsSerially(s, actions, s')
    ensures Safe(s') && Serial(s')
    decreases |actions|
  {
    if actions != [] {
      SafeKeeps(s, actions[0]);
      SerialKeeps(s, actions[0]);
      SerialRun(Step(s, actions[0]), actions[1..], s');
    }
  }

  /**
   * Logouts one after the other: the check passes a logout exactly when its token was
   * fetched and the csrf cookie was still live when the request went out. Between logouts
   * no token is held.
   */
  lemma SerialLogouts(start: State, actions: seq<Action>, s: State)
    requires IsInitial(start) && LeadsSerially(start, actions, s)
    ensures forall l :: l in s.logouts && HasSent(s.logouts[l]) ==>
              s.logouts[l].request.verdict ==
              if s.logouts[l].request.fetched && s.logouts[l].request.live then Passed else Missing
    ensures Idle(s) ==> s.csrfToken == None
  {
    SerialRun(start, actions, s);
    forall l | l in s.logouts ensures LogoutOk(s, s.logouts[l]) {}
  }

  // ---- A logout that begins before the one before it is over ----

  const Blank: State := State(None, false, map[], 0, map[])

  lemma {:induction false} LeadsOneMore(s: State, actions: seq<Action>, s': State, a: Action)
    requires Leads(s, actions, s') && Enabled(s', a)
    ensures Leads(s, actions + [a], Step(s', a))
    decreases |actions|
  {
    if actions == [] {
      assert [a][1..] == [];
      assert Leads(Step(s', a), [], Step(s', a));
    } else {
      LeadsOneMore(Step(s, actions[0]), actions[1..], s', a);
      assert (actions + [a])[1..] == actions[1..] + [a];
    }
  }

  ghost predicate Reachable(s: State) {
    exists start, actions :: IsInitial(start) && Leads(start, actions, s)
  }

  lemma ReachOneMore(s: State, a: Action)
    requires Reachable(s) && Enabled(s, a)
    ensures Reachable(Step(s, a))
  {
    var start, actions :| IsInitial(start) && Leads(start, actions, s);
    LeadsOneMore(start, actions, s, a);
  }

  lemma ReachableIsSafe(s: State)
    requires Reachable(s)
    ensures Safe(s)
  {
    var start, actions :| IsInitial(start) && Leads(start, actions, s);
    SafeRun(start, actions, s);
  }

  /** The first logout has its token and cookie. */
  function WithToken(token: Str, logouts: map<nat, Logout>, jar: Jar): State {
    State(Some(token), false, jar, 0, logouts)
  }

  lemma FirstLogoutWaits()
    ensures Reachable(State(None, true, map[], 0, map[0 := Waiting]))
  {
    assert IsInitial(Blank) && Leads(Blank, [], Blank);
    ReachOneMore(Blank, Begin(0));
    assert Blank.logouts[0 := Waiting] == map[0 := Waiting];
  }

  function WithCookie(raw: Str): Jar {
    map[CSRF_COOKIE := Stored(raw, Some(900_000))]
  }

  lemma TokenArrivesAt(s: State, c: CsrfCookie)
    requires CookieOk(c) && JarOk(s.jar)
    ensures EncodeComponent(c.token).Some?
    ensures Step(s, TokenArrives(c)) ==
            State(Some(c.token), false,
                  s.jar[CSRF_COOKIE := Stored(EncodeComponent(c.token).value, Some(s.now + 900_000))], s.now,
                  Resumed(s.logouts, true))
  {
    CsrfCookieArrives(s.jar, c, s.now);
  }

  lemma FirstLogoutIsReady(token: Str)
    requires IsCsrfToken(token)
    ensures EncodeComponent(token).Some?
    ensures Reachable(WithToken(token, map[0 := Ready(true)], WithCookie(EncodeComponent(token).value)))
  {
    var s := State(None, true, map[], 0, map[0 := Waiting]);
    var cookie := CsrfCookie(token, true, []);
    FirstLogoutWaits();
    ReachOneMore(s, TokenArrives(cookie));
    TokenArrivesAt(s, cookie);
    assert Resumed(s.logouts, true) == map[0 := Ready(true)];
  }

  lemma FirstLogoutIsListed(token: Str, jar: Jar, raw: Str) returns (pairs: seq<Pair>)
    requires IsCsrfToken(token) && EncodeComponent(token) == Some(raw) && jar == WithCookie(raw)
    ensures ListsLive(pairs, jar, 0)
  {
    AuthCookieNames();
    TokensAreWellFormed(token);
    pairs := [Pair(CSRF_COOKIE, token)];
    assert pairs[0].name == CSRF_COOKIE;
  }

  lemma FirstLogoutIsSent(token: Str, jar: Jar, raw: Str)
    requires IsCsrfToken(token) && EncodeComponent(token) == Some(raw)
    requires jar == WithCookie(raw)
    requires Reachable(WithToken(token, map[0 := Ready(true)], jar))
    ensures Reachable(WithToken(token, map[0 := Sent(Request(true, true, true, Passed))], jar))
  {
    var s := WithToken(token, map[0 := Ready(true)], jar);
    var pairs := FirstLogoutIsListed(token, jar, raw);
    ReachOneMore(s, Post(0, pairs));
    ReachableIsSafe(s);
    FirstLogoutPasses(s, pairs);
  }

  lemma FirstLogoutPasses(s: State, pairs: seq<Pair>)
    requires TokenOk(s) && ListsLive(pairs, s.jar, s.now) && s.csrfToken.Some?
    requires s.logouts == map[0 := Ready(true)] && IsLive(s.jar, CSRF_COOKIE, s.now)
    ensures Step(s, Post(0, pairs)) == s.(logouts := map[0 := Sent(Request(true, true, true, Passed))])
  {
    PostIsJudged(s, pairs);
    PostedIs(s, pairs, LogoutVerdict(s, pairs));
  }

  lemma PostedIs(s: State, pairs: seq<Pair>, verdict: Verdict)
    requires ListsLive(pairs, s.jar, s.now) && verdict == LogoutVerdict(s, pairs) && s.logouts == map[0 := Ready(true)]
    ensures Step(s, Post(0, pairs)) == s.(logouts := map[0 := Sent(Request(
              true, s.csrfToken.Some?, IsLive(s.jar, CSRF_COOKIE, s.now), verdict))])
  {}

  lemma FirstLogoutIsAnswered(token: Str)
    requires IsCsrfToken(token)
    ensures Reachable(WithToken(token, map[0 := Answered(Request(true, true, true, Passed))], map[]))
  {
    FirstLogoutIsReady(token);
    var raw := EncodeComponent(token).value;
    var jar := WithCookie(raw);
    FirstLogoutIsSent(token, jar, raw);
    var sent := Request(true, true, true, Passed);
    var s := WithToken(token, map[0 := Sent(sent)], jar);
    ReachOneMore(s, Respond(0, true));
    assert jar - ALL_AUTH_COOKIES == map[];
    assert s.logouts[0 := Answered(sent)] == map[0 := Answered(sent)];
  }

  /**
   * A logout begun between the response of another and its `finally` block holds a token
   * whose cookie is gone: it is refused.
   */
  lemma OverlappingLogoutIsRefused(token: Str)
    requires IsCsrfToken(token)
    ensures exists s :: Reachable(s) && s.csrfToken == Some(token) && 0 in s.logouts && 1 in s.logouts
              && s.logouts[0] == Answered(Request(true, true, true, Passed))
              && s.logouts[1] == Sent(Request(true, true, false, Missing))
  {
    FirstLogoutIsAnswered(token);
    var first := Request(true, true, true, Passed);
    var s := WithToken(token, map[0 := Answered(first)], map[]);
    ReachOneMore(s, Begin(1));
    var s1 := WithToken(token, map[0 := Answered(first), 1 := Ready(true)], map[]);
    assert Step(s, Begin(1)) == s1;
    assert ListsLive([], s1.jar, 0);
    ReachOneMore(s1, Post(1, []));
    ReachableIsSafe(s1);
    PostIsJudged(s1, []);
    var s2 := Step(s1, Post(1, []));
    assert s2.logouts[0] == Answered(first);
  }

  // ---- Whoever does not know the token ----

  lemma EncodesOnce(a: Str, b: Str)
    requires WellFormed(a) && WellFormed(b) && EncodeComponent(a) == EncodeComponent(b)
    ensures a == b
  {
    RoundTrip(a);
    RoundTrip(b);
  }

  /**
   * In every reachable state, whatever header somebody puts on a request that the browser
   * sends its cookies with: it passes exactly when the csrf cookie is live and the header
   * is the token in it, up to unpaired surrogates.
   */
  lemma OnlyTheCookiesTokenPasses(s: State, pairs: seq<Pair>, httpMethod: Str, path: Str, sent: Option<Str>)
    requires Reachable(s) && ListsLive(pairs, s.jar, s.now) && !IsCsrfExempt(httpMethod, path)
    ensures var verdict := Check(httpMethod, path, sent, Some(CookieHeader(pairs)));
            && (verdict == Passed <==>
                  && IsLive(s.jar, CSRF_COOKIE, s.now) && IsGiven(sent)
                  && EncodeComponent(ToWellFormed(sent.value)) == Some(s.jar[CSRF_COOKIE].raw))
            && (!IsLive(s.jar, CSRF_COOKIE, s.now) || !IsGiven(sent) ==> verdict == Missing)
  {
    ReachableIsSafe(s);
    var v: Str := [];
    if CSRF_COOKIE in s.jar { v :| IsEncodingOf(s.jar[CSRF_COOKIE].raw, v); }
    CookieDecides(httpMethod, path, sent, pairs, s.jar, s.now, v);
    if IsGiven(sent) { GivenTokenMatches(sent.value, v); }
  }

  lemma GivenTokenMatches(sent: Str, v: Str)
    requires WellFormed(v) && sent != []
    ensures EncodeComponent(ToWellFormed(sent)) == EncodeComponent(v) <==> v != [] && ToWellFormed(sent) == v
  {
    ScrubbingKeepsBytes(sent);
    if EncodeComponent(ToWellFormed(sent)) == EncodeComponent(v) { EncodesOnce(ToWellFormed(sent), v); }
  }

  /**
   * Once a fetched token has arrived it serves for fifteen minutes: a logout sent then is
   * passed, unless the cookies have been cleared elsewhere; other cookies do not matter.
   */
  lemma TokenServesFifteenMinutes(s: State, c: CsrfCookie, arrived: State, a: Action, later: State, pairs: seq<Pair>)
    requires Reachable(s) && Enabled(s, TokenArrives(c)) && arrived == Step(s, TokenArrives(c))
    requires (a.Tick? || a.OtherCookie? || a.ClearedElsewhere?) && Enabled(arrived, a) && later == Step(arrived, a)
    requires ListsLive(pairs, later.jar, later.now)
    ensures LogoutVerdict(later, pairs) ==
            if a.ClearedElsewhere? || (a.Tick? && a.ms >= 900_000) then Missing else Passed
  {
    TokenArrivesSafely(s, c);
    ArrivedTokenIsJudged(arrived, a, later, pairs);
  }

  /** A token is held whose cookie has just come. */
  ghost predicate HasNewToken(s: State) {
    && Safe(s) && s.csrfToken.Some?
    && CSRF_COOKIE in s.jar && s.jar[CSRF_COOKIE].expiry == Some(s.now + 900_000)
  }

  lemma ArrivedTokenIsJudged(arrived: State, a: Action, later: State, pairs: seq<Pair>)
    requires HasNewToken(arrived)
    requires (a.Tick? || a.OtherCookie? || a.ClearedElsewhere?) && Enabled(arrived, a) && later == Step(arrived, a)
    requires ListsLive(pairs, later.jar, later.now)
    ensures LogoutVerdict(later, pairs) ==
            if a.ClearedElsewhere? || (a.Tick? && a.ms >= 900_000) then Missing else Passed
  {
    SafeKeeps(arrived, a);
    ArrivedTokenIsLive(arrived, a);
    PostIsJudged(later, pairs);
  }

  lemma TokenArrivesSafely(s: State, c: CsrfCookie)
    requires Reachable(s) && Enabled(s, TokenArrives(c))
    ensures HasNewToken(Step(s, TokenArrives(c)))
  {
    ReachableIsSafe(s);
    TokenIsThere(s, c);
    SafeKeeps(s, TokenArrives(c));
  }

  lemma TokenIsThere(s: State, c: CsrfCookie)
    requires JarOk(s.jar) && CookieOk(c)
    ensures var arrived := Step(s, TokenArrives(c));
            && arrived.csrfToken.Some?
            && CSRF_COOKIE in arrived.jar && arrived.jar[CSRF_COOKIE].expiry == Some(arrived.now + 900_000)
  {
    TokenArrivesAt(s, c);
  }

  lemma ArrivedTokenIsLive(s: State, a: Action)
    requires CSRF_COOKIE in s.jar && s.jar[CSRF_COOKIE].expiry == Some(s.now + 900_000) && Enabled(s, a)
    requires (a.Tick? || a.OtherCookie? || a.ClearedElsewhere?) && JarOk(s.jar)
    ensures var s' := Step(s, a);
            && s'.csrfToken == s.csrfToken
            && (IsLive(s'.jar, CSRF_COOKIE, s'.now) <==> !(a.ClearedElsewhere? || (a.Tick? && a.ms >= 900_000)))
  {
    if a.OtherCookie? { OtherCookieArrives(s.jar, a.name, a.value, a.opts, a.expires, s.now); }
  }

  // ---- A browser always has a header to send ----

  ghost predicate IsNamed(pairs: seq<Pair>, name: Str) {
    exists i :: 0 <= i < |pairs| && pairs[i].name == name
  }

  lemma OneMoreNamed(rest: seq<Pair>, p: Pair, names: set<Str>)
    requires forall name :: name in names && name != p.name ==> IsNamed(rest, name)
    ensures forall name :: name in names ==> IsNamed(rest + [p], name)
  {
    forall name | name in names ensures IsNamed(rest + [p], name) {
      if name == p.name {
        assert (rest + [p])[|rest|].name == name;
      } else {
        var i :| 0 <= i < |rest| && rest[i].name == name;
        assert (rest + [p])[i].name == name;
      }
    }
  }

  lemma {:induction false} ListingExists(jar: Jar, names: set<Str>) returns (pairs: seq<Pair>)
    requires JarOk(jar) && names <= jar.Keys
    ensures forall p :: p in pairs ==> p.name in names && IsPrintable(p) && IsEncodingOf(jar[p.name].raw, p.value)
    ensures forall name :: name in names ==> IsNamed(pairs, name)
    decreases |names|
  {
    if names == {} {
      pairs := [];
    } else {
      var name :| name in names;
      var v :| IsEncodingOf(jar[name].raw, v);
      var rest := ListingExists(jar, names - {name});
      var p := Pair(name, v);
      pairs := rest + [p];
      OneMoreNamed(rest, p, names);
      forall q | q in pairs ensures q in rest || q == p {}
    }
  }

  /** In every run a logout that is ready can send its request. */
  lemma PostIsPossible(s: State, l: nat)
    requires Reachable(s) && l in s.logouts && s.logouts[l].Ready?
    ensures exists pairs :: Enabled(s, Post(l, pairs))
  {
    ReachableIsSafe(s);
    var live := set name | name in s.jar && IsLive(s.jar, name, s.now);
    var pairs := ListingExists(s.jar, live);
    forall name | IsLive(s.jar, name, s.now) ensures exists i :: 0 <= i < |pairs| && pairs[i].name == name {
      assert name in live && IsNamed(pairs, name);
    }
    assert Enabled(s, Post(l, pairs));
  }
}
