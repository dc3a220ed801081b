/** The double-submit check (apps/api/lib/csrf.ts). */
module Csrf {
  import opened Options
  import opened Text
  import opened PercentCodec
  import opened Cookies
  import opened SetCookies

  const SAFE_METHODS: set<Str> := {Lit("GET"), Lit("HEAD"), Lit("OPTIONS"), Lit("TRACE")}
  const EXEMPT_SUFFIXES: seq<Str> := [Lit("/callback"), Lit("/auth/refresh")]

  /** ASCII upper case; HTTP methods are ASCII tokens. */
  function Upper(s: Str): Str {
    seq(|s|, i requires 0 <= i < |s| => if 0x61 <= s[i] <= 0x7A then s[i] - 0x20 else s[i])
  }

  predicate EndsWith(s: Str, suffix: Str) {
    |suffix| <= |s| && s[|s| - |suffix|..] == suffix
  }

  predicate IsExemptPath(path: Str) {
    exists i :: 0 <= i < |EXEMPT_SUFFIXES| && EndsWith(path, EXEMPT_SUFFIXES[i])
  }

  predicate IsCsrfExempt(httpMethod: Str, path: Str) {
    Upper(httpMethod) in SAFE_METHODS || IsExemptPath(path)
  }

  /** Compares the UTF-8 bytes. */
  predicate ConstantTimeEqual(a: Str, b: Str) {
    Bytes(a) == Bytes(b)
  }

  datatype Verdict = Passed | Missing | Mismatch

  function Check(httpMethod: Str, path: Str, sent: Option<Str>, cookieHeader: Option<Str>): Verdict {
    if IsCsrfExempt(httpMethod, path) then Passed
    else
      var cookies := Parsed(cookieHeader);
      if sent.None? || sent.value == [] then Missing
      else if CSRF_COOKIE !in cookies || cookies[CSRF_COOKIE] == [] then Missing
      else if ConstantTimeEqual(sent.value, cookies[CSRF_COOKIE]) then Passed
      else Mismatch
  }

  /** `s` with every unpaired surrogate replaced by U+FFFD. */
  function ToWellFormed(s: Str): Str {
    if s == [] then []
    else match FirstScalar(s)
      case Some(v) => Utf16(v) + ToWellFormed(s[|Utf16(v)|..])
      case None => [0xFFFD] + ToWellFormed(s[1..])
  }

  lemma {:induction false} ScrubbingKeepsBytes(s: Str)
    ensures WellFormed(ToWellFormed(s)) && Bytes(ToWellFormed(s)) == Bytes(s)
    ensures WellFormed(s) ==> ToWellFormed(s) == s
  {
    ScrubbedBytes(s);
    if WellFormed(s) { NothingToScrub(s); }
  }

  lemma {:induction false} ScrubbedBytes(s: Str)
    ensures WellFormed(ToWellFormed(s)) && Bytes(ToWellFormed(s)) == Bytes(s)
  {
    if s != [] {
      match FirstScalar(s)
      case Some(v) =>
        ScrubbedBytes(s[|Utf16(v)|..]);
        PrependScalar(v, ToWellFormed(s[|Utf16(v)|..]));
      case None =>
        ScrubbedBytes(s[1..]);
        PrependScalar(0xFFFD, ToWellFormed(s[1..]));
        assert Utf16(0xFFFD) == [0xFFFD];
    }
  }

  lemma {:induction false} NothingToScrub(s: Str)
    requires WellFormed(s)
    ensures ToWellFormed(s) == s
  {
    if s != [] {
      var v := FirstScalar(s).value;
      NothingToScrub(s[|Utf16(v)|..]);
      assert s == Utf16(v) + s[|Utf16(v)|..];
    }
  }

  /** The byte comparison is equality of strings, up to unpaired surrogates. */
  lemma ComparesStrings(a: Str, b: Str)
    ensures ConstantTimeEqual(a, b) <==> ToWellFormed(a) == ToWellFormed(b)
    ensures WellFormed(a) && WellFormed(b) ==> (ConstantTimeEqual(a, b) <==> a == b)
  {
    ScrubbingKeepsBytes(a);
    ScrubbingKeepsBytes(b);
    if ConstantTimeEqual(a, b) {
      BytesInjective(ToWellFormed(a), ToWellFormed(b));
    }
  }

  // ---- What is checked, and what passes ----

  /** `m` is the upper-case word `w` in some mixture of cases. */
  predicate Spells(m: Str, w: Str) {
    |m| == |w| && forall i :: 0 <= i < |w| ==> m[i] == w[i] || m[i] == w[i] as int + 0x20
  }

  lemma UpperSpells(m: Str, w: Str)
    requires forall i :: 0 <= i < |w| ==> 0x41 <= w[i] <= 0x5A
    ensures Upper(m) == w <==> Spells(m, w)
  {
    if Spells(m, w) { assert Upper(m) == w; }
    if Upper(m) == w {
      forall i | 0 <= i < |w| ensures m[i] == w[i] || m[i] == w[i] as int + 0x20 { assert Upper(m)[i] == w[i]; }
    }
  }

  predicate IsSafeMethod(m: Str) {
    Spells(m, Lit("GET")) || Spells(m, Lit("HEAD")) || Spells(m, Lit("OPTIONS")) || Spells(m, Lit("TRACE"))
  }

  /** Four methods in any mixture of cases and the paths with one of two ends are exempt, and nothing else. */
  lemma ExemptMeans(httpMethod: Str, path: Str)
    ensures IsCsrfExempt(httpMethod, path) <==>
            || IsSafeMethod(httpMethod)
            || (exists stem :: path == stem + Lit("/callback"))
            || (exists stem :: path == stem + Lit("/auth/refresh"))
  {
    UpperSpells(httpMethod, Lit("GET"));
    UpperSpells(httpMethod, Lit("HEAD"));
    UpperSpells(httpMethod, Lit("OPTIONS"));
    UpperSpells(httpMethod, Lit("TRACE"));
    SuffixMeans(path, Lit("/callback"));
    SuffixMeans(path, Lit("/auth/refresh"));
    assert EXEMPT_SUFFIXES[0] == Lit("/callback") && EXEMPT_SUFFIXES[1] == Lit("/auth/refresh");
  }

  lemma SuffixMeans(s: Str, suffix: Str)
    ensures EndsWith(s, suffix) <==> exists stem :: s == stem + suffix
  {
    if EndsWith(s, suffix) { assert s == s[..|s| - |suffix|] + suffix; }
  }

  /** A token that is there and not empty. */
  predicate IsGiven(token: Option<Str>) {
    token.Some? && token.value != []
  }

  /** What the request's cookies hold under the name "csrf_token". */
  function CookieToken(cookieHeader: Option<Str>): Option<Str> {
    var cookies := Parsed(cookieHeader);
    if Lit("csrf_token") in cookies then Some(cookies[Lit("csrf_token")]) else None
  }

  /**
   * A request that is not exempt passes exactly when header and cookie both give a token
   * and the two are equal up to unpaired surrogates; it is a mismatch exactly when both
   * are there and differ.
   */
  lemma CheckDecides(httpMethod: Str, path: Str, sent: Option<Str>, cookieHeader: Option<Str>)
    ensures var verdict, kept := Check(httpMethod, path, sent, cookieHeader), CookieToken(cookieHeader);
            if IsCsrfExempt(httpMethod, path) then verdict == Passed
            else
              && (verdict == Missing <==> !IsGiven(sent) || !IsGiven(kept))
              && (verdict == Passed <==>
                    IsGiven(sent) && IsGiven(kept) && ToWellFormed(sent.value) == ToWellFormed(kept.value))
              && (verdict == Mismatch <==>
                    IsGiven(sent) && IsGiven(kept) && ToWellFormed(sent.value) != ToWellFormed(kept.value))
  {
    var kept := CookieToken(cookieHeader);
    if sent.Some? && kept.Some? { ComparesStrings(sent.value, kept.value); }
  }

  lemma {:induction false} NothingScrubbed(s: Str)
    requires 0xFFFD !in ToWellFormed(s)
    ensures ToWellFormed(s) == s
  {
    if s != [] && FirstScalar(s).Some? {
      NothingScrubbed(s[|Utf16(FirstScalar(s).value)|..]);
    }
  }

  // ---- Against the header a browser sends ----

  /** A listing of the live cookies of a jar, in any order. */
  ghost predicate ListsLive(pairs: seq<Pair>, jar: Jar, now: int) {
    && (forall p :: p in pairs ==>
          IsPrintable(p) && IsLive(jar, p.name, now) && EncodeComponent(p.value) == Some(jar[p.name].raw))
    && (forall name :: IsLive(jar, name, now) ==> exists i :: 0 <= i < |pairs| && pairs[i].name == name)
  }

  /** What the server reads under the csrf cookie's name. */
  lemma CsrfCookieIsRead(pairs: seq<Pair>, jar: Jar, now: int, token: Str)
    requires ListsLive(pairs, jar, now) && WellFormed(token)
    requires CSRF_COOKIE in jar ==> EncodeComponent(token) == Some(jar[CSRF_COOKIE].raw)
    ensures var cookies := Parsed(Some(CookieHeader(pairs)));
            && (CSRF_COOKIE in cookies <==> IsLive(jar, CSRF_COOKIE, now))
            && (CSRF_COOKIE in cookies ==> cookies[CSRF_COOKIE] == token)
  {
    PrintedHeaderReadsBack(pairs);
    var kept, cookies := AllKept(pairs), Parsed(Some(CookieHeader(pairs)));
    if CSRF_COOKIE in cookies {
      var i :| 0 <= i < |kept| && LastNaming(kept, i, CSRF_COOKIE) && cookies[CSRF_COOKIE] == kept[i].value.value;
      assert pairs[i] in pairs;
      RoundTrip(pairs[i].value);
      RoundTrip(token);
    }
    if IsLive(jar, CSRF_COOKIE, now) {
      var i :| 0 <= i < |pairs| && pairs[i].name == CSRF_COOKIE;
      CsrfIsNotProto();
      assert Names(kept[i], CSRF_COOKIE);
    }
  }

  /** The verdict on any request of a browser whose csrf cookie holds `token`. */
  lemma CookieDecides(
      httpMethod: Str, path: Str, sent: Option<Str>, pairs: seq<Pair>, jar: Jar, now: int, token: Str)
    requires !IsCsrfExempt(httpMethod, path) && ListsLive(pairs, jar, now) && WellFormed(token)
    requires CSRF_COOKIE in jar ==> EncodeComponent(token) == Some(jar[CSRF_COOKIE].raw)
    ensures Check(httpMethod, path, sent, Some(CookieHeader(pairs))) ==
            if !IsLive(jar, CSRF_COOKIE, now) || !IsGiven(sent) || token == [] then Missing
            else if ToWellFormed(sent.value) == token then Passed
            else Mismatch
  {
    CsrfCookieIsRead(pairs, jar, now, token);
    CheckDecides(httpMethod, path, sent, Some(CookieHeader(pairs)));
    ScrubbingKeepsBytes(token);
  }

  /**
   * Against a browser with a live csrf cookie only the cookie's token passes: whoever does
   * not send it is refused, as missing if nothing is sent and as a mismatch otherwise.
   * Without a live cookie nobody passes.
   */
  lemma OnlyTheTokenPasses(
      httpMethod: Str, path: Str, sent: Option<Str>, pairs: seq<Pair>, jar: Jar, now: int, token: Str)
    requires !IsCsrfExempt(httpMethod, path) && ListsLive(pairs, jar, now)
    requires WellFormed(token) && token != [] && 0xFFFD !in token
    requires CSRF_COOKIE in jar ==> EncodeComponent(token) == Some(jar[CSRF_COOKIE].raw)
    ensures Check(httpMethod, path, sent, Some(CookieHeader(pairs))) ==
            if !IsLive(jar, CSRF_COOKIE, now) || !IsGiven(sent) then Missing
            else if sent == Some(token) then Passed
            else Mismatch
  {
    CookieDecides(httpMethod, path, sent, pairs, jar, now, token);
    ScrubbingKeepsBytes(token);
    if sent.Some? && ToWellFormed(sent.value) == token { NothingScrubbed(sent.value); }
  }

  lemma CsrfIsNotProto()
    ensures CSRF_COOKIE != PROTO
  {}
}
