/** The path sanitiser of the backend-for-frontend proxy (apps/api/gateway/path.ts). */
module PathSanitizer {
  import opened Options
  import opened Text
  import opened PercentCodec

  const ROUNDS: nat := 5
  const DOT_DOT: Str := [DOT, DOT]

  /** ASCII control characters. */
  predicate IsControl(u: Unit) {
    u <= 0x1F || u == 0x7F
  }

  ghost predicate HasControl(s: Str) {
    exists i :: 0 <= i < |s| && IsControl(s[i])
  }

  method HasControlCharacter(value: Str) returns (found: bool)
    ensures found <==> HasControl(value)
  {
    for i := 0 to |value|
      invariant forall k :: 0 <= k < i ==> !IsControl(value[k])
    {
      if IsControl(value[i]) { return true; }
    }
    return false;
  }

  /** At most `n` decodes, none of which may fail. */
  function DecodeRounds(s: Str, n: nat): Option<Str>
    decreases n
  {
    if n == 0 then Some(s)
    else match DecodeComponent(s)
      case None => None
      case Some(d) => DecodeRounds(d, n - 1)
  }

  /** `parts.filter((part) => part.length > 0)` */
  function NonEmpty(parts: seq<Str>): (kept: seq<Str>)
    ensures forall part :: part in kept <==> part in parts && part != []
  {
    if parts == [] then []
    else if parts[0] == [] then NonEmpty(parts[1..])
    else [parts[0]] + NonEmpty(parts[1..])
  }

  function Segments(path: Str): seq<Str> {
    Split(path, SLASH)
  }

  /** One leading slash, and no empty segment. */
  function Anchored(path: Str): Str {
    [SLASH] + Join(NonEmpty(Segments(path)), [SLASH])
  }

  ghost function Sanitized(rawPath: Str): Option<Str> {
    match DecodeRounds(rawPath, ROUNDS)
    case None => None
    case Some(decoded) =>
      if HasControl(decoded) || DOT_DOT in Segments(decoded) then None
      else Some(Anchored(decoded))
  }

  lemma {:induction false} StuckRounds(s: Str, n: nat)
    requires DecodeComponent(s) == Some(s)
    ensures DecodeRounds(s, n) == Some(s)
  {
    if n > 0 { StuckRounds(s, n - 1); }
  }

  method SanitizePath(rawPath: Str) returns (safe: Option<Str>)
    ensures safe == Sanitized(rawPath)
  {
    var decoded := rawPath;
    for i := 0 to ROUNDS
      invariant DecodeRounds(decoded, ROUNDS - i) == DecodeRounds(rawPath, ROUNDS)
    {
      var next := DecodeComponent(decoded);
      if next.None? { return None; }
      if next.value == decoded {
        StuckRounds(decoded, ROUNDS - i);
        StuckRounds(decoded, 0);
        break;
      }
      decoded := next.value;
    }
    assert DecodeRounds(rawPath, ROUNDS) == Some(decoded);
    var control := HasControlCharacter(decoded);
    if control { return None; }
    var segments := Segments(decoded);
    if DOT_DOT in segments { return None; }
    return Some([SLASH] + Join(NonEmpty(segments), [SLASH]));
  }

  // ---- What an accepted path looks like ----

  /** A slash, then either nothing or non-empty segments, none of them "..". */
  predicate IsAnchored(path: Str) {
    && path != [] && path[0] == SLASH
    && (path == [SLASH] || forall part :: part in Segments(path[1..]) ==> part != [])
    && DOT_DOT !in Segments(path[1..])
  }

  lemma AnchoringKeepsMembers(path: Str, u: Unit)
    requires u != SLASH
    ensures u in Anchored(path) <==> u in path
  {
    var parts, kept := Segments(path), NonEmpty(Segments(path));
    JoinSplit(path, SLASH);
    JoinMembers(parts, SLASH, u);
    JoinMembers(kept, SLASH, u);
    if i :| 0 <= i < |parts| && u in parts[i] {
      assert parts[i] in parts && parts[i] in kept;
      var j :| 0 <= j < |kept| && kept[j] == parts[i];
    }
    if j :| 0 <= j < |kept| && u in kept[j] {
      assert kept[j] in kept;
      var i :| 0 <= i < |parts| && parts[i] == kept[j];
    }
  }

  lemma AnchoredSegments(path: Str)
    ensures var kept := NonEmpty(Segments(path));
            Segments(Anchored(path)[1..]) == if kept == [] then [[]] else kept
  {
    var kept := NonEmpty(Segments(path));
    SplitPartsLackSeparator(path, SLASH);
    assert Anchored(path)[1..] == Join(kept, [SLASH]);
    if kept != [] { SplitJoin(kept, SLASH); }
  }

  lemma ControlSurvivesAnchoring(path: Str)
    ensures HasControl(Anchored(path)) <==> HasControl(path)
  {
    if i :| 0 <= i < |path| && IsControl(path[i]) {
      AnchoringKeepsMembers(path, path[i]);
    }
    var a := Anchored(path);
    if i :| 0 <= i < |a| && IsControl(a[i]) {
      AnchoringKeepsMembers(path, a[i]);
    }
  }

  /** No unit below 0x20, and not 0x7F. */
  predicate IsFreeOfControls(s: Str) {
    forall i :: 0 <= i < |s| ==> 0x20 <= s[i] && s[i] != 0x7F
  }

  lemma ControlsMean(s: Str)
    ensures HasControl(s) <==> !IsFreeOfControls(s)
  {
    if i :| 0 <= i < |s| && (s[i] < 0x20 || s[i] == 0x7F) { assert IsControl(s[i]); }
  }

  /** Every accepted path has one leading slash, no control character, no ".." and no empty segment. */
  lemma AcceptedPathIsSafe(rawPath: Str)
    requires Sanitized(rawPath).Some?
    ensures var safe := Sanitized(rawPath).value;
            && IsAnchored(safe)
            && (|safe| > 1 ==> safe[1] != SLASH)
            && IsFreeOfControls(safe)
  {
    ControlsMean(Sanitized(rawPath).value);
    var decoded := DecodeRounds(rawPath, ROUNDS).value;
    var safe := Anchored(decoded);
    AnchoredSegments(decoded);
    ControlSurvivesAnchoring(decoded);
    if |safe| > 1 {
      assert Segments(safe[1..])[0] in Segments(safe[1..]);
      assert safe[1..][0] == safe[1];
    }
  }

  // ---- What is refused, and what becomes of the rest ----

  /**
   * A path is refused exactly when one of five decodes fails or the last leaves a control
   * character or a ".." segment.
   */
  lemma RefusalMeans(rawPath: Str)
    ensures Sanitized(rawPath).None? <==>
            || DecodeRounds(rawPath, 5).None?
            || !IsFreeOfControls(DecodeRounds(rawPath, 5).value)
            || [0x2E, 0x2E] in Split(DecodeRounds(rawPath, 5).value, 0x2F)
  {
    if DecodeRounds(rawPath, 5).Some? { ControlsMean(DecodeRounds(rawPath, 5).value); }
  }

  /** What is accepted has the non-empty segments of the decoded path, in order, and no others. */
  lemma AcceptedSegments(rawPath: Str)
    requires Sanitized(rawPath).Some?
    ensures var safe, kept := Sanitized(rawPath).value, NonEmpty(Split(DecodeRounds(rawPath, 5).value, 0x2F));
            && safe != [] && safe[0] == 0x2F
            && Split(safe[1..], 0x2F) == if kept == [] then [[]] else kept
  {
    AnchoredSegments(DecodeRounds(rawPath, ROUNDS).value);
  }

  /** Taking the empty parts out is the same for each part, wherever it stands. */
  lemma {:induction false} NonEmptyConcat(a: seq<Str>, b: seq<Str>)
    ensures NonEmpty(a + b) == NonEmpty(a) + NonEmpty(b)
  {
    if a == [] {
      assert a + b == b;
    } else {
      var rest := a[1..];
      NonEmptyConcat(rest, b);
      assert (a + b)[1..] == rest + b && (a + b)[0] == a[0];
      assert [a[0]] + (NonEmpty(rest) + NonEmpty(b)) == ([a[0]] + NonEmpty(rest)) + NonEmpty(b);
    }
  }

  lemma AnchoredConcat(a: Str, b: Str)
    ensures NonEmpty(Segments(a + [SLASH] + b)) == NonEmpty(Segments(a)) + NonEmpty(Segments(b))
  {
    SplitConcat(a, SLASH, b);
    NonEmptyConcat(Segments(a), Segments(b));
  }

  lemma NothingFromNothing()
    ensures NonEmpty(Segments([])) == []
  {
    assert NonEmpty([[]]) == NonEmpty([[]][1..]);
  }

  lemma AnchorsAreSqueezed(a: Str, b: Str)
    ensures Anchored(a + [SLASH] + ([SLASH] + b)) == Anchored(a + [SLASH] + b)
    ensures Anchored([SLASH] + b) == Anchored(b) && Anchored(a + [SLASH]) == Anchored(a)
  {
    AnchoredConcat(a, [SLASH] + b);
    AnchoredConcat(a, b);
    AnchoredConcat([], b);
    AnchoredConcat(a, []);
    NothingFromNothing();
    assert [] + [SLASH] + b == [SLASH] + b && a + [SLASH] + [] == a + [SLASH];
    assert [] + NonEmpty(Segments(b)) == NonEmpty(Segments(b)) && NonEmpty(Segments(a)) + [] == NonEmpty(Segments(a));
  }

  /** Without "%" the verdict depends on the units other than "/" and the segments only. */
  lemma SameVerdict(path: Str, path': Str)
    requires PERCENT !in path && PERCENT !in path' && Anchored(path) == Anchored(path')
    ensures Sanitized(path) == Sanitized(path')
  {
    DecodeShrinks(path);
    DecodeShrinks(path');
    StuckRounds(path, ROUNDS);
    StuckRounds(path', ROUNDS);
    ControlSurvivesAnchoring(path);
    ControlSurvivesAnchoring(path');
    AnchoredSegments(path);
    AnchoredSegments(path');
    SegmentsStay(path);
    SegmentsStay(path');
  }

  lemma SegmentsStay(path: Str)
    ensures DOT_DOT in Segments(path) <==> DOT_DOT in Segments(Anchored(path)[1..])
  {
    AnchoredSegments(path);
  }

  /** Slashes are squeezed: two count as one, and at the ends they count for nothing. */
  lemma SlashesAreSqueezed(a: Str, b: Str)
    requires PERCENT !in a && PERCENT !in b
    ensures Sanitized(a + [0x2F] + ([0x2F] + b)) == Sanitized(a + [0x2F] + b)
    ensures Sanitized([0x2F] + b) == Sanitized(b) && Sanitized(a + [0x2F]) == Sanitized(a)
  {
    AnchorsAreSqueezed(a, b);
    SameVerdict(a + [SLASH] + ([SLASH] + b), a + [SLASH] + b);
    SameVerdict([SLASH] + b, b);
    SameVerdict(a + [SLASH], a);
  }

  // ---- When sanitising again changes nothing ----

  lemma {:induction false} JoinOfNonEmptyIsShorter(parts: seq<Str>)
    ensures |Join(NonEmpty(parts), [SLASH])| <= |Join(parts, [SLASH])|
  {
    if |parts| > 0 {
      JoinOfNonEmptyIsShorter(parts[1..]);
      var rest := NonEmpty(parts[1..]);
      if parts[0] != [] && rest != [] {
        assert NonEmpty(parts)[1..] == rest;
      } else if parts[0] != [] {
        assert NonEmpty(parts) == [parts[0]];
      }
    }
  }

  lemma AnchoringShrinksRootedPaths(path: Str)
    requires path != [] && path[0] == SLASH
    ensures |Anchored(path)| <= |path|
  {
    SplitAtSeparator([], SLASH, path[1..]);
    assert path == [] + [SLASH] + path[1..];
    assert ([[]] + Segments(path[1..]))[1..] == Segments(path[1..]);
    JoinOfNonEmptyIsShorter(Segments(path[1..]));
    JoinSplit(path[1..], SLASH);
  }

  lemma {:induction false} NonEmptyPartsAreKept(parts: seq<Str>)
    requires forall part :: part in parts ==> part != []
    ensures NonEmpty(parts) == parts
  {
    if parts != [] {
      assert parts[0] in parts;
      assert parts == [parts[0]] + parts[1..];
      forall part | part in parts[1..] ensures part in parts {}
      NonEmptyPartsAreKept(parts[1..]);
    }
  }

  lemma AnchoredPathIsItsOwnAnchor(path: Str)
    requires IsAnchored(path)
    ensures Anchored(path) == path
    ensures DOT_DOT !in Segments(path)
  {
    SplitAtSeparator([], SLASH, path[1..]);
    assert path == [] + [SLASH] + path[1..];
    assert ([[]] + Segments(path[1..]))[1..] == Segments(path[1..]);
    JoinSplit(path[1..], SLASH);
    assert NonEmpty(Segments(path)) == NonEmpty(Segments(path[1..]));
    if path == [SLASH] {
      assert path[1..] == [] && Segments([]) == [[]] && NonEmpty([[]]) == NonEmpty([[]][1..]);
    } else {
      NonEmptyPartsAreKept(Segments(path[1..]));
    }
    assert Anchored(path) == [SLASH] + path[1..];
  }

  /** Rounds never lengthen a path, shorten one with a "%", and keep a leading slash. */
  lemma {:induction false} RoundsShrink(s: Str, n: nat)
    requires DecodeRounds(s, n).Some?
    ensures var d := DecodeRounds(s, n).value;
            && |d| <= |s|
            && (n > 0 && PERCENT in s ==> |d| < |s|)
            && (PERCENT !in s ==> d == s)
            && (s != [] && s[0] == SLASH ==> d != [] && d[0] == SLASH)
    decreases n
  {
    if n > 0 {
      DecodeShrinks(s);
      RoundsShrink(DecodeComponent(s).value, n - 1);
    }
  }

  /** The paths the sanitiser returns unchanged are exactly the safe, "%"-free ones. */
  lemma FixedPoints(path: Str)
    ensures Sanitized(path) == Some(path) <==>
            IsAnchored(path) && IsFreeOfControls(path) && PERCENT !in path
  {
    ControlsMean(path);
    if Sanitized(path) == Some(path) {
      AcceptedPathIsSafe(path);
      if PERCENT in path {
        RoundsShrink(path, ROUNDS);
        AnchoringShrinksRootedPaths(DecodeRounds(path, ROUNDS).value);
        assert false;
      }
    }
    if IsAnchored(path) && IsFreeOfControls(path) && PERCENT !in path {
      DecodeShrinks(path);
      StuckRounds(path, ROUNDS);
      AnchoredPathIsItsOwnAnchor(path);
    }
  }

  /** Sanitising twice equals sanitising once exactly when five rounds removed every "%". */
  lemma IdempotentIffFiveRoundsSuffice(rawPath: Str)
    requires Sanitized(rawPath).Some?
    ensures var safe := Sanitized(rawPath).value;
            && DecodeRounds(rawPath, 5).Some?
            && (Sanitized(safe) == Some(safe) <==> PERCENT !in DecodeRounds(rawPath, 5).value)
            && (PERCENT in safe <==> PERCENT in DecodeRounds(rawPath, 5).value)
  {
    AcceptedPathIsSafe(rawPath);
    FixedPoints(Sanitized(rawPath).value);
    AnchoringKeepsMembers(DecodeRounds(rawPath, ROUNDS).value, PERCENT);
  }

  // ---- Nested encodings ----

  lemma {:induction false} MoreRounds(s: Str, k: nat, n: nat, path: Str)
    requires DecodeRounds(s, k) == Some(path) && PERCENT !in path && k <= n
    ensures DecodeRounds(s, n) == Some(path)
    decreases k
  {
    if k == 0 {
      DecodeShrinks(path);
      StuckRounds(path, n);
    } else {
      MoreRounds(DecodeComponent(s).value, k - 1, n - 1, path);
    }
  }

  /** Up to five layers of escapes, however they were made, hide nothing: the verdict is the plain path's. */
  lemma EncodingHidesNothing(raw: Str, layers: nat, path: Str)
    requires DecodeRounds(raw, layers) == Some(path) && PERCENT !in path && layers <= 5
    ensures Sanitized(raw) == Sanitized(path)
  {
    MoreRounds(raw, layers, ROUNDS, path);
    MoreRounds(path, 0, ROUNDS, path);
  }

  /** Escaping the "%"s of a string hides its escapes under one more layer. */
  function EscapePercent(s: Str): Str {
    if s == [] then []
    else (if s[0] == PERCENT then [PERCENT, 0x32, 0x35] else [s[0]]) + EscapePercent(s[1..])
  }

  function Layered(s: Str, n: nat): Str {
    if n == 0 then s else EscapePercent(Layered(s, n - 1))
  }

  lemma {:induction false} PercentEscapeDecodes(s: Str)
    ensures DecodeComponent(EscapePercent(s)) == Some(s)
  {
    if s != [] {
      var e, rest := EscapePercent(s), EscapePercent(s[1..]);
      PercentEscapeDecodes(s[1..]);
      assert [s[0]] + s[1..] == s;
      if s[0] == PERCENT {
        assert FirstOctet(e) == Some(0x25);
        assert Head(e) == Some(([PERCENT], 3)) && e[3..] == rest;
      } else {
        assert e[1..] == rest;
      }
    }
  }

  lemma {:induction false} LayersPeel(s: Str, n: nat, k: nat)
    requires k <= n
    ensures DecodeRounds(Layered(s, n), k) == Some(Layered(s, n - k))
    decreases k
  {
    if k > 0 {
      PercentEscapeDecodes(Layered(s, n - 1));
      LayersPeel(s, n - 1, k - 1);
    }
  }

  lemma {:induction false} EscapePercentText(s: Str)
    ensures forall u :: u in EscapePercent(s) ==> u in s || u in {0x32, 0x35}
    ensures forall u :: u in s ==> u in EscapePercent(s)
  {
    if s != [] {
      EscapePercentText(s[1..]);
      assert s == [s[0]] + s[1..];
    }
  }

  lemma {:induction false} LayeredText(s: Str, n: nat)
    ensures forall u :: u in Layered(s, n) ==> u in s || u in {0x32, 0x35}
    ensures forall u :: u in s ==> u in Layered(s, n)
  {
    if n > 0 {
      LayeredText(s, n - 1);
      EscapePercentText(Layered(s, n - 1));
    }
  }

  /** "%2e%2e" */
  const DOTS: Str := [PERCENT, 0x32, 0x65, PERCENT, 0x32, 0x65]

  lemma DotsDecodeToDots()
    ensures DecodeComponent(DOTS) == Some(DOT_DOT)
  {
    var second := DOTS[3..];
    assert second == [PERCENT, 0x32, 0x65] && second[3..] == [];
    assert FirstOctet(DOTS) == Some(0x2E) && FirstOctet(second) == Some(0x2E);
    assert Head(DOTS) == Some(([DOT], 3)) && Head(second) == Some(([DOT], 3));
    assert DecodeComponent(second) == Some([DOT]) by { assert [DOT] + [] == [DOT]; }
    assert [DOT] + [DOT] == DOT_DOT;
  }

  lemma {:induction false} DotsPeel(n: nat)
    ensures DecodeRounds(Layered(DOTS, n), n + 1) == Some(DOT_DOT)
  {
    if n == 0 {
      DotsDecodeToDots();
      assert DecodeRounds(DOT_DOT, 0) == Some(DOT_DOT);
    } else {
      PercentEscapeDecodes(Layered(DOTS, n - 1));
      DotsPeel(n - 1);
    }
  }

  /** A ".." segment is still there after a decode. */
  lemma {:induction false} DotDotStays(d: Str)
    requires DOT_DOT in Segments(d) && DecodeComponent(d).Some?
    ensures DOT_DOT in Segments(DecodeComponent(d).value)
    decreases |d|
  {
    var k := IndexOf(d, SLASH);
    if k == |d| {
      SplitWithoutSeparator(d, SLASH);
      DecodeShrinks(DOT_DOT);
    } else {
      var a, b := d[..k], d[k + 1..];
      assert d == a + [SLASH] + b;
      SplitAtSeparator(a, SLASH, b);
      DecodeAtSlash(a, b);
      var da, db := DecodeComponent(a).value, DecodeComponent(b).value;
      if a == DOT_DOT {
        DecodeShrinks(DOT_DOT);
        SplitAtSeparator(DOT_DOT, SLASH, db);
      } else {
        DotDotStays(b);
        LaterPartsStay(da, SLASH, db);
      }
    }
  }

  lemma {:induction false} DotDotSurvives(d: Str, n: nat)
    requires DOT_DOT in Segments(d) && DecodeRounds(d, n).Some?
    ensures DOT_DOT in Segments(DecodeRounds(d, n).value)
    decreases n
  {
    if n > 0 {
      DotDotStays(d);
      DotDotSurvives(DecodeComponent(d).value, n - 1);
    }
  }

  lemma {:induction false} RoundsCompose(raw: Str, k: nat, n: nat)
    requires k <= n && DecodeRounds(raw, k).Some?
    ensures DecodeRounds(raw, n) == DecodeRounds(DecodeRounds(raw, k).value, n - k)
    decreases k
  {
    if k > 0 { RoundsCompose(DecodeComponent(raw).value, k - 1, n - 1); }
  }

  /** A path that shows a ".." segment after at most five decodes is refused, whatever else it holds. */
  lemma FiveLayersAreRefused(raw: Str, layers: nat)
    requires layers <= 5 && DecodeRounds(raw, layers).Some?
    requires DOT_DOT in Segments(DecodeRounds(raw, layers).value)
    ensures Sanitized(raw) == None
  {
    RoundsCompose(raw, layers, ROUNDS);
    if DecodeRounds(raw, ROUNDS).Some? {
      DotDotSurvives(DecodeRounds(raw, layers).value, ROUNDS - layers);
    }
  }

  /**
   * "%2e%2e" under five or more layers is accepted, and what is left is not stable and
   * decodes to ".." in the end.
   */
  lemma SixLayersAreNotIdempotent(n: nat)
    requires n >= 5
    ensures var left := Layered(DOTS, n - 5);
            && Sanitized([SLASH] + Layered(DOTS, n)) == Some([SLASH] + left)
            && Sanitized([SLASH] + left) != Some([SLASH] + left)
            && DecodeRounds(left, n - 4) == Some(DOT_DOT)
  {
    LayersLeave(n, ROUNDS);
    DotsPeel(n - ROUNDS);
    LayeredDots(n - ROUNDS);
    LeftIsAccepted([SLASH] + Layered(DOTS, n), Layered(DOTS, n - ROUNDS));
  }

  lemma LayersLeave(n: nat, k: nat)
    requires k <= n
    ensures DecodeRounds([SLASH] + Layered(DOTS, n), k) == Some([SLASH] + Layered(DOTS, n - k))
  {
    LayersPeel(DOTS, n, k);
    RootedRounds(Layered(DOTS, n), k);
  }

  lemma {:induction false} RootedRounds(s: Str, n: nat)
    requires DecodeRounds(s, n).Some?
    ensures DecodeRounds([SLASH] + s, n) == Some([SLASH] + DecodeRounds(s, n).value)
    decreases n
  {
    if n > 0 {
      SlashDecodes(s);
      RootedRounds(DecodeComponent(s).value, n - 1);
    }
  }

  lemma LayeredDots(n: nat)
    ensures var left := Layered(DOTS, n); PERCENT in left && SLASH !in left && !HasControl(left)
  {
    var left := Layered(DOTS, n);
    LayeredText(DOTS, n);
    assert DOTS[0] == PERCENT;
    forall i | 0 <= i < |left| ensures !IsControl(left[i]) { assert left[i] in left; }
  }

  /** One segment with a "%" left after five rounds is accepted and not stable. */
  lemma LeftIsAccepted(raw: Str, left: Str)
    requires DecodeRounds(raw, ROUNDS) == Some([SLASH] + left)
    requires PERCENT in left && SLASH !in left && !HasControl(left)
    ensures Sanitized(raw) == Some([SLASH] + left) && Sanitized([SLASH] + left) != Some([SLASH] + left)
  {
    var path := [SLASH] + left;
    assert path[1..] == left;
    OneSegment(left);
    forall i | 0 <= i < |path| ensures !IsControl(path[i]) { if i > 0 { assert path[i] == left[i - 1]; } }
    FixedPoints(path);
  }

  lemma OneSegment(s: Str)
    requires s != [] && SLASH !in s && s != DOT_DOT
    ensures Segments([SLASH] + s) == [[], s] && Anchored([SLASH] + s) == [SLASH] + s
  {
    SplitWithoutSeparator(s, SLASH);
    SplitAtSeparator([], SLASH, s);
    assert [SLASH] + s == [] + [SLASH] + s && [[]] + [s] == [[], s];
    assert NonEmpty([[], s]) == NonEmpty([s]) by { assert [[], s][1..] == [s]; }
    NonEmptyPartsAreKept([s]);
  }
}
