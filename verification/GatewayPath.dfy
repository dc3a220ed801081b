/**
 * The way of a path from a generated client through the proxy to the private API
 * (apps/web/src/lib/encore-client.ts, apps/api/gateway/proxy.ts), URL parsing included.
 */
module GatewayPath {
  import opened Options
  import opened Text
  import opened PercentCodec
  import opened PathSanitizer
  import opened UrlPath

  const PREFIX: Str := Lit("/api/v1/data")

  /** `path.map(encodeURIComponent)`; one ill-formed segment makes the call throw. */
  function EncodeAll(segments: seq<Str>): (r: Option<seq<Str>>)
    ensures r.Some? ==> |r.value| == |segments|
  {
    if segments == [] then Some([])
    else
      match (EncodeComponent(segments[0]), EncodeAll(segments[1..]))
      case (Some(e), Some(rest)) => Some([e] + rest)
      case _ => None
  }

  /** The request path the client builds from a list of segments. */
  function ClientPath(segments: seq<Str>): (r: Option<Str>)
    ensures r.Some? ==> r.value != [] && r.value[0] == SLASH
  {
    match EncodeAll(segments)
    case None => None
    case Some(encoded) => Some(PREFIX + [SLASH] + Join(encoded, [SLASH]))
  }

  /** The path of the URL the server sees: the client parses it, and the server parses it again. */
  function Requested(segments: seq<Str>): Option<Str> {
    match ClientPath(segments)
    case None => None
    case Some(path) => Some(Pathname(Pathname(path)))
  }

  /** What `handleProxy` hands to the sanitiser. */
  function RawForward(pathname: Str): Str {
    var rest := if PREFIX <= pathname then pathname[|PREFIX|..] else pathname;
    if rest == [] then [SLASH] else rest
  }

  /** What the sanitiser makes of the request, if its path is one the handler is registered for. */
  ghost function Forwarded(segments: seq<Str>): Option<Str> {
    match Requested(segments)
    case None => None
    case Some(pathname) => if PREFIX + [SLASH] <= pathname then Sanitized(RawForward(pathname)) else None
  }

  /**
   * The path the private API reads, after the segments of its base URL, when the proxy
   * fetches base, sanitised path and query put together; `None` if it lies elsewhere.
   */
  function ReadBy(base: seq<Str>, safe: Str, search: Str): Option<Str>
    requires safe != [] && safe[0] == SLASH
  {
    var segments := UrlSegments(base, safe + search);
    if PathEncodeAll(base) <= segments then DecodeComponent(PathText(segments[|base|..])) else None
  }

  ghost function Delivered(segments: seq<Str>, base: seq<Str>, search: Str): Option<Str> {
    match Forwarded(segments)
    case None => None
    case Some(safe) => if safe != [] && safe[0] == SLASH then ReadBy(base, safe, search) else None
  }

  /** The path the caller means. */
  function Intended(segments: seq<Str>): Str {
    [SLASH] + Join(segments, [SLASH])
  }

  predicate AllWellFormed(segments: seq<Str>) {
    forall s :: s in segments ==> WellFormed(s)
  }

  /** No segment a URL parser takes for a step in the tree. */
  predicate NoDots(segments: seq<Str>) {
    [DOT] !in segments && DOT_DOT !in segments
  }

  // ---- The request ----

  lemma ConsDecodes(e: Str, segment: Str, es: Str, rest: Str)
    requires DecodeComponent(e) == Some(segment) && DecodeComponent(es) == Some(rest)
    ensures DecodeComponent(e + [SLASH] + es) == Some(segment + [SLASH] + rest)
  {
    SlashDecodes(es);
    DecodeConcat(e, [SLASH] + es);
    SlashBetween(e, es);
    SlashBetween(segment, rest);
  }

  lemma SlashBetween(a: Str, b: Str)
    ensures a + [SLASH] + b == a + ([SLASH] + b)
  {}

  lemma {:induction false} EncodeAllDecodes(segments: seq<Str>)
    requires AllWellFormed(segments)
    ensures EncodeAll(segments).Some?
    ensures DecodeComponent(Join(EncodeAll(segments).value, [SLASH])) == Some(Join(segments, [SLASH]))
  {
    if segments != [] {
      var rest := segments[1..];
      assert segments[0] in segments;
      forall s | s in rest ensures s in segments {}
      RoundTrip(segments[0]);
      EncodeAllDecodes(rest);
      var e, es := EncodeComponent(segments[0]).value, EncodeAll(rest).value;
      assert ([e] + es)[1..] == es;
      if rest != [] {
        ConsDecodes(e, segments[0], Join(es, [SLASH]), Join(rest, [SLASH]));
      }
    }
  }

  lemma {:induction false} EncodedSegments(segments: seq<Str>)
    requires AllWellFormed(segments) && NoDots(segments)
    ensures EncodeAll(segments).Some?
    ensures forall e :: e in EncodeAll(segments).value ==> IsEncodedText(e) && IsKept(e)
  {
    if segments != [] {
      assert segments[0] in segments;
      forall s | s in segments[1..] ensures s in segments {}
      EncodeAlphabet(segments[0]);
      RoundTrip(segments[0]);
      DotsDecode(EncodeComponent(segments[0]).value);
      EncodedSegments(segments[1..]);
    }
  }

  lemma NothingDecodesToNothing(s: Str)
    requires DecodeComponent(s) == Some([])
    ensures s == []
  {}

  /** What decodes to something that begins with a dot begins with a spelling of it. */
  lemma DotComesFirst(part: Str, rest: Str) returns (n: nat)
    requires DecodeComponent(part) == Some([DOT] + rest)
    ensures n <= |part| && n in {1, 3} && IsDot(part[..n]) && DecodeComponent(part[n..]) == Some(rest)
  {
    if part[0] == PERCENT {
      var v := TakeEscapeMeans(part);
      n := 3 * |Utf8.Encode(v)|;
      assert ([DOT] + rest)[0] == Utf16(v)[0] == DOT;
      assert v == 0x2E && Utf16(v) == [DOT] && n == 3;
      OctetMeans(part[..3], 0x2E);
      assert FirstOctet(part[..3]) == Some(0x2E);
      assert part[..3] == [PERCENT, part[1], part[2]];
    } else {
      n := 1;
      assert ([DOT] + rest)[0] == part[0];
      assert part[..1] == [DOT];
    }
    assert ([DOT] + rest)[1..] == rest;
  }

  /** Dot segments are the spellings of "." and "..", and nothing else is. */
  lemma DotsMean(part: Str)
    ensures IsDot(part) <==> DecodeComponent(part) == Some([0x2E])
    ensures IsDoubleDot(part) <==> DecodeComponent(part) == Some([0x2E, 0x2E])
  {
    DotsDecode(part);
    if DecodeComponent(part) == Some([DOT]) {
      assert [DOT] == [DOT] + [];
      var n := DotComesFirst(part, []);
      NothingDecodesToNothing(part[n..]);
      assert part == part[..n];
    }
    if DecodeComponent(part) == Some(DOT_DOT) {
      assert DOT_DOT == [DOT] + [DOT] && [DOT] == [DOT] + [];
      var n := DotComesFirst(part, [DOT]);
      var m := DotComesFirst(part[n..], []);
      NothingDecodesToNothing(part[n..][m..]);
      assert part[n..] == part[n..][..m];
    }
  }

  /** Dot segments are spellings of "." and "..". */
  lemma DotsDecode(part: Str)
    ensures IsDot(part) ==> DecodeComponent(part) == Some([DOT])
    ensures IsDoubleDot(part) ==> DecodeComponent(part) == Some(DOT_DOT)
  {
    DotDecodes(part);
    assert [DOT] + [DOT] == DOT_DOT;
    if |part| >= 2 && IsDot(part[..1]) && IsDot(part[1..]) {
      DotDecodes(part[..1]);
      DotDecodes(part[1..]);
      DecodeConcat(part[..1], part[1..]);
      assert part == part[..1] + part[1..];
    } else if |part| >= 4 && IsDot(part[..3]) && IsDot(part[3..]) {
      DotDecodes(part[..3]);
      DotDecodes(part[3..]);
      DecodeConcat(part[..3], part[3..]);
      assert part == part[..3] + part[3..];
    }
  }

  lemma DotDecodes(part: Str)
    ensures IsDot(part) ==> DecodeComponent(part) == Some([DOT])
  {
    if part == [DOT] {
      DecodeShrinks(part);
    } else if IsDot(part) {
      assert FirstOctet(part) == Some(0x2E);
      assert Head(part) == Some(([DOT], 3));
      assert part[3..] == [] && [DOT] + [] == [DOT];
    }
  }

  lemma {:induction false} PathTextAppend(a: seq<Str>, b: seq<Str>)
    ensures PathText(a + b) == PathText(a) + PathText(b)
  {
    if a == [] {
      assert a + b == b;
    } else {
      PathTextAppend(a[1..], b);
      assert (a + b)[1..] == a[1..] + b;
    }
  }

  const PREFIX_PARTS: seq<Str> := [Lit("api"), Lit("v1"), Lit("data")]

  lemma OrdinaryPart(part: Str)
    requires part != [] && part[0] != DOT && part[0] != PERCENT
    ensures IsKept(part)
  {}

  lemma PrefixIsPathText()
    ensures PREFIX == PathText(PREFIX_PARTS)
    ensures forall part :: part in PREFIX_PARTS ==> IsEncodedText(part) && IsKept(part)
  {
    var api, v1, data := Lit("api"), Lit("v1"), Lit("data");
    assert PREFIX_PARTS[1..] == [v1, data] && PREFIX_PARTS[1..][1..] == [data];
    assert PathText([data]) == [SLASH] + data + [];
    assert PREFIX == [SLASH] + api + ([SLASH] + v1 + ([SLASH] + data + []));
    OrdinaryPart(api);
    OrdinaryPart(v1);
    OrdinaryPart(data);
  }

  predicate AllEncoded(parts: seq<Str>) {
    forall part :: part in parts ==> IsEncodedText(part)
  }

  lemma EncodedPathAlphabet(parts: seq<Str>)
    requires parts != [] && AllEncoded(parts)
    ensures var text := PathText(parts);
            text != [] && text[0] == SLASH && forall u :: u in text ==> IsUnreserved(u) || u == PERCENT || u == SLASH
  {
    var text := PathText(parts);
    PathTextIsJoin(parts);
    forall u | u in text ensures IsUnreserved(u) || u == PERCENT || u == SLASH {
      if u != SLASH {
        JoinMembers(parts, SLASH, u);
        var i :| 0 <= i < |parts| && u in parts[i];
        assert parts[i] in parts;
      }
    }
  }

  lemma EncodedPathParts(parts: seq<Str>)
    requires parts != [] && AllEncoded(parts)
    ensures PathText(parts) != [] && PathText(parts)[0] == SLASH && Parts(PathText(parts)) == parts
  {
    var text := PathText(parts);
    EncodedPathAlphabet(parts);
    UncutText(text);
    PathTextIsJoin(parts);
    assert text[1..] == Join(parts, [SLASH]);
    forall part | part in parts ensures SLASH !in part { assert IsEncodedText(part); }
    SplitJoin(parts, SLASH);
  }

  lemma UncutText(text: Str)
    requires text != [] && text[0] == SLASH
    requires forall u :: u in text ==> IsUnreserved(u) || u == PERCENT || u == SLASH
    ensures Parts(text) == Split(text[1..], SLASH)
  {
    assert text[|text| - 1] in text;
    PathOfUncut(text, []);
    assert text + [] == text;
    assert Slashes(text) == text by { assert BACKSLASH !in text; }
  }

  /** On a path of encoded segments a URL parser only collapses the dots. */
  lemma EncodedPathCollapses(parts: seq<Str>)
    requires parts != [] && AllEncoded(parts)
    ensures PathText(parts) != [] && PathText(parts)[0] == SLASH
    ensures Pathname(PathText(parts)) == PathText(Collapse([], parts))
    ensures AllEncoded(Collapse([], parts)) && Collapse([], parts) != []
  {
    EncodedPathParts(parts);
    var collapsed := Collapse([], parts);
    CollapseKeeps([], parts, 0);
    assert Beyond(collapsed, 0) == collapsed && Beyond([], 0) == [];
    forall i | 0 <= i < |collapsed| ensures PathEncode(collapsed[i]) == collapsed[i] {
      assert collapsed[i] in collapsed;
      PathEncodeOfEncodedText(collapsed[i]);
    }
    assert PathEncodeAll(collapsed) == collapsed;
  }

  /** What two parsers make of the encoded segments behind the prefix. */
  function Sent(encoded: seq<Str>): Str {
    PathText(Collapse([], Collapse([], RequestParts(encoded))))
  }

  lemma RequestCollapses(segments: seq<Str>)
    requires AllWellFormed(segments)
    ensures EncodeAll(segments).Some? && AllEncoded(RequestParts(EncodeAll(segments).value))
    ensures ClientPath(segments) == Some(PathText(RequestParts(EncodeAll(segments).value)))
    ensures Requested(segments) == Some(Sent(EncodeAll(segments).value))
  {
    AllSegmentsEncode(segments);
    var encoded := EncodeAll(segments).value;
    var parts := RequestParts(encoded);
    PrefixedPath(encoded);
    EncodedPathCollapses(parts);
    EncodedPathCollapses(Collapse([], parts));
  }

  lemma PrefixedPath(encoded: seq<Str>)
    requires AllEncoded(encoded)
    ensures PREFIX + [SLASH] + Join(encoded, [SLASH]) == PathText(RequestParts(encoded))
    ensures AllEncoded(RequestParts(encoded))
    ensures (forall e :: e in encoded ==> IsKept(e)) ==> forall e :: e in RequestParts(encoded) ==> IsKept(e)
  {
    PrefixIsPathText();
    PathTextIsJoin(Rest(encoded));
    PathTextAppend(PREFIX_PARTS, Rest(encoded));
    assert PREFIX + [SLASH] + Join(encoded, [SLASH]) == PREFIX + ([SLASH] + Join(encoded, [SLASH]));
  }

  function Rest(encoded: seq<Str>): seq<Str> {
    if encoded == [] then [[]] else encoded
  }

  function RequestParts(encoded: seq<Str>): (parts: seq<Str>)
    ensures parts != []
  {
    PREFIX_PARTS + Rest(encoded)
  }

  /** Both parsers leave the client's path alone as long as no segment is "." or "..". */
  lemma RequestIsUnchanged(segments: seq<Str>)
    requires AllWellFormed(segments) && NoDots(segments)
    ensures ClientPath(segments).Some? && Requested(segments) == ClientPath(segments)
  {
    RequestCollapses(segments);
    EncodedSegments(segments);
    var parts := RequestParts(EncodeAll(segments).value);
    PrefixedPath(EncodeAll(segments).value);
    NothingCollapses([], parts);
    assert [] + parts == parts;
  }

  predicate AreEncodings(segments: seq<Str>, encoded: seq<Str>) {
    |encoded| == |segments| && forall i :: 0 <= i < |segments| ==> EncodeComponent(segments[i]) == Some(encoded[i])
  }

  lemma {:induction false} AllSegmentsEncode(segments: seq<Str>)
    requires AllWellFormed(segments)
    ensures EncodeAll(segments).Some? && AllEncoded(EncodeAll(segments).value)
    ensures AreEncodings(segments, EncodeAll(segments).value)
  {
    if segments != [] {
      assert segments[0] in segments;
      forall s | s in segments[1..] ensures s in segments {}
      EncodeAlphabet(segments[0]);
      AllSegmentsEncode(segments[1..]);
      forall i | 0 < i < |segments| ensures EncodeComponent(segments[i]) == Some(EncodeAll(segments).value[i]) {
        assert segments[1..][i - 1] == segments[i];
      }
    }
  }

  lemma DotsEncode()
    ensures WellFormed([DOT]) && EncodeComponent([DOT]) == Some([DOT])
    ensures WellFormed(DOT_DOT) && EncodeComponent(DOT_DOT) == Some(DOT_DOT)
  {
    assert [DOT][1..] == [] && [DOT] + [] == [DOT];
    assert DOT_DOT[1..] == [DOT] && [DOT] + [DOT] == DOT_DOT;
  }

  /** The client's path reaches the sanitiser as an encoding of the intended one. */
  lemma SliceThenDecode(segments: seq<Str>)
    requires AllWellFormed(segments) && NoDots(segments)
    ensures Requested(segments).Some?
    ensures PREFIX + [SLASH] <= Requested(segments).value
    ensures DecodeComponent(RawForward(Requested(segments).value)) == Some(Intended(segments))
  {
    RequestIsUnchanged(segments);
    EncodeAllDecodes(segments);
    var tail := Join(EncodeAll(segments).value, [SLASH]);
    SlashDecodes(tail);
    PrefixIsSliced(tail);
  }

  /** The handler cuts the prefix off, and what is then empty is the root. */
  lemma PrefixIsCut(tail: Str)
    ensures RawForward(Lit("/api/v1/data") + tail) == if tail == [] then Lit("/") else tail
  {
    assert (PREFIX + tail)[|PREFIX|..] == tail;
    assert Lit("/") == [SLASH];
  }

  lemma PrefixIsSliced(tail: Str)
    ensures RawForward(PREFIX + [SLASH] + tail) == [SLASH] + tail
  {
    var path := PREFIX + [SLASH] + tail;
    assert path == PREFIX + ([SLASH] + tail);
    assert path[|PREFIX|..] == [SLASH] + tail;
  }

  /** An encoding of a path is forwarded as that path exactly when the path is safe and "%"-free. */
  lemma ForwardsDecodedPath(raw: Str, path: Str)
    requires DecodeComponent(raw) == Some(path) && path != [] && path[0] == SLASH
    ensures Sanitized(raw) == Some(path) <==>
            IsAnchored(path) && IsFreeOfControls(path) && PERCENT !in path
  {
    if PERCENT in path {
      if Sanitized(raw) == Some(path) {
        RoundsShrink(path, ROUNDS - 1);
        AnchoringShrinksRootedPaths(DecodeRounds(raw, ROUNDS).value);
        assert false;
      }
    } else {
      DecodeShrinks(path);
      StuckRounds(path, ROUNDS - 1);
      StuckRounds(path, ROUNDS);
      assert Sanitized(raw) == Sanitized(path);
      FixedPoints(path);
    }
  }

  /**
   * Encoding never fails on well-formed segments, and the proxy forwards the
   * intended path exactly when that path is safe and has no literal "%".
   */
  lemma ClientToGateway(segments: seq<Str>)
    requires AllWellFormed(segments) && NoDots(segments)
    ensures Requested(segments).Some?
    ensures var path := Intended(segments);
            Forwarded(segments) == Some(path) <==> IsAnchored(path) && IsFreeOfControls(path) && PERCENT !in path
  {
    SliceThenDecode(segments);
    ForwardsDecodedPath(RawForward(Requested(segments).value), Intended(segments));
  }

  // ---- What the private API reads ----

  lemma EncodedBeyond(segments: seq<Str>, k: nat)
    requires k <= |segments|
    ensures PathEncodeAll(segments)[k..] == PathEncodeAll(segments[k..])
    ensures PathEncodeAll(segments[k..]) == PathEncodeAll(Beyond(segments, k))
  {
    assert Beyond(segments, k) == segments[k..];
  }

  /** The private API reads no more than the parser sees of the path. */
  lemma ReadIsNoLonger(base: seq<Str>, safe: Str, search: Str)
    requires safe != [] && safe[0] == SLASH && IsSearch(search)
    ensures ReadBy(base, safe, search).Some? ==> |ReadBy(base, safe, search).value| <= |PathOf(safe, search)|
  {
    var parts := Parts(safe + search);
    var segments := Collapse(base, parts);
    if PathEncodeAll(base) <= PathEncodeAll(segments) {
      var kept := Beyond(segments, |base|);
      EncodedBeyond(segments, |base|);
      CollapseKeeps(base, parts, |base|);
      PartsSize(safe, search);
      WeightOfPathText(kept);
      if ReadBy(base, safe, search).Some? { DecodeWeight(PathText(PathEncodeAll(kept))); }
    }
  }

  lemma UncutParts(path: Str, search: Str)
    requires path != [] && path[0] == SLASH && IsSearch(search) && IsUncut(path, search)
    ensures Parts(path + search) == Split(Slashes(path)[1..], SLASH)
  {
    PathOfUncut(path, search);
  }

  /** What is in a part is in the whole. */
  lemma InPart(s: Str, part: Str, u: Unit)
    requires part in Split(s, SLASH) && u in part && u != SLASH
    ensures u in s
  {
    JoinSplit(s, SLASH);
    JoinMembers(Split(s, SLASH), SLASH, u);
  }

  predicate IsPlainPart(part: Str) {
    IsPlain(part) && SLASH !in part && BACKSLASH !in part
  }

  /** The parts of a plain path are plain. */
  lemma PartsArePlain(path: Str)
    requires path != [] && path[0] == SLASH && IsPlain(path)
    ensures forall part :: part in Split(Slashes(path)[1..], SLASH) ==> IsPlainPart(part)
  {
    var slashed := Slashes(path);
    WellFormedSlashes(path);
    assert WellFormed(slashed[1..]);
    WellFormedSplit(slashed[1..]);
    SplitPartsLackSeparator(slashed[1..], SLASH);
    forall part | part in Split(slashed[1..], SLASH) ensures PERCENT !in part && BACKSLASH !in part {
      if PERCENT in part { InPart(slashed[1..], part, PERCENT); }
      if BACKSLASH in part { InPart(slashed[1..], part, BACKSLASH); }
    }
  }

  /** What the parser needs besides: no backslash, no "." segment and nothing that cuts the path short. */
  predicate IsReadWhole(path: Str, search: Str)
    requires path != []
  {
    IsUncut(path, search) && BACKSLASH !in path && [DOT] !in Segments(path[1..])
  }

  /** A safe path is read as it is if the parser needs nothing more. */
  lemma WholePathIsRead(base: seq<Str>, path: Str, search: Str)
    requires IsSearch(search) && path != [] && IsAnchored(path) && IsPlain(path) && IsReadWhole(path, search)
    ensures ReadBy(base, path, search) == Some(path)
  {
    var parts := Segments(path[1..]);
    WholePathParts(path, search);
    NothingCollapses(base, parts);
    AppendedSegments(base, parts);
    PlainPathIsReadBack(parts);
    SegmentsText(path);
  }

  lemma WholePathParts(path: Str, search: Str)
    requires IsSearch(search) && path != [] && IsAnchored(path) && IsPlain(path) && IsReadWhole(path, search)
    ensures Parts(path + search) == Segments(path[1..])
    ensures forall part :: part in Segments(path[1..]) ==> IsPlain(part) && IsKept(part)
  {
    UncutParts(path, search);
    assert Slashes(path) == path;
    PartsArePlain(path);
    forall part | part in Segments(path[1..]) ensures IsKept(part) {
      ShortSegment(part);
    }
  }

  lemma SegmentsText(path: Str)
    requires path != [] && path[0] == SLASH
    ensures PathText(Segments(path[1..])) == path
  {
    PathTextIsJoin(Segments(path[1..]));
    JoinSplit(path[1..], SLASH);
    assert [SLASH] + path[1..] == path;
  }

  /** Without "%" only "." and ".." are dot segments. */
  lemma ShortSegment(part: Str)
    requires PERCENT !in part
    ensures IsKept(part) || part == [DOT] || part == DOT_DOT
  {
    assert |part| >= 1 ==> part == part[..1] + part[1..];
    assert |part| >= 2 ==> part[1..][0] == part[1];
    assert |part| >= 3 ==> part[..3][0] == part[0];
  }

  lemma AppendedSegments(base: seq<Str>, parts: seq<Str>)
    ensures PathEncodeAll(base) <= PathEncodeAll(base + parts)
    ensures PathEncodeAll(base + parts)[|base|..] == PathEncodeAll(parts)
  {}

  /** And only then. */
  lemma OnlyWholePathIsRead(base: seq<Str>, path: Str, search: Str)
    requires IsSearch(search) && path != [] && path[0] == SLASH && IsPlain(path)
    ensures ReadBy(base, path, search) == Some(path) ==> IsReadWhole(path, search)
  {
    ReadIsNoLonger(base, path, search);
    PathOfUncut(path, search);
    if ReadBy(base, path, search) == Some(path) {
      UncutParts(path, search);
      PartsArePlain(path);
      var parts := Parts(path + search);
      var segments := Collapse(base, parts);
      var kept := Beyond(segments, |base|);
      EncodedBeyond(segments, |base|);
      CollapseKeeps(base, parts, |base|);
      PlainPathIsReadBack(kept);
      KeptPath(kept, path);
    }
  }

  lemma KeptPath(kept: seq<Str>, path: Str)
    requires PathText(kept) == path && path != []
    requires forall x :: x in kept ==> x == [] || (IsPlainPart(x) && IsKept(x))
    ensures BACKSLASH !in path && [DOT] !in Segments(path[1..])
  {
    PathTextIsJoin(kept);
    assert path[1..] == Join(kept, [SLASH]);
    SplitJoin(kept, SLASH);
    JoinMembers(kept, SLASH, BACKSLASH);
    forall i | 0 <= i < |kept| ensures BACKSLASH !in kept[i] { assert kept[i] in kept; }
  }

  // ---- From the client to the private API ----

  lemma {:induction false} NonEmptySize(parts: seq<Str>)
    ensures NonEmpty(parts) == parts || Size(NonEmpty(parts)) < Size(parts)
  {
    if parts != [] {
      NonEmptySize(parts[1..]);
      assert parts == [parts[0]] + parts[1..];
    }
  }

  lemma {:induction false} PathTextSize(segments: seq<Str>)
    ensures |PathText(segments)| == Size(segments)
  {
    if segments != [] { PathTextSize(segments[1..]); }
  }

  /** Anchoring a rooted path leaves it alone or shortens it. */
  lemma AnchoringShortens(path: Str)
    requires path != [] && path[0] == SLASH
    ensures Anchored(path) == path || |Anchored(path)| < |path|
  {
    var parts := Segments(path[1..]);
    var kept := NonEmpty(parts);
    SplitAtSeparator([], SLASH, path[1..]);
    assert path == [] + [SLASH] + path[1..];
    assert ([[]] + parts)[1..] == parts && NonEmpty([[]] + parts) == kept;
    JoinSplit(path[1..], SLASH);
    assert path == [SLASH] + path[1..];
    PathTextIsJoin(parts);
    PathTextSize(parts);
    PathTextIsJoin(kept);
    PathTextSize(kept);
    NonEmptySize(parts);
  }

  /** The sanitiser returns the decoded path or a shorter one. */
  lemma SanitizedIsNoLonger(raw: Str, path: Str)
    requires DecodeComponent(raw) == Some(path) && path != [] && path[0] == SLASH && Sanitized(raw).Some?
    ensures var safe := Sanitized(raw).value;
            safe != [] && safe[0] == SLASH && (safe == path || |safe| < |path|)
  {
    RoundsShrink(path, ROUNDS - 1);
    AnchoringShrinksRootedPaths(DecodeRounds(raw, ROUNDS).value);
    if PERCENT !in path { AnchoringShortens(path); }
  }

  /** Safe for the proxy, without "%", and read whole by the URL parser. */
  ghost predicate IsDeliverable(path: Str, search: Str)
    requires path != []
  {
    IsAnchored(path) && IsFreeOfControls(path) && PERCENT !in path && IsReadWhole(path, search)
  }

  lemma IntendedIsWellFormed(segments: seq<Str>)
    requires AllWellFormed(segments)
    ensures WellFormed(Intended(segments))
  {
    WellFormedJoin(segments);
    assert Intended(segments)[1..] == Join(segments, [SLASH]);
  }

  // ---- Dot segments never arrive ----

  /** Weight of the path text. */
  function PathWeight(segments: seq<Str>): nat {
    if segments == [] then 0 else 1 + Weight(segments[0]) + PathWeight(segments[1..])
  }

  lemma {:induction false} PathWeightSnoc(segments: seq<Str>, last: Str)
    ensures PathWeight(segments + [last]) == PathWeight(segments) + 1 + Weight(last)
  {
    if segments == [] {
      assert [] + [last] == [last] && [last][1..] == [];
    } else {
      PathWeightSnoc(segments[1..], last);
      assert (segments + [last])[1..] == segments[1..] + [last];
    }
  }

  lemma ParentWeighsLess(base: seq<Str>)
    ensures PathWeight(Parent(base)) <= PathWeight(base)
  {
    if base != [] {
      PathWeightSnoc(Parent(base), base[|base| - 1]);
      assert base == Parent(base) + [base[|base| - 1]];
    }
  }

  lemma DotsWeigh(part: Str)
    ensures !IsKept(part) ==> Weight(part) >= 1
  {
    if !IsKept(part) && FirstOctet(part).Some? { assert part[..3][1] == part[1] && part[..3][2] == part[2]; }
  }

  predicate SomeDot(parts: seq<Str>) {
    exists i :: 0 <= i < |parts| && !IsKept(parts[i])
  }

  /** Collapsing never adds weight, and with a dot segment it takes some away. */
  lemma {:induction false} CollapseLightens(base: seq<Str>, parts: seq<Str>)
    ensures PathWeight(Collapse(base, parts)) <= PathWeight(base) + PathWeight(parts)
    ensures SomeDot(parts) ==> PathWeight(Collapse(base, parts)) < PathWeight(base) + PathWeight(parts)
    decreases |parts|
  {
    if parts != [] {
      var p, rest := parts[0], parts[1..];
      var up := if IsDoubleDot(p) then Parent(base) else base;
      var next := if IsKept(p) then up + [p] else if rest == [] then up + [[]] else up;
      assert up + [] == up;
      ParentWeighsLess(base);
      PathWeightSnoc(up, []);
      PathWeightSnoc(up, p);
      DotsWeigh(p);
      CollapseLightens(next, rest);
      if SomeDot(parts) && IsKept(p) {
        var i :| 0 <= i < |parts| && !IsKept(parts[i]);
        assert !IsKept(rest[i - 1]);
      }
    }
  }

  lemma {:induction false} WeightBefore(x: Str, t: Str)
    requires StartsApart(t)
    ensures Weight(x + t) == Weight(x) + Weight(t)
  {
    if x == [] {
      assert x + t == t;
    } else {
      FirstOctetBefore(x, t);
      if FirstOctet(x).Some? {
        assert (x + t)[3..] == x[3..] + t;
        WeightBefore(x[3..], t);
      } else {
        assert (x + t)[1..] == x[1..] + t;
        WeightBefore(x[1..], t);
      }
    }
  }

  lemma FirstOctetBefore(x: Str, t: Str)
    requires x != [] && StartsApart(t)
    ensures FirstOctet(x + t) == FirstOctet(x)
  {
    assert forall i :: 0 <= i < |x| ==> (x + t)[i] == x[i];
    if |x| < 3 && t != [] { assert (x + t)[|x|] == SLASH && HexValue(SLASH) == None; }
  }

  lemma {:induction false} PathTextWeight(segments: seq<Str>)
    ensures Weight(PathText(segments)) == PathWeight(segments)
  {
    if segments != [] {
      PathTextWeight(segments[1..]);
      WeightBefore(segments[0], PathText(segments[1..]));
      SlashWeighsOne(segments[0], PathText(segments[1..]));
    }
  }

  /** Encoding keeps the weight of a string at its length. */
  lemma {:induction false} EncodingWeight(s: Str)
    requires WellFormed(s)
    ensures EncodeComponent(s).Some? && Weight(EncodeComponent(s).value) == |s|
  {
    if s != [] {
      var v := FirstScalar(s).value;
      var rest := s[|Utf16(v)|..];
      EncodingWeight(rest);
      var e := EncodeComponent(rest).value;
      if IsUnreserved(s[0]) {
        assert ([s[0]] + e)[1..] == e;
      } else {
        WeightOfEscape(Utf8.Encode(v), e);
        ScalarWeight(v);
      }
    }
  }

  lemma {:induction false} EncodedPathWeight(segments: seq<Str>)
    requires AllWellFormed(segments)
    ensures EncodeAll(segments).Some? && PathWeight(EncodeAll(segments).value) == Size(segments)
  {
    if segments != [] {
      assert segments[0] in segments;
      forall s | s in segments[1..] ensures s in segments {}
      EncodingWeight(segments[0]);
      EncodedPathWeight(segments[1..]);
      var e, es := EncodeComponent(segments[0]).value, EncodeAll(segments[1..]).value;
      assert ([e] + es)[1..] == es;
    }
  }

  lemma {:induction false} PathWeightConcat(a: seq<Str>, b: seq<Str>)
    ensures PathWeight(a + b) == PathWeight(a) + PathWeight(b)
  {
    if a == [] {
      assert a + b == b;
    } else {
      PathWeightConcat(a[1..], b);
      assert (a + b)[1..] == a[1..] + b;
    }
  }

  lemma DottedSegment(segments: seq<Str>)
    requires AllWellFormed(segments) && !NoDots(segments)
    ensures EncodeAll(segments).Some? && EncodeAll(segments).value != [] && SomeDot(EncodeAll(segments).value)
  {
    AllSegmentsEncode(segments);
    DotsEncode();
    var i :| 0 <= i < |segments| && segments[i] in {[DOT], DOT_DOT};
    assert DOT_DOT[..1] == [DOT] && DOT_DOT[1..] == [DOT];
    assert !IsKept(EncodeAll(segments).value[i]);
  }

  /** A request with dot segments is lighter than the prefix and the path the caller means. */
  lemma DottedRequest(segments: seq<Str>)
    requires AllWellFormed(segments) && !NoDots(segments)
    ensures Requested(segments).Some?
    ensures Weight(Requested(segments).value) < PathWeight(PREFIX_PARTS) + Size(segments)
  {
    DottedSegment(segments);
    RequestCollapses(segments);
    EncodedPathWeight(segments);
    DottedParts(PREFIX_PARTS, EncodeAll(segments).value);
  }

  lemma DottedParts(prefix: seq<Str>, encoded: seq<Str>)
    requires SomeDot(encoded)
    ensures Weight(PathText(Collapse([], Collapse([], prefix + encoded)))) < PathWeight(prefix) + PathWeight(encoded)
  {
    var i :| 0 <= i < |encoded| && !IsKept(encoded[i]);
    assert (prefix + encoded)[|prefix| + i] == encoded[i];
    PathWeightConcat(prefix, encoded);
    CollapseLightens([], prefix + encoded);
    CollapseLightens([], Collapse([], prefix + encoded));
    PathTextWeight(Collapse([], Collapse([], prefix + encoded)));
  }

  lemma PrefixWeight()
    ensures PathWeight(PREFIX_PARTS) == Weight(PREFIX)
  {
    PrefixIsPathText();
    PathTextWeight(PREFIX_PARTS);
  }

  /** So the private API reads less than the caller means. */
  lemma DotsDoNotArrive(segments: seq<Str>, base: seq<Str>, search: Str)
    requires AllWellFormed(segments) && !NoDots(segments) && IsSearch(search)
    ensures Delivered(segments, base, search) != Some(Intended(segments))
  {
    DottedRequest(segments);
    PrefixWeight();
    IntendedSize(segments);
    DeliveredIsLight(segments, base, search);
  }

  lemma DeliveredIsLight(segments: seq<Str>, base: seq<Str>, search: Str)
    requires IsSearch(search)
    ensures Delivered(segments, base, search).Some? ==>
              |Delivered(segments, base, search).value| + Weight(PREFIX) <= Weight(Requested(segments).value)
  {
    if Delivered(segments, base, search).Some? {
      var pathname := Requested(segments).value;
      RoutedWeight(pathname);
      ReadIsLight(RawForward(pathname), base, search);
    }
  }

  lemma RoutedWeight(pathname: Str)
    requires PREFIX + [SLASH] <= pathname
    ensures var raw := RawForward(pathname);
            raw != [] && raw[0] == SLASH && Weight(pathname) == Weight(PREFIX) + Weight(raw)
  {
    var raw := pathname[|PREFIX|..];
    assert pathname == PREFIX + raw && raw[0] == pathname[|PREFIX|];
    WeightBefore(PREFIX, raw);
  }

  lemma IntendedSize(segments: seq<Str>)
    requires segments != []
    ensures |Intended(segments)| == Size(segments)
  {
    PathTextSize(segments);
    PathTextIsJoin(segments);
  }

  lemma ReadIsLight(raw: Str, base: seq<Str>, search: Str)
    requires raw != [] && raw[0] == SLASH && Sanitized(raw).Some? && IsSearch(search)
    ensures var safe := Sanitized(raw).value;
            safe != [] && safe[0] == SLASH &&
            (ReadBy(base, safe, search).Some? ==> |ReadBy(base, safe, search).value| <= Weight(raw))
  {
    var path := DecodeComponent(raw).value;
    DecodeWeight(raw);
    assert path[0] == SLASH;
    SanitizedIsNoLonger(raw, path);
    var safe := Sanitized(raw).value;
    PathOfUncut(safe, search);
    if ReadBy(base, safe, search).Some? { ReadIsNoLonger(base, safe, search); }
  }

  // ---- The main result ----

  lemma {:induction false} JoinKeepsSegment(segments: seq<Str>, x: Str)
    requires x in segments && SLASH !in x
    ensures x in Segments(Join(segments, [SLASH]))
  {
    if |segments| == 1 {
      SplitWithoutSeparator(x, SLASH);
    } else if x == segments[0] {
      SplitAtSeparator(x, SLASH, Join(segments[1..], [SLASH]));
    } else {
      JoinKeepsSegment(segments[1..], x);
      LaterPartsStay(segments[0], SLASH, Join(segments[1..], [SLASH]));
    }
  }

  lemma DotlessIsDelivered(segments: seq<Str>, base: seq<Str>, search: Str)
    requires AllWellFormed(segments) && NoDots(segments) && IsSearch(search)
    ensures var path := Intended(segments);
            Delivered(segments, base, search) == Some(path) <==> IsDeliverable(path, search)
  {
    SliceThenDecode(segments);
    var path := Intended(segments);
    var raw := RawForward(Requested(segments).value);
    IntendedIsWellFormed(segments);
    ForwardsDecodedPath(raw, path);
    if Delivered(segments, base, search) == Some(path) {
      SanitizedIsNoLonger(raw, path);
      var safe := Forwarded(segments).value;
      ReadIsNoLonger(base, safe, search);
      PathOfUncut(safe, search);
      assert safe == path;
      OnlyWholePathIsRead(base, path, search);
    }
    if IsDeliverable(path, search) { WholePathIsRead(base, path, search); }
  }

  /**
   * The private API reads the path the caller means exactly when that path is safe, has
   * no "%", "?", "#" or backslash and no "." segment, and does not end the URL in a space.
   */
  lemma ClientToPrivateApi(segments: seq<Str>, base: seq<Str>, search: Str)
    requires AllWellFormed(segments) && IsSearch(search)
    ensures var path := Intended(segments);
            Delivered(segments, base, search) == Some(path) <==> IsDeliverable(path, search)
  {
    if NoDots(segments) {
      DotlessIsDelivered(segments, base, search);
    } else {
      DotsDoNotArrive(segments, base, search);
      var dots :| dots in segments && dots in {[DOT], DOT_DOT};
      JoinKeepsSegment(segments, dots);
      assert Intended(segments)[1..] == Join(segments, [SLASH]);
    }
  }

  /** A segment that needs no care. */
  predicate IsPlainSegment(s: Str) {
    && s != [] && s != [DOT] && s != DOT_DOT && WellFormed(s)
    && forall u :: u in s ==> u !in {SLASH, BACKSLASH, PERCENT, QUESTION, HASH} && 0x20 <= u && u != 0x7F
  }

  predicate ArePlainSegments(segments: seq<Str>, search: Str) {
    && (forall s :: s in segments ==> IsPlainSegment(s))
    && (search == [] && segments != [] ==> !EndsInSpace(segments[|segments| - 1]))
  }

  lemma PlainIntention(segments: seq<Str>, search: Str)
    requires ArePlainSegments(segments, search)
    ensures forall u :: u in Intended(segments) && u != SLASH ==>
              u !in {BACKSLASH, PERCENT, QUESTION, HASH} && 0x20 <= u && u != 0x7F
    ensures segments != [] ==> Segments(Intended(segments)[1..]) == segments
    ensures segments == [] ==> Segments(Intended(segments)[1..]) == [[]]
  {
    var body := Join(segments, [SLASH]);
    assert Intended(segments)[1..] == body;
    if segments != [] { SplitJoin(segments, SLASH); }
    forall u | u in Intended(segments) && u != SLASH
      ensures u !in {BACKSLASH, PERCENT, QUESTION, HASH} && 0x20 <= u && u != 0x7F
    {
      JoinMembers(segments, SLASH, u);
      var i :| 0 <= i < |segments| && u in segments[i];
      assert segments[i] in segments;
    }
  }

  lemma {:induction false} JoinEnds(segments: seq<Str>)
    requires segments != [] && forall i :: 0 <= i < |segments| ==> segments[i] != []
    ensures var body, last := Join(segments, [SLASH]), segments[|segments| - 1];
            body != [] && body[|body| - 1] == last[|last| - 1]
  {
    if |segments| > 1 { JoinEnds(segments[1..]); }
  }

  /** Plain segments always arrive, and the receiver can split them apart again. */
  lemma PlainSegmentsArrive(segments: seq<Str>, base: seq<Str>, search: Str)
    requires ArePlainSegments(segments, search) && IsSearch(search)
    ensures Delivered(segments, base, search) == Some(Intended(segments))
    ensures segments != [] ==> Segments(Intended(segments)[1..]) == segments
  {
    var path := Intended(segments);
    PlainIntention(segments, search);
    ClientToPrivateApi(segments, base, search);
    assert BACKSLASH !in path && PERCENT !in path && QUESTION !in path && HASH !in path;
    forall i | 0 <= i < |path| ensures 0x20 <= path[i] && path[i] != 0x7F { assert path[i] in path; }
    if segments != [] {
      forall i | 0 <= i < |segments| ensures segments[i] != [] { assert segments[i] in segments; }
      JoinEnds(segments);
      assert path[|path| - 1] == path[1..][|path| - 2];
    }
    assert !EndsInSpace(path) || search != [];
    assert IsAnchored(path);
  }

  lemma SegmentUnit(segments: seq<Str>, s: Str, u: Unit)
    requires s in segments && u in s && u != SLASH
    ensures u in Intended(segments)
  {
    var i :| 0 <= i < |segments| && segments[i] == s;
    JoinMembers(segments, SLASH, u);
    assert u in Intended(segments)[1..];
  }

  /**
   * Segments with a "%" never arrive ("100%" is refused and "%41" arrives as "A"), nor do
   * those with a query mark, a number sign or a backslash, which the sanitiser lets pass.
   */
  lemma DelimitersDoNotArrive(segments: seq<Str>, base: seq<Str>, search: Str, u: Unit)
    requires AllWellFormed(segments) && IsSearch(search)
    requires u in {PERCENT, QUESTION, HASH, BACKSLASH} && exists s :: s in segments && u in s
    ensures Delivered(segments, base, search) != Some(Intended(segments))
  {
    var s :| s in segments && u in s;
    SegmentUnit(segments, s, u);
    ClientToPrivateApi(segments, base, search);
  }

  // ---- Under the base URL ----

  /**
   * Whatever the raw path, a sanitised path without "%" and backslash that nothing cuts
   * short is fetched under the base URL. `UrlPath.StaysUnderEveryBase` is the exact condition.
   */
  lemma SanitizedPathStays(raw: Str, search: Str)
    requires Sanitized(raw).Some? && IsSearch(search)
    ensures var safe := Sanitized(raw).value;
            && safe != [] && safe[0] == SLASH
            && (PERCENT !in safe && BACKSLASH !in safe && IsUncut(safe, search) ==>
                  forall base :: PathEncodeAll(base) <= UrlSegments(base, safe + search))
  {
    var safe := Sanitized(raw).value;
    AcceptedPathIsSafe(raw);
    if PERCENT !in safe && BACKSLASH !in safe && IsUncut(safe, search) {
      UncutParts(safe, search);
      assert Slashes(safe) == safe;
      forall part | part in Segments(safe[1..]) ensures !IsDoubleDot(part) {
        if PERCENT in part { InPart(safe[1..], part, PERCENT); } else { ShortSegment(part); }
      }
      NoDoubleDotNeverClimbs(0, Segments(safe[1..]));
      StaysUnderEveryBase(safe + search);
    }
  }

  /** Each condition is needed. A query mark, a number sign or a last space makes ".." of a longer segment. */
  lemma CutSegmentLeavesBase(u: Unit, search: Str)
    requires IsSearch(search) && (u in {QUESTION, HASH} || (u == SPACE && search == []))
    ensures Forwarded([DOT_DOT + [u]]) == Some([SLASH] + (DOT_DOT + [u]))
    ensures Climbs(0, Parts([SLASH] + (DOT_DOT + [u]) + search))
  {
    var s := DOT_DOT + [u];
    TextBelowSurrogatesIsWellFormed(s);
    OneSegmentIsForwarded(s);
    CutAfterDots(u, search);
    SplitWithoutSeparator(DOT_DOT, SLASH);
    DotDotIsDouble();
  }

  lemma CutAfterDots(u: Unit, search: Str)
    requires IsSearch(search) && (u in {QUESTION, HASH} || (u == SPACE && search == []))
    ensures Parts([SLASH] + (DOT_DOT + [u]) + search) == Split(DOT_DOT, SLASH)
  {
    var path := [SLASH] + (DOT_DOT + [u]);
    var text := path + search;
    var seen := BeforeQuery(DropTrailing(text));
    DropTrailingKeeps(text, 2);
    PathOfUncut(path, search);
    assert path[3] == u && text[..3] == [SLASH] + DOT_DOT;
    assert !IsUncut(path, search);
    assert !EndsPath(text[0]) && !EndsPath(text[1]) && !EndsPath(text[2]);
    assert |seen| == 3 && seen == text[..3];
    assert Slashes(seen)[1..] == DOT_DOT;
  }

  lemma DotDotIsDouble()
    ensures IsDoubleDot(DOT_DOT) && IsDoubleDot(DOTS)
  {
    assert DOT_DOT[..1] == [DOT] && DOT_DOT[1..] == [DOT];
    assert DOTS[..3] == [PERCENT, 0x32, 0x65] && DOTS[3..] == [PERCENT, 0x32, 0x65];
  }

  /** A backslash does too: the sanitiser sees one segment, the parser several. */
  lemma BackslashLeavesBase(x: Str, search: Str)
    requires IsSearch(search) && WellFormed(x) && (search == [] ==> !EndsInSpace(x))
    requires forall u :: u in x ==> u !in {SLASH, PERCENT, QUESTION, HASH} && 0x20 <= u && u != 0x7F
    ensures var s := DOT_DOT + [BACKSLASH] + x;
            Forwarded([s]) == Some([SLASH] + s) && Climbs(0, Parts([SLASH] + s + search))
  {
    var s := DOT_DOT + [BACKSLASH] + x;
    TextBelowSurrogatesIsWellFormed(DOT_DOT + [BACKSLASH]);
    WellFormedConcat(DOT_DOT + [BACKSLASH], x);
    OneSegmentIsForwarded(s);
    BackslashParts(x, search);
    DotDotIsDouble();
  }

  lemma BackslashParts(x: Str, search: Str)
    requires IsSearch(search) && QUESTION !in x && HASH !in x && (search == [] ==> !EndsInSpace(x))
    ensures Parts([SLASH] + (DOT_DOT + [BACKSLASH] + x) + search) == [DOT_DOT] + Split(Slashes(x), SLASH)
  {
    var path := [SLASH] + (DOT_DOT + [BACKSLASH] + x);
    BackslashText(x, search);
    UncutParts(path, search);
    SplitAtSeparator(DOT_DOT, SLASH, Slashes(x));
  }

  lemma BackslashText(x: Str, search: Str)
    requires QUESTION !in x && HASH !in x && (search == [] ==> !EndsInSpace(x))
    ensures var path := [SLASH] + (DOT_DOT + [BACKSLASH] + x);
            IsUncut(path, search) && Slashes(path)[1..] == DOT_DOT + [SLASH] + Slashes(x)
  {
    var path := [SLASH] + (DOT_DOT + [BACKSLASH] + x);
    assert path[|path| - 1] == if x == [] then BACKSLASH else x[|x| - 1];
  }

  /** And so does a sixth layer of escapes. */
  lemma SixLayersLeaveBase(search: Str)
    requires IsSearch(search)
    ensures Sanitized([SLASH] + Layered(DOTS, 5)) == Some([SLASH] + DOTS)
    ensures Climbs(0, Parts([SLASH] + DOTS + search))
  {
    SixLayersAreNotIdempotent(5);
    EscapedDotsClimb(search);
  }

  lemma EscapedDotsClimb(search: Str)
    requires IsSearch(search)
    ensures Climbs(0, Parts([SLASH] + DOTS + search))
  {
    var path := [SLASH] + DOTS;
    UncutParts(path, search);
    assert Slashes(path)[1..] == DOTS;
    SplitWithoutSeparator(DOTS, SLASH);
    DotDotIsDouble();
  }

  /** The one segment "a?b" passes the sanitiser and is read as "/a". */
  lemma QueryMarkCutsPath()
    ensures Forwarded([[0x61, QUESTION, 0x62]]) == Some([SLASH, 0x61, QUESTION, 0x62])
    ensures Delivered([[0x61, QUESTION, 0x62]], [], []) == Some([SLASH, 0x61])
  {
    TextBelowSurrogatesIsWellFormed([0x61, QUESTION, 0x62]);
    assert [SLASH] + [0x61, QUESTION, 0x62] == [SLASH, 0x61, QUESTION, 0x62];
    OneSegmentIsForwarded([0x61, QUESTION, 0x62]);
    CutPathIsRead([SLASH, 0x61, QUESTION, 0x62]);
  }

  lemma OneSegmentIsForwarded(s: Str)
    requires WellFormed(s) && s != [] && s != [DOT] && s != DOT_DOT
    requires forall u :: u in s ==> u != SLASH && u != PERCENT && 0x20 <= u && u != 0x7F
    ensures Forwarded([s]) == Some([SLASH] + s)
  {
    OneSegmentIsSafe(s);
    assert Intended([s]) == [SLASH] + s;
    ClientToGateway([s]);
  }

  lemma OneSegmentIsSafe(s: Str)
    requires s != [] && s != DOT_DOT
    requires forall u :: u in s ==> u != SLASH && u != PERCENT && 0x20 <= u && u != 0x7F
    ensures var path := [SLASH] + s; IsAnchored(path) && IsFreeOfControls(path) && PERCENT !in path
  {
    SplitWithoutSeparator(s, SLASH);
    assert ([SLASH] + s)[1..] == s;
    forall i | 0 <= i < |s| ensures !IsControl(s[i]) { assert s[i] in s; }
  }

  lemma CutPathIsRead(path: Str)
    requires path == [SLASH, 0x61, QUESTION, 0x62]
    ensures ReadBy([], path, []) == Some([SLASH, 0x61])
  {
    var a: Str := [0x61];
    CutPathParts(path);
    NothingCollapses([], [a]);
    assert [] + [a] == [a] && PathEncodeAll([]) == [];
    TextBelowSurrogatesIsWellFormed(a);
    PlainPathIsReadBack([a]);
    assert PathText([a]) == [SLASH, 0x61] by { assert [a][1..] == []; }
  }

  lemma CutPathParts(path: Str)
    requires path == [SLASH, 0x61, QUESTION, 0x62]
    ensures Parts(path + []) == [[0x61]]
  {
    assert path + [] == path && DropTrailing(path) == path;
    assert !EndsPath(path[0]) && !EndsPath(path[1]) && EndsPath(path[2]);
    assert |BeforeQuery(path)| == 2;
    assert Slashes(BeforeQuery(path))[1..] == [0x61];
    SplitWithoutSeparator([0x61], SLASH);
  }
}
