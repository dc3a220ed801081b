/**
 * How a URL parser reads the path of an `http` URL (section 4.4 of the URL Standard,
 * path state), for inputs without control characters.
 */
module UrlPath {
  import opened Options
  import opened Text
  import opened PercentCodec
  import Utf8

  const QUESTION: Unit := 0x3F
  const HASH: Unit := 0x23
  const BACKSLASH: Unit := 0x5C

  predicate EndsPath(u: Unit) {
    u == QUESTION || u == HASH
  }

  /** Spaces at the very end of a URL are dropped. */
  function DropTrailing(s: Str): (r: Str)
    ensures r <= s
    ensures r != [] ==> r[|r| - 1] > SPACE
    ensures s != [] && s[|s| - 1] > SPACE ==> r == s
  {
    if s != [] && s[|s| - 1] <= SPACE then DropTrailing(s[..|s| - 1]) else s
  }

  /** The text before the query or fragment. */
  function BeforeQuery(s: Str): (r: Str)
    ensures r <= s
    ensures forall i :: 0 <= i < |r| ==> !EndsPath(r[i])
    ensures |r| < |s| ==> EndsPath(s[|r|])
  {
    if s == [] || EndsPath(s[0]) then [] else [s[0]] + BeforeQuery(s[1..])
  }

  /** A backslash separates segments like a slash. */
  function Slashes(s: Str): (r: Str)
    ensures |r| == |s|
    ensures forall i :: 0 <= i < |s| ==> r[i] == if s[i] == BACKSLASH then SLASH else s[i]
  {
    seq(|s|, i requires 0 <= i < |s| => if s[i] == BACKSLASH then SLASH else s[i])
  }

  /** "." or "%2e" */
  predicate IsDot(part: Str) {
    part == [DOT] || part == [PERCENT, 0x32, 0x65] || part == [PERCENT, 0x32, 0x45]
  }

  predicate IsDoubleDot(part: Str) {
    || (|part| >= 2 && IsDot(part[..1]) && IsDot(part[1..]))
    || (|part| >= 4 && IsDot(part[..3]) && IsDot(part[3..]))
  }

  function Parent(segments: seq<Str>): seq<Str> {
    if segments == [] then [] else segments[..|segments| - 1]
  }

  /** Reads the segments of a path after those of `base`; the last one may be empty. */
  function Collapse(base: seq<Str>, parts: seq<Str>): (segments: seq<Str>)
    ensures parts != [] ==> segments != []
    decreases |parts|
  {
    if parts == [] then base
    else
      var empty: seq<Str> := if |parts| == 1 then [[]] else [];
      Collapse(
        if IsDoubleDot(parts[0]) then Parent(base) + empty
        else if IsDot(parts[0]) then base + empty
        else base + [parts[0]],
        parts[1..])
  }

  /** The path percent-encode set. */
  predicate IsEscaped(v: Utf8.Scalar) {
    v <= 0x20 || v > 0x7E || v in {0x22, 0x23, 0x3C, 0x3E, 0x3F, 0x5E, 0x60, 0x7B, 0x7D}
  }

  /** UTF-8 percent-encoding; an unpaired surrogate becomes U+FFFD. */
  function PathEncode(s: Str): Str {
    if s == [] then []
    else match FirstScalar(s)
      case None => Escape(Utf8.Encode(0xFFFD)) + PathEncode(s[1..])
      case Some(v) => (if IsEscaped(v) then Escape(Utf8.Encode(v)) else [s[0]]) + PathEncode(s[|Utf16(v)|..])
  }

  function PathEncodeAll(segments: seq<Str>): (r: seq<Str>)
    ensures |r| == |segments|
    ensures forall i :: 0 <= i < |r| ==> r[i] == PathEncode(segments[i])
  {
    seq(|segments|, i requires 0 <= i < |segments| => PathEncode(segments[i]))
  }

  /** A slash before every segment. */
  function PathText(segments: seq<Str>): Str {
    if segments == [] then [] else [SLASH] + segments[0] + PathText(segments[1..])
  }

  /** The parts of the path of `text`, which starts with a slash. */
  function Parts(text: Str): (parts: seq<Str>)
    requires text != [] && text[0] == SLASH
    ensures parts != []
  {
    var path := Slashes(BeforeQuery(DropTrailing(text)));
    Split(if path == [] then [] else path[1..], SLASH)
  }

  /** The segments of a URL made of `base`, without query or fragment, and of `text`. */
  function UrlSegments(base: seq<Str>, text: Str): seq<Str>
    requires text != [] && text[0] == SLASH
  {
    PathEncodeAll(Collapse(base, Parts(text)))
  }

  /** `new URL(text, origin).pathname` */
  function Pathname(text: Str): (path: Str)
    requires text != [] && text[0] == SLASH
    ensures path != [] && path[0] == SLASH
  {
    PathText(UrlSegments([], text))
  }

  // ---- What collapsing keeps ----

  /** What lies beyond the first `k` segments. */
  function Beyond(segments: seq<Str>, k: nat): seq<Str> {
    if |segments| <= k then [] else segments[k..]
  }

  /** Length of the path text. */
  function Size(segments: seq<Str>): nat {
    if segments == [] then 0 else |segments[0]| + 1 + Size(segments[1..])
  }

  lemma {:induction false} SizeOfSnoc(segments: seq<Str>, last: Str)
    ensures Size(segments + [last]) == Size(segments) + |last| + 1
  {
    if segments == [] {
      assert [] + [last] == [last];
    } else {
      SizeOfSnoc(segments[1..], last);
      assert (segments + [last])[1..] == segments[1..] + [last];
    }
  }

  predicate IsKept(x: Str) {
    !IsDot(x) && !IsDoubleDot(x)
  }

  lemma BeyondSnoc(base: seq<Str>, x: Str, k: nat)
    ensures Size(Beyond(base + [x], k)) <= Size(Beyond(base, k)) + |x| + 1
    ensures forall y :: y in Beyond(base + [x], k) ==> y in Beyond(base, k) || y == x
  {
    if k <= |base| {
      assert Beyond(base + [x], k) == Beyond(base, k) + [x];
      SizeOfSnoc(Beyond(base, k), x);
    }
  }

  lemma BeyondParent(base: seq<Str>, k: nat)
    ensures Size(Beyond(Parent(base), k)) <= Size(Beyond(base, k))
    ensures forall y :: y in Beyond(Parent(base), k) ==> y in Beyond(base, k)
  {
    if k < |base| {
      var n := |base| - 1;
      assert Beyond(base, k) == Beyond(Parent(base), k) + [base[n]];
      SizeOfSnoc(Beyond(Parent(base), k), base[n]);
    }
  }

  /** What a path adds comes from its own parts, without dot segments, and is no longer than they are. */
  lemma {:induction false} CollapseKeeps(base: seq<Str>, parts: seq<Str>, k: nat)
    ensures var kept := Beyond(Collapse(base, parts), k);
            && Size(kept) <= Size(Beyond(base, k)) + Size(parts)
            && forall x :: x in kept ==> x in Beyond(base, k) || x == [] || (x in parts && IsKept(x))
    decreases |parts|
  {
    if parts != [] {
      var p, rest := parts[0], parts[1..];
      var up := if IsDoubleDot(p) then Parent(base) else base;
      var next := if IsDoubleDot(p) || IsDot(p) then (if rest == [] then up + [[]] else up) else up + [p];
      BeyondParent(base, k);
      BeyondSnoc(up, [], k);
      BeyondSnoc(up, p, k);
      assert up + [] == up;
      CollapseKeeps(next, rest, k);
      forall x | x in rest ensures x in parts {}
    }
  }

  lemma {:induction false} CollapseFirst(base: seq<Str>, kept: seq<Str>, rest: seq<Str>)
    requires rest != [] && forall x :: x in kept ==> IsKept(x)
    ensures Collapse(base, kept + rest) == Collapse(base + kept, rest)
    decreases |kept|
  {
    if kept == [] {
      assert kept + rest == rest && base + kept == base;
    } else {
      assert kept[0] in kept && (kept + rest)[1..] == kept[1..] + rest;
      forall x | x in kept[1..] ensures x in kept {}
      CollapseFirst(base + [kept[0]], kept[1..], rest);
      assert base + [kept[0]] + kept[1..] == base + kept;
    }
  }

  /**
   * A dot segment after ordinary ones: "." goes away, ".." takes the segment before it
   * along, and at the end of the path either leaves an empty last segment.
   */
  lemma DotsCollapse(base: seq<Str>, kept: seq<Str>, dot: Str, rest: seq<Str>)
    requires (IsDot(dot) || IsDoubleDot(dot)) && forall x :: x in kept ==> IsKept(x)
    ensures var up := if IsDoubleDot(dot) then Parent(base + kept) else base + kept;
            Collapse(base, kept + [dot] + rest) == if rest == [] then up + [[]] else Collapse(up, rest)
  {
    CollapseFirst(base, kept, [dot] + rest);
    assert kept + [dot] + rest == kept + ([dot] + rest) && ([dot] + rest)[1..] == rest;
    var up := if IsDoubleDot(dot) then Parent(base + kept) else base + kept;
    assert up + [] == up;
  }

  // ---- When a path stays under its base ----

  /** Some ".." comes when none of the path's own segments, `depth` so far, is left to pop. */
  predicate Climbs(depth: nat, parts: seq<Str>)
    decreases |parts|
  {
    if parts == [] then false
    else if IsDoubleDot(parts[0]) then depth == 0 || Climbs(depth - 1, parts[1..])
    else if IsDot(parts[0]) then Climbs(depth, parts[1..])
    else Climbs(depth + 1, parts[1..])
  }

  lemma {:induction false} NoClimbStays(base: seq<Str>, above: seq<Str>, parts: seq<Str>)
    requires !Climbs(|above|, parts)
    ensures base <= Collapse(base + above, parts)
    decreases |parts|
  {
    if parts != [] {
      var empty: seq<Str> := if |parts| == 1 then [[]] else [];
      if IsDoubleDot(parts[0]) {
        assert Parent(base + above) + empty == base + (Parent(above) + empty);
        NoClimbStays(base, Parent(above) + empty, parts[1..]);
      } else if IsDot(parts[0]) {
        assert base + above + empty == base + (above + empty);
        NoClimbStays(base, above + empty, parts[1..]);
      } else {
        assert base + above + [parts[0]] == base + (above + [parts[0]]);
        NoClimbStays(base, above + [parts[0]], parts[1..]);
      }
    }
  }

  /** A path that climbs keeps nothing of a base of one segment. */
  lemma {:induction false} ClimbForgets(x: Str, above: seq<Str>, parts: seq<Str>)
    requires Climbs(|above|, parts)
    ensures forall y :: y in Collapse([x] + above, parts) ==> y == [] || y in parts
    decreases |parts|
  {
    var rest := parts[1..];
    forall y | y in rest ensures y in parts {}
    if IsDoubleDot(parts[0]) && above == [] {
      var up: seq<Str> := if |parts| == 1 then [[]] else [];
      assert Parent([x] + above) + up == up;
      CollapseKeeps(up, rest, 0);
      assert Beyond(Collapse(up, rest), 0) == Collapse(up, rest) && Beyond(up, 0) == up;
    } else if IsDoubleDot(parts[0]) {
      assert Parent([x] + above) + [] == [x] + Parent(above);
      ClimbForgets(x, Parent(above), rest);
    } else if IsDot(parts[0]) {
      assert [x] + above + [] == [x] + above;
      ClimbForgets(x, above, rest);
    } else {
      assert [x] + above + [parts[0]] == [x] + (above + [parts[0]]);
      ClimbForgets(x, above + [parts[0]], rest);
    }
  }

  function EncodedSize(parts: seq<Str>): nat {
    if parts == [] then 0 else |PathEncode(parts[0])| + EncodedSize(parts[1..])
  }

  lemma {:induction false} EncodedSizeBounds(parts: seq<Str>)
    ensures forall y :: y in parts ==> |PathEncode(y)| <= EncodedSize(parts)
  {
    if parts != [] {
      EncodedSizeBounds(parts[1..]);
      assert parts == [parts[0]] + parts[1..];
    }
  }

  /** A segment longer than any of the path. */
  function Stranger(n: nat): (s: Str)
    ensures |s| == n && IsEncodedText(s)
  {
    seq(n, _ => 0x61)
  }

  /** A path stays under every base exactly when it never climbs. */
  lemma StaysUnderEveryBase(text: Str)
    requires text != [] && text[0] == SLASH
    ensures (forall base :: PathEncodeAll(base) <= UrlSegments(base, text)) <==> !Climbs(0, Parts(text))
  {
    var parts := Parts(text);
    if Climbs(0, parts) {
      var x := Stranger(EncodedSize(parts) + 1);
      assert [x] + [] == [x];
      ClimbForgets(x, [], parts);
      StrangerIsGone(x, parts, Collapse([x], parts));
      assert !(PathEncodeAll([x]) <= UrlSegments([x], text));
    } else {
      forall base ensures PathEncodeAll(base) <= UrlSegments(base, text) {
        assert base + [] == base;
        NoClimbStays(base, [], parts);
      }
    }
  }

  lemma StrangerIsGone(x: Str, parts: seq<Str>, segments: seq<Str>)
    requires |x| == EncodedSize(parts) + 1 && IsEncodedText(x)
    requires forall y :: y in segments ==> y == [] || y in parts
    ensures !(PathEncodeAll([x]) <= PathEncodeAll(segments))
  {
    PathEncodeOfEncodedText(x);
    EncodedSizeBounds(parts);
    assert PathEncodeAll([x])[0] == x;
    if segments != [] {
      assert segments[0] in segments;
      assert PathEncodeAll(segments)[0] == PathEncode(segments[0]);
    }
  }

  lemma {:induction false} NoDoubleDotNeverClimbs(depth: nat, parts: seq<Str>)
    requires forall part :: part in parts ==> !IsDoubleDot(part)
    ensures !Climbs(depth, parts)
    decreases |parts|
  {
    if parts != [] {
      assert parts[0] in parts;
      forall part | part in parts[1..] ensures part in parts {}
      NoDoubleDotNeverClimbs(if IsDot(parts[0]) then depth else depth + 1, parts[1..]);
    }
  }

  lemma {:induction false} NothingCollapses(base: seq<Str>, parts: seq<Str>)
    requires forall x :: x in parts ==> IsKept(x)
    ensures Collapse(base, parts) == base + parts
    decreases |parts|
  {
    if parts != [] {
      assert parts[0] in parts;
      forall x | x in parts[1..] ensures x in parts {}
      NothingCollapses(base + [parts[0]], parts[1..]);
      assert base + [parts[0]] + parts[1..] == base + parts;
    }
  }

  // ---- Path text ----

  lemma {:induction false} PathTextIsJoin(segments: seq<Str>)
    ensures segments != [] ==> PathText(segments) == [SLASH] + Join(segments, [SLASH])
  {
    if |segments| > 1 {
      PathTextIsJoin(segments[1..]);
      assert PathText(segments) == [SLASH] + (segments[0] + [SLASH] + Join(segments[1..], [SLASH]));
    } else if |segments| == 1 {
      assert PathText(segments[1..]) == [];
    }
  }

  lemma {:induction false} PathEncodeOfEncodedText(s: Str)
    requires IsEncodedText(s)
    ensures PathEncode(s) == s
  {
    if s != [] {
      assert s[0] in s;
      forall u | u in s[1..] ensures u in s {}
      PathEncodeOfEncodedText(s[1..]);
      assert FirstScalar(s) == Some(s[0]) && !IsEscaped(s[0]);
      assert PathEncode(s) == [s[0]] + s[1..];
    }
  }

  // ---- Decoding the path text: its length ----

  /** An upper bound for the text a string can decode to: each escape counts by its octet. */
  function OctetWeight(b: Utf8.Byte): nat {
    if b < 0x80 then 1 else if b < 0xC0 then 0 else if b < 0xF0 then 1 else 2
  }

  function Weight(s: Str): nat {
    if s == [] then 0
    else match FirstOctet(s)
      case Some(b) => OctetWeight(b) + Weight(s[3..])
      case None => 1 + Weight(s[1..])
  }

  lemma {:induction false} WeightOfOctets(s: Str, n: nat)
    requires 3 * n <= |s| && Octets(s[..3 * n]).Some?
    ensures Weight(s) >= Weight(s[3 * n..])
    decreases n
  {
    if n > 0 {
      assert s[..3 * n][3..] == s[3..][..3 * (n - 1)];
      WeightOfOctets(s[3..], n - 1);
      assert s[3..][3 * (n - 1)..] == s[3 * n..];
    }
  }

  lemma HeadWeight(s: Str)
    requires s != [] && s[0] == PERCENT && TakeEscape(s).Some?
    ensures var (text, n) := TakeEscape(s).value; |text| + Weight(s[n..]) <= Weight(s)
  {
    var b := FirstOctet(s).value;
    var n := Utf8.LeadingOnes(b);
    if n > 0 {
      assert s[..3 * n][3..] == s[3..][..3 * (n - 1)];
      WeightOfOctets(s[3..], n - 1);
      assert s[3..][3 * (n - 1)..] == s[3 * n..];
    }
  }

  lemma {:induction false} DecodeWeight(s: Str)
    requires DecodeComponent(s).Some?
    ensures |DecodeComponent(s).value| <= Weight(s)
  {
    if s != [] {
      var (_, n) := Head(s).value;
      DecodeWeight(s[n..]);
      if s[0] == PERCENT { HeadWeight(s); }
    }
  }

  lemma {:induction false} WeightOfEscape(bytes: seq<Utf8.Byte>, t: Str)
    ensures Weight(Escape(bytes) + t) == TotalWeight(bytes) + Weight(t)
  {
    if bytes == [] {
      assert Escape(bytes) + t == t;
    } else {
      OctetsOfEscape(bytes, t);
      assert (Escape(bytes) + t)[3..] == Escape(bytes[1..]) + t;
      WeightOfEscape(bytes[1..], t);
    }
  }

  function TotalWeight(bytes: seq<Utf8.Byte>): nat {
    if bytes == [] then 0 else OctetWeight(bytes[0]) + TotalWeight(bytes[1..])
  }

  lemma ScalarWeight(v: Utf8.Scalar)
    ensures TotalWeight(Utf8.Encode(v)) == |Utf16(v)|
  {
    TailsWeighNothing(Utf8.Encode(v)[1..]);
  }

  lemma {:induction false} TailsWeighNothing(bytes: seq<Utf8.Byte>)
    requires forall i :: 0 <= i < |bytes| ==> Utf8.IsTail(bytes[i])
    ensures TotalWeight(bytes) == 0
  {
    if bytes != [] { TailsWeighNothing(bytes[1..]); }
  }

  /** Nothing that could complete an escape. */
  predicate StartsApart(t: Str) {
    t == [] || t[0] == SLASH
  }

  /** Percent-encoding keeps the weight of the text within its length. */
  lemma {:induction false} WeightOfPathEncode(s: Str, t: Str)
    requires StartsApart(t)
    ensures Weight(PathEncode(s) + t) <= |s| + Weight(t)
    decreases |s|
  {
    if s == [] {
      assert PathEncode(s) + t == t;
    } else if FirstScalar(s).None? {
      WeightOfPathEncode(s[1..], t);
      EscapeStep(0xFFFD, PathEncode(s[1..]), t);
    } else {
      var v := FirstScalar(s).value;
      var rest := s[|Utf16(v)|..];
      if IsEscaped(v) {
        WeightOfPathEncode(rest, t);
        EscapeStep(v, PathEncode(rest), t);
      } else {
        KeptStep(s, t);
      }
    }
  }

  lemma EscapeStep(v: Utf8.Scalar, e: Str, t: Str)
    ensures Weight(Escape(Utf8.Encode(v)) + e + t) == |Utf16(v)| + Weight(e + t)
  {
    assert Escape(Utf8.Encode(v)) + e + t == Escape(Utf8.Encode(v)) + (e + t);
    WeightOfEscape(Utf8.Encode(v), e + t);
    ScalarWeight(v);
  }

  /** A hex digit is written as it is. */
  lemma HexIsKept(s: Str, t: Str)
    requires StartsApart(t) && PathEncode(s) + t != [] && HexValue((PathEncode(s) + t)[0]).Some?
    ensures IsKeptUnit(s)
  {}

  predicate IsKeptUnit(s: Str) {
    s != [] && FirstScalar(s).Some? && !IsEscaped(FirstScalar(s).value)
  }

  lemma KeptUnit(s: Str, t: Str)
    requires IsKeptUnit(s)
    ensures var e := PathEncode(s) + t; e[0] == s[0] && e[1..] == PathEncode(s[1..]) + t
  {
    assert Utf16(FirstScalar(s).value) == [s[0]];
    assert PathEncode(s) == [s[0]] + PathEncode(s[1..]);
    assert ([s[0]] + PathEncode(s[1..]) + t)[1..] == PathEncode(s[1..]) + t;
  }

  /** An escape in the encoded text that begins with a kept unit was there before. */
  lemma EscapeWasThere(s: Str, t: Str)
    requires IsKeptUnit(s) && StartsApart(t) && FirstOctet(PathEncode(s) + t).Some?
    ensures |s| >= 3 && (PathEncode(s) + t)[3..] == PathEncode(s[3..]) + t
  {
    var e := PathEncode(s) + t;
    KeptUnit(s, t);
    assert e[1..][0] == e[1] && e[1..][1] == e[2];
    HexIsKept(s[1..], t);
    KeptUnit(s[1..], t);
    assert e[1..][1..][0] == e[2];
    HexIsKept(s[1..][1..], t);
    KeptUnit(s[1..][1..], t);
    assert s[1..][1..][1..] == s[3..] && e[1..][1..][1..] == e[3..];
  }

  lemma KeptStep(s: Str, t: Str)
    requires IsKeptUnit(s) && StartsApart(t)
    ensures Weight(PathEncode(s) + t) <= |s| + Weight(t)
    decreases |s|, 0
  {
    KeptUnit(s, t);
    if FirstOctet(PathEncode(s) + t).Some? {
      EscapeWasThere(s, t);
      WeightOfPathEncode(s[3..], t);
    } else {
      WeightOfPathEncode(s[1..], t);
    }
  }

  lemma SlashWeighsOne(e: Str, tail: Str)
    ensures Weight([SLASH] + e + tail) == 1 + Weight(e + tail)
  {
    assert ([SLASH] + e + tail)[1..] == e + tail;
  }

  lemma {:induction false} WeightOfPathText(segments: seq<Str>)
    ensures Weight(PathText(PathEncodeAll(segments))) <= Size(segments)
  {
    if segments != [] {
      var all := PathEncodeAll(segments);
      assert all[1..] == PathEncodeAll(segments[1..]);
      var tail := PathText(all[1..]);
      WeightOfPathText(segments[1..]);
      WeightOfPathEncode(segments[0], tail);
      SlashWeighsOne(PathEncode(segments[0]), tail);
    }
  }

  // ---- Decoding the path text: its content ----

  /** Text without "%" is read back. */
  lemma {:induction false} PlainTextIsReadBack(s: Str)
    requires WellFormed(s) && PERCENT !in s
    ensures DecodeComponent(PathEncode(s)) == Some(s)
  {
    if s != [] {
      var v := FirstScalar(s).value;
      var rest := s[|Utf16(v)|..];
      PlainTextIsReadBack(rest);
      assert s == Utf16(v) + rest;
      if IsEscaped(v) {
        EscapeDecodes(v, PathEncode(rest));
      } else {
        assert PathEncode(s)[1..] == PathEncode(rest);
        assert s[0] in s;
      }
    }
  }

  lemma EscapeDecodes(v: Utf8.Scalar, t: Str)
    ensures DecodeComponent(Escape(Utf8.Encode(v)) + t) == Append(Some(Utf16(v)), DecodeComponent(t))
  {
    var esc := Escape(Utf8.Encode(v));
    TakeEscapeOfScalar(v, t);
    assert (esc + t)[|esc|..] == t && (esc + t)[0] == PERCENT;
  }

  predicate IsPlain(s: Str) {
    WellFormed(s) && PERCENT !in s
  }

  lemma {:induction false} PlainPathIsReadBack(segments: seq<Str>)
    requires forall x :: x in segments ==> IsPlain(x)
    ensures DecodeComponent(PathText(PathEncodeAll(segments))) == Some(PathText(segments))
  {
    if segments != [] {
      var all := PathEncodeAll(segments);
      assert all[1..] == PathEncodeAll(segments[1..]);
      forall x | x in segments[1..] ensures x in segments {}
      PlainPathIsReadBack(segments[1..]);
      assert segments[0] in segments;
      PlainTextIsReadBack(segments[0]);
      SegmentDecodes(PathEncode(segments[0]), segments[0], PathText(all[1..]), PathText(segments[1..]));
    }
  }

  lemma SegmentDecodes(e: Str, x: Str, es: Str, xs: Str)
    requires DecodeComponent(e) == Some(x) && DecodeComponent(es) == Some(xs)
    ensures DecodeComponent([SLASH] + e + es) == Some([SLASH] + x + xs)
  {
    DecodeConcat(e, es);
    SlashDecodes(e + es);
    assert [SLASH] + e + es == [SLASH] + (e + es) && [SLASH] + x + xs == [SLASH] + (x + xs);
  }

  // ---- Well-formed parts ----

  /** A well-formed string falls apart into well-formed strings except inside a surrogate pair. */
  lemma {:induction false} WellFormedCut(s: Str, k: nat)
    requires WellFormed(s) && k <= |s| && (k < |s| ==> !IsLowSurrogate(s[k]))
    ensures WellFormed(s[..k]) && WellFormed(s[k..])
  {
    if k == 0 {
      assert s[0..] == s;
    } else {
      var n := |Utf16(FirstScalar(s).value)|;
      assert FirstScalar(s[..k]) == FirstScalar(s);
      CutTwice(s, n, k);
      WellFormedCut(s[n..], k - n);
    }
  }

  lemma CutTwice(s: Str, n: nat, k: nat)
    requires n <= k <= |s|
    ensures s[..k][n..] == s[n..][..k - n] && s[n..][k - n..] == s[k..]
  {}

  lemma {:induction false} WellFormedConcat(s: Str, t: Str)
    requires WellFormed(s) && WellFormed(t)
    ensures WellFormed(s + t)
  {
    if s == [] {
      assert s + t == t;
    } else {
      var n := |Utf16(FirstScalar(s).value)|;
      WellFormedConcat(s[n..], t);
      assert (s + t)[n..] == s[n..] + t;
    }
  }

  lemma {:induction false} WellFormedJoin(parts: seq<Str>)
    requires forall part :: part in parts ==> WellFormed(part)
    ensures WellFormed(Join(parts, [SLASH]))
  {
    if |parts| > 0 {
      assert parts[0] in parts;
      forall part | part in parts[1..] ensures part in parts {}
      WellFormedJoin(parts[1..]);
      assert WellFormed([SLASH]) by { assert [SLASH][1..] == []; }
      WellFormedConcat(parts[0], [SLASH]);
      WellFormedConcat(parts[0] + [SLASH], Join(parts[1..], [SLASH]));
    }
  }

  lemma WellFormedTail(tail: Str)
    requires WellFormed([SLASH] + tail)
    ensures WellFormed(tail)
  {
    assert ([SLASH] + tail)[1..] == tail;
    assert Utf16(FirstScalar([SLASH] + tail).value) == [SLASH];
  }

  lemma {:induction false} WellFormedParts(parts: seq<Str>)
    requires WellFormed(Join(parts, [SLASH]))
    ensures forall i :: 0 <= i < |parts| ==> WellFormed(parts[i])
  {
    if |parts| > 1 {
      var rest := Join(parts[1..], [SLASH]);
      var s := parts[0] + ([SLASH] + rest);
      assert s == Join(parts, [SLASH]);
      WellFormedCut(s, |parts[0]|);
      assert s[..|parts[0]|] == parts[0] && s[|parts[0]|..] == [SLASH] + rest;
      WellFormedTail(rest);
      WellFormedParts(parts[1..]);
    }
  }

  lemma WellFormedSplit(s: Str)
    requires WellFormed(s)
    ensures forall part :: part in Split(s, SLASH) ==> WellFormed(part)
  {
    JoinSplit(s, SLASH);
    WellFormedParts(Split(s, SLASH));
  }

  lemma {:induction false} WellFormedSlashes(s: Str)
    requires WellFormed(s)
    ensures WellFormed(Slashes(s))
  {
    if s != [] {
      var n := |Utf16(FirstScalar(s).value)|;
      WellFormedSlashes(s[n..]);
      assert Slashes(s)[n..] == Slashes(s[n..]);
    }
  }

  // ---- A path followed by a query ----

  /** A query as `URL.search` gives it. */
  predicate IsSearch(search: Str) {
    search == [] || search[0] == QUESTION
  }

  function PathOf(path: Str, search: Str): Str {
    BeforeQuery(DropTrailing(path + search))
  }

  predicate EndsInSpace(path: Str) {
    path != [] && path[|path| - 1] <= SPACE
  }

  /** Nothing that would end the path early. */
  predicate IsUncut(path: Str, search: Str) {
    && QUESTION !in path && HASH !in path
    && (search == [] ==> !EndsInSpace(path))
  }

  lemma {:induction false} DropTrailingKeeps(s: Str, k: nat)
    requires k < |s| && s[k] > SPACE
    ensures |DropTrailing(s)| > k
  {
    if s[|s| - 1] <= SPACE { DropTrailingKeeps(s[..|s| - 1], k); }
  }

  /** The parser sees the whole path exactly when nothing cuts it short. */
  lemma PathOfUncut(path: Str, search: Str)
    requires IsSearch(search)
    ensures |PathOf(path, search)| <= |path|
    ensures PathOf(path, search) == path <==> IsUncut(path, search)
    ensures !IsUncut(path, search) ==> |PathOf(path, search)| < |path|
  {
    var text := path + search;
    var seen := PathOf(path, search);
    if search == [] {
      assert text == path;
    } else {
      assert text[|path|] == QUESTION;
      DropTrailingKeeps(text, |path|);
    }
    assert seen <= text && forall i :: 0 <= i < |seen| ==> seen[i] == text[i];
    if seen == path { assert forall i :: 0 <= i < |path| ==> !EndsPath(path[i]); }
    if |seen| == |path| { assert seen == text[..|path|] == path; }
  }

  lemma {:induction false} SizeOfSplit(s: Str)
    ensures Size(Split(s, SLASH)) == |s| + 1
  {
    if s != [] { SizeOfSplit(s[1..]); }
  }

  lemma PartsSize(path: Str, search: Str)
    requires path != [] && path[0] == SLASH && IsSearch(search)
    ensures Size(Parts(path + search)) == |PathOf(path, search)|
  {
    DropTrailingKeeps(path + search, 0);
    SizeOfSplit(Slashes(PathOf(path, search))[1..]);
  }
}
