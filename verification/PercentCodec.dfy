/**
 * `encodeURIComponent` and `decodeURIComponent`, section 19.2.6 of ECMA-262.
 * A thrown URIError is `None`.
 */
module PercentCodec {
  import opened Options
  import opened Text
  import Utf8

  // ---- UTF-16 ----

  predicate IsHighSurrogate(u: Unit) { 0xD800 <= u <= 0xDBFF }

  predicate IsLowSurrogate(u: Unit) { 0xDC00 <= u <= 0xDFFF }

  function Utf16(v: Utf8.Scalar): (s: Str)
    ensures 1 <= |s| <= 2
  {
    if v < 0x1_0000 then [v]
    else [0xD800 + (v - 0x1_0000) / 1024, 0xDC00 + (v - 0x1_0000) % 1024]
  }

  /** The scalar value `s` starts with, or `None` at an unpaired surrogate. */
  function FirstScalar(s: Str): (v: Option<Utf8.Scalar>)
    requires s != []
    ensures v.Some? ==> Utf16(v.value) <= s
  {
    if IsHighSurrogate(s[0]) then
      if |s| >= 2 && IsLowSurrogate(s[1]) then
        var high: int, low: int := s[0] - 0xD800, s[1] - 0xDC00;
        Some(0x1_0000 + high * 1024 + low)
      else None
    else if IsLowSurrogate(s[0]) then None
    else Some(s[0])
  }

  /** Every surrogate is one of a pair. */
  predicate WellFormed(s: Str) {
    s == [] || (FirstScalar(s).Some? && WellFormed(s[|Utf16(FirstScalar(s).value)|..]))
  }

  // ---- Escapes ----

  function HexDigit(n: int): Unit
    requires 0 <= n < 16
  {
    if n < 10 then 0x30 + n else 0x41 + (n - 10)
  }

  function HexValue(u: Unit): Option<int> {
    if 0x30 <= u <= 0x39 then Some(u - 0x30)
    else if 0x41 <= u <= 0x46 then Some(u - 0x41 + 10)
    else if 0x61 <= u <= 0x66 then Some(u - 0x61 + 10)
    else None
  }

  /** Upper-case escapes of a byte string. */
  function Escape(bytes: seq<Utf8.Byte>): (s: Str)
    ensures |s| == 3 * |bytes|
  {
    if bytes == [] then []
    else [PERCENT, HexDigit(bytes[0] / 16), HexDigit(bytes[0] % 16)] + Escape(bytes[1..])
  }

  /** The octet of the escape at the front of `s`; both letter cases are read. */
  function FirstOctet(s: Str): (b: Option<Utf8.Byte>)
    ensures b.Some? ==> |s| >= 3 && s[0] == PERCENT
  {
    if |s| >= 3 && s[0] == PERCENT && HexValue(s[1]).Some? && HexValue(s[2]).Some?
    then Some(HexValue(s[1]).value * 16 + HexValue(s[2]).value)
    else None
  }

  /** The octets of a string made of escapes only. */
  function Octets(s: Str): (bytes: Option<seq<Utf8.Byte>>)
    ensures bytes.Some? ==> |s| == 3 * |bytes.value|
  {
    if s == [] then Some([])
    else match FirstOctet(s)
      case None => None
      case Some(b) =>
        match Octets(s[3..])
        case None => None
        case Some(rest) => Some([b] + rest)
  }

  /** Reads the escape group at the front of `s`: the text it stands for and its length. */
  function TakeEscape(s: Str): (r: Option<(Str, nat)>)
    ensures r.Some? ==> 3 <= r.value.1 <= |s| && 1 <= |r.value.0| <= 2
  {
    match FirstOctet(s)
    case None => None
    case Some(b) =>
      var n := Utf8.LeadingOnes(b);
      if n == 0 then Some(([b], 3))
      else if n == 1 || n > 4 || |s| < 3 * n then None
      else match Octets(s[..3 * n])
        case None => None
        case Some(bytes) =>
          match Utf8.Decode(bytes)
          case None => None
          case Some(v) => Some((Utf16(v), 3 * n))
  }

  // ---- The two built-ins ----

  /** `A-Z a-z 0-9 - _ . ! ~ * ' ( )` */
  predicate IsUnreserved(u: Unit) {
    || 0x41 <= u <= 0x5A || 0x61 <= u <= 0x7A || 0x30 <= u <= 0x39
    || u in {0x2D, 0x5F, 0x2E, 0x21, 0x7E, 0x2A, 0x27, 0x28, 0x29}
  }

  function EncodeComponent(s: Str): Option<Str> {
    if s == [] then Some([])
    else match FirstScalar(s)
      case None => None
      case Some(v) =>
        match EncodeComponent(s[|Utf16(v)|..])
        case None => None
        case Some(rest) =>
          Some((if IsUnreserved(s[0]) then [s[0]] else Escape(Utf8.Encode(v))) + rest)
  }

  /** What the decoder reads at the front of `s`: the text it stands for and its length. */
  function Head(s: Str): (r: Option<(Str, nat)>)
    requires s != []
    ensures r.Some? ==> 1 <= r.value.1 <= |s|
  {
    if s[0] == PERCENT then TakeEscape(s) else Some(([s[0]], 1))
  }

  function Append(a: Option<Str>, b: Option<Str>): Option<Str> {
    if a.Some? && b.Some? then Some(a.value + b.value) else None
  }

  function DecodeComponent(s: Str): Option<Str> {
    if s == [] then Some([])
    else match Head(s)
      case None => None
      case Some((text, n)) => Append(Some(text), DecodeComponent(s[n..]))
  }

  // ---- Decoding undoes encoding ----

  lemma {:induction false} OctetsOfEscape(bytes: seq<Utf8.Byte>, t: Str)
    ensures Octets(Escape(bytes)) == Some(bytes)
    ensures bytes != [] ==> FirstOctet(Escape(bytes) + t) == Some(bytes[0])
  {
    if bytes != [] {
      OctetsOfEscape(bytes[1..], t);
      assert Escape(bytes)[3..] == Escape(bytes[1..]);
      assert [bytes[0]] + bytes[1..] == bytes;
    }
  }

  lemma TakeEscapeOfScalar(v: Utf8.Scalar, t: Str)
    ensures TakeEscape(Escape(Utf8.Encode(v)) + t) == Some((Utf16(v), 3 * |Utf8.Encode(v)|))
  {
    var bytes := Utf8.Encode(v);
    Utf8.EncodeThenDecode(v);
    OctetsOfEscape(bytes, t);
    assert (Escape(bytes) + t)[..3 * |bytes|] == Escape(bytes);
  }

  /** Encoding succeeds on exactly the well-formed strings, and decoding then gives the string back. */
  lemma {:induction false} RoundTrip(s: Str)
    ensures EncodeComponent(s).Some? <==> WellFormed(s)
    ensures WellFormed(s) ==> DecodeComponent(EncodeComponent(s).value) == Some(s)
  {
    if s != [] && FirstScalar(s).Some? {
      var v := FirstScalar(s).value;
      var tail := s[|Utf16(v)|..];
      RoundTrip(tail);
      assert s == Utf16(v) + tail;
      if WellFormed(s) {
        var rest := EncodeComponent(tail).value;
        var e := EncodeComponent(s).value;
        if IsUnreserved(s[0]) {
          assert e[1..] == rest;
        } else {
          var esc := Escape(Utf8.Encode(v));
          TakeEscapeOfScalar(v, rest);
          assert e == esc + rest && e[|esc|..] == rest;
          assert e[0] == PERCENT;
        }
      }
    }
  }

  /** The alphabet of encoded text: unreserved characters and "%". */
  predicate IsEncodedText(s: Str) {
    forall u :: u in s ==> IsUnreserved(u) || u == PERCENT
  }

  lemma {:induction false} EscapeIsEncodedText(bytes: seq<Utf8.Byte>)
    ensures IsEncodedText(Escape(bytes))
  {
    if bytes != [] { EscapeIsEncodedText(bytes[1..]); }
  }

  lemma {:induction false} EncodeAlphabet(s: Str)
    requires WellFormed(s)
    ensures EncodeComponent(s).Some? && IsEncodedText(EncodeComponent(s).value)
    ensures s != [] ==> EncodeComponent(s).value != []
  {
    if s != [] {
      var v := FirstScalar(s).value;
      EncodeAlphabet(s[|Utf16(v)|..]);
      EscapeIsEncodedText(Utf8.Encode(v));
    }
  }

  lemma {:induction false} TextBelowSurrogatesIsWellFormed(s: Str)
    requires forall i :: 0 <= i < |s| ==> s[i] < 0xD800
    ensures WellFormed(s)
  {
    if s != [] {
      assert Utf16(FirstScalar(s).value) == [s[0]];
      TextBelowSurrogatesIsWellFormed(s[1..]);
    }
  }

  // ---- The shape of decoding ----

  /** A decode changes a string exactly when it has a "%", and then shortens it. */
  lemma {:induction false} DecodeShrinks(s: Str)
    ensures PERCENT !in s ==> DecodeComponent(s) == Some(s)
    ensures PERCENT in s && DecodeComponent(s).Some? ==> |DecodeComponent(s).value| < |s|
    ensures DecodeComponent(s) == Some(s) <==> PERCENT !in s
  {
    if s != [] {
      if s[0] != PERCENT {
        DecodeShrinks(s[1..]);
        assert [s[0]] + s[1..] == s;
      } else if TakeEscape(s).Some? {
        DecodeShrinks(s[TakeEscape(s).value.1..]);
      }
    }
  }

  lemma HeadOfPrefix(s: Str, t: Str)
    requires s != [] && Head(s).Some?
    ensures Head(s + t) == Head(s)
  {
    if s[0] == PERCENT {
      var n := Utf8.LeadingOnes(FirstOctet(s).value);
      if 2 <= n <= 4 {
        assert (s + t)[..3 * n] == s[..3 * n];
      }
    }
  }

  lemma AppendAssociative(a: Option<Str>, b: Option<Str>, c: Option<Str>)
    ensures Append(Append(a, b), c) == Append(a, Append(b, c))
  {
    if a.Some? && b.Some? && c.Some? {
      assert a.value + b.value + c.value == a.value + (b.value + c.value);
    }
  }

  /** Decoding works piece by piece. */
  lemma {:induction false} DecodeConcat(s: Str, t: Str)
    requires DecodeComponent(s).Some?
    ensures DecodeComponent(s + t) == Append(DecodeComponent(s), DecodeComponent(t))
  {
    if s == [] {
      assert s + t == t;
      if DecodeComponent(t).Some? { assert [] + DecodeComponent(t).value == DecodeComponent(t).value; }
    } else {
      var (text, n) := Head(s).value;
      HeadOfPrefix(s, t);
      DecodeConcat(s[n..], t);
      assert (s + t)[n..] == s[n..] + t;
      AppendAssociative(Some(text), DecodeComponent(s[n..]), DecodeComponent(t));
    }
  }

  lemma SlashDecodes(tail: Str)
    requires DecodeComponent(tail).Some?
    ensures DecodeComponent([SLASH] + tail) == Some([SLASH] + DecodeComponent(tail).value)
  {}

  lemma {:induction false} OctetsHaveNoSlash(s: Str)
    requires Octets(s).Some?
    ensures SLASH !in s
  {
    if s != [] {
      OctetsHaveNoSlash(s[3..]);
      assert s == [s[0], s[1], s[2]] + s[3..];
    }
  }

  /** No escape reaches across a slash. */
  lemma HeadEndsBeforeSlash(a: Str, b: Str)
    requires a != [] && Head(a + [SLASH] + b).Some?
    ensures Head(a) == Head(a + [SLASH] + b) && Head(a).value.1 <= |a|
  {
    var s := a + [SLASH] + b;
    if s[0] == PERCENT {
      var length := TakeEscape(s).value.1;
      EscapeHasNoSlash(s);
      assert s[|a|] == SLASH;
      assert a[..length] == s[..length];
    }
  }

  lemma EscapeHasNoSlash(s: Str)
    requires TakeEscape(s).Some?
    ensures forall i :: 0 <= i < TakeEscape(s).value.1 ==> s[i] != SLASH
  {
    var n := Utf8.LeadingOnes(FirstOctet(s).value);
    if n > 0 {
      OctetsHaveNoSlash(s[..3 * n]);
      forall i | 0 <= i < 3 * n ensures s[i] != SLASH { assert s[i] == s[..3 * n][i]; }
    }
  }

  /** What decodes as a whole decodes on both sides of a slash. */
  lemma {:induction false} DecodeAtSlash(a: Str, b: Str)
    requires DecodeComponent(a + [SLASH] + b).Some?
    ensures DecodeComponent(a).Some? && DecodeComponent(b).Some?
    ensures DecodeComponent(a + [SLASH] + b) ==
            Some(DecodeComponent(a).value + [SLASH] + DecodeComponent(b).value)
    decreases |a|
  {
    var s := a + [SLASH] + b;
    if a == [] {
      assert s == [SLASH] + b && s[1..] == b;
      SlashDecodes(b);
      assert [] + [SLASH] + DecodeComponent(b).value == [SLASH] + DecodeComponent(b).value;
    } else {
      HeadEndsBeforeSlash(a, b);
      var (text, n) := Head(a).value;
      assert s[n..] == a[n..] + [SLASH] + b;
      DecodeAtSlash(a[n..], b);
      JoinedText(text, DecodeComponent(a[n..]).value, DecodeComponent(b).value);
    }
  }

  lemma JoinedText(text: Str, a: Str, b: Str)
    ensures text + (a + [SLASH] + b) == (text + a) + [SLASH] + b
  {}

  // ---- UTF-8 bytes of a whole string ----

  /** `Buffer.from(s)`: an unpaired surrogate becomes U+FFFD. */
  function Bytes(s: Str): seq<Utf8.Byte> {
    if s == [] then []
    else match FirstScalar(s)
      case Some(v) => Utf8.Encode(v) + Bytes(s[|Utf16(v)|..])
      case None => Utf8.Encode(0xFFFD) + Bytes(s[1..])
  }

  /** Equal bytes mean equal strings as long as both are well formed. */
  lemma {:induction false} BytesInjective(a: Str, b: Str)
    requires WellFormed(a) && WellFormed(b)
    requires Bytes(a) == Bytes(b)
    ensures a == b
  {
    if a != [] && b != [] {
      var v, w := FirstScalar(a).value, FirstScalar(b).value;
      var x, y := a[|Utf16(v)|..], b[|Utf16(w)|..];
      Utf8.PrefixFree(v, w, Bytes(x), Bytes(y));
      BytesInjective(x, y);
      assert a == Utf16(v) + x && b == Utf16(w) + y;
    }
  }

  lemma FirstOfScalar(v: Utf8.Scalar, t: Str)
    ensures FirstScalar(Utf16(v) + t) == Some(v)
  {
    if v >= 0x1_0000 {
      var x := v - 0x1_0000;
      assert x / 1024 * 1024 + x % 1024 == x;
    }
  }

  lemma PrependScalar(v: Utf8.Scalar, t: Str)
    requires WellFormed(t)
    ensures WellFormed(Utf16(v) + t)
    ensures Bytes(Utf16(v) + t) == Utf8.Encode(v) + Bytes(t)
  {
    FirstOfScalar(v, t);
    assert (Utf16(v) + t)[|Utf16(v)|..] == t;
  }

  // ---- Exactly what decodes ----

  /** `u` is the hex digit `n`, in either case. */
  predicate IsDigit(u: Unit, n: int) {
    (0 <= n < 10 && u == 0x30 + n) || (10 <= n < 16 && (u == 0x41 + n - 10 || u == 0x61 + n - 10))
  }

  predicate IsHexDigit(u: Unit) {
    0x30 <= u <= 0x39 || 0x41 <= u <= 0x46 || 0x61 <= u <= 0x66
  }

  /** `s` is "%" and the two digits of each byte, one after the other. */
  ghost predicate Escapes(s: Str, bytes: seq<Utf8.Byte>) {
    && |s| == 3 * |bytes|
    && forall i :: 0 <= i < |bytes| ==>
         s[3 * i] == 0x25 && IsDigit(s[3 * i + 1], bytes[i] / 16) && IsDigit(s[3 * i + 2], bytes[i] % 16)
  }

  lemma OctetMeans(s: Str, b: Utf8.Byte)
    ensures FirstOctet(s) == Some(b) <==>
            |s| >= 3 && s[0] == 0x25 && IsDigit(s[1], b / 16) && IsDigit(s[2], b % 16)
  {}

  lemma EscapesStep(s: Str, bytes: seq<Utf8.Byte>)
    requires s != [] && bytes != []
    ensures Escapes(s, bytes) <==> FirstOctet(s) == Some(bytes[0]) && Escapes(s[3..], bytes[1..])
  {
    OctetMeans(s, bytes[0]);
    if |s| >= 3 {
      var rest := s[3..];
      if Escapes(s, bytes) {
        forall i | 0 <= i < |bytes[1..]|
          ensures rest[3 * i] == 0x25
          ensures IsDigit(rest[3 * i + 1], bytes[1..][i] / 16) && IsDigit(rest[3 * i + 2], bytes[1..][i] % 16)
        {
          assert bytes[1..][i] == bytes[i + 1] && rest[3 * i] == s[3 * (i + 1)];
        }
      }
      if FirstOctet(s) == Some(bytes[0]) && Escapes(rest, bytes[1..]) {
        forall i | 0 <= i < |bytes|
          ensures s[3 * i] == 0x25 && IsDigit(s[3 * i + 1], bytes[i] / 16) && IsDigit(s[3 * i + 2], bytes[i] % 16)
        {
          if i > 0 { assert bytes[1..][i - 1] == bytes[i] && rest[3 * (i - 1)] == s[3 * i]; }
        }
      }
    }
  }

  lemma {:induction false} OctetsMean(s: Str, bytes: seq<Utf8.Byte>)
    ensures Octets(s) == Some(bytes) <==> Escapes(s, bytes)
    decreases |s|
  {
    if s != [] && bytes != [] {
      EscapesStep(s, bytes);
      if |s| >= 3 { OctetsMean(s[3..], bytes[1..]); }
      assert [bytes[0]] + bytes[1..] == bytes;
    }
  }

  /** Octets fall apart between two escapes. */
  lemma {:induction false} OctetsSplit(a: Str, b: Str, k: nat)
    requires Octets(a + b).Some? && |a| == 3 * k
    ensures Octets(a).Some? && Octets(b).Some?
    ensures Octets(a + b).value == Octets(a).value + Octets(b).value
    decreases |a|
  {
    if a == [] {
      assert a + b == b && [] + Octets(b).value == Octets(b).value;
    } else {
      assert (a + b)[3..] == a[3..] + b && FirstOctet(a + b) == FirstOctet(a);
      OctetsSplit(a[3..], b, k - 1);
      var first, rest := [FirstOctet(a).value], Octets(a[3..]).value;
      assert first + (rest + Octets(b).value) == (first + rest) + Octets(b).value;
    }
  }

  /** What an escape group stands for. */
  lemma TakeEscapeMeans(s: Str) returns (v: Utf8.Scalar)
    requires TakeEscape(s).Some?
    ensures TakeEscape(s) == Some((Utf16(v), 3 * |Utf8.Encode(v)|))
    ensures Octets(s[..3 * |Utf8.Encode(v)|]) == Some(Utf8.Encode(v))
  {
    var b := FirstOctet(s).value;
    var n := Utf8.LeadingOnes(b);
    if n == 0 {
      v := b;
      var group := s[..3];
      assert FirstOctet(group) == Some(b) && group[3..] == [] && [b] + [] == [b];
    } else {
      var bytes := Octets(s[..3 * n]).value;
      v := Utf8.Decode(bytes).value;
      Utf8.DecodeThenEncode(bytes);
    }
  }

  lemma {:induction false} EscapesGiveText(s: Str)
    requires Octets(s).Some? && DecodeComponent(s).Some?
    ensures WellFormed(DecodeComponent(s).value) && Bytes(DecodeComponent(s).value) == Octets(s).value
    decreases |s|
  {
    if s != [] {
      var v, rest := FirstGroup(s);
      EscapesGiveText(rest);
      PrependScalar(v, DecodeComponent(rest).value);
    }
  }

  lemma FirstGroup(s: Str) returns (v: Utf8.Scalar, rest: Str)
    requires s != [] && Octets(s).Some? && DecodeComponent(s).Some?
    ensures |rest| < |s| && Octets(rest).Some? && DecodeComponent(rest).Some?
    ensures Octets(s).value == Utf8.Encode(v) + Octets(rest).value
    ensures DecodeComponent(s).value == Utf16(v) + DecodeComponent(rest).value
  {
    v := GroupAtFront(s);
    rest := s[3 * |Utf8.Encode(v)|..];
    GroupSplits(s, 3 * |Utf8.Encode(v)|, Utf8.Encode(v));
    DecodeByHead(s, Utf16(v), 3 * |Utf8.Encode(v)|);
  }

  lemma GroupAtFront(s: Str) returns (v: Utf8.Scalar)
    requires s != [] && Octets(s).Some? && DecodeComponent(s).Some?
    ensures Head(s) == Some((Utf16(v), 3 * |Utf8.Encode(v)|)) && 3 * |Utf8.Encode(v)| <= |s|
    ensures Octets(s[..3 * |Utf8.Encode(v)|]) == Some(Utf8.Encode(v))
  {
    OctetsHead(s);
    v := TakeEscapeMeans(s);
  }

  lemma OctetsHead(s: Str)
    requires s != [] && Octets(s).Some? && DecodeComponent(s).Some?
    ensures Head(s) == TakeEscape(s) && TakeEscape(s).Some?
  {}

  lemma GroupSplits(s: Str, n: nat, bytes: seq<Utf8.Byte>)
    requires Octets(s).Some? && n == 3 * |bytes| <= |s| && Octets(s[..n]) == Some(bytes)
    ensures Octets(s[n..]).Some? && Octets(s).value == bytes + Octets(s[n..]).value
  {
    var a, b := s[..n], s[n..];
    assert s == a + b;
    OctetsSplit(a, b, |bytes|);
  }

  lemma DecodeByHead(s: Str, text: Str, n: nat)
    requires s != [] && Head(s) == Some((text, n)) && DecodeComponent(s).Some?
    ensures n <= |s| && DecodeComponent(s[n..]).Some?
    ensures DecodeComponent(s).value == text + DecodeComponent(s[n..]).value
  {}

  lemma {:induction false} TextHasEscapes(s: Str, t: Str)
    requires WellFormed(t) && Octets(s) == Some(Bytes(t))
    ensures DecodeComponent(s) == Some(t)
    decreases |t|
  {
    if t != [] {
      var v := FirstScalar(t).value;
      var rest := t[|Utf16(v)|..];
      var n := 3 * |Utf8.Encode(v)|;
      assert t == Utf16(v) + rest;
      assert s == s[..n] + s[n..];
      OctetsSplit(s[..n], s[n..], |Utf8.Encode(v)|);
      var first, second := Octets(s[..n]).value, Octets(s[n..]).value;
      assert first == (first + second)[..|first|] == Utf8.Encode(v);
      assert second == (first + second)[|first|..] == Bytes(rest);
      GroupIsTaken(s, v);
      TextHasEscapes(s[n..], rest);
    }
  }

  lemma GroupIsTaken(s: Str, v: Utf8.Scalar)
    requires 3 * |Utf8.Encode(v)| <= |s| && Octets(s[..3 * |Utf8.Encode(v)|]) == Some(Utf8.Encode(v))
    ensures s[0] == PERCENT && TakeEscape(s) == Some((Utf16(v), 3 * |Utf8.Encode(v)|))
  {
    Utf8.EncodeThenDecode(v);
    var group := s[..3 * |Utf8.Encode(v)|];
    assert FirstOctet(s) == FirstOctet(group) == Some(Utf8.Encode(v)[0]);
  }

  /** Escaped bytes decode to a text exactly when they are its UTF-8 form; the case of the digits does not matter. */
  lemma EscapesDecode(s: Str, bytes: seq<Utf8.Byte>, t: Str)
    requires Escapes(s, bytes)
    ensures DecodeComponent(s) == Some(t) <==> WellFormed(t) && Bytes(t) == bytes
  {
    OctetsMean(s, bytes);
    if DecodeComponent(s).Some? { EscapesGiveText(s); }
    if WellFormed(t) && Bytes(t) == bytes { TextHasEscapes(s, t); }
  }

  lemma {:induction false} PercentStartsEscape(s: Str, i: nat)
    requires Octets(s).Some? && i < |s| && s[i] == PERCENT
    ensures FirstOctet(s[i..]).Some?
  {
    if i < 3 {
      assert i == 0 && s[0..] == s;
    } else {
      PercentStartsEscape(s[3..], i - 3);
      assert s[3..][i - 3..] == s[i..];
    }
  }

  lemma GroupHasEscapes(s: Str, i: nat)
    requires TakeEscape(s).Some? && i < TakeEscape(s).value.1 && s[i] == PERCENT
    ensures FirstOctet(s[i..]).Some?
  {
    var v := TakeEscapeMeans(s);
    var group := s[..TakeEscape(s).value.1];
    assert group[i..] <= s[i..] && group[i] == PERCENT;
    PercentStartsEscape(group, i);
  }

  /** A "%" that two hex digits do not follow makes decoding fail, wherever it stands. */
  lemma {:induction false} BarePercentThrows(a: Str, b: Str)
    requires !(|b| >= 2 && IsHexDigit(b[0]) && IsHexDigit(b[1]))
    ensures DecodeComponent(a + [0x25] + b).None?
    decreases |a|
  {
    var s := a + [PERCENT] + b;
    assert s[|a|..] == [PERCENT] + b;
    if a == [] {
      assert FirstOctet(s).None?;
    } else if Head(s).Some? {
      var n := Head(s).value.1;
      if n <= |a| {
        assert s[n..] == a[n..] + [PERCENT] + b;
        BarePercentThrows(a[n..], b);
      } else {
        GroupHasEscapes(s, |a|);
      }
    }
  }

  // ---- Exactly what is escaped, and how ----

  /** The escapes are written with capital letters. */
  lemma {:induction false} EscapeMeans(bytes: seq<Utf8.Byte>, i: nat)
    requires i < |bytes|
    ensures var digits := Lit("0123456789ABCDEF");
            Escape(bytes)[3 * i..3 * i + 3] == [0x25, digits[bytes[i] / 16], digits[bytes[i] % 16]]
    decreases i
  {
    if i > 0 {
      EscapeMeans(bytes[1..], i - 1);
      assert Escape(bytes)[3 * i..3 * i + 3] == Escape(bytes[1..])[3 * (i - 1)..3 * (i - 1) + 3];
    } else {
      assert Escape(bytes)[0..3] == [PERCENT, HexDigit(bytes[0] / 16), HexDigit(bytes[0] % 16)];
      HexDigitMeans(bytes[0] / 16);
      HexDigitMeans(bytes[0] % 16);
    }
  }

  lemma HexDigitMeans(n: int)
    requires 0 <= n < 16
    ensures HexDigit(n) == Lit("0123456789ABCDEF")[n]
  {
    assert Lit("0123456789ABCDEF")[n] == "0123456789ABCDEF"[n] as int;
  }

  /** The characters that `encodeURIComponent` leaves alone. */
  predicate IsLeftAlone(u: Unit) {
    0x41 <= u <= 0x5A || 0x61 <= u <= 0x7A || 0x30 <= u <= 0x39 || u in Lit("-_.!~*'()")
  }

  lemma LeftAloneMeans(u: Unit)
    ensures IsLeftAlone(u) <==> IsUnreserved(u)
  {
    var marks := Lit("-_.!~*'()");
    assert marks == [0x2D, 0x5F, 0x2E, 0x21, 0x7E, 0x2A, 0x27, 0x28, 0x29];
  }

  /** Encoding never shortens a text, and leaves it alone exactly when all its characters are. */
  lemma {:induction false} EncodeFixes(s: Str)
    requires WellFormed(s)
    ensures EncodeComponent(s).Some? && |s| <= |EncodeComponent(s).value|
    ensures EncodeComponent(s) == Some(s) <==> forall u :: u in s ==> IsLeftAlone(u)
  {
    if s != [] {
      var v := FirstScalar(s).value;
      var rest := s[|Utf16(v)|..];
      EncodeFixes(rest);
      LeftAloneMeans(s[0]);
      assert s == Utf16(v) + rest;
      if IsUnreserved(s[0]) {
        assert s == [s[0]] + rest;
        var e := EncodeComponent(rest).value;
        assert EncodeComponent(s).value[1..] == e && s[1..] == rest;
      } else {
        assert s[0] in s;
        assert |EncodeComponent(s).value| > |s|;
      }
    }
  }
}
