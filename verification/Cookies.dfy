/** Reading the Cookie header and printing Set-Cookie headers (apps/api/lib/cookies.ts). */
module Cookies {
  import opened Options
  import opened Text
  import opened PercentCodec

  datatype Pair = Pair(name: Str, value: Str)

  // ---- Reading ----

  /** Assigning a string to this key of an object literal stores nothing. */
  const PROTO: Str := Lit("__proto__")

  /** The assignment `out[key] = decoded value`, with the raw value where decoding throws. */
  function Assignment(key: Str, value: Str): Option<Pair> {
    if key == [] || key == PROTO then None
    else
      match DecodeComponent(value)
      case Some(decoded) => Some(Pair(key, decoded))
      case None => Some(Pair(key, value))
  }

  /** What one ";"-separated part of the header binds. */
  function Binding(part: Str): Option<Pair> {
    var idx := IndexOf(part, EQUALS);
    if idx == |part| then None
    else Assignment(Trim(part[..idx]), Trim(part[idx + 1..]))
  }

  function Bindings(parts: seq<Str>): (r: seq<Option<Pair>>)
    ensures |r| == |parts|
  {
    seq(|parts|, i requires 0 <= i < |parts| => Binding(parts[i]))
  }

  /** The map left by writing the bindings one after the other. */
  function Collect(bindings: seq<Option<Pair>>): map<Str, Str> {
    if bindings == [] then map[]
    else
      var n := |bindings| - 1;
      var out := Collect(bindings[..n]);
      match bindings[n]
      case None => out
      case Some(p) => out[p.name := p.value]
  }

  function Parsed(header: Option<Str>): map<Str, Str> {
    if header.None? || header.value == [] then map[]
    else Collect(Bindings(Split(header.value, SEMICOLON)))
  }

  lemma CollectOneMore(parts: seq<Str>, i: nat)
    requires i < |parts|
    ensures var before := Collect(Bindings(parts)[..i]);
            Collect(Bindings(parts)[..i + 1]) ==
            match Binding(parts[i]) case None => before case Some(p) => before[p.name := p.value]
  {
    assert Bindings(parts)[..i + 1][..i] == Bindings(parts)[..i];
  }

  method ParseCookies(header: Option<Str>) returns (out: map<Str, Str>)
    ensures out == Parsed(header)
  {
    out := map[];
    if header.None? || header.value == [] { return; }
    var parts := Split(header.value, SEMICOLON);
    for i := 0 to |parts|
      invariant out == Collect(Bindings(parts)[..i])
    {
      CollectOneMore(parts, i);
      var part := parts[i];
      var idx := IndexOf(part, EQUALS);
      if idx == |part| { continue; }
      var key := Trim(part[..idx]);
      var value := Trim(part[idx + 1..]);
      if key != [] && key != PROTO {
        var decoded := DecodeComponent(value);
        out := out[key := if decoded.Some? then decoded.value else value];
      }
    }
    assert Bindings(parts)[..|parts|] == Bindings(parts);
  }

  // ---- What one part binds ----

  /** `value` is `raw` decoded, or `raw` itself if it cannot be decoded. */
  predicate IsReadAs(raw: Str, value: Str) {
    DecodeComponent(raw) == Some(value) || (DecodeComponent(raw).None? && value == raw)
  }

  /** The part is a name, the first "=" in it and a raw value, each with blanks around it. */
  predicate IsNameAndRaw(part: Str, left: Str, right: Str, name: Str, raw: Str) {
    part == left + [EQUALS] + right && EQUALS !in left && name == Trim(left) && raw == Trim(right)
  }

  lemma EqualsSplits(part: Str, left: Str, right: Str)
    requires part == left + [EQUALS] + right && EQUALS !in left
    ensures IndexOf(part, EQUALS) == |left| && part[..|left|] == left && part[|left| + 1..] == right
  {
    IndexIs(part, EQUALS, |left|);
  }

  /**
   * A part binds a name to a value exactly when it is name, "=" and raw value, the name is
   * neither empty nor `__proto__`, and the value is the raw one decoded or, if that throws, as it is.
   */
  lemma BindingMeans(part: Str, p: Pair)
    ensures Binding(part) == Some(p) <==>
            && p.name != [] && p.name != Lit("__proto__")
            && exists left, right, raw :: IsNameAndRaw(part, left, right, p.name, raw) && IsReadAs(raw, p.value)
  {
    if Binding(part) == Some(p) { var _, _, _ := BindingParts(part, p); }
    forall left, right, raw | IsNameAndRaw(part, left, right, p.name, raw)
      ensures Binding(part) == Assignment(p.name, raw)
    {
      BindingSplits(part, left, right, p.name, raw);
    }
    forall raw ensures Assignment(p.name, raw) == Some(p) <==>
                       p.name != [] && p.name != Lit("__proto__") && IsReadAs(raw, p.value)
    {
      AssignmentMeans(p.name, raw, p);
    }
  }

  lemma BindingParts(part: Str, p: Pair) returns (left: Str, right: Str, raw: Str)
    requires Binding(part) == Some(p)
    ensures IsNameAndRaw(part, left, right, p.name, raw) && IsReadAs(raw, p.value)
    ensures p.name != [] && p.name != Lit("__proto__")
  {
    var idx := IndexOf(part, EQUALS);
    left, right, raw := part[..idx], part[idx + 1..], Trim(part[idx + 1..]);
    assert part == left + [EQUALS] + right;
    AssignmentMeans(Trim(left), raw, p);
  }

  lemma AssignmentMeans(name: Str, raw: Str, p: Pair)
    ensures Assignment(name, raw) == Some(p) <==>
            name == p.name && name != [] && name != Lit("__proto__") && IsReadAs(raw, p.value)
  {}

  lemma BindingSplits(part: Str, left: Str, right: Str, name: Str, raw: Str)
    requires part == left + [EQUALS] + right && EQUALS !in left
    ensures IsNameAndRaw(part, left, right, name, raw) ==> Binding(part) == Assignment(name, raw)
  {
    EqualsSplits(part, left, right);
  }

  predicate Names(binding: Option<Pair>, name: Str) {
    binding.Some? && binding.value.name == name
  }

  ghost predicate LastNaming(bindings: seq<Option<Pair>>, i: nat, name: Str)
    requires i < |bindings|
  {
    Names(bindings[i], name) && forall j :: i < j < |bindings| ==> !Names(bindings[j], name)
  }

  /** `out` maps each name that occurs to the value of its last occurrence, and nothing else. */
  ghost predicate LastWins(bindings: seq<Option<Pair>>, out: map<Str, Str>) {
    forall name ::
      if name in out
      then exists i :: 0 <= i < |bindings| && LastNaming(bindings, i, name) && out[name] == bindings[i].value.value
      else forall i :: 0 <= i < |bindings| ==> !Names(bindings[i], name)
  }

  lemma {:induction false} CollectIsLastWins(bindings: seq<Option<Pair>>)
    ensures LastWins(bindings, Collect(bindings))
  {
    if bindings != [] {
      var n := |bindings| - 1;
      var before, out := bindings[..n], Collect(bindings);
      CollectIsLastWins(before);
      forall name
        ensures if name in out
                then exists i :: 0 <= i < |bindings| && LastNaming(bindings, i, name) && out[name] == bindings[i].value.value
                else forall i :: 0 <= i < |bindings| ==> !Names(bindings[i], name)
      {
        if Names(bindings[n], name) {
          assert LastNaming(bindings, n, name);
        } else if name in out {
          var i :| 0 <= i < |before| && LastNaming(before, i, name) && Collect(before)[name] == before[i].value.value;
          forall j | i < j < |bindings| ensures !Names(bindings[j], name) {
            if j < n { assert !Names(before[j], name); }
          }
          assert LastNaming(bindings, i, name);
        } else {
          forall i | 0 <= i < |bindings| ensures !Names(bindings[i], name) {
            if i < n { assert !Names(before[i], name); }
          }
        }
      }
    }
  }

  // ---- The Cookie header a browser sends ----

  /** A name the reader finds again: no "=", no ";" and nothing to trim. Includes every RFC 6265 token. */
  predicate IsCookieName(name: Str) {
    && name != [] && EQUALS !in name && SEMICOLON !in name
    && !IsTrimmable(name[0]) && !IsTrimmable(name[|name| - 1])
  }

  predicate IsPrintable(p: Pair) {
    IsCookieName(p.name) && WellFormed(p.value)
  }

  /** `name=encodeURIComponent(value)` */
  function PairText(p: Pair): Str
    requires IsPrintable(p)
  {
    EncodeAlphabet(p.value);
    p.name + [EQUALS] + EncodeComponent(p.value).value
  }

  function PairTexts(pairs: seq<Pair>): seq<Str>
    requires forall p :: p in pairs ==> IsPrintable(p)
  {
    seq(|pairs|, i requires 0 <= i < |pairs| => PairText(pairs[i]))
  }

  /** The pairs joined as in section 5.4 of RFC 6265. */
  function CookieHeader(pairs: seq<Pair>): Str
    requires forall p :: p in pairs ==> IsPrintable(p)
  {
    Join(PairTexts(pairs), [SEMICOLON, SPACE])
  }

  function WithSpaces(parts: seq<Str>): (r: seq<Str>)
    ensures |r| == |parts|
    ensures forall i :: 0 <= i < |parts| ==> r[i] == [SPACE] + parts[i]
  {
    seq(|parts|, i requires 0 <= i < |parts| => [SPACE] + parts[i])
  }

  lemma WithSpacesCons(parts: seq<Str>)
    requires parts != []
    ensures [parts[0]] + parts[1..] == parts
    ensures [[SPACE] + parts[0]] + WithSpaces(parts[1..]) == WithSpaces(parts)
  {}

  lemma SplitGluedStep(lead: Str, first: Str, rest: seq<Str>)
    requires SEMICOLON !in lead && SEMICOLON !in first && rest != []
    requires Split([SPACE] + Join(rest, [SEMICOLON, SPACE]), SEMICOLON) == WithSpaces(rest)
    ensures Split(lead + Join([first] + rest, [SEMICOLON, SPACE]), SEMICOLON) == [lead + first] + WithSpaces(rest)
  {
    var tail := Join(rest, [SEMICOLON, SPACE]);
    SplitAtSeparator(lead + first, SEMICOLON, [SPACE] + tail);
    assert ([first] + rest)[1..] == rest;
    assert lead + (first + [SEMICOLON, SPACE] + tail) == (lead + first) + [SEMICOLON] + ([SPACE] + tail);
  }

  /** The parts of a "; "-joined list: all but the first keep the space. */
  lemma {:induction false} SplitGlued(lead: Str, first: Str, rest: seq<Str>)
    requires SEMICOLON !in lead && SEMICOLON !in first
    requires forall i :: 0 <= i < |rest| ==> SEMICOLON !in rest[i]
    ensures Split(lead + Join([first] + rest, [SEMICOLON, SPACE]), SEMICOLON)
         == [lead + first] + WithSpaces(rest)
    decreases |rest|
  {
    if rest == [] {
      assert [first] + rest == [first] && WithSpaces(rest) == [];
      SplitWithoutSeparator(lead + first, SEMICOLON);
    } else {
      SplitGlued([SPACE], rest[0], rest[1..]);
      WithSpacesCons(rest);
      SplitGluedStep(lead, first, rest);
    }
  }

  lemma EncodedTextNeedsNoTrim(e: Str)
    requires IsEncodedText(e)
    ensures Trim(e) == e && SEMICOLON !in e
  {
    if e != [] {
      assert e[0] in e && e[|e| - 1] in e;
      TrimUntouched(e);
    }
  }

  /** What a printed pair binds: "__proto__" is lost. */
  function Kept(p: Pair): Option<Pair> {
    if p.name == PROTO then None else Some(p)
  }

  lemma TrimSpaced(lead: Str, name: Str)
    requires IsCookieName(name) && lead in {[], [SPACE]}
    ensures Trim(lead + name) == name
  {
    TrimUntouched(name);
    if lead == [] {
      assert lead + name == name;
    } else {
      assert (lead + name)[1..] == name;
    }
  }

  lemma BindingOf(lead: Str, name: Str, raw: Str)
    requires IsCookieName(name) && lead in {[], [SPACE]} && Trim(raw) == raw
    ensures Binding(lead + (name + [EQUALS] + raw)) == Assignment(name, raw)
  {
    var part := lead + (name + [EQUALS] + raw);
    var idx := |lead + name|;
    assert part == (lead + name) + [EQUALS] + raw;
    assert EQUALS !in lead + name;
    IndexIs(part, EQUALS, idx);
    assert part[..idx] == lead + name;
    assert part[idx + 1..] == raw;
    TrimSpaced(lead, name);
  }

  /** A printed pair binds its name to its value, with or without a leading space. */
  lemma PairTextBinds(p: Pair, lead: Str)
    requires IsPrintable(p) && lead in {[], [SPACE]}
    ensures Binding(lead + PairText(p)) == Kept(p)
    ensures SEMICOLON !in PairText(p)
  {
    EncodeAlphabet(p.value);
    EncodedTextNeedsNoTrim(EncodeComponent(p.value).value);
    RoundTrip(p.value);
    BindingOf(lead, p.name, EncodeComponent(p.value).value);
  }

  function AllKept(pairs: seq<Pair>): seq<Option<Pair>> {
    seq(|pairs|, i requires 0 <= i < |pairs| => Kept(pairs[i]))
  }

  lemma HeaderBindings(pairs: seq<Pair>)
    requires pairs != [] && forall p :: p in pairs ==> IsPrintable(p)
    ensures Bindings(Split(CookieHeader(pairs), SEMICOLON)) == AllKept(pairs)
    ensures CookieHeader(pairs) != []
  {
    HeaderParts(pairs);
    var parts := Split(CookieHeader(pairs), SEMICOLON);
    forall i | 0 <= i < |pairs| ensures Binding(parts[i]) == Kept(pairs[i]) {
      PairTextBinds(pairs[i], if i == 0 then [] else [SPACE]);
    }
    assert Bindings(parts) == AllKept(pairs);
  }

  /** The parts of a printed header: all but the first keep the space. */
  lemma HeaderParts(pairs: seq<Pair>)
    requires pairs != [] && forall p :: p in pairs ==> IsPrintable(p)
    ensures var parts := Split(CookieHeader(pairs), SEMICOLON);
            && |parts| == |pairs|
            && forall i :: 0 <= i < |pairs| ==> parts[i] == (if i == 0 then [] else [SPACE]) + PairText(pairs[i])
    ensures CookieHeader(pairs) != []
  {
    var texts := PairTexts(pairs);
    forall i | 0 <= i < |pairs| ensures SEMICOLON !in texts[i] {
      PairTextBinds(pairs[i], []);
    }
    SplitGlued([], texts[0], texts[1..]);
    assert [texts[0]] + texts[1..] == texts && [] + texts[0] == texts[0];
    assert [] + CookieHeader(pairs) == CookieHeader(pairs);
    assert texts[0] != [] && |WithSpaces(texts[1..])| == |texts| - 1;
    forall i | 0 < i < |pairs| ensures ([texts[0]] + WithSpaces(texts[1..]))[i] == [SPACE] + texts[i] {
      assert texts[1..][i - 1] == texts[i];
    }
  }

  /** Reading what was printed: last wins, and "__proto__" is lost. */
  lemma PrintedHeaderReadsBack(pairs: seq<Pair>)
    requires forall p :: p in pairs ==> IsPrintable(p)
    ensures LastWins(AllKept(pairs), Parsed(Some(CookieHeader(pairs))))
  {
    if pairs != [] {
      HeaderBindings(pairs);
      CollectIsLastWins(AllKept(pairs));
    }
  }

  ghost predicate Lists(pairs: seq<Pair>, m: map<Str, Str>) {
    && (forall p :: p in pairs ==> p.name in m && m[p.name] == p.value)
    && (forall name :: name in m ==> Pair(name, m[name]) in pairs)
  }

  lemma LastOfListing(pairs: seq<Pair>, m: map<Str, Str>, out: map<Str, Str>)
    requires Lists(pairs, m) && LastWins(AllKept(pairs), out)
    ensures out == m - {PROTO}
  {
    var kept := AllKept(pairs);
    forall name | name in out ensures name in m && name != PROTO && out[name] == m[name] {
      var i :| 0 <= i < |kept| && LastNaming(kept, i, name) && out[name] == kept[i].value.value;
      assert pairs[i] in pairs;
    }
    forall name | name in m && name != PROTO ensures name in out {
      var i :| 0 <= i < |pairs| && pairs[i] == Pair(name, m[name]);
      assert Names(kept[i], name);
    }
  }

  /** Any listing of a map reads back as that map exactly when no cookie is named "__proto__". */
  lemma MapRoundTrip(pairs: seq<Pair>, m: map<Str, Str>)
    requires Lists(pairs, m) && forall p :: p in pairs ==> IsPrintable(p)
    ensures Parsed(Some(CookieHeader(pairs))) == m - {PROTO}
    ensures Parsed(Some(CookieHeader(pairs))) == m <==> PROTO !in m
  {
    PrintedHeaderReadsBack(pairs);
    LastOfListing(pairs, m, Parsed(Some(CookieHeader(pairs))));
  }

  lemma CollectOne(p: Pair)
    ensures Collect([Some(p)]) == map[p.name := p.value]
  {
    assert Collect([Some(p)][..0]) == map[];
  }

  /** A raw value that cannot be decoded is kept as it is, "=" signs and all. */
  lemma RawValueIsKept(name: Str, raw: Str)
    requires IsCookieName(name) && name != PROTO && SEMICOLON !in raw && Trim(raw) == raw
    requires DecodeComponent(raw).None?
    ensures Parsed(Some(name + [EQUALS] + raw)) == map[name := raw]
  {
    var header := name + [EQUALS] + raw;
    assert [] + header == header;
    BindingOf([], name, raw);
    SplitWithoutSeparator(header, SEMICOLON);
    assert Bindings([header]) == [Some(Pair(name, raw))];
    CollectOne(Pair(name, raw));
  }
}
