/**
 * JavaScript strings and the string built-ins the source relies on.
 *
 * A JavaScript string is a finite sequence of UTF-16 code units, surrogates
 * included, so it is not a Dafny `string` (whose characters are scalar values).
 */
module Text {
  type Unit = u: int | 0 <= u < 0x1_0000
  type Str = seq<Unit>

  const SLASH: Unit := 0x2F
  const PERCENT: Unit := 0x25
  const DOT: Unit := 0x2E
  const SEMICOLON: Unit := 0x3B
  const EQUALS: Unit := 0x3D
  const SPACE: Unit := 0x20

  /** An ASCII literal as code units. */
  function Lit(s: string): (r: Str)
    ensures |r| == |s|
    ensures forall i :: 0 <= i < |s| && s[i] as int < 0x80 ==> r[i] == s[i] as int
  {
    seq(|s|, i requires 0 <= i < |s| => if s[i] as int < 0x80 then s[i] as int else 0xFFFD)
  }

  /** `s.split(sep)` for a one-unit separator. */
  function Split(s: Str, sep: Unit): (parts: seq<Str>)
    ensures |parts| > 0
  {
    if s == [] then [[]]
    else
      var rest := Split(s[1..], sep);
      if s[0] == sep then [[]] + rest else [[s[0]] + rest[0]] + rest[1..]
  }

  /** `parts.join(glue)`. */
  function Join(parts: seq<Str>, glue: Str): Str {
    if |parts| == 0 then []
    else if |parts| == 1 then parts[0]
    else parts[0] + glue + Join(parts[1..], glue)
  }

  /** `s.indexOf(c)`, with the length of `s` standing for "not found". */
  function IndexOf(s: Str, c: Unit): (i: nat)
    ensures i <= |s|
    ensures forall k :: 0 <= k < i ==> s[k] != c
    ensures i < |s| ==> s[i] == c
  {
    if s == [] || s[0] == c then 0 else 1 + IndexOf(s[1..], c)
  }

  lemma IndexIs(s: Str, c: Unit, i: nat)
    requires i < |s| && s[i] == c && forall k :: 0 <= k < i ==> s[k] != c
    ensures IndexOf(s, c) == i
  {}

  /** White space and line terminators, section 22.1.3.32 of ECMA-262. */
  predicate IsTrimmable(u: Unit) {
    || 0x09 <= u <= 0x0D || u == 0x20 || u == 0xA0 || u == 0xFEFF
    || u == 0x1680 || 0x2000 <= u <= 0x200A || u == 0x202F || u == 0x205F || u == 0x3000
    || u == 0x2028 || u == 0x2029
  }

  function TrimStart(s: Str): Str {
    if s != [] && IsTrimmable(s[0]) then TrimStart(s[1..]) else s
  }

  function TrimEnd(s: Str): Str {
    if s != [] && IsTrimmable(s[|s| - 1]) then TrimEnd(s[..|s| - 1]) else s
  }

  /** `s.trim()`. */
  function Trim(s: Str): Str {
    TrimEnd(TrimStart(s))
  }

  lemma {:induction false} JoinSplit(s: Str, sep: Unit)
    ensures Join(Split(s, sep), [sep]) == s
  {
    if s != [] {
      var rest := Split(s[1..], sep);
      JoinSplit(s[1..], sep);
      assert s == [s[0]] + s[1..];
      if s[0] == sep {
        assert ([[]] + rest)[1..] == rest;
      } else {
        var parts := Split(s, sep);
        assert parts[1..] == rest[1..];
        assert parts[0] == [s[0]] + rest[0];
      }
    }
  }

  lemma {:induction false} SplitPartsLackSeparator(s: Str, sep: Unit)
    ensures forall part :: part in Split(s, sep) ==> sep !in part
  {
    if s != [] {
      SplitPartsLackSeparator(s[1..], sep);
      var rest := Split(s[1..], sep);
      assert rest[0] in rest;
      forall part | part in rest[1..] ensures part in rest {}
    }
  }

  lemma {:induction false} SplitWithoutSeparator(s: Str, sep: Unit)
    requires sep !in s
    ensures Split(s, sep) == [s]
  {
    if s != [] {
      SplitWithoutSeparator(s[1..], sep);
      assert [s[0]] + s[1..] == s;
    }
  }

  lemma {:induction false} SplitAtSeparator(a: Str, sep: Unit, b: Str)
    requires sep !in a
    ensures Split(a + [sep] + b, sep) == [a] + Split(b, sep)
  {
    var s := a + [sep] + b;
    if a == [] {
      assert s[1..] == b;
    } else {
      SplitAtSeparator(a[1..], sep, b);
      assert s[1..] == a[1..] + [sep] + b;
      assert [a[0]] + a[1..] == a;
    }
  }

  /** Splitting a concatenation around a separator. */
  lemma {:induction false} SplitConcat(a: Str, sep: Unit, b: Str)
    ensures Split(a + [sep] + b, sep) == Split(a, sep) + Split(b, sep)
    decreases |a|
  {
    var s := a + [sep] + b;
    if a == [] {
      assert s[1..] == b;
    } else {
      assert s[1..] == a[1..] + [sep] + b;
      SplitConcat(a[1..], sep, b);
    }
  }

  lemma LaterPartsStay(a: Str, sep: Unit, b: Str)
    ensures forall x :: x in Split(b, sep) ==> x in Split(a + [sep] + b, sep)
  {
    SplitConcat(a, sep, b);
  }

  lemma {:induction false} SplitJoin(parts: seq<Str>, sep: Unit)
    requires |parts| > 0
    requires forall part :: part in parts ==> sep !in part
    ensures Split(Join(parts, [sep]), sep) == parts
  {
    if |parts| == 1 {
      SplitWithoutSeparator(parts[0], sep);
    } else {
      SplitJoin(parts[1..], sep);
      SplitAtSeparator(parts[0], sep, Join(parts[1..], [sep]));
      assert Join(parts, [sep]) == parts[0] + [sep] + Join(parts[1..], [sep]);
    }
  }

  /** A unit occurs in a join exactly when it occurs in a part or, between two parts, in the glue. */
  lemma {:induction false} JoinMembers(parts: seq<Str>, sep: Unit, u: Unit)
    requires u != sep
    ensures u in Join(parts, [sep]) <==> exists i :: 0 <= i < |parts| && u in parts[i]
  {
    if |parts| > 1 {
      JoinMembers(parts[1..], sep, u);
      if i :| 0 <= i < |parts| && u in parts[i] {
        if i > 0 { assert u in parts[1..][i - 1]; }
      }
      if j :| 0 <= j < |parts[1..]| && u in parts[1..][j] {
        assert u in parts[j + 1];
      }
    }
  }

  lemma {:induction false} TrimUntouched(s: Str)
    requires s != [] ==> !IsTrimmable(s[0]) && !IsTrimmable(s[|s| - 1])
    ensures Trim(s) == s
  {}

  predicate IsBlank(s: Str) {
    forall i :: 0 <= i < |s| ==> IsTrimmable(s[i])
  }

  lemma {:induction false} TrimStartMeans(s: Str) returns (blank: Str)
    ensures s == blank + TrimStart(s) && IsBlank(blank)
    ensures TrimStart(s) != [] ==> !IsTrimmable(TrimStart(s)[0])
  {
    if s != [] && IsTrimmable(s[0]) {
      var rest := TrimStartMeans(s[1..]);
      blank := [s[0]] + rest;
      assert s == [s[0]] + s[1..];
    } else {
      blank := [];
    }
  }

  lemma {:induction false} TrimEndMeans(s: Str) returns (blank: Str)
    ensures s == TrimEnd(s) + blank && IsBlank(blank)
    ensures TrimEnd(s) != [] ==> !IsTrimmable(TrimEnd(s)[|TrimEnd(s)| - 1])
  {
    if s != [] && IsTrimmable(s[|s| - 1]) {
      var rest := TrimEndMeans(s[..|s| - 1]);
      blank := rest + [s[|s| - 1]];
      assert s == s[..|s| - 1] + [s[|s| - 1]];
    } else {
      blank := [];
    }
  }

  /** Only blanks are trimmed, and all of them at both ends. */
  lemma TrimMeans(s: Str) returns (before: Str, after: Str)
    ensures s == before + Trim(s) + after && IsBlank(before) && IsBlank(after)
    ensures Trim(s) != [] ==> !IsTrimmable(Trim(s)[0]) && !IsTrimmable(Trim(s)[|Trim(s)| - 1])
  {
    before := TrimStartMeans(s);
    after := TrimEndMeans(TrimStart(s));
    assert TrimStart(s) == Trim(s) + after;
    if Trim(s) != [] { assert TrimStart(s)[0] == Trim(s)[0]; }
  }
}
