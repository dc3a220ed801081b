/**
 * The pin lint (tools/lint/workflow-pins.sh): its regular expressions, the order in
 * which it tries them, its counter and its exit code. Lines hold no line feed.
 */
module WorkflowPins {

  // ---- Extended regular expressions, as far as the lint uses them ----

  /** A bracket expression is the set of its characters, or of all others. */
  datatype Re =
    | Empty
    | Bol                                    // ^
    | Eol                                    // $
    | One(chars: set<char>, negated: bool)   // [...], [^...], a literal
    | Any                                    // .
    | Cat(first: Re, second: Re)
    | Alt(left: Re, right: Re)
    | Star(body: Re)

  predicate InClass(re: Re, c: char)
    requires re.One?
  {
    (c in re.chars) != re.negated
  }

  /** `re` matches `s` from `i` to `j`. */
  predicate Matches(re: Re, s: string, i: nat, j: nat)
    requires i <= j <= |s|
    decreases re, j - i
  {
    match re
    case Empty => i == j
    case Bol => i == j == 0
    case Eol => i == j == |s|
    case One(_, _) => j == i + 1 && InClass(re, s[i])
    case Any => j == i + 1
    case Cat(a, b) => exists k | i <= k <= j :: Matches(a, s, i, k) && Matches(b, s, k, j)
    case Alt(a, b) => Matches(a, s, i, j) || Matches(b, s, i, j)
    case Star(a) => i == j || exists k | i < k <= j :: Matches(a, s, i, k) && Matches(re, s, k, j)
  }

  /** `[[ s =~ re ]]`: some part of `s` matches. */
  predicate Found(re: Re, s: string) {
    exists i, j | 0 <= i <= j <= |s| :: Matches(re, s, i, j)
  }

  const SPACES: set<char> := {' ', '\t', '\n', '\r', 11 as char, 12 as char}

  function Lit(s: string): Re
    requires s != []
  {
    if |s| == 1 then One({s[0]}, false) else Cat(One({s[0]}, false), Lit(s[1..]))
  }

  const SPACE: Re := One(SPACES, false)

  function Plus(a: Re): Re { Cat(a, Star(a)) }

  function Opt(a: Re): Re { Alt(a, Empty) }

  /** `a{n}` */
  function Times(a: Re, n: nat): Re { if n == 0 then Empty else Cat(a, Times(a, n - 1)) }

  /** `[[:space:]]` and `[0-9a-f]` by their codes. */
  predicate IsSpace(c: char) {
    c == ' ' || 9 <= c as int <= 13
  }

  predicate IsHex(c: char) {
    '0' <= c <= '9' || 'a' <= c <= 'f'
  }

  const HEX: set<char> := {'0', '1', '2', '3', '4', '5', '6', '7', '8', '9', 'a', 'b', 'c', 'd', 'e', 'f'}

  /** `^[[:space:]]*(-[[:space:]]+)?uses:` */
  const ANY_USES: Re := Cat(Bol, Cat(Star(SPACE), Cat(Opt(Cat(One({'-'}, false), Plus(SPACE))), Lit("uses:"))))

  /** `[[:space:]]+[^@[:space:]#]+@[0-9a-f]{40}([[:space:]]|$|#)` */
  const PINNED_REST: Re :=
    Cat(Plus(SPACE), Cat(Plus(One(SPACES + {'@', '#'}, true)), Cat(One({'@'}, false),
      Cat(Times(One(HEX, false), 40), Alt(SPACE, Alt(Eol, One({'#'}, false)))))))

  /** `[[:space:]]+[^./[:space:]][^@[:space:]]*@` */
  const UNPINNED_REST: Re :=
    Cat(Plus(SPACE), Cat(One(SPACES + {'.', '/'}, true), Cat(Star(One(SPACES + {'@'}, true)), One({'@'}, false))))

  const PINNED: Re := Cat(ANY_USES, PINNED_REST)
  const UNPINNED_CANDIDATE: Re := Cat(ANY_USES, UNPINNED_REST)
  const DOCKER_SCHEME := "docker://"
  const OPENING := "${{"

  const DOCKER: Re := Cat(ANY_USES, Cat(Plus(SPACE), Lit(DOCKER_SCHEME)))
  const DYNAMIC: Re := Cat(ANY_USES, Cat(Star(Any), Lit(OPENING)))

  // ---- The lint ----

  datatype Class = NotUses | Docker | Dynamic | Pinned | Unpinned | Other

  /** What `IFS=':' read -r lineno line` leaves of a line: a lone final ":" is dropped. */
  function AsRead(line: string): string {
    if line != [] && line[|line| - 1] == ':' && ':' !in line[..|line| - 1] then line[..|line| - 1] else line
  }

  function Classify(line: string): Class {
    if !Found(ANY_USES, line) then NotUses
    else
      var read := AsRead(line);
      if Found(DOCKER, read) then Docker
      else if Found(DYNAMIC, read) then Dynamic
      else if Found(PINNED, read) then Pinned
      else if Found(UNPINNED_CANDIDATE, read) then Unpinned
      else Other
  }

  predicate IsFlagged(line: string) {
    Classify(line).Dynamic? || Classify(line).Unpinned?
  }

  // ---- What the regular expressions mean ----

  lemma {:induction false} StarOfClass(c: Re, s: string, i: nat, j: nat)
    requires c.One? && i <= j <= |s|
    ensures Matches(Star(c), s, i, j) <==> forall k :: i <= k < j ==> InClass(c, s[k])
    decreases j - i
  {
    if i < j {
      StarOfClass(c, s, i + 1, j);
      if InClass(c, s[i]) { assert Matches(c, s, i, i + 1); }
    }
  }

  lemma PlusOfClass(c: Re, s: string, i: nat, j: nat)
    requires c.One? && i <= j <= |s|
    ensures Matches(Plus(c), s, i, j) <==> i < j && forall k :: i <= k < j ==> InClass(c, s[k])
  {
    if i < j {
      StarOfClass(c, s, i + 1, j);
      if InClass(c, s[i]) { assert Matches(c, s, i, i + 1); }
    }
  }

  lemma {:induction false} TimesOfClass(c: Re, n: nat, s: string, i: nat, j: nat)
    requires c.One? && i <= j <= |s|
    ensures Matches(Times(c, n), s, i, j) <==> j == i + n && forall k :: i <= k < j ==> InClass(c, s[k])
    decreases n
  {
    if n > 0 && i < j {
      TimesOfClass(c, n - 1, s, i + 1, j);
      if InClass(c, s[i]) { assert Matches(c, s, i, i + 1); }
    }
  }

  lemma {:induction false} LitMatches(t: string, s: string, i: nat, j: nat)
    requires t != [] && i <= j <= |s|
    ensures Matches(Lit(t), s, i, j) <==> s[i..j] == t
    decreases |t|
  {
    if |t| == 1 {
      if j == i + 1 { assert s[i..j] == [s[i]]; }
      assert t == [t[0]];
    } else if i < j {
      LitMatches(t[1..], s, i + 1, j);
      assert s[i..j] == [s[i]] + s[i + 1..j] && t == [t[0]] + t[1..];
      if s[i] == t[0] { assert Matches(One({t[0]}, false), s, i, i + 1); }
    }
  }

  lemma CatParts(a: Re, b: Re, s: string, i: nat, j: nat) returns (k: nat)
    requires i <= j <= |s| && Matches(Cat(a, b), s, i, j)
    ensures i <= k <= j && Matches(a, s, i, k) && Matches(b, s, k, j)
  {
    k :| i <= k <= j && Matches(a, s, i, k) && Matches(b, s, k, j);
  }

  lemma CatWhole(a: Re, b: Re, s: string, i: nat, k: nat, j: nat)
    requires i <= k <= j <= |s| && Matches(a, s, i, k) && Matches(b, s, k, j)
    ensures Matches(Cat(a, b), s, i, j)
  {}

  lemma ClassesMean()
    ensures forall c: char :: c in SPACES <==> IsSpace(c)
    ensures forall c: char :: c in HEX <==> IsHex(c)
  {}

  /** `s` holds nothing but spaces from `i` to `j`. */
  predicate AreSpaces(s: string, i: nat, j: nat) {
    i <= j <= |s| && forall k :: i <= k < j ==> IsSpace(s[k])
  }

  lemma SpacesMatch(s: string, i: nat, j: nat)
    requires i <= j <= |s|
    ensures Matches(Star(SPACE), s, i, j) <==> AreSpaces(s, i, j)
    ensures Matches(Plus(SPACE), s, i, j) <==> i < j && AreSpaces(s, i, j)
  {
    ClassesMean();
    StarOfClass(SPACE, s, i, j);
    PlusOfClass(SPACE, s, i, j);
  }

  /** "-" and at least one space. */
  predicate IsMarker(s: string, i: nat, j: nat) {
    i + 1 < j <= |s| && s[i] == '-' && AreSpaces(s, i + 1, j)
  }

  const MARKER: Re := Cat(One({'-'}, false), Plus(SPACE))

  lemma MarkerMeans(s: string, i: nat, j: nat)
    requires i <= j <= |s|
    ensures Matches(Opt(MARKER), s, i, j) <==> i == j || IsMarker(s, i, j)
  {
    if Matches(MARKER, s, i, j) {
      var m := CatParts(One({'-'}, false), Plus(SPACE), s, i, j);
      SpacesMatch(s, m, j);
    }
    if IsMarker(s, i, j) {
      SpacesMatch(s, i + 1, j);
      CatWhole(One({'-'}, false), Plus(SPACE), s, i, i + 1, j);
    }
  }

  /** "uses:" ends at `p`, with spaces before it and between them, it may be, a list marker. */
  predicate UsesAt(s: string, p: nat) {
    && 5 <= p <= |s| && s[p - 5..p] == "uses:"
    && exists d: nat | d <= p - 5 :: AreSpaces(s, 0, d) && (d == p - 5 || IsMarker(s, d, p - 5))
  }

  lemma UsesShape(s: string, i: nat, p: nat)
    requires i <= p <= |s| && Matches(ANY_USES, s, i, p)
    ensures i == 0 && UsesAt(s, p)
  {
    var k0 := CatParts(Bol, Cat(Star(SPACE), Cat(Opt(MARKER), Lit("uses:"))), s, i, p);
    var k1 := CatParts(Star(SPACE), Cat(Opt(MARKER), Lit("uses:")), s, k0, p);
    var k2 := CatParts(Opt(MARKER), Lit("uses:"), s, k1, p);
    SpacesMatch(s, k0, k1);
    MarkerMeans(s, k1, k2);
    LitMatches("uses:", s, k2, p);
  }

  lemma UsesMatches(s: string, p: nat)
    requires UsesAt(s, p)
    ensures Matches(ANY_USES, s, 0, p)
  {
    var d: nat :| d <= p - 5 && AreSpaces(s, 0, d) && (d == p - 5 || IsMarker(s, d, p - 5));
    LitMatches("uses:", s, p - 5, p);
    MarkerMeans(s, d, p - 5);
    CatWhole(Opt(MARKER), Lit("uses:"), s, d, p - 5, p);
    SpacesMatch(s, 0, d);
    CatWhole(Star(SPACE), Cat(Opt(MARKER), Lit("uses:")), s, 0, d, p);
    CatWhole(Bol, Cat(Star(SPACE), Cat(Opt(MARKER), Lit("uses:"))), s, 0, 0, p);
  }

  /** What the expression all others begin with matches. */
  lemma UsesMeans(s: string, i: nat, p: nat)
    requires i <= p <= |s|
    ensures Matches(ANY_USES, s, i, p) <==> i == 0 && UsesAt(s, p)
  {
    if Matches(ANY_USES, s, i, p) { UsesShape(s, i, p); }
    if i == 0 && UsesAt(s, p) { UsesMatches(s, p); }
  }

  lemma BeforeUses(s: string, p: nat)
    requires UsesAt(s, p)
    ensures forall k :: 0 <= k < p - 5 ==> IsSpace(s[k]) || s[k] == '-'
    ensures s[p - 5] == 'u' && s[p - 4] == 's' && s[p - 3] == 'e' && s[p - 2] == 's' && s[p - 1] == ':'
  {
    var d: nat :| d <= p - 5 && AreSpaces(s, 0, d) && (d == p - 5 || IsMarker(s, d, p - 5));
    assert s[p - 5] == s[p - 5..p][0] && s[p - 4] == s[p - 5..p][1] && s[p - 3] == s[p - 5..p][2];
    assert s[p - 2] == s[p - 5..p][3] && s[p - 1] == s[p - 5..p][4];
  }

  /** There is one place where the match can end. */
  lemma UsesEndsOnce(s: string, p: nat, p': nat)
    requires UsesAt(s, p) && UsesAt(s, p')
    ensures p == p'
  {
    BeforeUses(s, p);
    BeforeUses(s, p');
  }

  lemma FoundAt(re: Re, s: string, i: nat, j: nat)
    requires i <= j <= |s| && Matches(re, s, i, j)
    ensures Found(re, s)
  {}

  /** Each of the four expressions is about what follows "uses:". */
  lemma FoundGivesRest(rest: Re, s: string, p: nat) returns (j: nat)
    requires UsesAt(s, p) && Found(Cat(ANY_USES, rest), s)
    ensures p <= j <= |s| && Matches(rest, s, p, j)
  {
    var i: nat;
    i, j :| i <= j <= |s| && Matches(Cat(ANY_USES, rest), s, i, j);
    var k := CatParts(ANY_USES, rest, s, i, j);
    UsesMeans(s, i, k);
    UsesEndsOnce(s, p, k);
  }

  lemma RestGivesFound(rest: Re, s: string, p: nat, j: nat)
    requires UsesAt(s, p) && p <= j <= |s| && Matches(rest, s, p, j)
    ensures Found(Cat(ANY_USES, rest), s)
  {
    UsesMeans(s, 0, p);
    CatWhole(ANY_USES, rest, s, 0, p, j);
    FoundAt(Cat(ANY_USES, rest), s, 0, j);
  }

  /** Spaces fill `s` from `p` to `q`, and `q` holds something else. */
  predicate SpacesUpTo(s: string, p: nat, q: nat) {
    p < q < |s| && AreSpaces(s, p, q) && !IsSpace(s[q])
  }

  /** An expression that starts with a non-space takes all the spaces before it. */
  lemma SpacesThen(rest: Re, s: string, p: nat, q: nat, j: nat)
    requires SpacesUpTo(s, p, q) && p <= j <= |s|
    requires forall k: nat :: p < k <= j && Matches(rest, s, k, j) ==> k < |s| && !IsSpace(s[k])
    ensures Matches(Cat(Plus(SPACE), rest), s, p, j) <==> q <= j && Matches(rest, s, q, j)
  {
    SpacesMatch(s, p, q);
    if Matches(Cat(Plus(SPACE), rest), s, p, j) {
      var k := CatParts(Plus(SPACE), rest, s, p, j);
      SpacesMatch(s, p, k);
      assert k <= q;
    }
    if q <= j && Matches(rest, s, q, j) {
      CatWhole(Plus(SPACE), rest, s, p, q, j);
    }
  }

  lemma SpacesThenFound(rest: Re, s: string, p: nat, q: nat, j: nat)
    requires UsesAt(s, p) && SpacesUpTo(s, p, q) && q <= j <= |s| && Matches(rest, s, q, j)
    ensures Found(Cat(ANY_USES, Cat(Plus(SPACE), rest)), s)
  {
    SpacesMatch(s, p, q);
    CatWhole(Plus(SPACE), rest, s, p, q, j);
    RestGivesFound(Cat(Plus(SPACE), rest), s, p, j);
  }

  /** The reference at `q` has its first "@" at `a`, before any space. */
  predicate FirstAt(s: string, q: nat, a: nat) {
    q < a < |s| && s[a] == '@' && forall k :: q <= k < a ==> s[k] != '@' && !IsSpace(s[k])
  }

  /** Forty lower-case hex digits follow the "@" at `a`, then a space, "#" or the end of the line. */
  predicate IsShaAfter(s: string, a: nat) {
    && a + 41 <= |s|
    && (forall k :: a < k <= a + 40 ==> IsHex(s[k]))
    && (a + 41 == |s| || IsSpace(s[a + 41]) || s[a + 41] == '#')
  }

  const REF_CHAR: Re := One(SPACES + {'@', '#'}, true)
  const FOLLOW: Re := Alt(SPACE, Alt(Eol, One({'#'}, false)))
  const SHA_REST: Re := Cat(One({'@'}, false), Cat(Times(One(HEX, false), 40), FOLLOW))

  lemma FollowMeans(s: string, c: nat, j: nat)
    requires c <= j <= |s| && Matches(FOLLOW, s, c, j)
    ensures c == |s| || IsSpace(s[c]) || s[c] == '#'
  {
    ClassesMean();
    if !Matches(SPACE, s, c, j) {
      assert Matches(Alt(Eol, One({'#'}, false)), s, c, j);
    }
  }

  lemma ShaMeans(s: string, a: nat, j: nat)
    requires a <= j <= |s|
    ensures Matches(SHA_REST, s, a, j) ==> a < |s| && s[a] == '@' && IsShaAfter(s, a)
  {
    ClassesMean();
    if Matches(SHA_REST, s, a, j) {
      var b := CatParts(One({'@'}, false), Cat(Times(One(HEX, false), 40), FOLLOW), s, a, j);
      var c := CatParts(Times(One(HEX, false), 40), FOLLOW, s, b, j);
      TimesOfClass(One(HEX, false), 40, s, b, c);
      FollowMeans(s, c, j);
    }
  }

  lemma ShaMatches(s: string, a: nat) returns (j: nat)
    requires a < |s| && s[a] == '@' && IsShaAfter(s, a)
    ensures a <= j <= |s| && Matches(SHA_REST, s, a, j)
  {
    ClassesMean();
    var c := a + 41;
    j := if c == |s| then c else c + 1;
    TimesOfClass(One(HEX, false), 40, s, a + 1, c);
    assert Matches(FOLLOW, s, c, j);
    CatWhole(Times(One(HEX, false), 40), FOLLOW, s, a + 1, c, j);
    CatWhole(One({'@'}, false), Cat(Times(One(HEX, false), 40), FOLLOW), s, a, a + 1, j);
  }

  const PINNED_REF: Re := Cat(Plus(REF_CHAR), SHA_REST)

  lemma PinnedRefMeans(s: string, q: nat, j: nat) returns (m: nat)
    requires q <= j <= |s| && Matches(PINNED_REF, s, q, j)
    ensures q < m < |s| && s[m] == '@' && IsShaAfter(s, m)
    ensures forall k :: q <= k < m ==> !IsSpace(s[k]) && s[k] != '@' && s[k] != '#'
  {
    ClassesMean();
    m := CatParts(Plus(REF_CHAR), SHA_REST, s, q, j);
    PlusOfClass(REF_CHAR, s, q, m);
    ShaMeans(s, m, j);
  }

  lemma PinnedFound(s: string, p: nat, q: nat, a: nat)
    requires UsesAt(s, p) && SpacesUpTo(s, p, q) && FirstAt(s, q, a)
    requires IsShaAfter(s, a) && '#' !in s[q..a]
    ensures Found(PINNED, s)
  {
    ClassesMean();
    var j := ShaMatches(s, a);
    forall k | q <= k < a ensures s[k] != '#' { assert s[k] == s[q..a][k - q]; }
    PlusOfClass(REF_CHAR, s, q, a);
    CatWhole(Plus(REF_CHAR), SHA_REST, s, q, a, j);
    SpacesThenFound(PINNED_REF, s, p, q, j);
  }

  lemma PinnedMeans(s: string, p: nat, q: nat, a: nat)
    requires UsesAt(s, p) && SpacesUpTo(s, p, q) && FirstAt(s, q, a)
    ensures Found(PINNED, s) <==> IsShaAfter(s, a) && '#' !in s[q..a]
  {
    if Found(PINNED, s) {
      var j := FoundGivesRest(PINNED_REST, s, p);
      forall k: nat | k <= j && Matches(PINNED_REF, s, k, j) ensures k < |s| && !IsSpace(s[k]) {
        var _ := PinnedRefMeans(s, k, j);
      }
      SpacesThen(PINNED_REF, s, p, q, j);
      var m := PinnedRefMeans(s, q, j);
      assert m == a;
    } else if IsShaAfter(s, a) && '#' !in s[q..a] {
      PinnedFound(s, p, q, a);
    }
  }

  /** `t` stands at `k` in `s`. */
  predicate IsAt(t: string, s: string, k: nat) {
    k + |t| <= |s| && s[k..k + |t|] == t
  }

  lemma LitIsAt(t: string, s: string, k: nat, j: nat)
    requires t != [] && k <= j <= |s|
    ensures Matches(Lit(t), s, k, j) <==> j == k + |t| && IsAt(t, s, k)
    ensures Matches(Lit(t), s, k, j) ==> s[k] == t[0]
  {
    LitMatches(t, s, k, j);
    if s[k..j] == t { assert s[k..j][0] == s[k]; }
  }

  lemma LitAfterSpaces(t: string, s: string, p: nat, q: nat)
    requires UsesAt(s, p) && SpacesUpTo(s, p, q)
    requires t != [] && !IsSpace(t[0]) && Found(Cat(ANY_USES, Cat(Plus(SPACE), Lit(t))), s)
    ensures IsAt(t, s, q)
  {
    var j := FoundGivesRest(Cat(Plus(SPACE), Lit(t)), s, p);
    forall k: nat | k <= j && Matches(Lit(t), s, k, j) ensures k < |s| && !IsSpace(s[k]) {
      LitIsAt(t, s, k, j);
    }
    SpacesThen(Lit(t), s, p, q, j);
    LitIsAt(t, s, q, j);
  }

  /** `uses:`, spaces and a literal that starts with no space. */
  lemma SpacesThenLit(t: string, s: string, p: nat, q: nat)
    requires UsesAt(s, p) && SpacesUpTo(s, p, q)
    requires t != [] && !IsSpace(t[0])
    ensures Found(Cat(ANY_USES, Cat(Plus(SPACE), Lit(t))), s) <==> IsAt(t, s, q)
  {
    if IsAt(t, s, q) {
      LitMatches(t, s, q, q + |t|);
      SpacesThenFound(Lit(t), s, p, q, q + |t|);
    } else if Found(Cat(ANY_USES, Cat(Plus(SPACE), Lit(t))), s) {
      LitAfterSpaces(t, s, p, q);
    }
  }

  lemma DockerMeans(s: string, p: nat, q: nat)
    requires UsesAt(s, p) && SpacesUpTo(s, p, q)
    ensures Found(DOCKER, s) <==> IsAt("docker://", s, q)
  {
    SpacesThenLit(DOCKER_SCHEME, s, p, q);
  }

  lemma {:induction false} StarOfAny(s: string, i: nat, j: nat)
    requires i <= j <= |s|
    ensures Matches(Star(Any), s, i, j)
    decreases j - i
  {
    if i < j {
      StarOfAny(s, i + 1, j);
      assert Matches(Any, s, i, i + 1);
    }
  }

  /** "${{" occurs at or after `p`. */
  predicate HasExpression(s: string, p: nat) {
    exists k: nat | p <= k < |s| :: IsAt("${{", s, k)
  }

  lemma DynamicMeans(s: string, p: nat)
    requires UsesAt(s, p)
    ensures Found(DYNAMIC, s) <==> HasExpression(s, p)
  {
    if Found(DYNAMIC, s) {
      var j := FoundGivesRest(Cat(Star(Any), Lit(OPENING)), s, p);
      var k := CatParts(Star(Any), Lit(OPENING), s, p, j);
      LitIsAt(OPENING, s, k, j);
    }
    if HasExpression(s, p) {
      var k: nat :| p <= k < |s| && IsAt(OPENING, s, k);
      StarOfAny(s, p, k);
      LitIsAt(OPENING, s, k, k + 3);
      CatWhole(Star(Any), Lit(OPENING), s, p, k, k + 3);
      RestGivesFound(Cat(Star(Any), Lit(OPENING)), s, p, k + 3);
    }
  }

  const CANDIDATE_TAIL: Re := Cat(Star(One(SPACES + {'@'}, true)), One({'@'}, false))
  const CANDIDATE_REF: Re := Cat(One(SPACES + {'.', '/'}, true), CANDIDATE_TAIL)

  /** A reference at `q` that neither "." nor "/" starts, up to an "@" at `a`. */
  predicate CandidateAt(s: string, q: nat, a: nat) {
    && q < a < |s| && s[a] == '@' && !IsSpace(s[q]) && s[q] !in {'.', '/'}
    && forall k :: q < k < a ==> s[k] != '@' && !IsSpace(s[k])
  }

  lemma CandidateMeans(s: string, q: nat, a: nat)
    requires q < a < |s|
    ensures Matches(CANDIDATE_REF, s, q, a + 1) <==> CandidateAt(s, q, a)
  {
    ClassesMean();
    if Matches(CANDIDATE_REF, s, q, a + 1) {
      var l := CatParts(One(SPACES + {'.', '/'}, true), CANDIDATE_TAIL, s, q, a + 1);
      var m := CatParts(Star(One(SPACES + {'@'}, true)), One({'@'}, false), s, l, a + 1);
      StarOfClass(One(SPACES + {'@'}, true), s, l, m);
    } else if CandidateAt(s, q, a) {
      StarOfClass(One(SPACES + {'@'}, true), s, q + 1, a);
      CatWhole(Star(One(SPACES + {'@'}, true)), One({'@'}, false), s, q + 1, a, a + 1);
      CatWhole(One(SPACES + {'.', '/'}, true), CANDIDATE_TAIL, s, q, q + 1, a + 1);
    }
  }

  lemma CandidateMatches(s: string, p: nat, q: nat, a: nat)
    requires UsesAt(s, p) && SpacesUpTo(s, p, q) && CandidateAt(s, q, a)
    ensures Found(UNPINNED_CANDIDATE, s)
  {
    CandidateMeans(s, q, a);
    SpacesThenFound(CANDIDATE_REF, s, p, q, a + 1);
  }

  /** A match begins with something other than a space. */
  ghost predicate StartsApart(rest: Re, s: string) {
    forall k: nat, j: nat :: k <= j <= |s| && Matches(rest, s, k, j) ==> k < |s| && !IsSpace(s[k])
  }

  lemma FoundAfterSpaces(rest: Re, s: string, p: nat) returns (q: nat, j: nat)
    requires UsesAt(s, p) && StartsApart(rest, s)
    requires Found(Cat(ANY_USES, Cat(Plus(SPACE), rest)), s)
    ensures SpacesUpTo(s, p, q) && q <= j <= |s| && Matches(rest, s, q, j)
  {
    j := FoundGivesRest(Cat(Plus(SPACE), rest), s, p);
    q := CatParts(Plus(SPACE), rest, s, p, j);
    SpacesMatch(s, p, q);
  }

  lemma CandidateFound(s: string, p: nat) returns (q: nat, a: nat)
    requires UsesAt(s, p) && Found(UNPINNED_CANDIDATE, s)
    ensures SpacesUpTo(s, p, q) && CandidateAt(s, q, a)
  {
    ClassesMean();
    forall k: nat, j: nat | k <= j <= |s| && Matches(CANDIDATE_REF, s, k, j) ensures k < |s| && !IsSpace(s[k]) {
      var _ := CatParts(One(SPACES + {'.', '/'}, true), CANDIDATE_TAIL, s, k, j);
    }
    var j;
    q, j := FoundAfterSpaces(CANDIDATE_REF, s, p);
    var l := CatParts(One(SPACES + {'.', '/'}, true), CANDIDATE_TAIL, s, q, j);
    var m := CatParts(Star(One(SPACES + {'@'}, true)), One({'@'}, false), s, l, j);
    a := m;
    CandidateMeans(s, q, a);
  }

  lemma PinnedRefFound(s: string, p: nat) returns (q: nat, m: nat)
    requires UsesAt(s, p) && Found(PINNED, s)
    ensures SpacesUpTo(s, p, q) && FirstAt(s, q, m) && IsShaAfter(s, m) && '#' !in s[q..m]
  {
    forall k: nat, j: nat | k <= j <= |s| && Matches(PINNED_REF, s, k, j) ensures k < |s| && !IsSpace(s[k]) {
      var _ := PinnedRefMeans(s, k, j);
    }
    var j;
    q, j := FoundAfterSpaces(PINNED_REF, s, p);
    m := PinnedRefMeans(s, q, j);
  }

  // ---- One rule for every `uses:` line ----

  predicate IsDockerRef(s: string, p: nat) {
    exists q: nat | q < |s| :: SpacesUpTo(s, p, q) && IsAt("docker://", s, q)
  }

  predicate IsPinnedAt(s: string, q: nat, a: nat)
    requires q < a < |s|
  {
    s[q] != '@' && '#' !in s[q..a] && IsShaAfter(s, a)
  }

  /** The first word after the spaces is a reference with an "@" that no full SHA follows. */
  predicate IsUnpinnedRef(s: string, p: nat) {
    exists q: nat, a: nat | q < |s| && a < |s| :: SpacesUpTo(s, p, q) && CandidateAt(s, q, a) && !IsPinnedAt(s, q, a)
  }

  lemma DockerRefMeans(s: string, p: nat)
    requires UsesAt(s, p)
    ensures Found(DOCKER, s) <==> IsDockerRef(s, p)
  {
    if Found(DOCKER, s) {
      forall k: nat, j: nat | k <= j <= |s| && Matches(Lit(DOCKER_SCHEME), s, k, j) ensures k < |s| && !IsSpace(s[k]) {
        LitIsAt(DOCKER_SCHEME, s, k, j);
      }
      var q, _ := FoundAfterSpaces(Lit(DOCKER_SCHEME), s, p);
      DockerMeans(s, p, q);
    } else if q: nat :| q < |s| && SpacesUpTo(s, p, q) && IsAt("docker://", s, q) {
      DockerMeans(s, p, q);
    }
  }

  lemma PinnedIsThere(s: string, p: nat, q: nat, a: nat)
    requires UsesAt(s, p) && SpacesUpTo(s, p, q) && CandidateAt(s, q, a)
    requires Found(PINNED, s)
    ensures IsPinnedAt(s, q, a)
  {
    var q', m := PinnedRefFound(s, p);
    assert q' == q && m == a;
  }

  lemma UnpinnedRefMeans(s: string, p: nat)
    requires UsesAt(s, p)
    ensures Found(UNPINNED_CANDIDATE, s) && !Found(PINNED, s) <==> IsUnpinnedRef(s, p)
  {
    if Found(UNPINNED_CANDIDATE, s) && !Found(PINNED, s) {
      var q, a := CandidateFound(s, p);
      if IsPinnedAt(s, q, a) { PinnedFound(s, p, q, a); }
    }
    if q: nat, a: nat :| q < |s| && a < |s| && SpacesUpTo(s, p, q) && CandidateAt(s, q, a) && !IsPinnedAt(s, q, a) {
      CandidateMatches(s, p, q, a);
      if Found(PINNED, s) { PinnedIsThere(s, p, q, a); }
    }
  }

  // ---- Soundness of the lint ----

  /** The line break-up the shell does changes no line with a reference. */
  lemma ReadWhole(s: string, p: nat)
    requires p < |s| && UsesAt(s, p)
    ensures AsRead(s) == s
  {
    BeforeUses(s, p);
    assert s[..|s| - 1][p - 1] == ':';
  }

  /**
   * A `uses:` line whose reference, after the spaces, starts with none of ".", "/", "@",
   * is not a docker image and has its first "@" before any space: it passes exactly
   * when it holds no "${{" and the "@" is followed by a full SHA (and no "#" precedes it).
   */
  lemma LintIsExact(s: string, p: nat, q: nat, a: nat)
    requires UsesAt(s, p) && SpacesUpTo(s, p, q) && FirstAt(s, q, a)
    requires s[q] !in {'.', '/'} && !IsAt("docker://", s, q)
    ensures !IsFlagged(s) <==> !HasExpression(s, p) && IsShaAfter(s, a) && '#' !in s[q..a]
  {
    ReadWhole(s, p);
    UsesMeans(s, 0, p);
    FoundAt(ANY_USES, s, 0, p);
    DockerMeans(s, p, q);
    DynamicMeans(s, p);
    PinnedMeans(s, p, q, a);
    if s[q] !in {'.', '/'} { CandidateMatches(s, p, q, a); }
  }

  lemma NoColonNoMatch(rest: Re, s: string)
    requires Found(Cat(ANY_USES, rest), s)
    ensures ':' in s
  {
    var i: nat, j: nat :| i <= j <= |s| && Matches(Cat(ANY_USES, rest), s, i, j);
    var k := CatParts(ANY_USES, rest, s, i, j);
    UsesMeans(s, i, k);
    BeforeUses(s, k);
  }

  /** A bare "uses:" loses its colon when the shell reads it. */
  lemma BareUses(s: string)
    requires UsesAt(s, |s|)
    ensures ':' !in AsRead(s)
  {
    BeforeUses(s, |s|);
    forall k | 0 <= k < |s| - 1 ensures s[k] != ':' {
      assert k >= |s| - 5 ==> k in {|s| - 5, |s| - 4, |s| - 3, |s| - 2};
    }
  }

  /** What `Classify` asks, in one line. */
  predicate FlagsRead(read: string) {
    !Found(DOCKER, read) && (Found(DYNAMIC, read) || (Found(UNPINNED_CANDIDATE, read) && !Found(PINNED, read)))
  }

  lemma FlaggedParts(s: string)
    ensures IsFlagged(s) <==> Found(ANY_USES, s) && FlagsRead(AsRead(s))
  {}

  lemma BareIsNotFlagged(s: string)
    requires UsesAt(s, |s|)
    ensures !FlagsRead(AsRead(s)) && !HasExpression(s, |s|) && !IsUnpinnedRef(s, |s|)
  {
    BareUses(s);
    if Found(DYNAMIC, AsRead(s)) { NoColonNoMatch(Cat(Star(Any), Lit(OPENING)), AsRead(s)); }
    if Found(UNPINNED_CANDIDATE, AsRead(s)) { NoColonNoMatch(UNPINNED_REST, AsRead(s)); }
  }

  /**
   * Every `uses:` line is flagged exactly when its reference is no docker image and
   * either "${{" follows or the reference has an "@" without a full SHA after it.
   */
  lemma UsesLineIsFlagged(s: string, p: nat)
    requires UsesAt(s, p)
    ensures IsFlagged(s) <==> !IsDockerRef(s, p) && (HasExpression(s, p) || IsUnpinnedRef(s, p))
  {
    FlaggedParts(s);
    UsesMeans(s, 0, p);
    FoundAt(ANY_USES, s, 0, p);
    if p == |s| {
      BareIsNotFlagged(s);
    } else {
      ReadWhole(s, p);
      DockerRefMeans(s, p);
      DynamicMeans(s, p);
      UnpinnedRefMeans(s, p);
    }
  }

  /** So without an "@" only "${{" is flagged. */
  lemma NoAtIsNotFlagged(s: string, p: nat)
    requires UsesAt(s, p) && '@' !in s[p..]
    ensures IsFlagged(s) <==> !IsDockerRef(s, p) && HasExpression(s, p)
  {
    UsesLineIsFlagged(s, p);
    if IsUnpinnedRef(s, p) { UnpinnedRefHasAt(s, p); }
  }

  lemma UnpinnedRefHasAt(s: string, p: nat)
    requires IsUnpinnedRef(s, p)
    ensures p <= |s| && '@' in s[p..]
  {
    var q: nat, a: nat :| q < |s| && a < |s| && SpacesUpTo(s, p, q) && CandidateAt(s, q, a) && !IsPinnedAt(s, q, a);
    assert s[p..][a - p] == '@';
  }

  lemma ExpressionHasDollar(s: string, p: nat)
    requires HasExpression(s, p)
    ensures '$' in s
  {
    var k: nat :| p <= k < |s| && IsAt(OPENING, s, k);
    assert s[k] == s[k..k + 3][0];
  }

  // ---- The lint ----

  /** What the lint is there to report. */
  predicate MustBeFlagged(s: string) {
    exists p: nat | p <= |s| :: UsesAt(s, p) && !IsDockerRef(s, p) && (HasExpression(s, p) || IsUnpinnedRef(s, p))
  }

  /** For every line whatsoever: only `uses:` lines are flagged, and they by the rule above. */
  lemma LineIsFlagged(s: string)
    ensures IsFlagged(s) <==> MustBeFlagged(s)
  {
    FlaggedParts(s);
    forall p: nat | p <= |s| && UsesAt(s, p) ensures Found(ANY_USES, s) {
      UsesMeans(s, 0, p);
      FoundAt(ANY_USES, s, 0, p);
    }
    if Found(ANY_USES, s) {
      var i: nat, p: nat :| i <= p <= |s| && Matches(ANY_USES, s, i, p);
      UsesMeans(s, i, p);
      UsesLineIsFlagged(s, p);
      forall p': nat | p' <= |s| && UsesAt(s, p') ensures p' == p { UsesEndsOnce(s, p, p'); }
    }
  }

  type File = seq<string>

  /** A line of a file, both counted from zero. */
  datatype Place = Place(file: nat, line: nat)

  predicate IsFlaggedAt(files: seq<File>, at: Place) {
    at.file < |files| && at.line < |files[at.file]| && MustBeFlagged(files[at.file][at.line])
  }

  predicate Precedes(a: Place, b: Place) {
    a.file < b.file || (a.file == b.file && a.line < b.line)
  }

  /** The reports are the flagged lines before `end`, each once, in order. */
  ghost predicate ReportsUpTo(files: seq<File>, reports: seq<Place>, end: Place) {
    && (forall at :: at in reports <==> IsFlaggedAt(files, at) && Precedes(at, end))
    && (forall k, l :: 0 <= k < l < |reports| ==> Precedes(reports[k], reports[l]))
  }

  lemma ReportsLine(files: seq<File>, reports: seq<Place>, f: nat, i: nat)
    requires f < |files| && i < |files[f]| && ReportsUpTo(files, reports, Place(f, i))
    ensures ReportsUpTo(files, if IsFlaggedAt(files, Place(f, i)) then reports + [Place(f, i)] else reports, Place(f, i + 1))
  {
    var here := Place(f, i);
    forall at: Place ensures Precedes(at, Place(f, i + 1)) <==> Precedes(at, here) || at == here {
      assert at == Place(at.file, at.line);
    }
    if IsFlaggedAt(files, here) {
      ReportsOrdered(files, reports, here);
      assert forall at :: at in reports + [here] <==> at in reports || at == here;
    }
  }

  lemma ReportsOrdered(files: seq<File>, reports: seq<Place>, here: Place)
    requires ReportsUpTo(files, reports, here)
    ensures forall k, l :: 0 <= k < l < |reports + [here]| ==> Precedes((reports + [here])[k], (reports + [here])[l])
  {}

  lemma ReportsFile(files: seq<File>, reports: seq<Place>, f: nat)
    requires f < |files| && ReportsUpTo(files, reports, Place(f, |files[f]|))
    ensures ReportsUpTo(files, reports, Place(f + 1, 0))
  {}

  /** Reports every flagged line and exits with 1 exactly when there is one. */
  method Lint(files: seq<File>) returns (exitCode: int, reports: seq<Place>)
    ensures ReportsUpTo(files, reports, Place(|files|, 0))
    ensures exitCode == (if reports == [] then 0 else 1)
    ensures exitCode == 0 <==> forall at :: !IsFlaggedAt(files, at)
  {
    reports := [];
    var unpinnedCount: nat := 0;
    for f := 0 to |files|
      invariant ReportsUpTo(files, reports, Place(f, 0)) && unpinnedCount == |reports|
    {
      var file := files[f];
      for i := 0 to |file|
        invariant ReportsUpTo(files, reports, Place(f, i)) && unpinnedCount == |reports|
      {
        ReportsLine(files, reports, f, i);
        LineIsFlagged(file[i]);
        var c := Classify(file[i]);
        if c.Dynamic? || c.Unpinned? {
          reports := reports + [Place(f, i)];
          unpinnedCount := unpinnedCount + 1;
        }
      }
      ReportsFile(files, reports, f);
    }
    exitCode := if unpinnedCount > 0 then 1 else 0;
    forall at | IsFlaggedAt(files, at) ensures at in reports { assert Precedes(at, Place(|files|, 0)); }
    if reports != [] { assert reports[0] in reports; }
  }

  /** A clean exit means every such line in every file is pinned. */
  lemma CleanExitMeansPinned(files: seq<File>, at: Place, p: nat, q: nat, a: nat)
    requires forall place :: !IsFlaggedAt(files, place)
    requires at.file < |files| && at.line < |files[at.file]|
    requires var s := files[at.file][at.line];
             && UsesAt(s, p) && SpacesUpTo(s, p, q) && FirstAt(s, q, a)
             && s[q] !in {'.', '/'} && !IsAt("docker://", s, q)
    ensures var s := files[at.file][at.line]; !HasExpression(s, p) && IsShaAfter(s, a)
  {
    LintIsExact(files[at.file][at.line], p, q, a);
    LineIsFlagged(files[at.file][at.line]);
    assert !IsFlaggedAt(files, at);
  }

  // ---- Steps as they are written ----

  /** Forty lower-case hex digits, and then a space, "#" or nothing. */
  predicate BeginsWithSha(t: string) {
    && |t| >= 40 && (forall k :: 0 <= k < 40 ==> IsHex(t[k]))
    && (|t| > 40 ==> IsSpace(t[40]) || t[40] == '#')
  }

  /** An owner and repository, or whatever else stands before the "@". */
  predicate IsActionName(name: string) {
    && name != [] && name[0] !in {'.', '/'} && !("docker://" <= name)
    && forall k :: 0 <= k < |name| ==> !IsSpace(name[k]) && name[k] != '@'
  }

  /** "${{" occurs. */
  predicate HasOpening(t: string) {
    exists k: nat | k <= |t| :: IsAt("${{", t, k)
  }

  function StepLine(indent: string, name: string, ref: string): string {
    (indent + "- uses: ") + (name + "@" + ref)
  }

  lemma StepShape(indent: string, name: string, ref: string)
    requires (forall k :: 0 <= k < |indent| ==> IsSpace(indent[k])) && IsActionName(name)
    ensures var s, p, q := StepLine(indent, name, ref), |indent| + 7, |indent| + 8;
            && UsesAt(s, p) && SpacesUpTo(s, p, q) && FirstAt(s, q, q + |name|)
            && s[q..] == name + "@" + ref && s[q..q + |name|] == name && s[q] == name[0] && s[p] == ' '
  {
    var s, p, q := StepLine(indent, name, ref), |indent| + 7, |indent| + 8;
    assert s[p - 5..p] == "uses:";
    assert AreSpaces(s, 0, |indent|) && IsMarker(s, |indent|, p - 5);
  }

  /**
   * A step "- uses: name@ref", however deep it is indented, is flagged exactly when it
   * has "${{", a "#" in the name or no full SHA after the "@".
   */
  lemma StepIsFlagged(indent: string, name: string, ref: string)
    requires (forall k :: 0 <= k < |indent| ==> IsSpace(indent[k])) && IsActionName(name)
    ensures IsFlagged(StepLine(indent, name, ref)) <==>
            '#' in name || !BeginsWithSha(ref) || HasOpening(name + "@" + ref)
  {
    var s, p, q := StepLine(indent, name, ref), |indent| + 7, |indent| + 8;
    StepShape(indent, name, ref);
    StepIsNoDocker(s, q, name, ref);
    StepSha(s, q, name, ref);
    StepExpression(s, p, name + "@" + ref);
    StepRule(s, p, q, q + |name|, name);
  }

  lemma StepRule(s: string, p: nat, q: nat, a: nat, name: string)
    requires UsesAt(s, p) && SpacesUpTo(s, p, q) && FirstAt(s, q, a) && s[q..a] == name
    requires s[q] !in {'.', '/'} && !IsAt("docker://", s, q)
    ensures IsFlagged(s) <==> '#' in name || !IsShaAfter(s, a) || HasExpression(s, p)
  {
    LintIsExact(s, p, q, a);
  }

  lemma StepIsNoDocker(s: string, q: nat, name: string, ref: string)
    requires q <= |s| && s[q..] == name + "@" + ref
    ensures IsAt("docker://", s, q) ==> "docker://" <= name
  {
    var scheme := "docker://";
    assert s[q..][|name|] == '@';
    if IsAt(scheme, s, q) {
      assert forall k :: 0 <= k < 9 ==> scheme[k] == s[q..q + 9][k] == s[q..][k] && scheme[k] != '@';
      assert |name| >= 9;
      assert name[..9] == scheme;
    }
  }

  lemma StepSha(s: string, q: nat, name: string, ref: string)
    requires q <= |s| && s[q..] == name + "@" + ref
    ensures IsShaAfter(s, q + |name|) <==> BeginsWithSha(ref)
  {
    var a := q + |name|;
    assert forall k :: 0 <= k < |ref| ==> s[a + 1 + k] == s[q..][|name| + 1 + k] == ref[k];
    if IsShaAfter(s, a) {
      forall k | 0 <= k < 40 ensures IsHex(ref[k]) { assert IsHex(s[a + 1 + k]); }
    }
    if BeginsWithSha(ref) {
      forall k | a < k <= a + 40 ensures IsHex(s[k]) { assert s[k] == ref[k - a - 1]; }
    }
  }

  lemma StepExpression(s: string, p: nat, rest: string)
    requires p + 1 <= |s| && s[p] == ' ' && s[p + 1..] == rest
    ensures HasExpression(s, p) <==> HasOpening(rest)
  {
    if k: nat :| p <= k < |s| && IsAt("${{", s, k) {
      assert s[k] == s[k..k + 3][0] == '$';
      assert rest[k - p - 1..k - p + 2] == s[k..k + 3];
      assert IsAt("${{", rest, k - p - 1);
    }
    if k: nat :| k <= |rest| && IsAt("${{", rest, k) {
      assert s[p + 1 + k..p + 1 + k + 3] == rest[k..k + 3];
      assert IsAt("${{", s, p + 1 + k);
    }
  }

  /** So a step pinned to a tag is flagged. */
  lemma TagIsFlagged(indent: string, name: string, tag: string)
    requires (forall k :: 0 <= k < |indent| ==> IsSpace(indent[k])) && IsActionName(name) && |tag| < 40
    ensures IsFlagged(StepLine(indent, name, tag))
  {
    StepIsFlagged(indent, name, tag);
  }

  lemma TaggedCheckoutIsFlagged()
    ensures IsFlagged("      - uses: actions/checkout@v4")
  {
    CheckoutIsAction();
    CheckoutLine();
    TagIsFlagged("      ", "actions/checkout", "v4");
  }

  lemma CheckoutIsAction()
    ensures IsActionName("actions/checkout")
  {
    assert "actions/checkout"[0] == 'a' && "docker://"[0] == 'd';
  }

  lemma CheckoutLine()
    ensures StepLine("      ", "actions/checkout", "v4") == "      - uses: actions/checkout@v4"
  {}

  lemma UnmarkedLinePasses(s: string)
    requires |s| >= 5 && s[..5] == "uses:" && '@' !in s && '$' !in s
    ensures !IsFlagged(s)
  {
    assert s[0..5] == s[..5] && AreSpaces(s, 0, 0);
    assert UsesAt(s, 5);
    NoAtIsNotFlagged(s, 5);
    if HasExpression(s, 5) { ExpressionHasDollar(s, 5); }
  }

  /** An action without any reference at all passes. */
  lemma UnreferencedActionPasses()
    ensures !IsFlagged("uses: actions/checkout")
  {
    var s := "uses: actions/checkout";
    assert s[..5] == "uses:";
    UnmarkedLinePasses(s);
  }
}
