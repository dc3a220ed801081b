/**
 * Printing Set-Cookie headers (apps/api/lib/cookies.ts, apps/api/lib/cookie-config.ts)
 * and what a browser keeps of them (sections 5.2 and 5.3 of RFC 6265).
 */
module SetCookies {
  import opened Options
  import opened Text
  import opened PercentCodec
  import opened Cookies

  const ACCESS_COOKIE: Str := Lit("access_token")
  const REFRESH_COOKIE: Str := Lit("refresh_token")
  const CSRF_COOKIE: Str := Lit("csrf_token")
  const ACCESS_TOKEN_MAX_AGE: nat := 15 * 60
  const REFRESH_TOKEN_MAX_AGE: nat := 7 * 24 * 60 * 60

  datatype SameSite = Lax | Strict | Unrestricted

  datatype CookieOptions = CookieOptions(
    httpOnly: bool, secure: bool, sameSite: SameSite, path: Str, maxAge: Option<nat>)

  function AuthCookieOptions(production: bool, maxAge: nat): CookieOptions {
    CookieOptions(true, production, Lax, [SLASH], Some(maxAge))
  }

  function Decimal(n: nat): (s: Str)
    ensures s != [] && forall i :: 0 <= i < |s| ==> 0x30 <= s[i] <= 0x39
  {
    if n < 10 then [0x30 + n] else Decimal(n / 10) + [0x30 + n % 10]
  }

  function SameSiteText(s: SameSite): Str {
    match s
    case Lax => Lit("Lax")
    case Strict => Lit("Strict")
    case Unrestricted => Lit("None")
  }

  const MAX_AGE_IS: Str := Lit("Max-Age=")
  const EXPIRES_IS: Str := Lit("Expires=")

  /** The attributes after the name and value; `expires` is the date printed by the clock. */
  function Attributes(opts: CookieOptions, expires: Str): seq<Str> {
    [Lit("Path=") + opts.path]
    + (if opts.maxAge.Some? then [MAX_AGE_IS + Decimal(opts.maxAge.value), EXPIRES_IS + expires] else [])
    + [Lit("SameSite=") + SameSiteText(opts.sameSite)]
    + (if opts.httpOnly then [Lit("HttpOnly")] else [])
    + (if opts.secure then [Lit("Secure")] else [])
  }

  /** `None` is the error `encodeURIComponent` throws. */
  function Serialized(name: Str, value: Str, opts: CookieOptions, expires: Str): Option<Str> {
    match EncodeComponent(value)
    case None => None
    case Some(e) => Some(Join([name + [EQUALS] + e] + Attributes(opts, expires), [SEMICOLON, SPACE]))
  }

  method SerializeCookie(name: Str, value: Str, opts: CookieOptions, expires: Str) returns (r: Option<Str>)
    ensures r == Serialized(name, value, opts, expires)
  {
    var e := EncodeComponent(value);
    if e.None? { return None; }
    var segments := [name + [EQUALS] + e.value, Lit("Path=") + opts.path];
    if opts.maxAge.Some? {
      segments := segments + [MAX_AGE_IS + Decimal(opts.maxAge.value)];
      segments := segments + [EXPIRES_IS + expires];
    }
    segments := segments + [Lit("SameSite=") + SameSiteText(opts.sameSite)];
    if opts.httpOnly { segments := segments + [Lit("HttpOnly")]; }
    if opts.secure { segments := segments + [Lit("Secure")]; }
    assert segments == [name + [EQUALS] + e.value] + Attributes(opts, expires);
    return Some(Join(segments, [SEMICOLON, SPACE]));
  }

  // ---- The response header ----

  datatype HeaderValue = Absent | One(value: Str) | Many(values: seq<Str>)

  function Values(h: HeaderValue): seq<Str> {
    match h
    case Absent => []
    case One(v) => [v]
    case Many(vs) => vs
  }

  function AuthCookies(access: Str, refresh: Str, production: bool, expires: (Str, Str)): Option<seq<Str>> {
    match (Serialized(ACCESS_COOKIE, access, AuthCookieOptions(production, ACCESS_TOKEN_MAX_AGE), expires.0),
           Serialized(REFRESH_COOKIE, refresh, AuthCookieOptions(production, REFRESH_TOKEN_MAX_AGE), expires.1))
    case (Some(a), Some(r)) => Some([a, r])
    case _ => None
  }

  function CsrfCookieText(token: Str, production: bool, expires: Str): Option<Str> {
    Serialized(CSRF_COOKIE, token, AuthCookieOptions(production, ACCESS_TOKEN_MAX_AGE), expires)
  }

  const AUTH_COOKIE_NAMES: seq<Str> := [ACCESS_COOKIE, REFRESH_COOKIE, CSRF_COOKIE]

  function ClearedCookie(name: Str, production: bool, expires: Str): Str {
    Serialized(name, [], AuthCookieOptions(production, 0), expires).value
  }

  class Response {
    var setCookie: HeaderValue

    method AppendSetCookie(cookie: Str)
      modifies this
      ensures setCookie == Many(Values(old(setCookie)) + [cookie])
    {
      var prev := setCookie;
      var arr := match prev
        case Absent => []
        case One(v) => [v]
        case Many(vs) => vs;
      arr := arr + [cookie];
      setCookie := Many(arr);
    }

    /** Throws, having appended the access cookie at most, when a token cannot be encoded. */
    method SetAuthCookies(access: Str, refresh: Str, production: bool, expires: (Str, Str)) returns (ok: bool)
      modifies this
      ensures ok <==> AuthCookies(access, refresh, production, expires).Some?
      ensures ok ==> Values(setCookie) ==
                     Values(old(setCookie)) + AuthCookies(access, refresh, production, expires).value
    {
      var a := SerializeCookie(ACCESS_COOKIE, access, AuthCookieOptions(production, ACCESS_TOKEN_MAX_AGE), expires.0);
      if a.None? { return false; }
      AppendSetCookie(a.value);
      var r := SerializeCookie(REFRESH_COOKIE, refresh, AuthCookieOptions(production, REFRESH_TOKEN_MAX_AGE), expires.1);
      if r.None? { return false; }
      AppendSetCookie(r.value);
      return true;
    }

    method SetCsrfCookie(token: Str, production: bool, expires: Str) returns (ok: bool)
      modifies this
      ensures var c := CsrfCookieText(token, production, expires);
              && (ok <==> c.Some?)
              && Values(setCookie) == Values(old(setCookie)) + if ok then [c.value] else []
    {
      var c := SerializeCookie(CSRF_COOKIE, token, AuthCookieOptions(production, ACCESS_TOKEN_MAX_AGE), expires);
      if c.None? { return false; }
      AppendSetCookie(c.value);
      return true;
    }

    method ClearAuthCookies(production: bool, expires: nat -> Str)
      modifies this
      ensures Values(setCookie) == Values(old(setCookie)) + ClearedCookies(production, expires)
    {
      for k := 0 to |AUTH_COOKIE_NAMES|
        invariant Values(setCookie) == Values(old(setCookie)) +
                  seq(k, i requires 0 <= i < k => ClearedCookie(AUTH_COOKIE_NAMES[i], production, expires(i)))
      {
        var c := SerializeCookie(AUTH_COOKIE_NAMES[k], [], AuthCookieOptions(production, 0), expires(k));
        AppendSetCookie(c.value);
      }
    }
  }

  // ---- The browser: section 5.2 of RFC 6265 ----

  predicate IsWsp(u: Unit) { u == 0x20 || u == 0x09 }

  function StripStart(s: Str): Str {
    if s != [] && IsWsp(s[0]) then StripStart(s[1..]) else s
  }

  function StripEnd(s: Str): Str {
    if s != [] && IsWsp(s[|s| - 1]) then StripEnd(s[..|s| - 1]) else s
  }

  function Strip(s: Str): Str { StripEnd(StripStart(s)) }

  function Lower(s: Str): Str {
    seq(|s|, i requires 0 <= i < |s| => if 0x41 <= s[i] <= 0x5A then s[i] + 0x20 else s[i])
  }

  function Digits(s: Str): Option<nat> {
    if s == [] then None
    else
      var last, front := s[|s| - 1], s[..|s| - 1];
      if !(0x30 <= last <= 0x39) then None
      else if front == [] then Some(last - 0x30)
      else match Digits(front)
        case None => None
        case Some(n) => Some(10 * n + (last - 0x30))
  }

  /** The delta of a Max-Age value, or `None` where the attribute is ignored. */
  function DeltaSeconds(s: Str): Option<int> {
    if s != [] && s[0] == 0x2D then
      match Digits(s[1..])
      case None => None
      case Some(n: int) => Some(-n)
    else Digits(s)
  }

  /** The value of an attribute if it has this name (in lower case); one without "=" has the empty value. */
  function ValueOf(attribute: Str, name: Str): Option<Str> {
    var idx := IndexOf(attribute, EQUALS);
    if Lower(Strip(attribute[..idx])) != name then None
    else Some(if idx == |attribute| then [] else Strip(attribute[idx + 1..]))
  }

  /** The last attribute of a name wins. */
  function LastValue(attributes: seq<Str>, name: Str): Option<Str> {
    if attributes == [] then None
    else
      var last := ValueOf(attributes[|attributes| - 1], name);
      if last.Some? then last else LastValue(attributes[..|attributes| - 1], name)
  }

  function MaxAgeAttribute(attribute: Str): Option<int> {
    match ValueOf(attribute, Lit("max-age"))
    case None => None
    case Some(value) => DeltaSeconds(value)
  }

  /** The last valid Max-Age wins. */
  function MaxAge(attributes: seq<Str>): Option<int> {
    if attributes == [] then None
    else
      var last := MaxAgeAttribute(attributes[|attributes| - 1]);
      if last.Some? then last else MaxAge(attributes[..|attributes| - 1])
  }

  /** `expires`, `path` and `sameSite` as they are written; a flag is set by its attribute, whatever its value. */
  datatype Received = Received(
    name: Str, raw: Str, maxAge: Option<int>, expires: Option<Str>,
    path: Option<Str>, sameSite: Option<Str>, httpOnly: bool, secure: bool)

  function WithAttributes(name: Str, raw: Str, attributes: seq<Str>): Received {
    Received(name, raw, MaxAge(attributes), LastValue(attributes, Lit("expires")),
             LastValue(attributes, Lit("path")), LastValue(attributes, Lit("samesite")),
             LastValue(attributes, Lit("httponly")).Some?, LastValue(attributes, Lit("secure")).Some?)
  }

  function ParseParts(parts: seq<Str>): Option<Received>
    requires parts != []
  {
    var idx := IndexOf(parts[0], EQUALS);
    if idx == |parts[0]| || Strip(parts[0][..idx]) == [] then None
    else Some(WithAttributes(Strip(parts[0][..idx]), Strip(parts[0][idx + 1..]), parts[1..]))
  }

  function ParseSetCookie(text: Str): Option<Received> {
    ParseParts(Split(text, SEMICOLON))
  }

  // ---- The browser: the store of section 5.3, on a clock in milliseconds ----

  datatype Stored = Stored(raw: Str, expiry: Option<int>)
  type Jar = map<Str, Stored>

  function Receive(jar: Jar, text: Str, now: int): Jar {
    match ParseSetCookie(text)
    case None => jar
    case Some(c) =>
      if c.maxAge.Some? && c.maxAge.value <= 0 then jar - {c.name}
      else jar[c.name := Stored(c.raw, if c.maxAge.Some? then Some(now + c.maxAge.value * 1000) else None)]
  }

  function ReceiveAll(jar: Jar, texts: seq<Str>, now: int): Jar
    decreases |texts|
  {
    if texts == [] then jar else ReceiveAll(Receive(jar, texts[0], now), texts[1..], now)
  }

  predicate IsLive(jar: Jar, name: Str, now: int) {
    name in jar && (jar[name].expiry.Some? ==> now < jar[name].expiry.value)
  }

  // ---- The browser reads what the server prints ----

  lemma StripUntouched(s: Str)
    requires s != [] ==> !IsWsp(s[0]) && !IsWsp(s[|s| - 1])
    ensures Strip(s) == s
    ensures s != [] ==> Strip([SPACE] + s) == s
  {}

  lemma {:induction false} DigitsOfDecimal(n: nat)
    ensures Digits(Decimal(n)) == Some(n)
  {
    if n >= 10 {
      DigitsOfDecimal(n / 10);
      assert Decimal(n)[..|Decimal(n)| - 1] == Decimal(n / 10);
    }
  }

  /** An attribute name that nothing has to be stripped from. */
  predicate IsBareName(name: Str) {
    name != [] && EQUALS !in name && !IsWsp(name[0]) && !IsWsp(name[|name| - 1])
  }

  lemma NamedValue(name: Str, value: Str, key: Str)
    requires IsBareName(name)
    ensures ValueOf([SPACE] + (name + [EQUALS] + value), key) == if Lower(name) == key then Some(Strip(value)) else None
  {
    var text := [SPACE] + (name + [EQUALS] + value);
    assert text == ([SPACE] + name) + [EQUALS] + value;
    IndexIs(text, EQUALS, |name| + 1);
    assert text[..|name| + 1] == [SPACE] + name && text[|name| + 2..] == value;
    StripUntouched(name);
  }

  lemma BareValue(name: Str, key: Str)
    requires IsBareName(name)
    ensures ValueOf([SPACE] + name, key) == if Lower(name) == key then Some([]) else None
  {
    var text := [SPACE] + name;
    assert text[..|text|] == text;
    StripUntouched(name);
  }

  /** Options and dates the server prints: nothing that would end an attribute early. */
  predicate ArePlain(opts: CookieOptions, expires: Str) {
    SEMICOLON !in opts.path && SEMICOLON !in expires
  }

  // What `Attributes` prints, one by one: the names in lower case, and the values.

  const PATH_KEY: Str := Lit("path")
  const MAX_AGE_KEY: Str := Lit("max-age")
  const EXPIRES_KEY: Str := Lit("expires")
  const SAME_SITE_KEY: Str := Lit("samesite")
  const HTTP_ONLY_KEY: Str := Lit("httponly")
  const SECURE_KEY: Str := Lit("secure")

  function Keys(opts: CookieOptions): seq<Str> {
    [PATH_KEY] + (if opts.maxAge.Some? then [MAX_AGE_KEY, EXPIRES_KEY] else []) + [SAME_SITE_KEY]
    + (if opts.httpOnly then [HTTP_ONLY_KEY] else []) + (if opts.secure then [SECURE_KEY] else [])
  }

  function Printed(opts: CookieOptions, expires: Str): seq<Str> {
    [opts.path] + (if opts.maxAge.Some? then [Decimal(opts.maxAge.value), expires] else []) + [SameSiteText(opts.sameSite)]
    + (if opts.httpOnly then [[]] else []) + (if opts.secure then [[]] else [])
  }

  lemma AttributeNames()
    ensures IsBareName(Lit("Path")) && Lower(Lit("Path")) == PATH_KEY
    ensures IsBareName(Lit("Max-Age")) && Lower(Lit("Max-Age")) == MAX_AGE_KEY
    ensures IsBareName(Lit("Expires")) && Lower(Lit("Expires")) == EXPIRES_KEY
  {}

  lemma FlagNames()
    ensures IsBareName(Lit("SameSite")) && Lower(Lit("SameSite")) == SAME_SITE_KEY
    ensures IsBareName(Lit("HttpOnly")) && Lower(Lit("HttpOnly")) == HTTP_ONLY_KEY
    ensures IsBareName(Lit("Secure")) && Lower(Lit("Secure")) == SECURE_KEY
  {}

  lemma KeysDiffer()
    ensures |PATH_KEY| == 4 && |SECURE_KEY| == 6 && |MAX_AGE_KEY| == |EXPIRES_KEY| == 7
    ensures |SAME_SITE_KEY| == |HTTP_ONLY_KEY| == 8
    ensures MAX_AGE_KEY != EXPIRES_KEY && SAME_SITE_KEY != HTTP_ONLY_KEY
  {
    assert MAX_AGE_KEY[0] == 0x6D && EXPIRES_KEY[0] == 0x65 && SAME_SITE_KEY[0] == 0x73 && HTTP_ONLY_KEY[0] == 0x68;
  }

  lemma PrintedWithEquals(name: Str, lead: Str, value: Str, key: Str)
    requires IsBareName(name) && lead == name + [EQUALS]
    ensures ValueOf([SPACE] + (lead + value), key) == if Lower(name) == key then Some(Strip(value)) else None
  {
    NamedValue(name, value, key);
    assert lead + value == name + [EQUALS] + value;
  }

  lemma AttributeTexts()
    ensures Lit("Path=") == Lit("Path") + [EQUALS] && MAX_AGE_IS == Lit("Max-Age") + [EQUALS]
    ensures EXPIRES_IS == Lit("Expires") + [EQUALS] && Lit("SameSite=") == Lit("SameSite") + [EQUALS]
  {}

  lemma ValuesWithEquals(value: Str, key: Str)
    ensures ValueOf([SPACE] + (Lit("Path=") + value), key) == if PATH_KEY == key then Some(Strip(value)) else None
    ensures ValueOf([SPACE] + (MAX_AGE_IS + value), key) == if MAX_AGE_KEY == key then Some(Strip(value)) else None
    ensures ValueOf([SPACE] + (EXPIRES_IS + value), key) == if EXPIRES_KEY == key then Some(Strip(value)) else None
    ensures ValueOf([SPACE] + (Lit("SameSite=") + value), key) == if SAME_SITE_KEY == key then Some(Strip(value)) else None
  {
    AttributeTexts();
    AttributeNames();
    FlagNames();
    PrintedWithEquals(Lit("Path"), Lit("Path="), value, key);
    PrintedWithEquals(Lit("Max-Age"), MAX_AGE_IS, value, key);
    PrintedWithEquals(Lit("Expires"), EXPIRES_IS, value, key);
    PrintedWithEquals(Lit("SameSite"), Lit("SameSite="), value, key);
  }

  lemma ValuesOfFlags(key: Str)
    ensures ValueOf([SPACE] + Lit("HttpOnly"), key) == if HTTP_ONLY_KEY == key then Some([]) else None
    ensures ValueOf([SPACE] + Lit("Secure"), key) == if SECURE_KEY == key then Some([]) else None
  {
    FlagNames();
    BareValue(Lit("HttpOnly"), key);
    BareValue(Lit("Secure"), key);
  }

  /** What is printed under which key. */
  predicate IsAttribute(attribute: Str, key: Str, value: Str) {
    || (key == PATH_KEY && attribute == Lit("Path=") + value)
    || (key == MAX_AGE_KEY && attribute == MAX_AGE_IS + value)
    || (key == EXPIRES_KEY && attribute == EXPIRES_IS + value)
    || (key == SAME_SITE_KEY && attribute == Lit("SameSite=") + value)
    || (key == HTTP_ONLY_KEY && attribute == Lit("HttpOnly") && value == [])
    || (key == SECURE_KEY && attribute == Lit("Secure") && value == [])
  }

  lemma AttributesAreNamed(opts: CookieOptions, expires: Str, i: nat)
    requires i < |Keys(opts)|
    ensures |Attributes(opts, expires)| == |Printed(opts, expires)| == |Keys(opts)|
    ensures IsAttribute(Attributes(opts, expires)[i], Keys(opts)[i], Printed(opts, expires)[i])
  {}

  lemma AttributeIs(attribute: Str, name: Str, value: Str, key: Str)
    requires IsAttribute(attribute, name, value)
    ensures ValueOf([SPACE] + attribute, key) == if name == key then Some(Strip(value)) else None
  {
    ValuesWithEquals(value, key);
    ValuesOfFlags(key);
  }

  /** Attribute `i` is the one named in `Keys`. */
  lemma AttributeAt(opts: CookieOptions, expires: Str, i: nat, key: Str)
    requires i < |Keys(opts)|
    ensures |Attributes(opts, expires)| == |Printed(opts, expires)| == |Keys(opts)|
    ensures ValueOf([SPACE] + Attributes(opts, expires)[i], key) ==
            if Keys(opts)[i] == key then Some(Strip(Printed(opts, expires)[i])) else None
  {
    AttributesAreNamed(opts, expires, i);
    AttributeIs(Attributes(opts, expires)[i], Keys(opts)[i], Printed(opts, expires)[i], key);
  }

  /** Where a key is printed, or that it is not. */
  function IndexOfKey(opts: CookieOptions, key: Str): nat {
    var flags := if opts.maxAge.Some? then 4 else 2;
    if key == PATH_KEY then 0
    else if key == MAX_AGE_KEY && opts.maxAge.Some? then 1
    else if key == EXPIRES_KEY && opts.maxAge.Some? then 2
    else if key == SAME_SITE_KEY then flags - 1
    else if key == HTTP_ONLY_KEY && opts.httpOnly then flags
    else if key == SECURE_KEY && opts.secure then if opts.httpOnly then flags + 1 else flags
    else |Keys(opts)|
  }

  lemma KeyIsPrintedOnce(opts: CookieOptions, key: Str, i: nat)
    requires key in {PATH_KEY, MAX_AGE_KEY, EXPIRES_KEY, SAME_SITE_KEY, HTTP_ONLY_KEY, SECURE_KEY} && i < |Keys(opts)|
    ensures Keys(opts)[i] == key <==> i == IndexOfKey(opts, key)
  {
    KeysDiffer();
  }

  lemma {:induction false} LastValueAt(attributes: seq<Str>, key: Str, k: nat)
    requires forall i :: 0 <= i < |attributes| ==> (ValueOf(attributes[i], key).Some? <==> i == k)
    ensures LastValue(attributes, key) == if k < |attributes| then ValueOf(attributes[k], key) else None
  {
    if attributes != [] && k != |attributes| - 1 { LastValueAt(attributes[..|attributes| - 1], key, k); }
  }

  /** Each of the keys is read back as it was printed. */
  lemma AttributeIsRead(opts: CookieOptions, expires: Str, key: Str)
    requires key in {PATH_KEY, MAX_AGE_KEY, EXPIRES_KEY, SAME_SITE_KEY, HTTP_ONLY_KEY, SECURE_KEY}
    ensures |Attributes(opts, expires)| == |Printed(opts, expires)| == |Keys(opts)|
    ensures var k := IndexOfKey(opts, key);
            LastValue(WithSpaces(Attributes(opts, expires)), key) ==
            if k < |Keys(opts)| then Some(Strip(Printed(opts, expires)[k])) else None
  {
    var sent, k := WithSpaces(Attributes(opts, expires)), IndexOfKey(opts, key);
    AttributeAt(opts, expires, 0, key);
    forall i | 0 <= i < |sent| ensures ValueOf(sent[i], key).Some? <==> i == k {
      AttributeAt(opts, expires, i, key);
      KeyIsPrintedOnce(opts, key, i);
    }
    LastValueAt(sent, key, k);
    if k < |sent| { AttributeAt(opts, expires, k, key); KeyIsPrintedOnce(opts, key, k); }
  }

  lemma MaxAgeIsRead(n: nat)
    ensures MaxAgeAttribute([SPACE] + (MAX_AGE_IS + Decimal(n))) == Some(n)
  {
    ValuesWithEquals(Decimal(n), MAX_AGE_KEY);
    StripUntouched(Decimal(n));
    DigitsOfDecimal(n);
  }

  lemma MaxAgeAmong(opts: CookieOptions, expires: Str, i: nat)
    requires i < |Keys(opts)|
    ensures |Attributes(opts, expires)| == |Keys(opts)|
    ensures MaxAgeAttribute([SPACE] + Attributes(opts, expires)[i]) ==
            if i == IndexOfKey(opts, MAX_AGE_KEY) then opts.maxAge else None
  {
    AttributeAt(opts, expires, i, MAX_AGE_KEY);
    KeyIsPrintedOnce(opts, MAX_AGE_KEY, i);
    if opts.maxAge.Some? { MaxAgeIsRead(opts.maxAge.value); }
  }

  lemma MaxAgeIsLast(opts: CookieOptions, expires: Str)
    ensures MaxAge(WithSpaces(Attributes(opts, expires))) == opts.maxAge
  {
    var sent, k := WithSpaces(Attributes(opts, expires)), IndexOfKey(opts, MAX_AGE_KEY);
    MaxAgeAmong(opts, expires, 0);
    forall i | 0 <= i < |sent| ensures MaxAgeAttribute(sent[i]) == if i == k then opts.maxAge else None {
      MaxAgeAmong(opts, expires, i);
    }
    KeysDiffer();
    MaxAgeAt(sent, k);
  }

  lemma NoSemicolonIn(attribute: Str, key: Str, value: Str)
    requires IsAttribute(attribute, key, value) && SEMICOLON !in value
    ensures SEMICOLON !in attribute
  {}

  lemma NoSemicolon(opts: CookieOptions, expires: Str)
    requires ArePlain(opts, expires)
    ensures forall i :: 0 <= i < |Attributes(opts, expires)| ==> SEMICOLON !in Attributes(opts, expires)[i]
  {
    AttributesAreNamed(opts, expires, 0);
    forall i | 0 <= i < |Keys(opts)| ensures SEMICOLON !in Attributes(opts, expires)[i] {
      AttributesAreNamed(opts, expires, i);
      PrintedIsPlain(opts, expires, i);
      NoSemicolonIn(Attributes(opts, expires)[i], Keys(opts)[i], Printed(opts, expires)[i]);
    }
  }

  lemma PrintedIsPlain(opts: CookieOptions, expires: Str, i: nat)
    requires ArePlain(opts, expires) && i < |Printed(opts, expires)|
    ensures SEMICOLON !in Printed(opts, expires)[i]
  {}

  /** What a browser reads back of printed attributes. */
  function PrintedWith(name: Str, raw: Str, opts: CookieOptions, expires: Str): Received {
    var sameSite := match opts.sameSite
      case Lax => Lit("Lax")
      case Strict => Lit("Strict")
      case Unrestricted => Lit("None");
    Received(name, raw, opts.maxAge, if opts.maxAge.Some? then Some(Strip(expires)) else None,
             Some(Strip(opts.path)), Some(sameSite), opts.httpOnly, opts.secure)
  }

  lemma FlagsAreRead(opts: CookieOptions, expires: Str)
    ensures LastValue(WithSpaces(Attributes(opts, expires)), HTTP_ONLY_KEY).Some? == opts.httpOnly
    ensures LastValue(WithSpaces(Attributes(opts, expires)), SECURE_KEY).Some? == opts.secure
  {
    AttributeIsRead(opts, expires, HTTP_ONLY_KEY);
    AttributeIsRead(opts, expires, SECURE_KEY);
    KeysDiffer();
  }

  lemma TextsAreRead(opts: CookieOptions, expires: Str)
    ensures LastValue(WithSpaces(Attributes(opts, expires)), PATH_KEY) == Some(Strip(opts.path))
    ensures LastValue(WithSpaces(Attributes(opts, expires)), SAME_SITE_KEY) == Some(SameSiteText(opts.sameSite))
    ensures LastValue(WithSpaces(Attributes(opts, expires)), EXPIRES_KEY) ==
            if opts.maxAge.Some? then Some(Strip(expires)) else None
  {
    AttributeIsRead(opts, expires, PATH_KEY);
    AttributeIsRead(opts, expires, SAME_SITE_KEY);
    AttributeIsRead(opts, expires, EXPIRES_KEY);
    KeysDiffer();
    SameSiteIsBare(opts.sameSite);
  }

  lemma AttributesAreRead(name: Str, raw: Str, opts: CookieOptions, expires: Str)
    ensures WithAttributes(name, raw, WithSpaces(Attributes(opts, expires))) == PrintedWith(name, raw, opts, expires)
  {
    MaxAgeIsLast(opts, expires);
    TextsAreRead(opts, expires);
    FlagsAreRead(opts, expires);
  }

  lemma SameSiteIsBare(sameSite: SameSite)
    ensures Strip(SameSiteText(sameSite)) == SameSiteText(sameSite)
  {
    assert |SameSiteText(sameSite)| in {3, 6, 4};
    StripUntouched(SameSiteText(sameSite));
  }

  lemma {:induction false} MaxAgeAt(attributes: seq<Str>, k: nat)
    requires forall i :: 0 <= i < |attributes| && i != k ==> MaxAgeAttribute(attributes[i]).None?
    ensures MaxAge(attributes) == if k < |attributes| then MaxAgeAttribute(attributes[k]) else None
  {
    if attributes != [] {
      MaxAgeAt(attributes[..|attributes| - 1], k);
    }
  }

  /** A browser reads back the name, the encoded value and every attribute the server printed. */
  lemma PrintedCookieIsRead(name: Str, value: Str, opts: CookieOptions, expires: Str)
    requires IsCookieName(name) && WellFormed(value) && ArePlain(opts, expires)
    ensures Serialized(name, value, opts, expires).Some?
    ensures ParseSetCookie(Serialized(name, value, opts, expires).value)
         == Some(PrintedWith(name, EncodeComponent(value).value, opts, expires))
  {
    EncodeAlphabet(value);
    var e := EncodeComponent(value).value;
    EncodedTextNeedsNoTrim(e);
    var sent := Attributes(opts, expires);
    AttributesAreRead(name, e, opts, expires);
    NoSemicolon(opts, expires);
    SplitPrinted(name + [EQUALS] + e, sent);
    PrintedPartsAreRead(name, e, sent);
  }

  lemma FirstPartIsRead(name: Str, e: Str)
    requires IsCookieName(name) && IsEncodedText(e)
    ensures var first := name + [EQUALS] + e;
            && IndexOf(first, EQUALS) == |name|
            && Strip(first[..|name|]) == name && Strip(first[|name| + 1..]) == e
  {
    var first := name + [EQUALS] + e;
    IndexIs(first, EQUALS, |name|);
    assert first[..|name|] == name && first[|name| + 1..] == e;
    StripUntouched(name);
    if e != [] { assert e[0] in e && e[|e| - 1] in e; }
    StripUntouched(e);
  }

  lemma PrintedPartsAreRead(name: Str, e: Str, sent: seq<Str>)
    requires IsCookieName(name) && IsEncodedText(e)
    ensures ParseParts([name + [EQUALS] + e] + WithSpaces(sent))
         == Some(WithAttributes(name, e, WithSpaces(sent)))
  {
    FirstPartIsRead(name, e);
    assert ([name + [EQUALS] + e] + WithSpaces(sent))[1..] == WithSpaces(sent);
  }

  lemma SplitPrinted(first: Str, sent: seq<Str>)
    requires SEMICOLON !in first
    requires forall i :: 0 <= i < |sent| ==> SEMICOLON !in sent[i]
    ensures Split(Join([first] + sent, [SEMICOLON, SPACE]), SEMICOLON) == [first] + WithSpaces(sent)
  {
    SplitGlued([], first, sent);
    var text := Join([first] + sent, [SEMICOLON, SPACE]);
    assert [] + text == text && [] + first == first;
  }

  // ---- The effect of whole responses on the browser ----

  lemma PrintedCookieIsStored(jar: Jar, name: Str, value: Str, opts: CookieOptions, expires: Str, now: int)
    requires IsCookieName(name) && WellFormed(value) && ArePlain(opts, expires)
    ensures Serialized(name, value, opts, expires).Some? && EncodeComponent(value).Some?
    ensures Receive(jar, Serialized(name, value, opts, expires).value, now) ==
            if opts.maxAge == Some(0) then jar - {name}
            else jar[name := Stored(EncodeComponent(value).value,
                     if opts.maxAge.Some? then Some(now + opts.maxAge.value * 1000) else None)]
  {
    PrintedCookieIsRead(name, value, opts, expires);
    ParsedIsStored(jar, Serialized(name, value, opts, expires).value, now,
                   PrintedWith(name, EncodeComponent(value).value, opts, expires));
  }

  lemma ParsedIsStored(jar: Jar, text: Str, now: int, c: Received)
    requires ParseSetCookie(text) == Some(c)
    ensures Receive(jar, text, now) ==
            if c.maxAge.Some? && c.maxAge.value <= 0 then jar - {c.name}
            else jar[c.name := Stored(c.raw, if c.maxAge.Some? then Some(now + c.maxAge.value * 1000) else None)]
  {}

  /**
   * A cookie out of the reach of scripts, for all paths, lax across sites, and in
   * production for secure connections only.
   */
  predicate IsGuarded(text: Str, production: bool) {
    match ParseSetCookie(text)
    case None => false
    case Some(c) => c.path == Some([0x2F]) && c.sameSite == Some(Lit("Lax")) && c.httpOnly && c.secure == production
  }

  lemma PrintedCookieIsGuarded(name: Str, value: Str, production: bool, maxAge: nat, expires: Str)
    requires IsCookieName(name) && WellFormed(value) && SEMICOLON !in expires
    ensures var text := Serialized(name, value, AuthCookieOptions(production, maxAge), expires);
            text.Some? && IsGuarded(text.value, production)
  {
    PrintedCookieIsRead(name, value, AuthCookieOptions(production, maxAge), expires);
    StripUntouched([SLASH]);
  }

  lemma AuthCookieNames()
    ensures IsCookieName(ACCESS_COOKIE) && IsCookieName(REFRESH_COOKIE) && IsCookieName(CSRF_COOKIE)
    ensures ACCESS_COOKIE != REFRESH_COOKIE && ACCESS_COOKIE != CSRF_COOKIE && REFRESH_COOKIE != CSRF_COOKIE
  {}

  lemma ReceiveTwo(jar: Jar, a: Str, b: Str, now: int)
    ensures ReceiveAll(jar, [a, b], now) == Receive(Receive(jar, a, now), b, now)
  {
    assert [a, b][1..] == [b];
    assert forall j: Jar :: ReceiveAll(j, [b], now) == Receive(j, b, now) by {
      assert |[b][1..]| == 0;
    }
  }

  /** After a login or refresh response the browser holds exactly the new pair, and all it held besides. */
  lemma AuthCookiesAreStored(jar: Jar, access: Str, refresh: Str, production: bool, expires: (Str, Str), now: int)
    requires WellFormed(access) && WellFormed(refresh)
    requires SEMICOLON !in expires.0 && SEMICOLON !in expires.1
    ensures EncodeComponent(access).Some? && EncodeComponent(refresh).Some?
    ensures AuthCookies(access, refresh, production, expires).Some?
    ensures ReceiveAll(jar, AuthCookies(access, refresh, production, expires).value, now) == jar[
              Lit("access_token") := Stored(EncodeComponent(access).value, Some(now + 900_000))][
              Lit("refresh_token") := Stored(EncodeComponent(refresh).value, Some(now + 604_800_000))]
  {
    AuthCookieNames();
    AuthCookieIsStored(jar, ACCESS_COOKIE, access, production, ACCESS_TOKEN_MAX_AGE, expires.0, now);
    var a := Serialized(ACCESS_COOKIE, access, AuthCookieOptions(production, ACCESS_TOKEN_MAX_AGE), expires.0);
    var between := Receive(jar, a.value, now);
    AuthCookieIsStored(between, REFRESH_COOKIE, refresh, production, REFRESH_TOKEN_MAX_AGE, expires.1, now);
    var r := Serialized(REFRESH_COOKIE, refresh, AuthCookieOptions(production, REFRESH_TOKEN_MAX_AGE), expires.1);
    ReceiveTwo(jar, a.value, r.value, now);
  }

  lemma ClearedCookiesAreGuarded(production: bool, expires: nat -> Str)
    requires forall i: nat :: i < 3 ==> SEMICOLON !in expires(i)
    ensures forall i :: 0 <= i < 3 ==> IsGuarded(ClearedCookies(production, expires)[i], production)
  {
    AuthCookieNames();
    forall i | 0 <= i < 3 ensures IsGuarded(ClearedCookies(production, expires)[i], production) {
      PrintedCookieIsGuarded(AUTH_COOKIE_NAMES[i], [], production, 0, expires(i));
    }
  }

  ghost predicate AreGuarded(texts: seq<Str>, production: bool) {
    forall i :: 0 <= i < |texts| ==> IsGuarded(texts[i], production)
  }

  lemma AuthCookiesAreGuarded(access: Str, refresh: Str, production: bool, expires: (Str, Str))
    requires WellFormed(access) && WellFormed(refresh) && SEMICOLON !in expires.0 && SEMICOLON !in expires.1
    ensures AuthCookies(access, refresh, production, expires).Some?
    ensures AreGuarded(AuthCookies(access, refresh, production, expires).value, production)
  {
    AuthCookieNames();
    PrintedCookieIsGuarded(ACCESS_COOKIE, access, production, ACCESS_TOKEN_MAX_AGE, expires.0);
    PrintedCookieIsGuarded(REFRESH_COOKIE, refresh, production, REFRESH_TOKEN_MAX_AGE, expires.1);
  }

  lemma CsrfCookieIsGuarded(token: Str, production: bool, expires: Str)
    requires WellFormed(token) && SEMICOLON !in expires
    ensures CsrfCookieText(token, production, expires).Some?
    ensures IsGuarded(CsrfCookieText(token, production, expires).value, production)
  {
    AuthCookieNames();
    PrintedCookieIsGuarded(CSRF_COOKIE, token, production, ACCESS_TOKEN_MAX_AGE, expires);
  }

  /** All cookies of a login, a refresh, a csrf-token request and a logout are guarded. */
  lemma AllCookiesAreGuarded(access: Str, refresh: Str, csrf: Str, production: bool, dates: (Str, Str), cleared: nat -> Str)
    requires WellFormed(access) && WellFormed(refresh) && WellFormed(csrf)
    requires SEMICOLON !in dates.0 && SEMICOLON !in dates.1 && forall i: nat :: i < 3 ==> SEMICOLON !in cleared(i)
    ensures AuthCookies(access, refresh, production, dates).Some? && CsrfCookieText(csrf, production, dates.0).Some?
    ensures AreGuarded(AuthCookies(access, refresh, production, dates).value, production)
    ensures IsGuarded(CsrfCookieText(csrf, production, dates.0).value, production)
    ensures AreGuarded(ClearedCookies(production, cleared), production)
  {
    AuthCookiesAreGuarded(access, refresh, production, dates);
    CsrfCookieIsGuarded(csrf, production, dates.0);
    ClearedCookiesAreGuarded(production, cleared);
  }

  lemma AuthCookieIsStored(jar: Jar, name: Str, value: Str, production: bool, maxAge: nat, expires: Str, now: int)
    requires IsCookieName(name) && WellFormed(value) && SEMICOLON !in expires && maxAge > 0
    ensures var text := Serialized(name, value, AuthCookieOptions(production, maxAge), expires);
            && text.Some? && EncodeComponent(value).Some?
            && Receive(jar, text.value, now) ==
               jar[name := Stored(EncodeComponent(value).value, Some(now + maxAge * 1000))]
  {
    PrintedCookieIsStored(jar, name, value, AuthCookieOptions(production, maxAge), expires, now);
  }

  lemma PrintedClearIsObeyed(jar: Jar, name: Str, production: bool, expires: Str, now: int)
    requires IsCookieName(name) && SEMICOLON !in expires
    ensures Receive(jar, ClearedCookie(name, production, expires), now) == jar - {name}
  {
    PrintedCookieIsStored(jar, name, [], AuthCookieOptions(production, 0), expires, now);
  }

  /** What `ClearAuthCookies` appends. */
  function ClearedCookies(production: bool, expires: nat -> Str): seq<Str> {
    seq(3, i requires 0 <= i < 3 => ClearedCookie(AUTH_COOKIE_NAMES[i], production, expires(i)))
  }

  /** After a logout or a denied refresh the browser holds none of the three, and all it held besides. */
  lemma ClearedCookiesAreGone(jar: Jar, production: bool, expires: nat -> Str, now: int)
    requires forall i: nat :: i < 3 ==> SEMICOLON !in expires(i)
    ensures ReceiveAll(jar, ClearedCookies(production, expires), now) ==
            jar - {Lit("access_token"), Lit("refresh_token"), Lit("csrf_token")}
  {
    AuthCookieNames();
    var sent := ClearedCookies(production, expires);
    var jar1 := Receive(jar, sent[0], now);
    var jar2 := Receive(jar1, sent[1], now);
    PrintedClearIsObeyed(jar, ACCESS_COOKIE, production, expires(0), now);
    PrintedClearIsObeyed(jar1, REFRESH_COOKIE, production, expires(1), now);
    PrintedClearIsObeyed(jar2, CSRF_COOKIE, production, expires(2), now);
    assert sent[1..] == [sent[1], sent[2]];
    ReceiveTwo(jar1, sent[1], sent[2], now);
  }
}
