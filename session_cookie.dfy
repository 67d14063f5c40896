/** The `session` cookie: issued at login with the user's id as its value,
    cleared at logout, read back by the route guard and the user route.
    The value is written with `Number.prototype.toString` and read back with
    ECMAScript `parseInt` (ECMA-262, section 19.2.5); the directives follow the
    `Set-Cookie` attributes of RFC 6265, section 4.1.2. */
module SessionCookie {
  import opened AuthTypes

  const SessionCookieName := "session"

  /** `60 * 60 * 24 * 7`: one week, in seconds. */
  const SessionMaxAge: int := 604800

  /** Whether a request carries a session: the cookie is present and its value is
      not the empty string (`!!sessionCookie?.value`). */
  predicate HasSession(session: Option<string>)
    ensures session.None? ==> !HasSession(session)
    ensures HasSession(session) ==> |session.value| >= 1
  {
    session.Some? && session.value != ""
  }

  // ---------------------------------------------------------------------------
  // Writing an id: Number.prototype.toString for integral values

  function DigitChar(d: nat): (c: char)
    requires d < 10
  {
    "0123456789"[d]
  }

  /** The decimal digits of `n`, most significant first, without leading zeros. */
  function DecimalString(n: nat): (s: string)
    ensures |s| >= 1
    ensures forall i :: 0 <= i < |s| ==> '0' <= s[i] <= '9'
    ensures s[0] == '0' ==> n == 0
  {
    if n < 10 then [DigitChar(n)] else DecimalString(n / 10) + [DigitChar(n % 10)]
  }

  /** `id.toString()` for an integral id: a minus sign for negative ids. */
  function IdToString(id: int): (s: string)
    ensures s != ""
  {
    if id < 0 then "-" + DecimalString(-id) else DecimalString(id)
  }

  // ---------------------------------------------------------------------------
  // Reading an id back: parseInt(string) with no radix

  /** StrWhiteSpaceChar: the WhiteSpace and LineTerminator code points, with the
      space separators of Unicode category Zs. */
  predicate IsStrWhiteSpace(c: char) {
    || '\U{0009}' <= c <= '\U{000D}'
    || c == '\U{0020}' || c == '\U{00A0}' || c == '\U{1680}'
    || '\U{2000}' <= c <= '\U{200A}'
    || c == '\U{2028}' || c == '\U{2029}' || c == '\U{202F}' || c == '\U{205F}'
    || c == '\U{3000}' || c == '\U{FEFF}'
  }

  /** The string with its leading white space removed. */
  function TrimStart(s: string): (t: string)
    ensures |t| <= |s| && t == s[|s| - |t|..]
    ensures t != [] ==> !IsStrWhiteSpace(t[0])
    ensures s != [] && !IsStrWhiteSpace(s[0]) ==> t == s
  {
    if s != [] && IsStrWhiteSpace(s[0]) then TrimStart(s[1..]) else s
  }

  /** The value of `c` as a digit in base `radix` (10 or 16), or `radix` when it is none. */
  function DigitValue(c: char, radix: nat): (v: nat)
    requires radix == 10 || radix == 16
    ensures v <= radix
  {
    if '0' <= c <= '9' then c as nat - '0' as nat
    else if radix == 16 && 'a' <= c <= 'f' then c as nat - 'a' as nat + 10
    else if radix == 16 && 'A' <= c <= 'F' then c as nat - 'A' as nat + 10
    else radix
  }

  /** The longest prefix of `s` made of base-`radix` digits. */
  function DigitPrefix(s: string, radix: nat): (z: string)
    requires radix == 10 || radix == 16
    ensures z <= s
    ensures forall i :: 0 <= i < |z| ==> DigitValue(z[i], radix) < radix
    ensures |z| < |s| ==> DigitValue(s[|z|], radix) == radix
  {
    if s != [] && DigitValue(s[0], radix) < radix then [s[0]] + DigitPrefix(s[1..], radix) else []
  }

  /** The number a string of base-`radix` digits denotes. */
  function DigitsValue(z: string, radix: nat): (v: nat)
    requires radix == 10 || radix == 16
  {
    if z == [] then 0 else DigitsValue(z[..|z| - 1], radix) * radix + DigitValue(z[|z| - 1], radix) % radix
  }

  /** The unsigned part of `parseInt`: a `0x`/`0X` prefix selects base 16 (base 10
      otherwise) and the longest run of digits that follows is read; no digits
      gives `None`. */
  function ParseMagnitude(u: string): Option<nat> {
    var hex := |u| >= 2 && u[0] == '0' && (u[1] == 'x' || u[1] == 'X');
    var radix := if hex then 16 else 10;
    var z := DigitPrefix(if hex then u[2..] else u, radix);
    if z == [] then None else Some(DigitsValue(z, radix))
  }

  /** The signed part of `parseInt`: an optional sign, then the magnitude. */
  function ParseSigned(t: string): Option<int> {
    if t != [] && t[0] == '-' then
      match ParseMagnitude(t[1..])
      case None => None
      case Some(m) => Some(-(m as int))
    else if t != [] && t[0] == '+' then
      match ParseMagnitude(t[1..])
      case None => None
      case Some(m) => Some(m)
    else
      match ParseMagnitude(t)
      case None => None
      case Some(m) => Some(m)
  }

  /** `parseInt(s)` with no radix: leading white space is skipped, then an optional
      sign, then the magnitude is read. NaN is `None`; `-0` is `0`. A string of
      white space only, and the empty string, read as NaN; a string that does not
      start with white space is read from its first character. */
  function ParseInt(s: string): (r: Option<int>)
    ensures TrimStart(s) == [] ==> r.None?
    ensures s != [] && !IsStrWhiteSpace(s[0]) ==> r == ParseSigned(s)
  {
    ParseSigned(TrimStart(s))
  }

  lemma DigitCharValue(d: nat)
    requires d < 10
    ensures DigitValue(DigitChar(d), 10) == d
  {
  }

  lemma {:induction false} DecimalStringValue(n: nat)
    ensures DigitsValue(DecimalString(n), 10) == n
  {
    if n < 10 {
      DigitCharValue(n);
      assert DecimalString(n)[..0] == [];
    } else {
      var q, d := n / 10, n % 10;
      var p := DecimalString(q);
      var s := p + [DigitChar(d)];
      assert DecimalString(n) == s;
      assert s[..|s| - 1] == p && s[|s| - 1] == DigitChar(d);
      DecimalStringValue(q);
      DigitCharValue(d);
      assert DigitsValue(s, 10) == q * 10 + d;
    }
  }

  /** Reading back a decimal string stops at the first non-digit: a cookie value
      that starts with `n`'s digits and continues with anything else reads as `n`. */
  lemma {:induction false} DigitPrefixStopsAtNonDigit(n: nat, rest: string)
    requires rest == [] || !('0' <= rest[0] <= '9')
    ensures DigitPrefix(DecimalString(n) + rest, 10) == DecimalString(n)
  {
    var z := DecimalString(n);
    DigitPrefixPrepended(z, rest);
  }

  lemma {:induction false} DigitPrefixPrepended(z: string, rest: string)
    requires forall i :: 0 <= i < |z| ==> '0' <= z[i] <= '9'
    requires rest == [] || !('0' <= rest[0] <= '9')
    ensures DigitPrefix(z + rest, 10) == z
  {
    if z == [] {
      assert z + rest == rest;
    } else {
      assert (z + rest)[1..] == z[1..] + rest;
      DigitPrefixPrepended(z[1..], rest);
    }
  }

  lemma {:induction false} MagnitudeOfDecimal(n: nat, rest: string)
    requires rest == [] || !('0' <= rest[0] <= '9' || rest[0] == 'x' || rest[0] == 'X')
    ensures ParseMagnitude(DecimalString(n) + rest) == Some(n)
  {
    var d := DecimalString(n);
    var u := d + rest;
    DigitPrefixStopsAtNonDigit(n, rest);
    DecimalStringValue(n);
    if |u| >= 2 && u[0] == '0' {
      assert n == 0 && d == "0";
      assert u[1] == rest[0];
    }
  }

  /** `parseInt(n.toString() + rest)` is `n` for a non-negative `n` whenever `rest`
      does not begin with a digit or an `x`: reading stops at the first character
      that is not a digit. */
  lemma {:induction false} ParseIntOfNonNegative(n: nat, rest: string)
    requires rest == [] || !('0' <= rest[0] <= '9' || rest[0] == 'x' || rest[0] == 'X')
    ensures ParseInt(DecimalString(n) + rest) == Some(n)
  {
    var u := DecimalString(n) + rest;
    MagnitudeOfDecimal(n, rest);
    assert '0' <= u[0] <= '9' && !IsStrWhiteSpace(u[0]);
    assert ParseSigned(u) == Some(n);
  }

  /** `parseInt(id.toString())` is `id` for a negative `id`. */
  lemma {:induction false} ParseIntOfNegative(id: int)
    requires id < 0
    ensures ParseInt(IdToString(id)) == Some(id)
  {
    var d := DecimalString(-id);
    MagnitudeOfDecimal(-id, []);
    assert d + [] == d;
    NegatedMagnitude(-id, d);
    assert ("-" + d)[0] == '-' && !IsStrWhiteSpace('-');
  }

  lemma {:induction false} NegatedMagnitude(n: nat, u: string)
    requires ParseMagnitude(u) == Some(n)
    ensures ParseSigned("-" + u) == Some(-(n as int))
  {
  }

  /** A round trip through the cookie: `parseInt(id.toString()) == id`, so a
      session cookie resolves to the id it was issued for. */
  lemma {:induction false} IdRoundTrip(id: int)
    ensures ParseInt(IdToString(id)) == Some(id)
  {
    if id < 0 {
      ParseIntOfNegative(id);
    } else {
      ParseIntOfNonNegative(id, []);
      assert DecimalString(id) + [] == IdToString(id);
    }
  }

  // ---------------------------------------------------------------------------
  // Cookie directives

  datatype SameSite = Lax | Strict | NoRestriction

  /** When the user agent drops the cookie: `Max-Age` seconds after receipt
      (RFC 6265, section 4.1.2.2) or at an `Expires` date (section 4.1.2.1),
      here in milliseconds since the epoch. */
  datatype Lifetime = MaxAge(seconds: int) | Expires(epochMillis: int)

  /** One `response.cookies.set({...})` call. */
  datatype SetCookie = SetCookie(name: string, value: string, httpOnly: bool, secure: bool,
                                 sameSite: SameSite, lifetime: Lifetime)

  /** The cookie set at login: the id as its value, HttpOnly (RFC 6265, section
      4.1.2.6), SameSite=Lax, Secure in production, valid for one week. */
  function IssueSession(id: int, production: bool): (d: SetCookie)
    ensures d.name == SessionCookieName && HasSession(Some(d.value))
    ensures d.value == IdToString(id)
    ensures ParseInt(d.value) == Some(id)
    ensures d.httpOnly && d.sameSite == Lax && d.secure == production
    ensures d.lifetime == MaxAge(SessionMaxAge)
  {
    IdRoundTrip(id);
    SetCookie(SessionCookieName, IdToString(id), true, production, Lax, MaxAge(60 * 60 * 24 * 7))
  }

  /** The cookie set at logout: an empty value that expired at the epoch, with the
      same name and flags as the one issued at login, so that it overwrites it. */
  function RevokeSession(production: bool): (d: SetCookie)
    ensures !HasSession(Some(d.value))
    ensures d.lifetime == Expires(0)
    ensures forall id :: SameCookieSlot(d, IssueSession(id, production))
  {
    SetCookie(SessionCookieName, "", true, production, Lax, Expires(0))
  }

  /** Two directives address the same cookie with the same flags. */
  predicate SameCookieSlot(a: SetCookie, b: SetCookie) {
    a.name == b.name && a.httpOnly == b.httpOnly && a.secure == b.secure && a.sameSite == b.sameSite
  }

  /** What a user agent holding `stored` as its session cookie keeps after
      receiving the directive at time `nowMillis`: an expired cookie is removed
      (RFC 6265, section 5.3), otherwise the new value replaces the old one.
      Directives for other cookies leave the session cookie alone. */
  function ApplySetCookie(stored: Option<string>, d: SetCookie, nowMillis: int): (r: Option<string>)
    ensures d.name != SessionCookieName ==> r == stored
    ensures r.Some? && d.name == SessionCookieName ==> r.value == d.value
  {
    if d.name != SessionCookieName then stored
    else
      match d.lifetime
      case MaxAge(seconds) => if seconds <= 0 then None else Some(d.value)
      case Expires(at) => if at <= nowMillis then None else Some(d.value)
  }
}
