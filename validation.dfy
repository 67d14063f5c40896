/** Input validation of src/lib/auth/service.ts: the zod `emailSchema` and
    `passwordSchema`, checked in that order, reporting the first violation. */
module Validation {
  import opened AuthTypes

  const MinPasswordLength: nat := 6
  const MaxPasswordLength: nat := 100

  const InvalidEmailMessage := "Invalid email format"
  const PasswordTooShortMessage := "Password must be at least 6 characters long"
  const PasswordTooLongMessage := "Password must be no more than 100 characters long"

  predicate IsLetter(c: char) { 'a' <= c <= 'z' || 'A' <= c <= 'Z' }
  predicate IsDigit(c: char) { '0' <= c <= '9' }
  predicate IsAlphaNumeric(c: char) { IsLetter(c) || IsDigit(c) }

  /** Characters allowed anywhere in the local part. */
  predicate IsLocalChar(c: char) {
    IsAlphaNumeric(c) || c == '_' || c == '\'' || c == '+' || c == '-' || c == '.'
  }

  /** Characters allowed as the last character of the local part. */
  predicate IsLocalEndChar(c: char) {
    IsAlphaNumeric(c) || c == '_' || c == '+' || c == '-'
  }

  /** Index of the first occurrence of `c` in `s`, or `|s|` when there is none. */
  function IndexOf(s: string, c: char): (i: nat)
    ensures i <= |s|
    ensures i < |s| ==> s[i] == c
    ensures forall j :: 0 <= j < i ==> s[j] != c
  {
    if s == [] then 0
    else if s[0] == c then 0
    else 1 + IndexOf(s[1..], c)
  }

  predicate HasDoubleDot(s: string) {
    exists i :: 0 <= i < |s| - 1 && s[i] == '.' && s[i + 1] == '.'
  }

  predicate IsLocalPart(l: string) {
    && |l| >= 1
    && l[0] != '.'
    && (forall i :: 0 <= i < |l| ==> IsLocalChar(l[i]))
    && IsLocalEndChar(l[|l| - 1])
  }

  /** One domain label, without its trailing dot. */
  predicate IsLabel(l: string) {
    && |l| >= 1
    && IsAlphaNumeric(l[0])
    && (forall i :: 0 <= i < |l| ==> IsAlphaNumeric(l[i]) || l[i] == '-')
  }

  /** The top-level domain: two or more letters. */
  predicate IsTopLevel(t: string) {
    |t| >= 2 && forall i :: 0 <= i < |t| ==> IsLetter(t[i])
  }

  /** One or more dot-terminated labels followed by a top-level domain. */
  predicate IsDomain(d: string)
    decreases |d|
  {
    var j := IndexOf(d, '.');
    && j < |d|
    && IsLabel(d[..j])
    && (IsTopLevel(d[j + 1..]) || IsDomain(d[j + 1..]))
  }

  /** A domain holds no `@` and ends with a letter of its top-level part. */
  lemma {:induction false} DomainShape(d: string)
    ensures IsDomain(d) ==> '@' !in d && IsLetter(d[|d| - 1])
    decreases |d|
  {
    if IsDomain(d) {
      var j := IndexOf(d, '.');
      var head, rest := d[..j], d[j + 1..];
      assert d == head + ['.'] + rest;
      assert '@' !in head by {
        forall i | 0 <= i < |head| ensures head[i] != '@' {
          assert IsAlphaNumeric(head[i]) || head[i] == '-';
        }
      }
      if IsTopLevel(rest) {
        assert '@' !in rest by {
          forall i | 0 <= i < |rest| ensures rest[i] != '@' {
            assert IsLetter(rest[i]);
          }
        }
      } else {
        assert IsDomain(rest);
        DomainShape(rest);
      }
      assert |rest| >= 1 && d[|d| - 1] == rest[|rest| - 1];
    }
  }

  /** The zod `email()` check, following the pattern zod 3.22 uses: a local part of
      letters, digits and `_'+-.` that neither starts with a dot nor ends with `'`
      or a dot, one `@`, dot-separated labels and a letters-only top-level domain,
      case-insensitive, and no two consecutive dots anywhere. An accepted address
      has exactly one `@`, not at its start, and ends with a letter. */
  predicate IsValidEmail(s: string)
    ensures IsValidEmail(s) ==>
      && 1 <= IndexOf(s, '@') < |s| - 1
      && '@' !in s[IndexOf(s, '@') + 1..]
      && IsLetter(s[|s| - 1])
  {
    var at := IndexOf(s, '@');
    && at < |s|
    && IsLocalPart(s[..at])
    && (DomainShape(s[at + 1..]); IsDomain(s[at + 1..]))
    && !HasDoubleDot(s)
  }

  /** The string's JavaScript `length`: its UTF-16 code units, one for each
      character up to U+FFFF and two (a surrogate pair) for each above. */
  function Utf16Length(s: string): (n: nat)
    ensures |s| <= n <= 2 * |s|
    ensures (forall i :: 0 <= i < |s| ==> s[i] <= '\U{FFFF}') ==> n == |s|
  {
    if s == [] then 0 else (if s[0] <= '\U{FFFF}' then 1 else 2) + Utf16Length(s[1..])
  }

  /** `passwordSchema.parse`: the violation of the length rule, if any. zod
      compares the string's `length`, so the bounds count UTF-16 code units. */
  function PasswordViolation(password: string): (r: Option<string>)
    ensures r.None? <==> MinPasswordLength <= Utf16Length(password) <= MaxPasswordLength
    ensures Utf16Length(password) < MinPasswordLength ==> r == Some(PasswordTooShortMessage)
    ensures Utf16Length(password) > MaxPasswordLength ==> r == Some(PasswordTooLongMessage)
  {
    var n := Utf16Length(password);
    if n < MinPasswordLength then Some(PasswordTooShortMessage)
    else if n > MaxPasswordLength then Some(PasswordTooLongMessage)
    else None
  }

  /** Three characters outside the Basic Multilingual Plane have length 6, so
      they meet the minimum; two ASCII letters and two such characters too. */
  lemma AstralCharactersCountTwice()
    ensures PasswordViolation("\U{1F600}\U{1F600}\U{1F600}").None?
    ensures PasswordViolation("ab\U{1F600}\U{1F600}").None?
    ensures PasswordViolation("abcde") == Some(PasswordTooShortMessage)
  {
    var e := "\U{1F600}\U{1F600}\U{1F600}";
    assert e[1..][1..][1..] == [];
    var f := "ab\U{1F600}\U{1F600}";
    assert f[1..][1..][1..][1..] == [];
  }

  /** Both schemas in the service's order: the first violation, if any. */
  function FirstViolation(c: UserCredentials): (r: Option<string>)
    ensures r.None? <==> IsValidEmail(c.email) && MinPasswordLength <= Utf16Length(c.password) <= MaxPasswordLength
    ensures !IsValidEmail(c.email) ==> r == Some(InvalidEmailMessage)
    ensures IsValidEmail(c.email) ==> r == PasswordViolation(c.password)
  {
    if !IsValidEmail(c.email) then Some(InvalidEmailMessage)
    else PasswordViolation(c.password)
  }

  /** The address of the registration scenario is accepted. */
  lemma ScenarioEmailIsValid()
    ensures IsValidEmail("a@x.com")
  {
    var s := "a@x.com";
    assert IndexOf(s, '@') == 1;
    assert s[..1] == "a";
    var d := s[2..];
    assert d == "x.com";
    assert IndexOf(d, '.') == 1;
    assert d[..1] == "x" && d[2..] == "com";
    assert IsTopLevel(d[2..]);
    assert !HasDoubleDot(s);
  }

  /** An address whose domain has no top-level part is rejected. */
  lemma DomainWithoutDotIsInvalid()
    ensures !IsValidEmail("a@x")
  {
  }
}
