/**
 * The registration schema's field validators: password strength, e-mail and user name shape,
 * and the two flags a client may not set. Each returns the value unchanged or the error it
 * raises; every error reaches the client with status 400.
 */
module UserSchemas {
  import opened Wrappers

  datatype SchemaError =
    | PasswordLength
    | PasswordUppercase
    | PasswordLowercase
    | PasswordDigit
    | PasswordSpecialChar
    | EmailFormat
    | UsernameFormat
    | SuperuserSet
    | VerifiedSet

  /** The detail text of each error. */
  function Message(e: SchemaError): string {
    match e
    case PasswordLength => "Длина пароля должна быть от 8 до 50 символов."
    case PasswordUppercase => "В пароле должна быть хотя бы одна заглавная буква."
    case PasswordLowercase => "В пароле должна быть хотя бы одна строчная буква."
    case PasswordDigit => "В пароле должна быть хотя бы одна цифра."
    case PasswordSpecialChar => "В пароле должен быть хотя бы один специальный символ !@#$%^&{}()\\[]-_=+;:,<.>|/?."
    case EmailFormat => "Неверный формат email"
    case UsernameFormat => "Поле 'username' должно содержать только латинские буквы и начинаться с большой буквы, затем строчные."
    case SuperuserSet => "Поле 'is_superuser' должно быть Empty или False."
    case VerifiedSet => "Поле 'is_verified' должно быть Empty или False."
  }

  // ---------------------------------------------------------------- character classes

  predicate LatinUpper(c: char) { 'A' <= c <= 'Z' }
  predicate LatinLower(c: char) { 'a' <= c <= 'z' }
  /** А-Я and Ё. */
  predicate CyrillicUpper(c: char) { 'А' <= c <= 'Я' || c == 'Ё' }
  /** а-я and ё. */
  predicate CyrillicLower(c: char) { 'а' <= c <= 'я' || c == 'ё' }

  /** Uppercase letters, as far as the model tells them apart: Latin and Cyrillic. */
  predicate IsUpper(c: char) { LatinUpper(c) || CyrillicUpper(c) }
  predicate IsLower(c: char) { LatinLower(c) || CyrillicLower(c) }
  predicate IsDigit(c: char) { '0' <= c <= '9' }

  /** The password's special characters: the character class of the special-character test. */
  predicate IsSpecial(c: char) {
    c in {'!', '@', '#', '$', '%', '^', '&', '*', '(', ')', '-', '_', '=', '+', '{',
          '}', ';', ':', ',', '<', '.', '>', '|', '[', ']', '\\', '/', '?'}
  }

  /** Some character of `s` is in the class: Python's `any(...)` over the string. */
  function AnyChar(s: string, cls: char -> bool): (b: bool)
    ensures b <==> exists i :: 0 <= i < |s| && cls(s[i])
    decreases |s|
  {
    if |s| == 0 then false
    else if cls(s[0]) then true
    else
      var b := AnyChar(s[1..], cls);
      assert forall i :: 1 <= i < |s| ==> s[i] == s[1..][i - 1];
      assert b ==> exists i :: 1 <= i < |s| && cls(s[i]) by {
        if b {
          var i :| 0 <= i < |s[1..]| && cls(s[1..][i]);
          assert cls(s[i + 1]);
        }
      }
      b
  }

  /** Every character of `s` is in the class. */
  predicate AllIn(s: string, cls: char -> bool) {
    forall i :: 0 <= i < |s| ==> cls(s[i])
  }

  // ---------------------------------------------------------------- password

  /**
   * validate_password: the checks run in a fixed order, length, uppercase, lowercase, digit,
   * special character, and the first that fails decides the error. A password that passes all
   * of them is returned unchanged.
   */
  function ValidatePassword(p: string): (r: Result<string, SchemaError>)
    ensures r.Success? <==>
              && 8 <= |p| <= 50
              && (exists i :: 0 <= i < |p| && IsUpper(p[i]))
              && (exists i :: 0 <= i < |p| && IsLower(p[i]))
              && (exists i :: 0 <= i < |p| && IsDigit(p[i]))
              && (exists i :: 0 <= i < |p| && IsSpecial(p[i]))
    ensures r.Success? ==> r.value == p
    ensures r == Failure(PasswordLength) <==> |p| < 8 || 50 < |p|
    ensures r == Failure(PasswordUppercase) <==>
              8 <= |p| <= 50 && forall i :: 0 <= i < |p| ==> !IsUpper(p[i])
    ensures r == Failure(PasswordLowercase) <==>
              && 8 <= |p| <= 50 && (exists i :: 0 <= i < |p| && IsUpper(p[i]))
              && forall i :: 0 <= i < |p| ==> !IsLower(p[i])
    ensures r == Failure(PasswordDigit) <==>
              && 8 <= |p| <= 50 && (exists i :: 0 <= i < |p| && IsUpper(p[i]))
              && (exists i :: 0 <= i < |p| && IsLower(p[i]))
              && forall i :: 0 <= i < |p| ==> !IsDigit(p[i])
    ensures r.Failure? ==> r.error in {PasswordLength, PasswordUppercase, PasswordLowercase,
                                       PasswordDigit, PasswordSpecialChar}
  {
    if |p| < 8 || |p| > 50 then Failure(PasswordLength)
    else if !AnyChar(p, IsUpper) then Failure(PasswordUppercase)
    else if !AnyChar(p, IsLower) then Failure(PasswordLowercase)
    else if !AnyChar(p, IsDigit) then Failure(PasswordDigit)
    else if !AnyChar(p, IsSpecial) then Failure(PasswordSpecialChar)
    else Success(p)
  }

  /** The password the registration test posts is accepted. */
  lemma SamplePasswordAccepted()
    ensures ValidatePassword("string1fadH!") == Success("string1fadH!")
  {
    var p := "string1fadH!";
    assert IsUpper(p[10]) && IsLower(p[0]) && IsDigit(p[6]) && IsSpecial(p[11]);
  }

  /** A password of only letters and digits always fails, whatever its length. */
  lemma NoSpecialRejected(p: string)
    requires forall i :: 0 <= i < |p| ==> IsUpper(p[i]) || IsLower(p[i]) || IsDigit(p[i])
    ensures ValidatePassword(p).Failure?
  {
    if ValidatePassword(p).Success? {
      var i :| 0 <= i < |p| && IsSpecial(p[i]);
    }
  }

  // ---------------------------------------------------------------- anchoring

  /**
   * The part of `s` the pattern must match in full: a pattern that ends in `$` also matches
   * just before one final newline.
   */
  function Anchored(s: string): (core: string)
    ensures core == s || (s == core + "\n")
  {
    if 0 < |s| && s[|s| - 1] == '\n' then s[..|s| - 1] else s
  }

  // ---------------------------------------------------------------- e-mail

  predicate LocalChar(c: char) {
    LatinUpper(c) || LatinLower(c) || IsDigit(c) || c == '_' || c == '.' || c == '+' || c == '-'
  }

  predicate DomainChar(c: char) {
    LatinUpper(c) || LatinLower(c) || IsDigit(c) || c == '-'
  }

  predicate TopChar(c: char) {
    DomainChar(c) || c == '.'
  }

  /** The index of the first `c` in `s`, or |s| when there is none. */
  function Find(s: string, c: char): (i: nat)
    ensures i <= |s| && (i < |s| ==> s[i] == c)
    ensures forall j :: 0 <= j < i ==> s[j] != c
    decreases |s|
  {
    if |s| == 0 then 0
    else if s[0] == c then 0
    else
      var i := Find(s[1..], c);
      assert forall j :: 1 <= j < i + 1 ==> s[j] == s[1..][j - 1];
      1 + i
  }

  /**
   * The three parts of an address: up to the first '@', from there up to the next '.', and the
   * rest. The local part cannot hold an '@' nor the domain a '.', so no other split can match.
   */
  function EmailParts(s: string): Option<(string, string, string)> {
    var a := Find(s, '@');
    if a == |s| then None
    else
      var rest := s[a + 1..];
      var d := Find(rest, '.');
      if d == |rest| then None
      else Some((s[..a], rest[..d], rest[d + 1..]))
  }

  /** The address is local part, '@', domain, '.', top part, each non-empty and within its class. */
  predicate EmailShape(s: string) {
    var parts := EmailParts(s);
    && parts.Some?
    && var (l, d, t) := parts.value;
       && 0 < |l| && AllIn(l, LocalChar)
       && 0 < |d| && AllIn(d, DomainChar)
       && 0 < |t| && AllIn(t, TopChar)
  }

  /** validate_email: the address is returned unchanged when it has the shape, else refused. */
  function ValidateEmail(s: string): (r: Result<string, SchemaError>)
    ensures r.Success? ==> r.value == s
    ensures r.Failure? ==> r.error == EmailFormat
  {
    if EmailShape(Anchored(s)) then Success(s) else Failure(EmailFormat)
  }

  /** Splitting and joining agree: the parts an address splits into give back the address. */
  lemma EmailPartsJoin(s: string)
    requires EmailParts(s).Some?
    ensures var (l, d, t) := EmailParts(s).value; s == l + "@" + d + "." + t
  {
    var a := Find(s, '@');
    var rest := s[a + 1..];
    var d := Find(rest, '.');
    SplitAt(s, a);
    SplitAt(rest, d);
    var l, dm, t := s[..a], rest[..d], rest[d + 1..];
    calc {
      s;
      l + "@" + rest;
      l + "@" + (dm + "." + t);
      l + "@" + dm + "." + t;
    }
  }

  /** A string is its prefix, the character at the cut, and its suffix. */
  lemma SplitAt(s: string, i: nat)
    requires i < |s|
    ensures s == s[..i] + [s[i]] + s[i + 1..]
  {
  }

  /** Every accepted address is local@domain.top, optionally followed by one newline. */
  lemma EmailSound(s: string)
    requires ValidateEmail(s).Success?
    ensures var core := Anchored(s);
            var (l, d, t) := EmailParts(core).value;
            && (s == core || s == core + "\n")
            && core == l + "@" + d + "." + t
            && 0 < |l| && AllIn(l, LocalChar)
            && 0 < |d| && AllIn(d, DomainChar)
            && 0 < |t| && AllIn(t, TopChar)
  {
    EmailPartsJoin(Anchored(s));
  }

  /** The split finds the parts of any address built from them. */
  lemma EmailPartsOf(l: string, d: string, t: string)
    requires AllIn(l, LocalChar) && AllIn(d, DomainChar)
    ensures EmailParts(l + "@" + d + "." + t) == Some((l, d, t))
  {
    var s := l + "@" + d + "." + t;
    assert forall j :: 0 <= j < |l| ==> s[j] == l[j] && LocalChar(s[j]);
    assert s[|l|] == '@';
    var a := Find(s, '@');
    assert a == |l|;
    var rest := s[a + 1..];
    assert rest == d + "." + t;
    assert forall j :: 0 <= j < |d| ==> rest[j] == d[j] && DomainChar(rest[j]);
    assert rest[|d|] == '.';
    assert Find(rest, '.') == |d|;
    assert s[..a] == l && rest[..|d|] == d && rest[|d| + 1..] == t;
  }

  /** Every address of the shape is accepted, with or without one final newline. */
  lemma EmailComplete(l: string, d: string, t: string)
    requires 0 < |l| && AllIn(l, LocalChar)
    requires 0 < |d| && AllIn(d, DomainChar)
    requires 0 < |t| && AllIn(t, TopChar)
    ensures ValidateEmail(l + "@" + d + "." + t) == Success(l + "@" + d + "." + t)
    ensures ValidateEmail(l + "@" + d + "." + t + "\n") == Success(l + "@" + d + "." + t + "\n")
  {
    var s := l + "@" + d + "." + t;
    EmailPartsOf(l, d, t);
    assert s[|s| - 1] == t[|t| - 1] && TopChar(t[|t| - 1]);
    assert Anchored(s) == s;
    assert Anchored(s + "\n") == s;
  }

  // ---------------------------------------------------------------- user name

  /** One capital letter, then one or more small letters, all of one alphabet. */
  predicate NameShape(s: string) {
    && 2 <= |s|
    && ((LatinUpper(s[0]) && AllIn(s[1..], LatinLower))
        || (CyrillicUpper(s[0]) && AllIn(s[1..], CyrillicLower)))
  }

  /** validate_username: the name is returned unchanged when it has the shape, else refused. */
  function ValidateUsername(s: string): (r: Result<string, SchemaError>)
    ensures r.Success? ==> r.value == s
    ensures r.Failure? ==> r.error == UsernameFormat
  {
    if NameShape(Anchored(s)) then Success(s) else Failure(UsernameFormat)
  }

  /**
   * An accepted name, apart from a final newline, starts with an uppercase letter, goes on in
   * lowercase letters, and never mixes Latin and Cyrillic letters.
   */
  lemma UsernameAccepted(s: string)
    requires ValidateUsername(s).Success?
    ensures var core := Anchored(s);
            && 2 <= |core| && IsUpper(core[0])
            && (forall i :: 1 <= i < |core| ==> IsLower(core[i]))
            && ((forall i :: 0 <= i < |core| ==> LatinUpper(core[i]) || LatinLower(core[i]))
                || (forall i :: 0 <= i < |core| ==> CyrillicUpper(core[i]) || CyrillicLower(core[i])))
  {
    var core := Anchored(s);
    assert forall i :: 1 <= i < |core| ==> core[i] == core[1..][i - 1];
  }

  /** Every name of the shape is accepted, with or without one final newline. */
  lemma UsernameComplete(s: string)
    requires NameShape(s)
    ensures ValidateUsername(s) == Success(s)
    ensures ValidateUsername(s + "\n") == Success(s + "\n")
  {
    assert s[|s| - 1] == s[1..][|s| - 2];
    assert Anchored(s) == s;
    assert (s + "\n")[..|s|] == s;
    assert Anchored(s + "\n") == s;
  }

  /** The user name the registration test posts is accepted. */
  lemma SampleUsernameAccepted()
    ensures ValidateUsername("User") == Success("User")
  {
    var s := "User";
    assert s[1..] == "ser";
    assert AllIn(s[1..], LatinLower);
  }

  /** A name that starts in one alphabet and goes on in the other is refused. */
  lemma MixedNameRejected(s: string, i: nat)
    requires 1 <= i < |s| && s[|s| - 1] != '\n'
    requires (LatinUpper(s[0]) && CyrillicLower(s[i])) || (CyrillicUpper(s[0]) && LatinLower(s[i]))
    ensures ValidateUsername(s) == Failure(UsernameFormat)
  {
    assert Anchored(s) == s;
    assert s[1..][i - 1] == s[i];
  }

  // ---------------------------------------------------------------- flags

  /** validate_superuser: only an explicit true is refused; false and an omitted value pass. */
  function ValidateSuperuser(v: Option<bool>): (r: Result<Option<bool>, SchemaError>)
    ensures r.Failure? <==> v == Some(true)
    ensures r.Failure? ==> r.error == SuperuserSet
    ensures r.Success? ==> r.value == v && (v.Some? ==> !v.value)
  {
    if v == Some(true) then Failure(SuperuserSet) else Success(v)
  }

  /** validate_verified: only an explicit true is refused; false and an omitted value pass. */
  function ValidateVerified(v: Option<bool>): (r: Result<Option<bool>, SchemaError>)
    ensures r.Failure? <==> v == Some(true)
    ensures r.Failure? ==> r.error == VerifiedSet
    ensures r.Success? ==> r.value == v && (v.Some? ==> !v.value)
  {
    if v == Some(true) then Failure(VerifiedSet) else Success(v)
  }
}
