/** The password policy of the auth context (`validatePassword`,
    `isPasswordValid`): at least 8 characters, an upper-case letter A–Z, a
    digit, and one of the listed special characters. */
module PasswordPolicy {

  const MinLength := 8
  const SpecialChars: string := "!@#$%^&*(),.?\":{}|<>"

  predicate IsUpper(c: char) { 'A' <= c <= 'Z' }
  predicate IsDigit(c: char) { '0' <= c <= '9' }
  predicate IsSpecial(c: char) { c in SpecialChars }

  /** Letters and digits are never special characters. */
  lemma SpecialExcludesAlphanumerics(c: char)
    requires IsUpper(c) || IsDigit(c) || 'a' <= c <= 'z'
    ensures !IsSpecial(c)
  {
  }

  /** The four flags of `PasswordValidation`. */
  datatype PasswordValidation = PasswordValidation(
    hasMinLength: bool,
    hasUpperCase: bool,
    hasNumber: bool,
    hasSpecialChar: bool)
  {
    /** `Object.values(validation).every(Boolean)`. */
    predicate All() {
      hasMinLength && hasUpperCase && hasNumber && hasSpecialChar
    }
  }

  /** A regular-expression test `/[...]/.test(s)`: some character of `s`
      belongs to the class. */
  function AnyChar(s: string, inClass: char -> bool): (r: bool)
    ensures r <==> exists i :: 0 <= i < |s| && inClass(s[i])
  {
    if |s| == 0 then false
    else
      assert forall i :: 1 <= i < |s| ==> s[i] == s[1..][i - 1];
      inClass(s[0]) || AnyChar(s[1..], inClass)
  }

  /** The UTF-16 code units of a character: two for one above U+FFFF,
      which JavaScript stores as a surrogate pair. */
  function CodeUnits(c: char): nat {
    if c as int > 0xFFFF then 2 else 1
  }

  /** `s.length` in JavaScript: the number of UTF-16 code units. */
  function Utf16Length(s: string): (n: nat)
    ensures |s| <= n <= 2 * |s|
    ensures n == |s| <==> forall i :: 0 <= i < |s| ==> s[i] as int <= 0xFFFF
  {
    if |s| == 0 then 0
    else
      assert forall i :: 1 <= i < |s| ==> s[i] == s[1..][i - 1];
      CodeUnits(s[0]) + Utf16Length(s[1..])
  }

  /** `validatePassword`. The length rule counts UTF-16 code units. */
  function ValidatePassword(s: string): (v: PasswordValidation)
    ensures v.hasMinLength <==> Utf16Length(s) >= MinLength
    ensures v.hasUpperCase <==> exists i :: 0 <= i < |s| && IsUpper(s[i])
    ensures v.hasNumber <==> exists i :: 0 <= i < |s| && IsDigit(s[i])
    ensures v.hasSpecialChar <==> exists i :: 0 <= i < |s| && IsSpecial(s[i])
  {
    PasswordValidation(Utf16Length(s) >= MinLength, AnyChar(s, IsUpper), AnyChar(s, IsDigit), AnyChar(s, IsSpecial))
  }

  /** `isPasswordValid`: all four rules hold. */
  function IsPasswordValid(s: string): (ok: bool)
    ensures ok <==>
      && Utf16Length(s) >= MinLength
      && (exists i :: 0 <= i < |s| && IsUpper(s[i]))
      && (exists i :: 0 <= i < |s| && IsDigit(s[i]))
      && (exists i :: 0 <= i < |s| && IsSpecial(s[i]))
  {
    ValidatePassword(s).All()
  }

  /** A concrete password meeting all four rules passes the policy. */
  lemma ExamplePasswordValid()
    ensures IsPasswordValid("NewPass1!")
  {
    var s := "NewPass1!";
    assert IsUpper(s[0]) && IsDigit(s[7]) && IsSpecial(s[8]);
  }

  /** Six characters, two of them outside the Basic Multilingual Plane, make
      eight code units: long enough. */
  lemma AstralCharactersCountTwice()
    ensures |"Ab1!\U{1F600}\U{1F600}"| == 6
    ensures IsPasswordValid("Ab1!\U{1F600}\U{1F600}")
  {
    var s := "Ab1!\U{1F600}\U{1F600}";
    assert Utf16Length(s[4..]) == 4;
    assert IsUpper(s[0]) && IsDigit(s[2]) && IsSpecial(s[3]);
  }
}
