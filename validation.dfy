/** Format rules for the registration form's two fields: the login and the
    password. Each validator returns an error text, or the empty string when
    the field is acceptable (the page tests the result for truthiness). */
module Validation {

  const LoginRequired: string := "Логин обязателен"
  const LoginBadChars: string := "Только латинские буквы, цифры, _ и -"
  const PasswordRequired: string := "Пароль обязателен"
  const PasswordTooShort: string := "Пароль должен быть не менее 6 символов"

  /** Minimum password length, counted as the page counts it (UTF-16 code units). */
  const MinPasswordLength: nat := 6

  // ---------------------------------------------------------------------------
  // String.prototype.trim

  /** The characters that String.prototype.trim removes: ECMAScript WhiteSpace
      (TAB, VT, FF, SPACE, NBSP, ZWNBSP and the Zs category) and LineTerminator
      (LF, CR, LS, PS). */
  predicate IsWhitespace(c: char) {
    var n := c as int;
    n == 0x09 || n == 0x0A || n == 0x0B || n == 0x0C || n == 0x0D || n == 0x20 ||
    n == 0xA0 || n == 0x1680 || (0x2000 <= n <= 0x200A) || n == 0x2028 ||
    n == 0x2029 || n == 0x202F || n == 0x205F || n == 0x3000 || n == 0xFEFF
  }

  /** Every character of `s` is whitespace (vacuously so for ""). */
  predicate Blank(s: string) {
    forall i :: 0 <= i < |s| ==> IsWhitespace(s[i])
  }

  /** `s` without its leading whitespace: a suffix of `s` whose removed part is
      blank and which does not itself start with whitespace. */
  function TrimStart(s: string): (r: string)
    ensures |r| <= |s| && r == s[|s| - |r|..]
    ensures Blank(s[..|s| - |r|])
    ensures r == [] || !IsWhitespace(r[0])
    decreases |s|
  {
    if |s| > 0 && IsWhitespace(s[0]) then
      var t := TrimStart(s[1..]);
      assert s[..|s| - |t|] == [s[0]] + s[1..][..|s| - 1 - |t|];
      t
    else s
  }

  /** `s` without its trailing whitespace: a prefix of `s` whose removed part is
      blank and which does not itself end with whitespace. */
  function TrimEnd(s: string): (r: string)
    ensures |r| <= |s| && r == s[..|r|]
    ensures Blank(s[|r|..])
    ensures r == [] || !IsWhitespace(r[|r| - 1])
    decreases |s|
  {
    if |s| > 0 && IsWhitespace(s[|s| - 1]) then
      var t := TrimEnd(s[..|s| - 1]);
      assert s[|t|..] == s[..|s| - 1][|t|..] + [s[|s| - 1]];
      t
    else s
  }

  /** String.prototype.trim: the slice of `s` left after dropping its leading
      and its trailing whitespace; empty exactly when `s` is blank. */
  function Trim(s: string): (r: string)
    ensures |r| <= |TrimStart(s)| <= |s|
    ensures r == s[|s| - |TrimStart(s)|..][..|r|]
    ensures Blank(TrimStart(s)[|r|..])
    ensures r == [] || (!IsWhitespace(r[0]) && !IsWhitespace(r[|r| - 1]))
    ensures r == [] <==> Blank(s)
  {
    TrimEmptyIffBlank(s);
    TrimEnd(TrimStart(s))
  }

  /** Trimming both ends leaves nothing exactly when the string is blank. */
  lemma {:induction false} TrimEmptyIffBlank(s: string)
    ensures TrimEnd(TrimStart(s)) == "" <==> Blank(s)
  {
    var t := TrimStart(s);
    assert s == s[..|s| - |t|] + t;
  }

  // ---------------------------------------------------------------------------
  // The login pattern /^[A-Za-z0-9_-]+$/

  /** One member of the class [A-Za-z0-9_-]. */
  predicate IsLoginChar(c: char) {
    ('A' <= c <= 'Z') || ('a' <= c <= 'z') || ('0' <= c <= '9') || c == '_' || c == '-'
  }

  /** RegExp.prototype.test for /^[A-Za-z0-9_-]+$/ (no flags, so `$` anchors at
      the very end of the input): one or more class members and nothing else. */
  function MatchesLoginPattern(s: string): (r: bool)
    ensures r <==> |s| > 0 && forall i :: 0 <= i < |s| ==> IsLoginChar(s[i])
    decreases |s|
  {
    |s| > 0 && IsLoginChar(s[0]) && (|s| == 1 || MatchesLoginPattern(s[1..]))
  }

  /** The login validator: a blank login is "required"; otherwise the untrimmed
      login must match the pattern. */
  function ValidateLogin(login: string): (r: string)
    ensures r == "" <==> |login| > 0 && forall i :: 0 <= i < |login| ==> IsLoginChar(login[i])
    ensures Blank(login) ==> r == LoginRequired
    ensures !Blank(login) && r != "" ==> r == LoginBadChars
  {
    TrimEmptyIffBlank(login);
    if Trim(login) == "" then LoginRequired
    else if !MatchesLoginPattern(login) then LoginBadChars
    else ""
  }

  // ---------------------------------------------------------------------------
  // Password

  /** String.prototype.length: the number of UTF-16 code units, so a character
      outside the Basic Multilingual Plane counts twice. */
  function Utf16Length(s: string): (r: nat)
    ensures |s| <= r <= 2 * |s|
    ensures r == |s| <==> AllBmp(s)
    decreases |s|
  {
    if s == [] then 0
    else (if s[0] as int > 0xFFFF then 2 else 1) + Utf16Length(s[1..])
  }

  /** Every character of `s` is one UTF-16 code unit. */
  predicate AllBmp(s: string) {
    forall i :: 0 <= i < |s| ==> s[i] as int <= 0xFFFF
  }

  /** The password validator: an empty password is "required"; a non-empty one
      shorter than six code units is "too short". */
  function ValidatePassword(password: string): (r: string)
    ensures r == "" <==> Utf16Length(password) >= MinPasswordLength
    ensures password == "" ==> r == PasswordRequired
    ensures password != "" && Utf16Length(password) < MinPasswordLength ==> r == PasswordTooShort
  {
    if password == "" then PasswordRequired
    else if Utf16Length(password) < MinPasswordLength then PasswordTooShort
    else ""
  }

  /** For passwords made of Basic Multilingual Plane characters, the rule is
      "at least six characters"; six characters always suffice. */
  lemma PasswordLengthRule(password: string)
    ensures |password| >= MinPasswordLength ==> ValidatePassword(password) == ""
    ensures AllBmp(password) ==> (ValidatePassword(password) == "" <==> |password| >= MinPasswordLength)
    ensures 0 < |password| < MinPasswordLength / 2 ==> ValidatePassword(password) == PasswordTooShort
  {
  }

  /** Three characters outside the Basic Multilingual Plane already count as
      six, so such a password passes although it has only three characters. */
  lemma ThreeAstralCharsPass()
    ensures |"\U{1F600}\U{1F600}\U{1F600}"| == 3
    ensures ValidatePassword("\U{1F600}\U{1F600}\U{1F600}") == ""
  {
    var s := "\U{1F600}\U{1F600}\U{1F600}";
    assert s[1..] == "\U{1F600}\U{1F600}" && s[2..] == "\U{1F600}" && s[3..] == "";
    assert Utf16Length(s) == 6;
  }

  /** The login rule on three inputs: letters, digits, `_` and `-` pass; only
      spaces and tabs are "required"; a leading space is a bad character,
      because the pattern is tested against the untrimmed login. */
  lemma LoginExamples()
    ensures ValidateLogin("user_01-x") == ""
    ensures ValidateLogin(" \t ") == LoginRequired
    ensures ValidateLogin(" alice") == LoginBadChars
  {
    assert forall i :: 0 <= i < |"user_01-x"| ==> IsLoginChar("user_01-x"[i]);
    assert Blank(" \t ");
    assert !IsLoginChar(" alice"[0]) && !IsWhitespace(" alice"[1]);
  }
}
