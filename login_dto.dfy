/** The login body's validation rules: the email must be present, the
    password must be a string of 10 to 50 characters containing a digit, an
    upper-case letter and a special character. Each rule is checked on its
    own and every failing rule is reported. */
module LoginValidation {
  import opened Common
  import opened JsValues

  predicate IsDigit(c: char) { '0' <= c <= '9' }

  predicate IsUpper(c: char) { 'A' <= c <= 'Z' }

  /** The class `[!@#$%^&*()_+\-=[\]{};':"\\|,.<>/?]`, one character each. */
  const SpecialChars: string := "!@#$%^&*()_+-=[]{};':\"\\|,.<>/?"

  predicate IsSpecial(c: char) { c in SpecialChars }

  /** The characters a regular-expression `.` does not match. */
  predicate IsLineTerminator(c: char)
  {
    c == '\n' || c == '\r' || c == '\U{2028}' || c == '\U{2029}'
  }

  predicate NoLineTerminator(s: string)
  {
    forall k :: 0 <= k < |s| ==> !IsLineTerminator(s[k])
  }

  /** A lookahead `(?=.*[class])` at the start of the input: some character
      of the class occurs before the first line terminator. */
  predicate LookaheadFinds(s: string, inClass: char -> bool)
  {
    exists k :: 0 <= k < |s| && inClass(s[k]) && NoLineTerminator(s[..k])
  }

  /** `^(?=.*[0-9])(?=.*[A-Z])(?=.*[special]).*$` without flags: three
      lookaheads at the start, then `.*` must reach the end of the input. */
  predicate PasswordPattern(s: string)
  {
    && LookaheadFinds(s, IsDigit)
    && LookaheadFinds(s, IsUpper)
    && LookaheadFinds(s, IsSpecial)
    && NoLineTerminator(s)
  }

  predicate Has(s: string, inClass: char -> bool)
  {
    exists k :: 0 <= k < |s| && inClass(s[k])
  }

  /** The pattern says: one line, with a digit, an upper-case letter and a
      special character somewhere in it. */
  lemma PasswordPatternMeans(s: string)
    ensures PasswordPattern(s) <==> NoLineTerminator(s) && Has(s, IsDigit) && Has(s, IsUpper) && Has(s, IsSpecial)
  {
    if NoLineTerminator(s) {
      forall inClass: char -> bool | Has(s, inClass)
        ensures LookaheadFinds(s, inClass)
      {
        var k :| 0 <= k < |s| && inClass(s[k]);
        assert NoLineTerminator(s[..k]);
      }
    }
  }

  predicate IsVariationSelector(c: char) { c == '\U{FE0E}' || c == '\U{FE0F}' }

  /** The length `Length(10, 50)` measures: code points, not counting the
      emoji presentation selectors U+FE0E and U+FE0F. */
  function MeasuredLength(s: string): (n: nat)
    ensures n == |s| - multiset(s)['\U{FE0E}'] - multiset(s)['\U{FE0F}']
    ensures n <= |s|
    ensures (forall c :: c in s ==> !IsVariationSelector(c)) ==> n == |s|
  {
    if s == [] then 0
    else
      assert s == [s[0]] + s[1..];
      (if IsVariationSelector(s[0]) then 0 else 1) + MeasuredLength(s[1..])
  }

  const PasswordMinLength: nat := 10
  const PasswordMaxLength: nat := 50

  /** The password's four decorators, one value each. */
  datatype PasswordRule = MustBeString | LengthRule | PatternRule | PasswordRequired

  /** `isNotEmpty`: anything but the empty string, null and undefined. */
  predicate NotEmpty(v: JsValue)
  {
    v != JsString("") && v != JsNull && v != JsUndefined
  }

  /** The rules a password value breaks. Length and pattern checks refuse
      every non-string. */
  function PasswordViolations(v: JsValue): (broken: set<PasswordRule>)
    ensures broken == {} <==>
      v.JsString? && PasswordMinLength <= MeasuredLength(v.s) <= PasswordMaxLength && PasswordPattern(v.s)
    ensures !v.JsString? ==> MustBeString in broken && LengthRule in broken && PatternRule in broken
    ensures PasswordRequired in broken <==> !NotEmpty(v)
  {
    (if v.JsString? then {} else {MustBeString})
    + (if v.JsString? && PasswordMinLength <= MeasuredLength(v.s) <= PasswordMaxLength then {} else {LengthRule})
    + (if v.JsString? && PasswordPattern(v.s) then {} else {PatternRule})
    + (if NotEmpty(v) then {} else {PasswordRequired})
  }

  /** An accepted password is a one-line string of at least ten code points
      holding a digit, an upper-case letter and a special character. */
  lemma AcceptedPassword(v: JsValue)
    requires PasswordViolations(v) == {}
    ensures v.JsString? && |v.s| >= PasswordMinLength && NoLineTerminator(v.s)
    ensures Has(v.s, IsDigit) && Has(v.s, IsUpper) && Has(v.s, IsSpecial)
  {
    PasswordPatternMeans(v.s);
  }

  lemma ExampleLength()
    ensures MeasuredLength("P@ssw0rd123") == 11
  {
    FullLength("P@ssw0rd123");
  }

  /** A text without presentation selectors is measured by its length. */
  lemma FullLength(s: string)
    requires forall k :: 0 <= k < |s| ==> !IsVariationSelector(s[k])
    ensures MeasuredLength(s) == |s|
  {
    assert forall c :: c in s ==> !IsVariationSelector(c);
  }

  lemma ExamplePattern()
    ensures PasswordPattern("P@ssw0rd123")
  {
    var good := "P@ssw0rd123";
    assert NoLineTerminator(good);
    assert SpecialChars[1] == good[1];
    PatternFromWitnesses(good, 5, 0, 1);
  }

  /** A one-line string with a digit, an upper-case letter and a special
      character at known places matches the pattern. */
  lemma PatternFromWitnesses(s: string, digit: nat, upper: nat, special: nat)
    requires digit < |s| && upper < |s| && special < |s|
    requires IsDigit(s[digit]) && IsUpper(s[upper]) && IsSpecial(s[special])
    requires NoLineTerminator(s)
    ensures PasswordPattern(s)
  {
    PasswordPatternMeans(s);
  }

  /** The documented example password is accepted. */
  lemma ExamplePasswordAccepted()
    ensures PasswordViolations(JsString("P@ssw0rd123")) == {}
  {
    ExampleLength();
    ExamplePattern();
  }

  lemma RefusedLength()
    ensures MeasuredLength("p@ssw0rd123") == 11
  {
    FullLength("p@ssw0rd123");
  }

  lemma RefusedPattern()
    ensures !PasswordPattern("p@ssw0rd123")
  {
    var bad := "p@ssw0rd123";
    assert forall k :: 0 <= k < |bad| ==> !IsUpper(bad[k]);
    PasswordPatternMeans(bad);
  }

  /** The same text with its only upper-case letter lowered breaks the
      pattern and no other rule. */
  lemma LowerCaseExampleRefused()
    ensures PasswordViolations(JsString("p@ssw0rd123")) == {PatternRule}
  {
    RefusedLength();
    RefusedPattern();
  }

  /** The email's rule that is modelled: it must be present. */
  predicate EmailPresent(v: JsValue)
  {
    NotEmpty(v)
  }

  const EmailRequiredMessage: string := "L'email est requis"
  const PasswordTypeMessage: string := "Le mot de passe doit être une chaîne de caractères"
  const PasswordLengthMessage: string := "Le mot de passe doit contenir au minimum 10 caractères"
  const PasswordPatternMessage: string :=
    "Le mot de passe doit contenir au moins 1 majuscule, 1 chiffre et 1 caractère spécial"
  const PasswordRequiredMessage: string := "Le mot de passe est requis"

  function RuleMessage(rule: PasswordRule): string
  {
    match rule
    case MustBeString => PasswordTypeMessage
    case LengthRule => PasswordLengthMessage
    case PatternRule => PasswordPatternMessage
    case PasswordRequired => PasswordRequiredMessage
  }
}
