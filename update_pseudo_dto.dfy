/** The body of a pseudo change: the pseudo must be a non-empty string of 3
    to 20 characters. Each rule is checked on its own and every failing rule
    is reported. */
module PseudoValidation {
  import opened JsValues
  import LoginValidation

  const PseudoMinLength: nat := 3
  const PseudoMaxLength: nat := 20

  const PseudoTypeMessage: string := "Le pseudo doit être une chaîne de caractères"
  const PseudoLengthMessage: string := "Le pseudo doit contenir entre 3 et 20 caractères"
  const PseudoRequiredMessage: string := "Le pseudo est requis"

  datatype PseudoRule = MustBeString | LengthRule | PseudoRequired

  /** The rules a pseudo value breaks; the length check refuses every
      non-string and measures as the password's does. */
  function PseudoViolations(v: JsValue): (broken: set<PseudoRule>)
    ensures broken == {} <==>
      v.JsString? && PseudoMinLength <= LoginValidation.MeasuredLength(v.s) <= PseudoMaxLength
    ensures !v.JsString? ==> MustBeString in broken && LengthRule in broken
    ensures PseudoRequired in broken <==> !LoginValidation.NotEmpty(v)
  {
    (if v.JsString? then {} else {MustBeString})
    + (if v.JsString? && PseudoMinLength <= LoginValidation.MeasuredLength(v.s) <= PseudoMaxLength then {} else {LengthRule})
    + (if LoginValidation.NotEmpty(v) then {} else {PseudoRequired})
  }

  function RuleMessage(rule: PseudoRule): string
  {
    match rule
    case MustBeString => PseudoTypeMessage
    case LengthRule => PseudoLengthMessage
    case PseudoRequired => PseudoRequiredMessage
  }
}
