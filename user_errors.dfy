/** The client's registration and login form rules: the email and password
    patterns, the message texts and the messages shown for the server's
    error statuses. */
module ClientErrors {
  import opened Common
  import LoginValidation
  import PseudoValidation

  // ------------------------------------------------------------- messages

  const EmailRequired: string := "L'email est requis"
  const PasswordRequired: string := "Le mot de passe est requis"
  const PseudoRequired: string := "Le pseudo est requis"
  const EmailInvalid: string := "Email invalide"
  const PasswordInvalid: string :=
    "Le mot de passe doit contenir au moins 1 majuscule, 1 chiffre et 1 caractère spécial"
  const InvalidCredentials: string := "Échec de la connexion. Vérifiez vos identifiants."
  const NameLength: string := "Le nom doit contenir entre 1 et 50 caractères"
  const PseudoLength: string := "Le pseudo doit contenir entre 3 et 20 caractères"
  const PasswordLength: string := "Le mot de passe doit contenir au minimum 10 caractères"
  const PseudoType: string := "Le pseudo doit être une chaîne de caractères"
  const PasswordType: string := "Le mot de passe doit être une chaîne de caractères"

  /** The decimal writing of a number, as the message texts spell bounds. */
  function Decimal(n: nat): (r: string)
    ensures |r| >= 1
    ensures forall k :: 0 <= k < |r| ==> '0' <= r[k] <= '9'
  {
    var digit := ['0' + (n % 10) as char];
    if n < 10 then digit else Decimal(n / 10) + digit
  }

  /** The client's texts are the server's, word for word. */
  lemma MessagesMatchServer()
    ensures EmailRequired == LoginValidation.EmailRequiredMessage
    ensures PasswordRequired == LoginValidation.PasswordRequiredMessage
    ensures PasswordInvalid == LoginValidation.PasswordPatternMessage
    ensures PasswordLength == LoginValidation.PasswordLengthMessage
    ensures PasswordType == LoginValidation.PasswordTypeMessage
    ensures PseudoRequired == PseudoValidation.PseudoRequiredMessage
    ensures PseudoLength == PseudoValidation.PseudoLengthMessage
    ensures PseudoType == PseudoValidation.PseudoTypeMessage
  {
  }

  /** The bounds the pseudo length message spells out are the bounds the
      server enforces. */
  lemma PseudoMessageStatesBounds()
    ensures PseudoLength == "Le pseudo doit contenir entre " + Decimal(PseudoValidation.PseudoMinLength)
      + " et " + Decimal(PseudoValidation.PseudoMaxLength) + " caractères"
  {
    assert Decimal(3) == "3";
    assert Decimal(20) == Decimal(2) + "0" == "20";
  }

  /** The password length message spells out the server's minimum; it does
      not mention the maximum of 50. */
  lemma PasswordMessageStatesMinimum()
    ensures PasswordLength == "Le mot de passe doit contenir au minimum "
      + Decimal(LoginValidation.PasswordMinLength) + " caractères"
  {
    assert Decimal(10) == Decimal(1) + "0" == "10";
  }

  // -------------------------------------------------------------- patterns

  /** The client tests passwords with the server's pattern, character for
      character; the model therefore uses one definition for both. */
  predicate PasswordPattern(s: string)
  {
    LoginValidation.PasswordPattern(s)
  }

  predicate IsAsciiLetter(c: char) { 'a' <= c <= 'z' || 'A' <= c <= 'Z' }

  predicate IsAsciiDigit(c: char) { '0' <= c <= '9' }

  /** `[a-zA-Z0-9._%+-]`. */
  predicate IsLocalChar(c: char)
  {
    IsAsciiLetter(c) || IsAsciiDigit(c) || c == '.' || c == '_' || c == '%' || c == '+' || c == '-'
  }

  /** `[a-zA-Z0-9.-]`. */
  predicate IsDomainChar(c: char)
  {
    IsAsciiLetter(c) || IsAsciiDigit(c) || c == '.' || c == '-'
  }

  predicate All(s: string, inClass: char -> bool)
  {
    forall k :: 0 <= k < |s| ==> inClass(s[k])
  }

  /** One way of matching `^[a-zA-Z0-9._%+-]+@[a-zA-Z0-9.-]+\.[a-zA-Z]{2,}$`:
      the `@` at `at`, the final `.` at `dot`, each part non-empty and of its
      class, at least two letters after the dot. */
  predicate EmailSplit(s: string, at: nat, dot: nat)
  {
    && 0 < at && at + 1 < dot && dot + 2 < |s|
    && s[at] == '@' && s[dot] == '.'
    && All(s[..at], IsLocalChar)
    && All(s[at + 1..dot], IsDomainChar)
    && All(s[dot + 1..], IsAsciiLetter)
  }

  /** The email pattern matches the whole input. */
  ghost predicate EmailPattern(s: string)
  {
    exists at: nat, dot: nat :: EmailSplit(s, at, dot)
  }

  function FirstIndexOf(s: string, c: char): (r: Option<nat>)
    ensures r.Some? ==> r.value < |s| && s[r.value] == c && c !in s[..r.value]
    ensures r.None? ==> c !in s
  {
    if s == [] then None
    else if s[0] == c then Some(0)
    else
      match FirstIndexOf(s[1..], c)
      case None => None
      case Some(i) =>
        assert s[..i + 1] == [s[0]] + s[1..][..i];
        Some(i + 1)
  }

  function LastIndexOf(s: string, c: char): (r: Option<nat>)
    ensures r.Some? ==> r.value < |s| && s[r.value] == c && c !in s[r.value + 1..]
    ensures r.None? ==> c !in s
  {
    if s == [] then None
    else if s[|s| - 1] == c then Some(|s| - 1)
    else
      match LastIndexOf(s[..|s| - 1], c)
      case None =>
        assert s == s[..|s| - 1] + [s[|s| - 1]];
        None
      case Some(i) =>
        assert s[i + 1..] == s[..|s| - 1][i + 1..] + [s[|s| - 1]];
        Some(i)
  }

  /** A direct decision: the only possible `@` is the first one (neither
      part admits another) and the only possible dot is the last one (the
      letters after it admit none). */
  function CheckEmail(s: string): (ok: bool)
  {
    match (FirstIndexOf(s, '@'), LastIndexOf(s, '.'))
    case (Some(at), Some(dot)) => EmailSplit(s, at, dot)
    case _ => false
  }

  /** The direct decision accepts exactly what the pattern matches. */
  lemma CheckEmailMeans(s: string)
    ensures CheckEmail(s) <==> EmailPattern(s)
  {
    if EmailPattern(s) {
      var at: nat, dot: nat :| EmailSplit(s, at, dot);
      assert s[at] in s && s[dot] in s;
      var i := FirstIndexOf(s, '@').value;
      var j := LastIndexOf(s, '.').value;
      assert forall k :: 0 <= k < at ==> s[k] == s[..at][k];
      assert forall k :: 0 <= k < i ==> s[k] == s[..i][k];
      assert forall k :: dot < k < |s| ==> s[k] == s[dot + 1..][k - dot - 1];
      assert forall k :: j < k < |s| ==> s[k] == s[j + 1..][k - j - 1];
    }
  }

  /** An ordinary address is accepted. */
  lemma EmailAccepted()
    ensures EmailPattern("jean.dupont@mail.fr")
  {
    var s := "jean.dupont@mail.fr";
    assert s[..11] == "jean.dupont" && All("jean.dupont", IsLocalChar);
    assert s[12..16] == "mail" && All("mail", IsDomainChar);
    assert s[17..] == "fr" && All("fr", IsAsciiLetter);
    assert EmailSplit(s, 11, 16);
  }

  /** A one-letter ending is refused. */
  lemma OneLetterEndingRefused()
    ensures !EmailPattern("a@b.c")
  {
  }

  /** An address without a dot after the `@` is refused. */
  lemma DotlessDomainRefused()
    ensures !EmailPattern("jean@mail")
  {
    assert forall k :: 0 <= k < |"jean@mail"| ==> "jean@mail"[k] != '.';
  }

  // ------------------------------------------------------------ API errors

  const Unknown: string := "Une erreur est survenue lors de l'inscription."

  /** `apiErrors`: the fixed messages by HTTP status. */
  const ApiErrors: map<int, string> := map[
    400 := "Données invalides, veuillez vérifier le formulaire.",
    409 := "L'inscription a échoué. Vérifiez vos informations ou contactez le support.",
    500 := "Erreur serveur, veuillez réessayer plus tard."
  ]

  /** The message for a status: its fixed message, else the fallback. */
  function ApiErrorMessage(status: int): (m: string)
    ensures status in ApiErrors ==> m == ApiErrors[status]
    ensures m == Unknown <==> status != 400 && status != 409 && status != 500
  {
    if status in ApiErrors then ApiErrors[status] else Unknown
  }

  /** Every error registration can end with has a message of its own; the
      two conflicts share one, so the form does not say which field clashed. */
  lemma RegistrationErrorsExplained(e: Error)
    requires e == BadRequest || e == EmailTaken || e == PseudoTaken || e == InternalServerError
    ensures ApiErrorMessage(Status(e)) != Unknown
    ensures ApiErrorMessage(Status(EmailTaken)) == ApiErrorMessage(Status(PseudoTaken))
  {
  }
}
