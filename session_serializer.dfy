/** The session serializer: what is written into the session after login
    and what is read back on every request, as the values handed to the
    `done` callback. */
module Session {
  import opened Common
  import opened JsValues
  import opened Auth
  import LocalStrategy

  /** The two arguments of `done(err, user)`; None stands for null. */
  datatype Done = Done(err: Option<string>, user: Option<Identity>)

  const InvalidStructure: string := "Structure utilisateur invalide"

  /** Every field is present in the JavaScript sense. */
  predicate Complete(u: Identity)
  {
    u.id != "" && u.email != "" && u.pseudo != ""
  }

  /** `serializeUser`: an error and a null payload for a missing user or an
      empty field; otherwise the three fields. */
  function SerializeUser(user: Option<Identity>): (d: Done)
    ensures d.err.Some? <==> d.user.None?
    ensures d.user.Some? <==> user.Some? && Complete(user.value)
    ensures d.user.Some? ==> d.user == user
    ensures d.err.Some? ==> d.err.value == InvalidStructure
  {
    if user.None? || !Complete(user.value) then Done(Some(InvalidStructure), None)
    else Done(None, Some(Identity(user.value.id, user.value.email, user.value.pseudo)))
  }

  /** `deserializeUser`: the stored payload, unchanged and without error;
      serializing it again writes the same payload back. */
  function DeserializeUser(payload: Identity): (d: Done)
    ensures d.err.None? && d.user == Some(payload)
    ensures Complete(payload) ==> SerializeUser(d.user) == Done(None, Some(payload))
  {
    Done(None, Some(payload))
  }

  /** Writing a complete user into the session and reading it back yields
      the same identity, with no error. */
  lemma SessionRoundTrip(u: Identity)
    requires Complete(u)
    ensures SerializeUser(Some(u)).user.Some?
    ensures DeserializeUser(SerializeUser(Some(u)).user.value) == Done(None, Some(u))
  {
  }

  /** The strategy only checks that the fields are strings, the serializer
      that they are non-empty: an account with an empty pseudo passes the
      credential check and is then refused by the session. */
  lemma EmptyPseudoPassesStrategyNotSession()
    ensures var u := Identity("1", "a@b.fr", "");
      && LocalStrategy.Validate(Ok(LocalStrategy.ToJs(u))) == Ok(u)
      && SerializeUser(Some(u)) == Done(Some(InvalidStructure), None)
  {
    LocalStrategy.StrategyKeepsDecision(Ok(Identity("1", "a@b.fr", "")));
  }
}
