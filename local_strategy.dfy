/** The passport local strategy: it receives whatever `validateUser` produced
    (an untyped value, or the error it threw), checks its shape and copies
    the three identity fields; every failure becomes Unauthorized. */
module LocalStrategy {
  import opened Common
  import opened JsValues
  import opened Auth

  /** `isValidUser`: a truthy object whose id, email and pseudo are strings.
      Only a plain object with those three string properties passes; null,
      arrays and primitives do not. */
  predicate IsValidUser(v: JsValue): (valid: bool)
    ensures valid <==>
      && v.JsObject?
      && "id" in v.props && v.props["id"].JsString?
      && "email" in v.props && v.props["email"].JsString?
      && "pseudo" in v.props && v.props["pseudo"].JsString?
  {
    && JsTruthy(v)
    && TypeOf(v) == "object"
    && Get(v, "id").JsString?
    && Get(v, "email").JsString?
    && Get(v, "pseudo").JsString?
  }

  /** `validate`: a thrown error, a falsy result or a result of the wrong
      shape are all refused; otherwise exactly the three fields are kept. */
  function Validate(result: Result<JsValue>): (r: Result<Identity>)
    ensures r.Err? ==> r.error == Unauthorized
    ensures r.Ok? <==> result.Ok? && IsValidUser(result.value)
    ensures r.Ok? ==>
      && Get(result.value, "id") == JsString(r.value.id)
      && Get(result.value, "email") == JsString(r.value.email)
      && Get(result.value, "pseudo") == JsString(r.value.pseudo)
  {
    match result
    case Err(_) => Err(Unauthorized)
    case Ok(v) =>
      if !JsTruthy(v) then Err(Unauthorized)
      else if !IsValidUser(v) then Err(Unauthorized)
      else Ok(Identity(Get(v, "id").s, Get(v, "email").s, Get(v, "pseudo").s))
  }

  /** The object literal `validateUser` returns. */
  function ToJs(i: Identity): JsValue
  {
    JsObject(map["id" := JsString(i.id), "email" := JsString(i.email), "pseudo" := JsString(i.pseudo)])
  }

  /** The value the strategy sees when `validateUser` resolves or rejects. */
  function Outcome(r: Result<Identity>): Result<JsValue>
  {
    match r
    case Ok(i) => Ok(ToJs(i))
    case Err(e) => Err(e)
  }

  /** The strategy passes on exactly what the service decided: the same
      identity on success, Unauthorized on failure. */
  lemma StrategyKeepsDecision(r: Result<Identity>)
    requires r.Err? ==> r.error == Unauthorized
    ensures Validate(Outcome(r)) == r
  {
    if r.Ok? {
      var v := ToJs(r.value);
      assert Get(v, "id") == JsString(r.value.id);
      assert Get(v, "email") == JsString(r.value.email);
      assert Get(v, "pseudo") == JsString(r.value.pseudo);
    }
  }

  /** Strings, arrays, null and objects missing a field are all refused. */
  lemma ShapesRefused(s: string, items: seq<JsValue>)
    ensures Validate(Ok(JsString(s))) == Err(Unauthorized)
    ensures Validate(Ok(JsArray(items))) == Err(Unauthorized)
    ensures Validate(Ok(JsNull)) == Err(Unauthorized)
    ensures Validate(Ok(JsObject(map["id" := JsString("1"), "email" := JsString("a@b.fr")]))) == Err(Unauthorized)
  {
    var partial := JsObject(map["id" := JsString("1"), "email" := JsString("a@b.fr")]);
    assert "pseudo" !in partial.props;
  }
}
