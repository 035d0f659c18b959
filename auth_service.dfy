/** The credential check and the profile projection of the authentication
    service. Every failure of the credential check, whatever its cause, is
    reported as Unauthorized. */
module Auth {
  import opened Common
  import opened Entities
  import opened Users

  /** What a successful credential check hands on: never the password. */
  datatype Identity = Identity(id: string, email: string, pseudo: string)

  datatype Profile = Profile(pseudo: string, email: string)

  /** bcrypt's `compare(plain, hash)`: the verdict, or None when the call
      rejects. */
  type Comparer = (string, string) -> Option<bool>

  const LoginMessage: string := "Connexion réussie"

  function Project(u: User): Identity
  {
    Identity(u.id, u.email, u.pseudo)
  }

  /** `validateUser`: look the email up, refuse an empty stored password
      without comparing, then compare. */
  function ValidateUser(us: seq<User>, email: string, password: string, compare: Comparer): (r: Result<Identity>)
    ensures r.Err? ==> r.error == Unauthorized
    ensures !EmailInUse(us, email) ==> r == Err(Unauthorized)
    ensures r.Ok? ==> exists u ::
      u in us && u.email == email && u.password != "" && compare(password, u.password) == Some(true) && r.value == Project(u)
  {
    match FindByEmail(us, email)
    case Err(_) => Err(Unauthorized)
    case Ok(u) =>
      if u.password == "" then Err(Unauthorized)
      else if compare(password, u.password) == Some(true) then Ok(Project(u))
      else Err(Unauthorized)
  }

  /** With unique emails the check succeeds exactly when the stored password
      is non-empty and bcrypt accepts, and then yields that user's identity. */
  lemma ValidateUserDecision(us: seq<User>, u: User, password: string, compare: Comparer)
    requires u in us
    requires forall i, j :: 0 <= i < j < |us| ==> us[i].email != us[j].email
    ensures ValidateUser(us, u.email, password, compare) ==
      if u.password != "" && compare(password, u.password) == Some(true) then Ok(Project(u)) else Err(Unauthorized)
  {
    var found := FindByEmail(us, u.email).value;
    var k :| 0 <= k < |us| && us[k] == u;
    var i :| 0 <= i < |us| && us[i] == found;
    assert us[i].email == us[k].email;
  }

  /** An empty stored password is refused before bcrypt is consulted: the
      outcome does not depend on the comparer at all. */
  lemma EmptyPasswordSkipsCompare(us: seq<User>, email: string, password: string, c1: Comparer, c2: Comparer)
    requires FindByEmail(us, email).Ok? && FindByEmail(us, email).value.password == ""
    ensures ValidateUser(us, email, password, c1) == ValidateUser(us, email, password, c2) == Err(Unauthorized)
  {
  }

  /** `getProfile`: pseudo and email of the user, NotFound otherwise. */
  function GetProfile(us: seq<User>, userId: string): (r: Result<Profile>)
    ensures r.Err? <==> forall u :: u in us ==> u.id != userId
    ensures r.Err? ==> r.error == NotFound
    ensures r.Ok? ==> exists u :: u in us && u.id == userId && r.value == Profile(u.pseudo, u.email)
  {
    match Users.FindOne(us, userId)
    case Err(e) => Err(e)
    case Ok(u) => Ok(Profile(u.pseudo, u.email))
  }
}
