/** The user registry: lookups by email and by id, and registration, which
    checks the email and then the pseudo for uniqueness before inserting a
    row whose password is the bcrypt hash of the one supplied. */
module Users {
  import opened Common
  import opened Entities
  import opened Database

  datatype CreateUserDto = CreateUserDto(email: string, pseudo: string, password: string)

  const RegisteredMessage: string := "Inscription réussie!"

  /** bcrypt's `hash`: the digest, or None when the call rejects. */
  type Hasher = string -> Option<string>

  predicate EmailInUse(us: seq<User>, email: string)
  {
    exists u :: u in us && u.email == email
  }

  predicate PseudoInUse(us: seq<User>, pseudo: string)
  {
    exists u :: u in us && u.pseudo == pseudo
  }

  function IndexOfEmail(us: seq<User>, email: string): (r: Option<nat>)
    ensures r.Some? ==> r.value < |us| && us[r.value].email == email
    ensures r.Some? ==> forall k :: 0 <= k < r.value ==> us[k].email != email
    ensures r.None? <==> !EmailInUse(us, email)
  {
    if us == [] then None
    else if us[0].email == email then Some(0)
    else match IndexOfEmail(us[1..], email)
      case None => None
      case Some(k) => Some(k + 1)
  }

  function IndexOfUser(us: seq<User>, id: string): (r: Option<nat>)
    ensures r.Some? ==> r.value < |us| && us[r.value].id == id
    ensures r.None? <==> forall u :: u in us ==> u.id != id
  {
    if us == [] then None
    else if us[0].id == id then Some(0)
    else match IndexOfUser(us[1..], id)
      case None => None
      case Some(k) => Some(k + 1)
  }

  function IndexOfPseudo(us: seq<User>, pseudo: string): (r: Option<nat>)
    ensures r.Some? ==> r.value < |us| && us[r.value].pseudo == pseudo
    ensures r.None? <==> !PseudoInUse(us, pseudo)
  {
    if us == [] then None
    else if us[0].pseudo == pseudo then Some(0)
    else match IndexOfPseudo(us[1..], pseudo)
      case None => None
      case Some(k) => Some(k + 1)
  }

  /** `findByEmail`: the user with this email, or NotFound. */
  function FindByEmail(us: seq<User>, email: string): (r: Result<User>)
    ensures r.Ok? <==> EmailInUse(us, email)
    ensures r.Ok? ==> r.value in us && r.value.email == email
    ensures r.Err? ==> r.error == NotFound
  {
    match IndexOfEmail(us, email)
    case None => Err(NotFound)
    case Some(i) => Ok(us[i])
  }

  /** `findOne`: the user with this id, or NotFound. */
  function FindOne(us: seq<User>, id: string): (r: Result<User>)
    ensures r.Ok? <==> exists u :: u in us && u.id == id
    ensures r.Ok? ==> r.value in us && r.value.id == id
    ensures r.Err? ==> r.error == NotFound
  {
    match IndexOfUser(us, id)
    case None => Err(NotFound)
    case Some(i) => Ok(us[i])
  }

  /** The table invariant: rows keyed by `mint` of their creation tick and
      stamped before `clock`; `email` and `pseudo` are unique columns. */
  ghost predicate Registry(us: seq<User>, clock: nat, mint: nat -> string)
  {
    && KeyGenerator(mint)
    && (forall u :: u in us ==> u.createdAt < clock && u.id == mint(u.createdAt))
    && (forall i, j :: 0 <= i < j < |us| ==> us[i].email != us[j].email)
    && (forall i, j :: 0 <= i < j < |us| ==> us[i].pseudo != us[j].pseudo)
  }

  /** Inserting a user whose email and pseudo are both free, stamped with
      the current tick, keeps the invariant. */
  lemma InsertKeepsRegistry(us: seq<User>, clock: nat, mint: nat -> string, u: User)
    requires Registry(us, clock, mint)
    requires !EmailInUse(us, u.email) && !PseudoInUse(us, u.pseudo)
    requires u.createdAt == clock && u.id == mint(clock)
    ensures Registry(us + [u], clock + 1, mint)
  {
    var us' := us + [u];
    forall i, j | 0 <= i < j < |us'|
      ensures us'[i].email != us'[j].email && us'[i].pseudo != us'[j].pseudo
    {
      assert us'[i] in us;
      if j < |us| {
        assert us'[j] == us[j];
      }
    }
  }

  /** Registration followed by a lookup by email finds the new row: no
      earlier row can shadow it. */
  lemma {:induction false} FindByEmailAfterInsert(us: seq<User>, u: User)
    requires !EmailInUse(us, u.email)
    ensures FindByEmail(us + [u], u.email) == Ok(u)
  {
    assert forall k :: 0 <= k < |us| ==> (us + [u])[k] in us;
  }

  class UserService {
    var users: seq<User>
    var clock: nat
    const mint: nat -> string

    ghost predicate Valid()
      reads this
    {
      Registry(users, clock, mint)
    }

    constructor (mint: nat -> string)
      requires KeyGenerator(mint)
      ensures Valid() && this.mint == mint && users == [] && clock == 0
    {
      this.mint := mint;
      users := [];
      clock := 0;
    }

    /** `register`: a taken email gives the email conflict (checked first),
        then a taken pseudo the pseudo conflict; a failing hash or insert
        gives InternalServerError. Otherwise exactly one row is added, holding
        the hash and not the password, and can be found by its email. */
    method Register(dto: CreateUserDto, hash: Hasher, inserted: bool) returns (r: Result<string>)
      requires Valid()
      modifies this
      ensures Valid()
      ensures EmailInUse(old(users), dto.email) ==> r == Err(EmailTaken) && users == old(users)
      ensures !EmailInUse(old(users), dto.email) && PseudoInUse(old(users), dto.pseudo) ==>
        r == Err(PseudoTaken) && users == old(users)
      ensures !EmailInUse(old(users), dto.email) && !PseudoInUse(old(users), dto.pseudo) ==>
        if hash(dto.password).None? || !inserted then
          r == Err(InternalServerError) && users == old(users)
        else
          && r == Ok(RegisteredMessage)
          && users == old(users) + [User(mint(old(clock)), dto.email, dto.pseudo, hash(dto.password).value, old(clock))]
          && FindByEmail(users, dto.email) == Ok(users[|users| - 1])
    {
      if IndexOfEmail(users, dto.email).Some? {
        return Err(EmailTaken);
      }
      if IndexOfPseudo(users, dto.pseudo).Some? {
        return Err(PseudoTaken);
      }
      var digest := hash(dto.password);
      if digest.None? || !inserted {
        return Err(InternalServerError);
      }
      var u := User(mint(clock), dto.email, dto.pseudo, digest.value, clock);
      InsertKeepsRegistry(users, clock, mint, u);
      FindByEmailAfterInsert(users, u);
      users := users + [u];
      clock := clock + 1;
      r := Ok(RegisteredMessage);
    }
  }

  /** However many registrations succeed or fail, emails and pseudos stay
      unique: `Valid` holds before and after every call. */
  lemma RegistryIsUnique(us: seq<User>, clock: nat, mint: nat -> string, u: User, v: User)
    requires Registry(us, clock, mint)
    requires u in us && v in us && u != v
    ensures u.email != v.email && u.pseudo != v.pseudo
  {
    var i :| 0 <= i < |us| && us[i] == u;
    var j :| 0 <= j < |us| && us[j] == v;
    assert i != j;
    if i > j {
      assert us[j].email != us[i].email;
    }
  }
}
