/** The account directory: the `profiles` table with the register and login handlers of the
    auth routes. Password hashing, password comparison and token signing are opaque
    functions the caller supplies. */
module Accounts {

  import opened Types
  import opened Sequences

  /** The JSON body of POST /register; a text field that is absent or empty is "". */
  datatype RegisterBody = RegisterBody(
    email: string,
    password: string,
    fullName: string,
    phone: Option<string>,
    role: Option<Role>)

  /** The `user` object of a register or login answer. */
  datatype UserInfo = UserInfo(id: string, email: string, fullName: string, phone: Option<string>, role: Role)

  /** A successful answer: the user and a signed token. */
  datatype Session = Session(user: UserInfo, token: string)

  function ProfileIdOf(p: Profile): string {
    p.id
  }

  function EmailOf(p: Profile): string {
    p.email
  }

  predicate MissingRegisterField(body: RegisterBody) {
    body.email == "" || body.password == "" || body.fullName == ""
  }

  /** `role || 'citizen'`. */
  function RoleOrDefault(role: Option<Role>): Role {
    if role.Some? then role.value else Citizen
  }

  /** `phone || null`: an absent or empty phone is stored as null. */
  function PhoneOrNull(phone: Option<string>): (r: Option<string>)
    ensures r.None? <==> phone.None? || phone.value == ""
    ensures r.Some? ==> r == phone
  {
    if phone.Some? && phone.value != "" then phone else None
  }

  /** Position of the row with this email: the `WHERE email = ?` lookup. */
  function FindByEmail(profiles: seq<Profile>, email: string): (r: Option<nat>)
    ensures r.Some? ==> r.value < |profiles| && profiles[r.value].email == email
    ensures r.None? <==> forall p :: p in profiles ==> p.email != email
  {
    FindBy(profiles, EmailOf, email)
  }

  predicate ProfileIdTaken(profiles: seq<Profile>, id: string) {
    exists p :: p in profiles && p.id == id
  }

  /** The answer both to an unknown email and to a wrong password. */
  const InvalidCredentials: Failure := Unauthorized("Invalid credentials")

  class AccountDirectory {
    var profiles: seq<Profile>

    /** Ids and emails are unique. */
    ghost predicate Valid()
      reads this
    {
      DistinctBy(profiles, ProfileIdOf) && DistinctBy(profiles, EmailOf)
    }

    constructor ()
      ensures Valid() && profiles == []
    {
      profiles := [];
    }

    /** POST /register: validates the body, refuses a taken email, then inserts the profile
        with the hashed password and answers with the user and a token. */
    method Register(body: RegisterBody, newId: string, now: int, hash: string -> string,
                    sign: Principal -> string, fails: set<Stmt>)
      returns (r: Result<Session>)
      requires Valid()
      modifies this
      ensures Valid()
      ensures MissingRegisterField(body) ==>
                r == Err(BadRequest("Missing required fields")) && profiles == old(profiles)
      ensures !MissingRegisterField(body) && Select in fails ==> r == Err(Internal) && profiles == old(profiles)
      ensures !MissingRegisterField(body) && Select !in fails && FindByEmail(old(profiles), body.email).Some? ==>
                r == Err(Conflict("Email already registered")) && profiles == old(profiles)
      ensures !MissingRegisterField(body) && Select !in fails && FindByEmail(old(profiles), body.email).None?
              && (Insert in fails || ProfileIdTaken(old(profiles), newId)) ==>
                r == Err(Internal) && profiles == old(profiles)
      ensures !MissingRegisterField(body) && Select !in fails && FindByEmail(old(profiles), body.email).None?
              && Insert !in fails && !ProfileIdTaken(old(profiles), newId) ==>
                var role := RoleOrDefault(body.role);
                && profiles == old(profiles) + [Profile(newId, body.email, hash(body.password), body.fullName,
                                                        PhoneOrNull(body.phone), role, now, now)]
                && r == Ok(Session(UserInfo(newId, body.email, body.fullName, body.phone, role),
                                   sign(Principal(newId, body.email, role))))
    {
      if MissingRegisterField(body) {
        return Err(BadRequest("Missing required fields"));
      }
      if Select in fails {
        return Err(Internal);
      }
      if FindByEmail(profiles, body.email).Some? {
        return Err(Conflict("Email already registered"));
      }
      if Insert in fails || ProfileIdTaken(profiles, newId) {
        return Err(Internal);
      }
      var role := RoleOrDefault(body.role);
      var row := Profile(newId, body.email, hash(body.password), body.fullName, PhoneOrNull(body.phone), role, now, now);
      AppendKeepsUnique(profiles, row);
      profiles := profiles + [row];
      r := Ok(Session(UserInfo(newId, body.email, body.fullName, body.phone, role), sign(Principal(newId, body.email, role))));
    }

    /** POST /login: the same 401 for an unknown email and for a wrong password; on success
        the stored row's fields and a token built from its id, email and role. */
    function Login(email: string, password: string, compare: (string, string) -> bool,
                   sign: Principal -> string): (r: Result<Session>)
      reads this
      requires Valid()
      ensures email == "" || password == "" ==> r == Err(BadRequest("Email and password required"))
      ensures email != "" && password != "" && r.Err? ==> r == Err(InvalidCredentials)
      ensures r.Ok? <==> email != "" && password != ""
                         && exists p :: p in profiles && p.email == email && compare(password, p.passwordHash)
      ensures r.Ok? ==> exists p :: p in profiles && p.email == email
                          && r.value == Session(UserInfo(p.id, p.email, p.fullName, p.phone, p.role),
                                                sign(Principal(p.id, p.email, p.role)))
    {
      if email == "" || password == "" then Err(BadRequest("Email and password required"))
      else
        match FindByEmail(profiles, email)
        case None => Err(InvalidCredentials)
        case Some(k) =>
          var p := profiles[k];
          assert forall q :: q in profiles && q.email == email ==> q == p by {
            forall q | q in profiles && q.email == email ensures q == p {
              var j :| 0 <= j < |profiles| && profiles[j] == q;
              assert EmailOf(profiles[j]) == EmailOf(profiles[k]);
            }
          }
          if !compare(password, p.passwordHash) then Err(InvalidCredentials)
          else Ok(Session(UserInfo(p.id, p.email, p.fullName, p.phone, p.role), sign(Principal(p.id, p.email, p.role))))
    }
  }

  /** Registering and then logging in with the same credentials (under a `compare` that
      accepts the password against its own hash) answers with the same user and token,
      except that login reports the stored phone, `phone || null`, where register echoes
      the phone it was sent. */
  method RegisterThenLogin(dir: AccountDirectory, body: RegisterBody, newId: string, now: int,
                           hash: string -> string, compare: (string, string) -> bool,
                           sign: Principal -> string, fails: set<Stmt>)
    returns (registered: Result<Session>, login: Result<Session>)
    requires dir.Valid()
    requires !MissingRegisterField(body) && Select !in fails && Insert !in fails
    requires FindByEmail(dir.profiles, body.email).None? && !ProfileIdTaken(dir.profiles, newId)
    requires compare(body.password, hash(body.password))
    modifies dir
    ensures registered.Ok? && login.Ok?
    ensures login.value.user == registered.value.user.(phone := PhoneOrNull(body.phone))
    ensures login.value.token == registered.value.token
  {
    registered := dir.Register(body, newId, now, hash, sign, fails);
    var row := dir.profiles[|dir.profiles| - 1];
    assert row in dir.profiles && row.email == body.email && compare(body.password, row.passwordHash);
    login := dir.Login(body.email, body.password, compare, sign);
    var p :| p in dir.profiles && p.email == body.email
             && login.value == Session(UserInfo(p.id, p.email, p.fullName, p.phone, p.role),
                                       sign(Principal(p.id, p.email, p.role)));
  }

  lemma AppendKeepsUnique(profiles: seq<Profile>, row: Profile)
    requires DistinctBy(profiles, ProfileIdOf) && DistinctBy(profiles, EmailOf)
    requires !ProfileIdTaken(profiles, row.id) && forall p :: p in profiles ==> p.email != row.email
    ensures DistinctBy(profiles + [row], ProfileIdOf) && DistinctBy(profiles + [row], EmailOf)
  {
    var s := profiles + [row];
    forall i, j | 0 <= i < j < |s| ensures ProfileIdOf(s[i]) != ProfileIdOf(s[j]) && EmailOf(s[i]) != EmailOf(s[j]) {
      if j == |profiles| {
        assert s[i] in profiles;
      }
    }
  }
}
