/** UserRepository: lookups by username and by id, creation with a taken-name
    check, registration, and authentication. */
module Repository {
  import opened Common
  import opened Store
  import opened Models

  /** get_by_username. */
  function GetByUsername(docs: seq<Doc>, username: string): (u: Option<User>)
    ensures u.Some? <==> HasUsername(docs, username)
    ensures u.Some? ==> u.value.username == username
  {
    FromMongo(FindByUsername(docs, username))
  }

  /** get_by_id: a malformed id (InvalidId) or an unknown one gives no user,
      never an error; a found user's id is the requested one in lower case. */
  function GetById(docs: seq<Doc>, userId: string): (u: Option<User>)
    ensures u.Some? <==> ParseObjectId(userId).Some? && HasId(docs, ParseObjectId(userId).value)
    ensures u.Some? ==> u.value.id == LowerHex(userId)
  {
    match ParseObjectId(userId)
    case None => None
    case Some(oid) =>
      ParsedIdPrintsLowerCase(userId);
      FromMongo(FindById(docs, oid))
  }

  /** With unique ids, the id string of a stored user leads back to that
      user: what load_user does with the id login_user stored. */
  lemma GetByIdOfStoredUser(docs: seq<Doc>, k: nat)
    requires UniqueIds(docs) && k < |docs|
    ensures GetById(docs, NewUser(docs[k]).id) == Some(NewUser(docs[k]))
  {
    FindMemberById(docs, k);
  }

  /** create_user: refuses a taken username; otherwise inserts the username
      and the given hash and returns the new id as a string. */
  method CreateUser(users: UsersCollection, username: string, passwordHash: PasswordHash, newId: ObjectId)
    returns (userId: Option<string>)
    requires users.Valid() && !HasId(users.docs, newId)
    modifies users
    ensures users.Valid()
    ensures HasUsername(old(users.docs), username) ==> userId.None? && users.docs == old(users.docs)
    ensures !HasUsername(old(users.docs), username) ==>
      users.docs == old(users.docs) + [NewUserDoc(newId, username, passwordHash)] &&
      userId == Some(ObjectIdString(newId))
    ensures UniqueUsernames(old(users.docs)) ==> UniqueUsernames(users.docs)
  {
    if FindByUsername(users.docs, username).Some? {
      return None;
    }
    AppendKeepsUsernamesUnique(users.docs, NewUserDoc(newId, username, passwordHash));
    var insertedId := users.InsertOne(username, passwordHash, newId);
    userId := Some(ObjectIdString(insertedId));
  }

  const USERNAME_TAKEN: string := "Username already exists"

  /** register: a taken username is refused with its error and no change;
      otherwise exactly one document is added, holding the hash of the
      password, and the user read back by its new id is returned. The
      'User creation error' branch cannot be taken: the name was free
      when create_user checked it again. */
  method Register(users: UsersCollection, username: string, password: string, salt: string, newId: ObjectId)
    returns (user: Option<User>, error: Option<string>)
    requires users.Valid() && !HasId(users.docs, newId)
    modifies users
    ensures users.Valid()
    ensures HasUsername(old(users.docs), username) ==>
      user.None? && error == Some(USERNAME_TAKEN) && users.docs == old(users.docs)
    ensures !HasUsername(old(users.docs), username) ==>
      var d := NewUserDoc(newId, username, GeneratePasswordHash(password, salt));
      users.docs == old(users.docs) + [d] && user == Some(NewUser(d)) && error.None?
    ensures UniqueUsernames(old(users.docs)) ==> UniqueUsernames(users.docs)
  {
    if GetByUsername(users.docs, username).Some? {
      return None, Some(USERNAME_TAKEN);
    }
    var pwHash := GeneratePasswordHash(password, salt);
    var userId := CreateUser(users, username, pwHash, newId);
    if userId.None? {
      // return None, 'User creation error'
      assert false;
    }
    ghost var d := NewUserDoc(newId, username, pwHash);
    FindInsertedById(old(users.docs), d);
    ObjectIdRoundTrip(newId);
    user := GetById(users.docs, userId.value);
    error := None;
  }

  /** What authenticate ends in: the user, no user, or the TypeError bcrypt
      raises when asked to check a missing (None) password. */
  datatype AuthOutcome = Authenticated(user: User) | Rejected | PasswordTypeError

  /** authenticate, with the request's fields as they arrive (None when
      missing): the user when the name exists and the password checks
      against its hash, otherwise no user. */
  function Authenticate(docs: seq<Doc>, username: Option<string>, password: Option<string>): (r: AuthOutcome)
    ensures r.Authenticated? <==>
      username.Some? && password.Some? && HasUsername(docs, username.value) &&
      CheckPassword(GetByUsername(docs, username.value).value, password.value)
    ensures r.Authenticated? ==> r.user == GetByUsername(docs, username.value).value
    ensures r.PasswordTypeError? <==> username.Some? && HasUsername(docs, username.value) && password.None?
  {
    // find_one({'username': None}) matches no stored document
    var user := if username.Some? then GetByUsername(docs, username.value) else None;
    match user
    case None => Rejected
    case Some(u) =>
      match password
      case None => PasswordTypeError
      case Some(p) => if CheckPasswordHash(u.passwordHash, p) then Authenticated(u) else Rejected
  }

  /** After a successful registration the new credentials authenticate as
      the registered user. */
  lemma RegisteredUserAuthenticates(
    docs: seq<Doc>, username: string, password: string, salt: string, newId: ObjectId)
    requires !HasUsername(docs, username)
    ensures var d := NewUserDoc(newId, username, GeneratePasswordHash(password, salt));
      Authenticate(docs + [d], Some(username), Some(password)) == Authenticated(NewUser(d))
  {
    var d := NewUserDoc(newId, username, GeneratePasswordHash(password, salt));
    FindAppendedByUsername(docs, d, username);
    CheckAcceptsHash(password, salt);
  }
}
