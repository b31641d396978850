/** The server's User model: built from a `users` document with defaults
    for the optional fields, created with a hashed password, and checked
    against a password through bcrypt. */
module Models {
  import opened Common
  import opened Store

  datatype User = User(id: string, username: string, passwordHash: PasswordHash, count: Json, achievements: Json)

  /** User.__init__: the id as its hex string, the username, the stored hash,
      and `count` (default 0) and `achievements` (default []) when present. */
  function NewUser(d: Doc): (u: User)
    ensures ParseObjectId(u.id) == Some(d.id)
    ensures u.username == d.username && u.passwordHash == d.password
    ensures u.count == if d.count.Some? then d.count.value else JNum(0.0)
    ensures u.achievements == if d.achievements.Some? then d.achievements.value else JArr([])
  {
    ObjectIdRoundTrip(d.id);
    User(
      ObjectIdString(d.id), d.username, d.password,
      match d.count case Some(c) => c case None => JNum(0.0),
      match d.achievements case Some(a) => a case None => JArr([]))
  }

  /** User.from_mongo: no user for a missing document. */
  function FromMongo(userData: Option<Doc>): (u: Option<User>)
    ensures u.None? <==> userData.None?
    ensures u.Some? ==>
      ParseObjectId(u.value.id) == Some(userData.value.id) &&
      u.value.username == userData.value.username &&
      u.value.passwordHash == userData.value.password
  {
    match userData
    case None => None
    case Some(d) => Some(NewUser(d))
  }

  /** User.check_password. */
  function CheckPassword(u: User, password: string): (ok: bool)
    ensures ok <==> u.passwordHash == GeneratePasswordHash(password, u.passwordHash.salt)
  {
    CheckPasswordHash(u.passwordHash, password)
  }

  /** The document the registration code inserts for a new user. */
  function NewUserDoc(id: ObjectId, username: string, pwHash: PasswordHash): Doc
  {
    Doc(id, username, pwHash, None, None)
  }

  /** A freshly created user has no measurements yet, no achievements,
      stores the hash rather than the password, and accepts its password. */
  lemma CreatedUserDefaults(id: ObjectId, username: string, password: string, salt: string)
    ensures var u := NewUser(NewUserDoc(id, username, GeneratePasswordHash(password, salt)));
      u.count == JNum(0.0) && u.achievements == JArr([]) &&
      u.passwordHash == GeneratePasswordHash(password, salt) &&
      CheckPassword(u, password)
  {
    CheckAcceptsHash(password, salt);
  }

  /** User.create_user: refuses a taken username; otherwise hashes the
      password, inserts the document and returns the user built from it. */
  method CreateUser(users: UsersCollection, username: string, password: string, salt: string, newId: ObjectId)
    returns (user: Option<User>)
    requires users.Valid() && !HasId(users.docs, newId)
    modifies users
    ensures users.Valid()
    ensures HasUsername(old(users.docs), username) ==> user.None? && users.docs == old(users.docs)
    ensures !HasUsername(old(users.docs), username) ==>
      var d := NewUserDoc(newId, username, GeneratePasswordHash(password, salt));
      users.docs == old(users.docs) + [d] && user == Some(NewUser(d))
    ensures UniqueUsernames(old(users.docs)) ==> UniqueUsernames(users.docs)
  {
    if FindByUsername(users.docs, username).Some? {
      return None;
    }
    var pwHash := GeneratePasswordHash(password, salt);
    AppendKeepsUsernamesUnique(users.docs, NewUserDoc(newId, username, pwHash));
    var userId := users.InsertOne(username, pwHash, newId);
    user := Some(NewUser(NewUserDoc(userId, username, pwHash)));
  }
}
