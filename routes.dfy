/** The server's account routes: status-code decisions over the request's
    fields and the repository's answers, and the logged-in user that
    Flask-Login keeps in the session. */
module Routes {
  import opened Common
  import opened Store
  import opened Models
  import opened Repository

  /** A reply: a status and a JSON body, the reply Flask-Login gives to a
      login_required route without a logged-in user, or a 500 raised by an
      uncaught exception. */
  datatype Reply = Reply(status: int, body: Json) | Unauthorized | InternalServerError

  function MessageBody(text: string): Json { JObj(map["message" := JStr(text)]) }
  function ErrorBody(text: string): Json { JObj(map["error" := JStr(text)]) }

  /** Python truthiness of a request field: present and not empty. */
  predicate Truthy(field: Option<string>)
  {
    field.Some? && field.value != ""
  }

  class App {
    const users: UsersCollection
    /** The user id login_user stored in the client's session, if any. */
    var session: Option<string>

    constructor (users: UsersCollection)
      ensures this.users == users && session.None?
    {
      this.users := users;
      session := None;
    }

    /** load_user: the user whose id the session holds. */
    function LoadUser(userId: string): (u: Option<User>)
      reads users
      ensures u.Some? ==> ParseObjectId(userId).Some? && u.value.id == LowerHex(userId)
    {
      GetById(users.docs, userId)
    }

    /** current_user: the user loaded from the session's id; nobody when the
        session is empty or the id no longer names a user. */
    function CurrentUser(): (u: Option<User>)
      reads this, users
      ensures u.Some? ==> session.Some? && u == LoadUser(session.value)
    {
      match session
      case None => None
      case Some(id) => LoadUser(id)
    }

    /** POST /register: 400 without a username or password; 409 with the
        repository's error; otherwise the new user is logged in. */
    method Register(username: Option<string>, password: Option<string>, salt: string, newId: ObjectId)
      returns (reply: Reply)
      requires users.Valid() && !HasId(users.docs, newId)
      modifies this, users
      ensures users.Valid()
      ensures !Truthy(username) || !Truthy(password) ==>
        reply == Reply(400, ErrorBody("Username and password required")) &&
        users.docs == old(users.docs) && session == old(session)
      ensures Truthy(username) && Truthy(password) && HasUsername(old(users.docs), username.value) ==>
        reply == Reply(409, ErrorBody(USERNAME_TAKEN)) &&
        users.docs == old(users.docs) && session == old(session)
      ensures Truthy(username) && Truthy(password) && !HasUsername(old(users.docs), username.value) ==>
        var d := NewUserDoc(newId, username.value, GeneratePasswordHash(password.value, salt));
        reply == Reply(200, MessageBody("Registration successful")) &&
        users.docs == old(users.docs) + [d] &&
        session == Some(ObjectIdString(newId)) && CurrentUser() == Some(NewUser(d))
      ensures UniqueUsernames(old(users.docs)) ==> UniqueUsernames(users.docs)
    {
      if !Truthy(username) || !Truthy(password) {
        return Reply(400, ErrorBody("Username and password required"));
      }
      var user, error := Repository.Register(users, username.value, password.value, salt, newId);
      if error.Some? {
        return Reply(409, ErrorBody(error.value));
      }
      ghost var d := NewUserDoc(newId, username.value, GeneratePasswordHash(password.value, salt));
      // login_user(user)
      session := Some(user.value.id);
      assert users.docs == old(users.docs) + [d];
      GetByIdOfStoredUser(users.docs, |users.docs| - 1);
      reply := Reply(200, MessageBody("Registration successful"));
    }

    /** POST /login: the user is logged in exactly when authenticate returns
        one; otherwise 401 with the session unchanged (or a 500 when the
        password is missing for an existing name). */
    method Login(username: Option<string>, password: Option<string>) returns (reply: Reply)
      modifies this
      ensures Authenticate(users.docs, username, password).Authenticated? ==>
        reply == Reply(200, MessageBody("Login successful")) &&
        session == Some(Authenticate(users.docs, username, password).user.id)
      ensures Authenticate(users.docs, username, password).Rejected? ==>
        reply == Reply(401, ErrorBody("Invalid credentials")) && session == old(session)
      ensures Authenticate(users.docs, username, password).PasswordTypeError? ==>
        reply == InternalServerError && session == old(session)
    {
      var outcome := Authenticate(users.docs, username, password);
      match outcome
      case Authenticated(user) =>
        session := Some(user.id);
        reply := Reply(200, MessageBody("Login successful"));
      case Rejected =>
        reply := Reply(401, ErrorBody("Invalid credentials"));
      case PasswordTypeError =>
        reply := InternalServerError;
    }

    /** GET /logout (login required): clears the logged-in user. */
    method Logout() returns (reply: Reply)
      modifies this
      ensures old(CurrentUser()).None? ==> reply == Unauthorized && session == old(session)
      ensures old(CurrentUser()).Some? ==>
        reply == Reply(200, MessageBody("Logout successful")) && session.None? && CurrentUser().None?
    {
      if CurrentUser().None? {
        return Unauthorized;
      }
      session := None;
      reply := Reply(200, MessageBody("Logout successful"));
    }

    /** GET /profile (login required): the current user's username. */
    function Profile(): (reply: Reply)
      reads this, users
      ensures CurrentUser().None? <==> reply == Unauthorized
      ensures CurrentUser().Some? ==>
        reply.Reply? && reply.status == 200 &&
        Member(reply.body, "username") == Some(JStr(CurrentUser().value.username))
    {
      match CurrentUser()
      case None => Unauthorized
      case Some(u) => Reply(200, JObj(map["username" := JStr(u.username)]))
    }
  }

  /** With unique ids, after a successful login the profile shows the name
      that logged in. */
  method LoginThenProfile(app: App, username: string, password: string) returns (login: Reply, profile: Reply)
    requires app.users.Valid()
    requires Authenticate(app.users.docs, Some(username), Some(password)).Authenticated?
    modifies app
    ensures login == Reply(200, MessageBody("Login successful"))
    ensures profile == Reply(200, JObj(map["username" := JStr(username)]))
  {
    ghost var docs := app.users.docs;
    login := app.Login(Some(username), Some(password));
    ghost var d := FindByUsername(docs, username).value;
    ghost var k :| 0 <= k < |docs| && docs[k] == d;
    GetByIdOfStoredUser(docs, k);
    profile := app.Profile();
  }
}
