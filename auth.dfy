/** Credentials sign-in and the two callbacks that carry the signed-in user
    from the sign-in into the JWT and from the JWT into the session. */
module Auth {
  import opened Types
  import Database
  import ServerLogger
  import RegisterRoute

  /** The user object `authorize` hands to the authentication library. */
  datatype AuthUser = AuthUser(id: Id, name: string, email: string, phone: string, isAdmin: bool, isBodyguard: bool)

  /** `authorize` either returns a user or throws an error with a message. */
  datatype AuthResult = SignedIn(user: AuthUser) | Rejected(error: string)

  function AuthUserOf(id: Id, u: User): AuthUser
  {
    AuthUser(id, u.name, u.email, u.phone, u.isAdmin, u.isBodyguard)
  }

  /** The checks in order: both credentials present, a user with that
      phone, a verified e-mail (before the password is looked at), the
      password. Success carries the stored identity and roles. */
  function Authorize(users: map<Id, User>, phone: Option<string>, password: Option<string>): (r: AuthResult)
    requires Database.PhonesUnique(users)
    ensures Falsy(phone) || Falsy(password) ==> r == Rejected("Phone and password required")
    ensures !Falsy(phone) && !Falsy(password) && !Database.PhoneTaken(users, phone.value) ==>
      r == Rejected("User not found")
    ensures forall u :: !Falsy(phone) && !Falsy(password) && u in users && users[u].phone == phone.value ==>
      && (!users[u].emailVerified ==> r == Rejected("Please verify your email first"))
      && (users[u].emailVerified && !PasswordMatches(password.value, users[u].password) ==>
            r == Rejected("Invalid password"))
      && (users[u].emailVerified && PasswordMatches(password.value, users[u].password) ==>
            r == SignedIn(AuthUserOf(u, users[u])))
  {
    if Falsy(phone) || Falsy(password) then Rejected("Phone and password required")
    else
      match Database.UserWithPhone(users, phone.value)
      case None => Rejected("User not found")
      case Some(u) =>
        if !users[u].emailVerified then Rejected("Please verify your email first")
        else if !PasswordMatches(password.value, users[u].password) then Rejected("Invalid password")
        else SignedIn(AuthUserOf(u, users[u]))
  }

  /** A successful sign-in also logs "LOGIN"; the log call's failure is
      ignored. */
  method SignIn(db: Database.Store, phone: Option<string>, password: Option<string>, now: int) returns (r: AuthResult)
    requires db.Valid()
    modifies db`logs
    ensures r == Authorize(db.users, phone, password)
    ensures r.Rejected? ==> db.logs == old(db.logs)
    ensures r.SignedIn? ==>
      db.logs == ServerLogger.Logged(old(db.logs), db.users, r.user.id, "LOGIN", Some("User logged in"), None, now)
  {
    r := Authorize(db.users, phone, password);
    if r.SignedIn? {
      ServerLogger.LogAction(db, r.user.id, ServerLogger.Login, Some("User logged in"), None, now);
    }
  }

  /** Whoever has just registered can sign in with the phone and password
      they registered with, as the user registration created. */
  lemma RegisteredUserSignsIn(users: map<Id, User>, id: Id, name: string, email: string, phone: string,
                              password: string)
    requires id !in users && phone != "" && password != ""
    requires Database.PhonesUnique(users) && !Database.PhoneTaken(users, phone)
    ensures var users' := users[id := RegisterRoute.NewUser(name, email, phone, password)];
      && Database.PhonesUnique(users')
      && Authorize(users', Some(phone), Some(password))
         == SignedIn(AuthUser(id, name, email, phone, false, false))
  {
    var users' := users[id := RegisterRoute.NewUser(name, email, phone, password)];
    assert Database.PhonesUnique(users') by {
      forall u, v | u in users' && v in users' && users'[u].phone == users'[v].phone ensures u == v {
        if u != id && v != id {
          assert users'[u] == users[u] && users'[v] == users[v];
        }
      }
    }
    assert users'[id].phone == phone;
  }

  /** The JWT's own fields. */
  class Token {
    var id: Option<Id>
    var email: Option<string>
    var phone: Option<string>
    var isAdmin: Option<bool>
    var isBodyguard: Option<bool>

    constructor ()
      ensures id.None? && email.None? && phone.None? && isAdmin.None? && isBodyguard.None?
    {
      id := None;
      email := None;
      phone := None;
      isAdmin := None;
      isBodyguard := None;
    }

    /** The `jwt` callback: at sign-in, when a user is passed, copies its
        identity and roles into the token; otherwise leaves the token as it
        is. */
    method Jwt(user: Option<AuthUser>)
      modifies this
      ensures user.None? ==>
        id == old(id) && email == old(email) && phone == old(phone)
        && isAdmin == old(isAdmin) && isBodyguard == old(isBodyguard)
      ensures user.Some? ==>
        && id == Some(user.value.id) && email == Some(user.value.email) && phone == Some(user.value.phone)
        && isAdmin == Some(user.value.isAdmin) && isBodyguard == Some(user.value.isBodyguard)
    {
      if user.Some? {
        id := Some(user.value.id);
        email := Some(user.value.email);
        phone := Some(user.value.phone);
        isAdmin := Some(user.value.isAdmin);
        isBodyguard := Some(user.value.isBodyguard);
      }
    }
  }

  /** The session object; `hasUser` says whether `session.user` is set. */
  class Session {
    var hasUser: bool
    var name: Option<string>
    var id: Option<Id>
    var email: Option<string>
    var phone: Option<string>
    var isAdmin: Option<bool>
    var isBodyguard: Option<bool>

    constructor (hasUser: bool, name: Option<string>)
      ensures this.hasUser == hasUser && this.name == name
      ensures id.None? && email.None? && phone.None? && isAdmin.None? && isBodyguard.None?
    {
      this.hasUser := hasUser;
      this.name := name;
      id := None;
      email := None;
      phone := None;
      isAdmin := None;
      isBodyguard := None;
    }

    /** The `session` callback: when the session has a user, copies id,
        e-mail, phone and both roles from the token onto it; the name is
        not touched. Without a user the session is unchanged. */
    method FromToken(token: Token)
      modifies this
      ensures hasUser == old(hasUser) && name == old(name)
      ensures !hasUser ==>
        id == old(id) && email == old(email) && phone == old(phone)
        && isAdmin == old(isAdmin) && isBodyguard == old(isBodyguard)
      ensures hasUser ==>
        id == token.id && email == token.email && phone == token.phone
        && isAdmin == token.isAdmin && isBodyguard == token.isBodyguard
    {
      if hasUser {
        id := token.id;
        email := token.email;
        phone := token.phone;
        isAdmin := token.isAdmin;
        isBodyguard := token.isBodyguard;
      }
    }
  }

  /** Sign-in followed by both callbacks: the session ends up with the
      stored id and roles of the user that signed in. */
  method SignInSession(users: map<Id, User>, phone: Option<string>, password: Option<string>,
                       token: Token, session: Session) returns (r: AuthResult)
    requires Database.PhonesUnique(users)
    requires token != session as object
    requires session.hasUser
    modifies token, session
    ensures r == Authorize(users, phone, password)
    ensures r.SignedIn? ==>
      && r.user.id in users
      && session.id == Some(r.user.id)
      && session.isAdmin == Some(users[r.user.id].isAdmin)
      && session.isBodyguard == Some(users[r.user.id].isBodyguard)
  {
    r := Authorize(users, phone, password);
    token.Jwt(if r.SignedIn? then Some(r.user) else None);
    session.FromToken(token);
  }
}
