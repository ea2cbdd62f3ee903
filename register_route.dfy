/** `POST /api/auth/register`: account creation guarded by a single-use
    e-mail code. */
module RegisterRoute {
  import opened Types
  import Database
  import Email

  /** The user row registration creates. */
  function NewUser(name: string, email: string, phone: string, password: string): User
  {
    User(name, email, phone, BcryptHash(password), true, false, false, 0, "")
  }

  predicate MissingField(name: Option<string>, email: Option<string>, phone: Option<string>,
                         password: Option<string>, code: Option<string>)
  {
    Falsy(name) || Falsy(email) || Falsy(phone) || Falsy(password) || Falsy(code)
  }

  /** The code is consumed before the duplicate checks, so a rejected
      duplicate still burns it. On success exactly one user, with a verified
      e-mail, and exactly one NOT_ACTIVATED ticket for that user are created. */
  method Post(db: Database.Store, name: Option<string>, email: Option<string>, phone: Option<string>,
              password: Option<string>, verificationCode: Option<string>, now: int) returns (r: Response)
    requires db.Valid()
    modifies db`codes, db`users, db`tickets, db`nextId
    ensures db.Valid()
    ensures MissingField(name, email, phone, password, verificationCode) ==>
      && r == Response(400, Failure("Name, email, phone, password, and verification code are required"))
      && db.codes == old(db.codes) && db.users == old(db.users)
      && db.tickets == old(db.tickets) && db.nextId == old(db.nextId)
    ensures !MissingField(name, email, phone, password, verificationCode) ==>
      db.codes == Email.Consume(old(db.codes), email.value, verificationCode.value, now)
    ensures !MissingField(name, email, phone, password, verificationCode)
            && Email.FirstUsable(old(db.codes), email.value, verificationCode.value, now).None? ==>
      && r == Response(400, Failure("Invalid or expired verification code"))
      && db.users == old(db.users) && db.tickets == old(db.tickets) && db.nextId == old(db.nextId)
    ensures !MissingField(name, email, phone, password, verificationCode)
            && Email.FirstUsable(old(db.codes), email.value, verificationCode.value, now).Some?
            && Database.EmailTaken(old(db.users), email.value) ==>
      && r == Response(400, Failure("User with this email already exists"))
      && db.users == old(db.users) && db.tickets == old(db.tickets) && db.nextId == old(db.nextId)
    ensures !MissingField(name, email, phone, password, verificationCode)
            && Email.FirstUsable(old(db.codes), email.value, verificationCode.value, now).Some?
            && !Database.EmailTaken(old(db.users), email.value)
            && Database.PhoneTaken(old(db.users), phone.value) ==>
      && r == Response(400, Failure("User with this phone number already exists"))
      && db.users == old(db.users) && db.tickets == old(db.tickets) && db.nextId == old(db.nextId)
    ensures r.status == 201 <==>
      && !MissingField(name, email, phone, password, verificationCode)
      && Email.FirstUsable(old(db.codes), email.value, verificationCode.value, now).Some?
      && !Database.EmailTaken(old(db.users), email.value)
      && !Database.PhoneTaken(old(db.users), phone.value)
    ensures r.status == 201 ==>
      && r == Response(201, Registered(old(db.nextId)))
      && old(db.nextId) !in old(db.users) && old(db.nextId) !in old(db.tickets)
      && db.users == old(db.users)[old(db.nextId) := NewUser(name.value, email.value, phone.value, password.value)]
      && db.tickets == old(db.tickets)[old(db.nextId) := Ticket(old(db.nextId) + 1, NotActivated)]
      && db.nextId == old(db.nextId) + 2
  {
    if MissingField(name, email, phone, password, verificationCode) {
      return Response(400, Failure("Name, email, phone, password, and verification code are required"));
    }
    var isValidCode := Email.VerifyEmailCode(db, email.value, verificationCode.value, now);
    if !isValidCode {
      return Response(400, Failure("Invalid or expired verification code"));
    }
    if Database.EmailTaken(db.users, email.value) {
      return Response(400, Failure("User with this email already exists"));
    }
    if Database.PhoneTaken(db.users, phone.value) {
      return Response(400, Failure("User with this phone number already exists"));
    }
    var userId := CreateUserWithTicket(db, NewUser(name.value, email.value, phone.value, password.value));
    r := Response(201, Registered(userId));
  }

  /** `user.create` followed by `ticket.create` for the new user: the user
      takes the next identifier and the ticket the one after. */
  method CreateUserWithTicket(db: Database.Store, user: User) returns (userId: Id)
    requires db.Valid()
    requires !Database.EmailTaken(db.users, user.email) && !Database.PhoneTaken(db.users, user.phone)
    modifies db`users, db`tickets, db`nextId
    ensures db.Valid()
    ensures userId == old(db.nextId) && userId !in old(db.users) && userId !in old(db.tickets)
    ensures db.users == old(db.users)[userId := user]
    ensures db.tickets == old(db.tickets)[userId := Ticket(userId + 1, NotActivated)]
    ensures db.nextId == old(db.nextId) + 2
  {
    userId := db.nextId;
    Database.AddUserWithTicket(db.users, db.tickets, db.performances, db.performanceRegistrations, userId,
                               user, NotActivated);
    db.users := db.users[userId := user];
    db.tickets := db.tickets[userId := Ticket(userId + 1, NotActivated)];
    db.nextId := db.nextId + 2;
  }
}
