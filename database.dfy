/** The application's database, as the routes see it through the ORM: one
    object whose tables are maps and sequences that the routes rewrite. */
module Database {
  import opened Types

  /** Unique columns `User.email` and `User.phone`. */
  ghost predicate EmailsUnique(users: map<Id, User>)
  {
    forall u, v :: u in users && v in users && users[u].email == users[v].email ==> u == v
  }

  ghost predicate PhonesUnique(users: map<Id, User>)
  {
    forall u, v :: u in users && v in users && users[u].phone == users[v].phone ==> u == v
  }

  /** Unique column `Ticket.id` (the QR payload). */
  ghost predicate TicketIdsUnique(tickets: map<Id, Ticket>)
  {
    forall u, v :: u in tickets && v in tickets && tickets[u].id == tickets[v].id ==> u == v
  }

  predicate EmailTaken(users: map<Id, User>, email: string)
  {
    exists u :: u in users && users[u].email == email
  }

  predicate PhoneTaken(users: map<Id, User>, phone: string)
  {
    exists u :: u in users && users[u].phone == phone
  }

  /** `user.findUnique({ where: { email } })`: unique because the column is. */
  function UserWithEmail(users: map<Id, User>, email: string): (r: Option<Id>)
    requires EmailsUnique(users)
    ensures r.None? <==> !EmailTaken(users, email)
    ensures r.Some? ==> r.value in users && users[r.value].email == email
  {
    if EmailTaken(users, email) then
      var u :| u in users && users[u].email == email;
      Some(u)
    else None
  }

  /** `user.findUnique({ where: { phone } })`. */
  function UserWithPhone(users: map<Id, User>, phone: string): (r: Option<Id>)
    requires PhonesUnique(users)
    ensures r.None? <==> !PhoneTaken(users, phone)
    ensures r.Some? ==> r.value in users && users[r.value].phone == phone
  {
    if PhoneTaken(users, phone) then
      var u :| u in users && users[u].phone == phone;
      Some(u)
    else None
  }

  predicate HasEventNamed(events: seq<Event>, name: string)
  {
    exists k :: 0 <= k < |events| && events[k].name == name
  }

  /** `event.findFirst({ where: { name } })`: the earliest stored event with
      that name. */
  function FirstEventNamed(events: seq<Event>, name: string): (r: Option<nat>)
    ensures r.None? <==> !HasEventNamed(events, name)
    ensures r.Some? ==> r.value < |events| && events[r.value].name == name
    ensures r.Some? ==> forall k :: 0 <= k < r.value ==> events[k].name != name
  {
    if events == [] then None
    else if events[0].name == name then Some(0)
    else
      match FirstEventNamed(events[1..], name)
      case None => None
      case Some(k) => Some(k + 1)
  }

  /** The `joining` flag of a user's registration for an event: absent, or
      present with its value. */
  predicate Joined(regs: map<(Id, Id), bool>, userId: Id, eventId: Id)
  {
    (userId, eventId) in regs && regs[(userId, eventId)]
  }

  /** The constraints of a store's tables, stated on their values. */
  ghost predicate Consistent(users: map<Id, User>, tickets: map<Id, Ticket>, performances: seq<Performance>,
                             registrations: set<(Id, Id)>, nextId: Id)
  {
    && (forall u :: u in users ==> u < nextId)
    && EmailsUnique(users)
    && PhonesUnique(users)
    && (forall u :: u in tickets ==> u in users && tickets[u].id < nextId)
    && TicketIdsUnique(tickets)
    && (forall i :: 0 <= i < |performances| ==>
          performances[i].creatorId in users && performances[i].id < nextId)
    && (forall r :: r in registrations ==> r.0 in users && r.1 < nextId)
  }

  /** Registration's write: a user with an unused e-mail and phone at the next
      identifier, and that user's ticket at the one after, keep every
      constraint. */
  lemma AddUserWithTicket(users: map<Id, User>, tickets: map<Id, Ticket>, performances: seq<Performance>,
                          registrations: set<(Id, Id)>, nextId: Id, user: User, status: TicketStatus)
    requires Consistent(users, tickets, performances, registrations, nextId)
    requires !EmailTaken(users, user.email) && !PhoneTaken(users, user.phone)
    ensures nextId !in users && nextId !in tickets
    ensures Consistent(users[nextId := user], tickets[nextId := Ticket(nextId + 1, status)],
                       performances, registrations, nextId + 2)
  {
    var users' := users[nextId := user];
    var tickets' := tickets[nextId := Ticket(nextId + 1, status)];
    assert EmailsUnique(users') by {
      forall u, v | u in users' && v in users' && users'[u].email == users'[v].email ensures u == v {
        if u != nextId && v != nextId {
          assert users'[u] == users[u] && users'[v] == users[v];
        }
      }
    }
    assert PhonesUnique(users') by {
      forall u, v | u in users' && v in users' && users'[u].phone == users'[v].phone ensures u == v {
        if u != nextId && v != nextId {
          assert users'[u] == users[u] && users'[v] == users[v];
        }
      }
    }
  }

  /** A user alone, with an unused e-mail and phone, at the next identifier
      keeps every constraint. */
  lemma AddUser(users: map<Id, User>, tickets: map<Id, Ticket>, performances: seq<Performance>,
                registrations: set<(Id, Id)>, nextId: Id, user: User)
    requires Consistent(users, tickets, performances, registrations, nextId)
    requires !EmailTaken(users, user.email) && !PhoneTaken(users, user.phone)
    ensures nextId !in users
    ensures Consistent(users[nextId := user], tickets, performances, registrations, nextId + 1)
  {
    var users' := users[nextId := user];
    assert EmailsUnique(users') by {
      forall u, v | u in users' && v in users' && users'[u].email == users'[v].email ensures u == v {
        if u != nextId && v != nextId {
          assert users'[u] == users[u] && users'[v] == users[v];
        }
      }
    }
    assert PhonesUnique(users') by {
      forall u, v | u in users' && v in users' && users'[u].phone == users'[v].phone ensures u == v {
        if u != nextId && v != nextId {
          assert users'[u] == users[u] && users'[v] == users[v];
        }
      }
    }
  }

  /** Rewriting user rows without adding or removing any and without
      touching their e-mails or phones keeps every constraint. */
  lemma SameContactsKeepConsistent(users: map<Id, User>, users': map<Id, User>, tickets: map<Id, Ticket>,
                                   performances: seq<Performance>, registrations: set<(Id, Id)>, nextId: Id)
    requires Consistent(users, tickets, performances, registrations, nextId)
    requires users'.Keys == users.Keys
    requires forall v :: v in users ==> users'[v].email == users[v].email && users'[v].phone == users[v].phone
    ensures Consistent(users', tickets, performances, registrations, nextId)
  {
  }

  /** The single-row case: one user rewritten, contacts kept. */
  lemma UpdateUserKeepsConsistent(users: map<Id, User>, tickets: map<Id, Ticket>, performances: seq<Performance>,
                                  registrations: set<(Id, Id)>, nextId: Id, u: Id, user: User)
    requires Consistent(users, tickets, performances, registrations, nextId)
    requires u in users && user.email == users[u].email && user.phone == users[u].phone
    ensures Consistent(users[u := user], tickets, performances, registrations, nextId)
  {
    SameContactsKeepConsistent(users, users[u := user], tickets, performances, registrations, nextId);
  }

  class Store {
    var users: map<Id, User>
    /** Tickets by owner: the unique `Ticket.userId` column is the key. */
    var tickets: map<Id, Ticket>
    /** Performances in insertion order. */
    var performances: seq<Performance>
    /** Pairs (userId, performanceId), unique per pair. */
    var performanceRegistrations: set<(Id, Id)>
    var votes: seq<Vote>
    /** Events in insertion order. */
    var events: seq<Event>
    /** (userId, eventId) to the registration's `joining` flag. */
    var eventRegistrations: map<(Id, Id), bool>
    /** Verification codes in insertion order. */
    var codes: seq<VerificationCode>
    /** The single settings row, if it has been created. */
    var settings: Option<AppSettings>
    var logs: seq<LogEntry>
    var tasks: seq<Task>
    var feedback: seq<Feedback>
    /** The next identifier the database will hand out. */
    var nextId: Id

    /** The database's constraints the model relies on: fresh identifiers,
        unique columns, and the foreign keys of tickets, performances and
        performance registrations. */
    ghost predicate Valid()
      reads this`users, this`tickets, this`performances, this`performanceRegistrations, this`nextId
    {
      Consistent(users, tickets, performances, performanceRegistrations, nextId)
    }

    constructor ()
      ensures Valid()
      ensures users == map[] && tickets == map[] && performances == []
      ensures performanceRegistrations == {} && votes == [] && events == []
      ensures eventRegistrations == map[] && codes == [] && settings == None
      ensures logs == [] && tasks == [] && feedback == [] && nextId == 0
    {
      users := map[];
      tickets := map[];
      performances := [];
      performanceRegistrations := {};
      votes := [];
      events := [];
      eventRegistrations := map[];
      codes := [];
      settings := None;
      logs := [];
      tasks := [];
      feedback := [];
      nextId := 0;
    }
  }
}
