/** `GET /api/ticket`: the caller's ticket, created on first access. */
module TicketRoute {
  import opened Types
  import Database

  /** Returns the caller's ticket, creating a `NOT_ACTIVATED` one when the
      caller has none. Creating it fails (500) when the caller's user row is
      gone, because the ticket's foreign key cannot be satisfied. */
  method Get(db: Database.Store, session: Option<Principal>) returns (r: Response)
    requires db.Valid()
    modifies db`tickets, db`nextId
    ensures db.Valid()
    ensures session.None? ==>
      r == Unauthorized() && db.tickets == old(db.tickets) && db.nextId == old(db.nextId)
    ensures session.Some? && session.value.id in old(db.tickets) ==>
      && r == Response(200, TicketBody(session.value.id, old(db.tickets)[session.value.id]))
      && db.tickets == old(db.tickets) && db.nextId == old(db.nextId)
    ensures session.Some? && session.value.id !in old(db.tickets) && session.value.id in db.users ==>
      && db.tickets == old(db.tickets)[session.value.id := Ticket(old(db.nextId), NotActivated)]
      && db.nextId == old(db.nextId) + 1
      && r == Response(200, TicketBody(session.value.id, Ticket(old(db.nextId), NotActivated)))
    ensures session.Some? && session.value.id !in old(db.tickets) && session.value.id !in db.users ==>
      && r == Response(500, Failure("Failed to fetch ticket"))
      && db.tickets == old(db.tickets) && db.nextId == old(db.nextId)
  {
    if session.None? {
      return Unauthorized();
    }
    var userId := session.value.id;
    if userId in db.tickets {
      return Response(200, TicketBody(userId, db.tickets[userId]));
    }
    if userId !in db.users {
      return Response(500, Failure("Failed to fetch ticket"));
    }
    var ticket := Ticket(db.nextId, NotActivated);
    db.tickets := db.tickets[userId := ticket];
    db.nextId := db.nextId + 1;
    r := Response(200, TicketBody(userId, ticket));
  }

  /** Two calls in a row: the second finds the ticket the first returned or
      created, so it answers the same and writes nothing; the caller never
      holds more than the one ticket its user id keys. */
  method GetTwice(db: Database.Store, session: Option<Principal>) returns (first: Response, second: Response)
    requires db.Valid()
    modifies db`tickets, db`nextId
    ensures db.Valid()
    ensures second == first
    ensures session.Some? && first.status == 200 ==> session.value.id in db.tickets
    ensures db.tickets.Keys <= old(db.tickets.Keys) + (if session.Some? then {session.value.id} else {})
    ensures forall u :: u in old(db.tickets) ==> u in db.tickets && db.tickets[u] == old(db.tickets)[u]
  {
    first := Get(db, session);
    second := Get(db, session);
  }
}
