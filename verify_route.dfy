/** `POST /api/ticket/verify`: the door check a bodyguard or admin runs on a
    scanned ticket id. It reads the store and writes nothing, so verifying
    the same id twice gives the same answer. */
module VerifyRoute {
  import opened Types
  import Database

  predicate MayVerify(session: Option<Principal>)
  {
    session.Some? && (session.value.isBodyguard || session.value.isAdmin)
  }

  /** `ticket.findUnique({ where: { id } })`: the owner of the ticket with
      that id, if any. */
  function FindTicket(tickets: map<Id, Ticket>, ticketId: Id): (owner: Option<Id>)
    requires Database.TicketIdsUnique(tickets)
    ensures owner.Some? ==> owner.value in tickets && tickets[owner.value].id == ticketId
    ensures owner.None? ==> forall u :: u in tickets ==> tickets[u].id != ticketId
  {
    if exists u :: u in tickets && tickets[u].id == ticketId then
      Some(var u :| u in tickets && tickets[u].id == ticketId; u)
    else
      None
  }

  /** The verification decision: 403 for callers without the role, 400 for a
      missing id, 404 with `valid: false` and status "INVALID" for an unknown
      ticket, and otherwise 200 carrying the stored status, the owner's id,
      name and phone, and `valid` exactly when the status is ACTIVATED. */
  function Post(session: Option<Principal>, ticketId: Option<Id>,
                tickets: map<Id, Ticket>, users: map<Id, User>): (r: Response)
    requires Database.TicketIdsUnique(tickets)
    requires tickets.Keys <= users.Keys
    ensures !MayVerify(session) ==> r == Response(403, Failure("Bodyguard or admin access required"))
    ensures MayVerify(session) && ticketId.None? ==> r == Response(400, Failure("Ticket ID is required"))
    ensures MayVerify(session) && ticketId.Some? && (forall u :: u in tickets ==> tickets[u].id != ticketId.value) ==>
      r == Response(404, VerifyFailure(false, "Ticket not found", "INVALID"))
    ensures r.status == 200 ==>
      && MayVerify(session) && ticketId.Some? && r.body.Verified?
      && r.body.ticketId == ticketId.value
      && r.body.owner.id in tickets
      && tickets[r.body.owner.id] == Ticket(ticketId.value, r.body.status)
      && r.body.owner == Owner(r.body.owner.id, users[r.body.owner.id].name, users[r.body.owner.id].phone)
      && (r.body.valid <==> r.body.status == Activated)
    ensures MayVerify(session) && ticketId.Some? && (exists u :: u in tickets && tickets[u].id == ticketId.value) ==>
      r.status == 200
  {
    if !MayVerify(session) then
      Response(403, Failure("Bodyguard or admin access required"))
    else if ticketId.None? then
      Response(400, Failure("Ticket ID is required"))
    else
      match FindTicket(tickets, ticketId.value)
      case None => Response(404, VerifyFailure(false, "Ticket not found", "INVALID"))
      case Some(owner) =>
        var ticket := tickets[owner];
        Response(200, Verified(ticket.status == Activated, ticket.id, ticket.status,
                               Owner(owner, users[owner].name, users[owner].phone)))
  }
}
