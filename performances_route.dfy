/** `GET` and `POST /api/performances`: the performance list, newest first,
    and creating a performance, which registers its creator, marks the
    creator's ticket as awaiting payment and joins the creator to the
    "Performance" event when that event exists. */
module PerformancesRoute {
  import opened Types
  import Database
  import Sorting
  import PerformanceSync

  function CreatedAt(p: Performance): int { p.createdAt }

  /** All performances ordered by creation time, newest first. */
  function Get(performances: seq<Performance>): (r: Response)
    ensures r.status == 200 && r.body.PerformanceList?
    ensures Sorting.SortedDesc(r.body.performances, CreatedAt)
    ensures multiset(r.body.performances) == multiset(performances)
  {
    Response(200, PerformanceList(Sorting.SortDesc(performances, CreatedAt)))
  }

  /** `maxParticipants || 3`: a missing value and zero both become 3. */
  function MaxParticipantsOrDefault(m: Option<int>): int
  {
    if m.None? || m.value == 0 then 3 else m.value
  }

  /** The performance row the route creates. */
  function NewPerformance(id: Id, name: string, description: Option<string>, maxParticipants: Option<int>,
                          creatorId: Id, now: int): Performance
  {
    Performance(id, name, NullIfEmpty(description), MaxParticipantsOrDefault(maxParticipants), creatorId, now)
  }

  /** The registrations after the creator's upsert: joined when the event
      exists, unchanged otherwise. */
  function JoinCreator(regs: map<(Id, Id), bool>, events: seq<Event>, userId: Id): (r: map<(Id, Id), bool>)
    ensures PerformanceSync.PerformanceEventId(events).Some? ==>
      r == PerformanceSync.JoinAll(regs, {userId}, PerformanceSync.PerformanceEventId(events).value)
    ensures PerformanceSync.PerformanceEventId(events).None? ==> r == regs
  {
    match PerformanceSync.PerformanceEventId(events)
    case None => regs
    case Some(e) =>
      PerformanceSync.JoinAllExactly(regs, regs[(userId, e) := true], {userId}, e);
      regs[(userId, e) := true]
  }

  /** 401 without a session and 400 without a name, with nothing written.
      The performance insert fails (500, nothing written) when the caller's
      user row is gone. Otherwise the performance and the creator's
      registration are stored; if the creator has no ticket the ticket
      update fails and the route answers 500 with those two rows kept;
      else the ticket becomes PAYMENT_PENDING, the creator joins the
      "Performance" event if it exists, and the route answers 201. */
  method Post(db: Database.Store, session: Option<Principal>, name: Option<string>, description: Option<string>,
              maxParticipants: Option<int>, now: int) returns (r: Response)
    requires db.Valid()
    modifies db`performances, db`performanceRegistrations, db`tickets, db`eventRegistrations, db`nextId
    ensures db.Valid()
    ensures session.None? || Falsy(name) || session.value.id !in db.users ==>
      && db.performances == old(db.performances) && db.performanceRegistrations == old(db.performanceRegistrations)
      && db.tickets == old(db.tickets) && db.eventRegistrations == old(db.eventRegistrations)
      && db.nextId == old(db.nextId)
    ensures session.None? ==> r == Unauthorized()
    ensures session.Some? && Falsy(name) ==> r == Response(400, Failure("Performance name is required"))
    ensures session.Some? && !Falsy(name) && session.value.id !in db.users ==>
      r == Response(500, Failure("Failed to create performance"))
    ensures session.Some? && !Falsy(name) && session.value.id in db.users ==>
      && db.performances == old(db.performances) + [NewPerformance(old(db.nextId), name.value, description, maxParticipants, session.value.id, now)]
      && db.performanceRegistrations == old(db.performanceRegistrations) + {(session.value.id, old(db.nextId))}
      && db.nextId == old(db.nextId) + 1
    ensures session.Some? && !Falsy(name) && session.value.id in db.users && session.value.id !in old(db.tickets) ==>
      && r == Response(500, Failure("Failed to create performance"))
      && db.tickets == old(db.tickets) && db.eventRegistrations == old(db.eventRegistrations)
    ensures session.Some? && !Falsy(name) && session.value.id in db.users && session.value.id in old(db.tickets) ==>
      && r == Response(201, PerformanceBody(NewPerformance(old(db.nextId), name.value, description, maxParticipants, session.value.id, now)))
      && db.tickets == old(db.tickets)[session.value.id := old(db.tickets)[session.value.id].(status := PaymentPending)]
      && db.eventRegistrations == JoinCreator(old(db.eventRegistrations), db.events, session.value.id)
  {
    if session.None? {
      return Unauthorized();
    }
    if Falsy(name) {
      return Response(400, Failure("Performance name is required"));
    }
    var userId := session.value.id;
    if userId !in db.users {
      return Response(500, Failure("Failed to create performance"));
    }
    var p := CreatePerformance(db, NewPerformance(db.nextId, name.value, description, maxParticipants, userId, now));
    if userId !in db.tickets {
      return Response(500, Failure("Failed to create performance"));
    }
    SetPaymentPending(db, userId);
    db.eventRegistrations := JoinCreator(db.eventRegistrations, db.events, userId);
    r := Response(201, PerformanceBody(p));
  }

  /** `performance.create` and the creator's `performanceRegistration.create`. */
  method CreatePerformance(db: Database.Store, p: Performance) returns (stored: Performance)
    requires db.Valid() && p.id == db.nextId && p.creatorId in db.users
    modifies db`performances, db`performanceRegistrations, db`nextId
    ensures db.Valid()
    ensures stored == p
    ensures db.performances == old(db.performances) + [p]
    ensures db.performanceRegistrations == old(db.performanceRegistrations) + {(p.creatorId, p.id)}
    ensures db.nextId == old(db.nextId) + 1
  {
    db.performances := db.performances + [p];
    db.performanceRegistrations := db.performanceRegistrations + {(p.creatorId, p.id)};
    db.nextId := db.nextId + 1;
    stored := p;
  }

  /** `ticket.update({ where: { userId }, data: { status: "PAYMENT_PENDING" } })`:
      only the status changes, so every constraint is kept. */
  method SetPaymentPending(db: Database.Store, userId: Id)
    requires db.Valid() && userId in db.tickets
    modifies db`tickets
    ensures db.Valid()
    ensures db.tickets == old(db.tickets)[userId := old(db.tickets)[userId].(status := PaymentPending)]
  {
    var t := db.tickets[userId];
    db.tickets := db.tickets[userId := t.(status := PaymentPending)];
    assert Database.TicketIdsUnique(db.tickets) by {
      forall u, v | u in db.tickets && v in db.tickets && db.tickets[u].id == db.tickets[v].id
        ensures u == v
      {
        assert db.tickets[u].id == old(db.tickets)[u].id && db.tickets[v].id == old(db.tickets)[v].id;
      }
    }
  }

  /** A creator who gets 201 is a performer from then on, so the admin sync
      and the script count them, and is already joined to the "Performance"
      event when it exists. */
  lemma CreatorIsPerformer(regs: set<(Id, Id)>, performances: seq<Performance>, eventRegs: map<(Id, Id), bool>,
                           events: seq<Event>, p: Performance)
    ensures p.creatorId in PerformanceSync.Performers(regs + {(p.creatorId, p.id)}, performances + [p])
    ensures PerformanceSync.PerformanceEventId(events).Some? ==>
      Database.Joined(JoinCreator(eventRegs, events, p.creatorId), p.creatorId,
                      PerformanceSync.PerformanceEventId(events).value)
  {
    assert (p.creatorId, p.id) in regs + {(p.creatorId, p.id)};
  }
}
