/** `GET` and `POST /api/events`: active events, oldest first, and event
    creation by admins. */
module EventsRoute {
  import opened Types
  import Database
  import Sorting
  import ServerLogger

  /** The key that makes the descending sort an ascending one by creation
      time. */
  function NegCreatedAt(e: Event): int { -e.createdAt }

  function IsActive(e: Event): bool { e.isActive }

  /** The active events, oldest first. */
  function Get(events: seq<Event>): (r: Response)
    ensures r.status == 200 && r.body.EventList?
    ensures multiset(r.body.events) == multiset(Sorting.Filter(events, IsActive))
    ensures forall i, j :: 0 <= i < j < |r.body.events| ==> r.body.events[i].createdAt <= r.body.events[j].createdAt
  {
    var sorted := Sorting.SortDesc(Sorting.Filter(events, IsActive), NegCreatedAt);
    assert forall i, j :: 0 <= i < j < |sorted| ==> NegCreatedAt(sorted[i]) >= NegCreatedAt(sorted[j]);
    Response(200, EventList(sorted))
  }

  /** The list holds exactly the stored events that are active. */
  lemma GetListsActive(events: seq<Event>)
    ensures var listed := Get(events).body.events;
      && (forall i :: 0 <= i < |listed| ==> listed[i].isActive && listed[i] in events)
      && (forall i :: 0 <= i < |events| && events[i].isActive ==> events[i] in listed)
  {
    var active := Sorting.Filter(events, IsActive);
    var listed := Get(events).body.events;
    forall i | 0 <= i < |listed| ensures listed[i].isActive && listed[i] in events {
      assert listed[i] in multiset(active);
    }
    forall i | 0 <= i < |events| && events[i].isActive ensures events[i] in listed {
      assert events[i] in multiset(listed);
    }
  }

  /** The row `event.create` stores: a missing or empty description or
      image is null, a missing or zero price is 0, the flags default to
      false, and the event is active. */
  function NewEvent(id: Id, name: string, description: Option<string>, price: Option<int>, imageUrl: Option<string>,
                    isLocked: Option<bool>, autoJoin: Option<bool>, now: int): (e: Event)
    ensures e.id == id && e.name == name && e.isActive && e.createdAt == now
    ensures e.description == NullIfEmpty(description) && e.imageUrl == NullIfEmpty(imageUrl)
    ensures price.None? ==> e.price == 0
    ensures price.Some? ==> e.price == price.value
    ensures e.isLocked <==> isLocked == Some(true)
    ensures e.autoJoin <==> autoJoin == Some(true)
  {
    Event(id, name, NullIfEmpty(description), if price.Some? then price.value else 0, NullIfEmpty(imageUrl),
          isLocked == Some(true), autoJoin == Some(true), true, now)
  }

  /** The metadata of the log entry: the price key is left out when no
      price was sent. */
  function EventMetadata(id: Id, name: string, price: Option<int>): Metadata
  {
    [("eventId", JId(id)), ("eventName", JString(name))] + (if price.Some? then [("price", JNumber(price.value))] else [])
  }

  /** 403 for non-admins and 400 without a name, with nothing written.
      Otherwise one event with the defaults above is appended, the creation
      is logged for the admin, and the route answers 201. */
  method Post(db: Database.Store, session: Option<Principal>, name: Option<string>, description: Option<string>,
              price: Option<int>, imageUrl: Option<string>, isLocked: Option<bool>, autoJoin: Option<bool>, now: int)
    returns (r: Response)
    requires db.Valid()
    modifies db`events, db`nextId, db`logs
    ensures db.Valid()
    ensures !IsAdmin(session) || Falsy(name) ==>
      db.events == old(db.events) && db.nextId == old(db.nextId) && db.logs == old(db.logs)
    ensures !IsAdmin(session) ==> r == Response(403, Failure("Admin access required"))
    ensures IsAdmin(session) && Falsy(name) ==> r == Response(400, Failure("Event name is required"))
    ensures IsAdmin(session) && !Falsy(name) ==>
      var e := NewEvent(old(db.nextId), name.value, description, price, imageUrl, isLocked, autoJoin, now);
      && db.events == old(db.events) + [e]
      && db.nextId == old(db.nextId) + 1
      && db.logs == ServerLogger.Logged(old(db.logs), db.users, session.value.id, "ADMIN_CREATE_EVENT",
                      Some("Admin created event: " + name.value), Some(EventMetadata(e.id, name.value, price)), now)
      && r == Response(201, EventBody(e))
  {
    if !IsAdmin(session) {
      return Response(403, Failure("Admin access required"));
    }
    if Falsy(name) {
      return Response(400, Failure("Event name is required"));
    }
    var e := CreateEvent(db, NewEvent(db.nextId, name.value, description, price, imageUrl, isLocked, autoJoin, now));
    ServerLogger.LogAction(db, session.value.id, ServerLogger.AdminCreateEvent, Some("Admin created event: " + name.value),
                           Some(EventMetadata(e.id, name.value, price)), now);
    r := Response(201, EventBody(e));
  }

  /** `event.create`: the given row, carrying the next identifier, appended. */
  method CreateEvent(db: Database.Store, row: Event) returns (e: Event)
    requires db.Valid() && row.id == db.nextId
    modifies db`events, db`nextId
    ensures db.Valid()
    ensures e == row
    ensures db.events == old(db.events) + [e] && db.nextId == old(db.nextId) + 1
  {
    e := row;
    db.events := db.events + [e];
    db.nextId := db.nextId + 1;
  }

  /** A newly created event is active, so it is listed from then on. */
  lemma CreatedEventListed(events: seq<Event>, e: Event)
    requires e.isActive
    ensures e in Get(events + [e]).body.events
  {
    GetListsActive(events + [e]);
    assert (events + [e])[|events|] == e;
  }
}
