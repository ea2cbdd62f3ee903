/** The "Performance" event and the rule that every performer joins it: the
    performers are the users registered for a performance and the creators of
    performances, and syncing sets their registration for the event to
    joining. Shared by the admin route and the maintenance script. */
module PerformanceSync {
  import opened Types
  import Database

  const PERFORMANCE_EVENT_NAME: string := "Performance"
  const PERFORMANCE_EVENT_DESCRIPTION: string := "Every performer gets a special gift!"

  /** The event the sync creates when none is named "Performance": free,
      locked and not auto-joined. */
  function NewPerformanceEvent(id: Id, now: int): (e: Event)
    ensures e.name == PERFORMANCE_EVENT_NAME && e.id == id && e.price == 0
    ensures e.isLocked && !e.autoJoin && e.isActive
  {
    Event(id, PERFORMANCE_EVENT_NAME, Some(PERFORMANCE_EVENT_DESCRIPTION), 0, None, true, false, true, now)
  }

  /** The id of the first event named "Performance", if any. */
  function PerformanceEventId(events: seq<Event>): (r: Option<Id>)
    ensures r.None? <==> !Database.HasEventNamed(events, PERFORMANCE_EVENT_NAME)
    ensures r.Some? ==> exists k :: 0 <= k < |events| && events[k].name == PERFORMANCE_EVENT_NAME && events[k].id == r.value
  {
    match Database.FirstEventNamed(events, PERFORMANCE_EVENT_NAME)
    case None => None
    case Some(k) => Some(events[k].id)
  }

  /** The users to sync: every registrant of a performance and every
      creator of one, each once. */
  function Performers(registrations: set<(Id, Id)>, performances: seq<Performance>): (r: set<Id>)
    ensures forall p :: p in registrations ==> p.0 in r
    ensures forall i :: 0 <= i < |performances| ==> performances[i].creatorId in r
    ensures forall u :: u in r ==>
      (exists p :: p in registrations && p.0 == u) || (exists i :: 0 <= i < |performances| && performances[i].creatorId == u)
  {
    (set p | p in registrations :: p.0) + (set i | 0 <= i < |performances| :: performances[i].creatorId)
  }

  /** `after` is `before` with a joining registration for every user of
      `users` and the event `eventId`, and no other change. */
  ghost predicate JoinedExactly(before: map<(Id, Id), bool>, after: map<(Id, Id), bool>, users: set<Id>, eventId: Id)
  {
    && (forall u :: u in users ==> Database.Joined(after, u, eventId))
    && (forall k :: k in before && !(k.1 == eventId && k.0 in users) ==> k in after && after[k] == before[k])
    && (forall k :: k in after ==> k in before || (k.1 == eventId && k.0 in users))
  }

  /** The registrations after upserting `joining: true` for every user of
      `users` and the event `eventId`. */
  function JoinAll(regs: map<(Id, Id), bool>, users: set<Id>, eventId: Id): (r: map<(Id, Id), bool>)
    ensures JoinedExactly(regs, r, users, eventId)
  {
    map k | k in regs.Keys + (set u | u in users :: (u, eventId)) ::
      if k.1 == eventId && k.0 in users then true else regs[k]
  }

  /** The description pins the registrations down: `JoinAll` is the only
      table that satisfies it. */
  lemma JoinAllExactly(before: map<(Id, Id), bool>, after: map<(Id, Id), bool>, users: set<Id>, eventId: Id)
    ensures JoinedExactly(before, after, users, eventId) <==> after == JoinAll(before, users, eventId)
  {
    if JoinedExactly(before, after, users, eventId) {
      var j := JoinAll(before, users, eventId);
      assert after.Keys == j.Keys;
      forall k | k in after ensures after[k] == j[k] {
        if k.1 == eventId && k.0 in users {
          assert Database.Joined(after, k.0, eventId) && Database.Joined(j, k.0, eventId);
        }
      }
    }
  }

  /** One upsert extends a sync by one user; for a user already joined the
      upsert is not needed. */
  lemma JoinStep(before: map<(Id, Id), bool>, after: map<(Id, Id), bool>, users: set<Id>, u: Id, eventId: Id)
    requires JoinedExactly(before, after, users, eventId)
    ensures JoinedExactly(before, after[(u, eventId) := true], users + {u}, eventId)
    ensures Database.Joined(after, u, eventId) ==> JoinedExactly(before, after, users + {u}, eventId)
  {
  }

  /** The performers with no joining registration for the event yet. */
  function NotJoined(regs: map<(Id, Id), bool>, users: set<Id>, eventId: Id): (r: set<Id>)
    ensures r <= users
    ensures forall u :: u in users ==> (u in r <==> !Database.Joined(regs, u, eventId))
  {
    set u | u in users && !Database.Joined(regs, u, eventId)
  }

  /** A user the sync has not reached yet is joined exactly when they were
      joined before it started. */
  lemma JoinedElsewhere(before: map<(Id, Id), bool>, after: map<(Id, Id), bool>, users: set<Id>, u: Id, eventId: Id)
    requires JoinedExactly(before, after, users, eventId) && u !in users
    ensures Database.Joined(after, u, eventId) == Database.Joined(before, u, eventId)
  {
  }

  /** Adding one more user to the performers adds one to the unjoined
      count exactly when that user is not joined. */
  lemma NotJoinedOne(regs: map<(Id, Id), bool>, users: set<Id>, u: Id, eventId: Id)
    requires u !in users
    ensures |NotJoined(regs, users + {u}, eventId)| ==
      |NotJoined(regs, users, eventId)| + (if Database.Joined(regs, u, eventId) then 0 else 1)
  {
    var before := NotJoined(regs, users, eventId);
    if Database.Joined(regs, u, eventId) {
      assert NotJoined(regs, users + {u}, eventId) == before;
    } else {
      assert NotJoined(regs, users + {u}, eventId) == before + {u};
    }
  }

  /** Syncing twice is syncing once. */
  lemma JoinAllIdempotent(regs: map<(Id, Id), bool>, users: set<Id>, eventId: Id)
    ensures JoinAll(JoinAll(regs, users, eventId), users, eventId) == JoinAll(regs, users, eventId)
  {
    var once := JoinAll(regs, users, eventId);
    var twice := JoinAll(once, users, eventId);
    assert twice.Keys == once.Keys;
    forall k | k in twice ensures twice[k] == once[k] {
    }
  }

  /** A sync never opts anybody out, and after it no performer is left
      unjoined. */
  lemma JoinAllMonotone(regs: map<(Id, Id), bool>, users: set<Id>, eventId: Id)
    ensures forall k :: k in regs && regs[k] ==> k in JoinAll(regs, users, eventId) && JoinAll(regs, users, eventId)[k]
    ensures NotJoined(JoinAll(regs, users, eventId), users, eventId) == {}
  {
    var r := JoinAll(regs, users, eventId);
    forall k | k in regs && regs[k] ensures k in r && r[k] {
      if k.1 == eventId && k.0 in users {
        assert Database.Joined(r, k.0, eventId);
      }
    }
  }

  /** The performers split into those already joined and those not. */
  lemma SplitPerformers(regs: map<(Id, Id), bool>, users: set<Id>, eventId: Id)
    ensures |NotJoined(regs, users, eventId)| + |users - NotJoined(regs, users, eventId)| == |users|
  {
    var n := NotJoined(regs, users, eventId);
    assert users == n + (users - n);
  }

  /** Finds the "Performance" event, creating it when there is none. */
  method EnsurePerformanceEvent(db: Database.Store, now: int) returns (eventId: Id)
    requires db.Valid()
    modifies db`events, db`nextId
    ensures db.Valid()
    ensures PerformanceEventId(db.events) == Some(eventId)
    ensures PerformanceEventId(old(db.events)).Some? ==>
      db.events == old(db.events) && db.nextId == old(db.nextId) && eventId == PerformanceEventId(old(db.events)).value
    ensures PerformanceEventId(old(db.events)).None? ==>
      && db.events == old(db.events) + [NewPerformanceEvent(old(db.nextId), now)]
      && db.nextId == old(db.nextId) + 1 && eventId == old(db.nextId)
  {
    var found := PerformanceEventId(db.events);
    if found.Some? {
      return found.value;
    }
    eventId := db.nextId;
    var e := NewPerformanceEvent(eventId, now);
    FirstOfAppended(db.events, e);
    db.events := db.events + [e];
    db.nextId := db.nextId + 1;
  }

  /** Appending the first "Performance" event makes it the one found. */
  lemma FirstOfAppended(events: seq<Event>, e: Event)
    requires !Database.HasEventNamed(events, PERFORMANCE_EVENT_NAME) && e.name == PERFORMANCE_EVENT_NAME
    ensures PerformanceEventId(events + [e]) == Some(e.id)
  {
    var s := events + [e];
    var k := Database.FirstEventNamed(s, PERFORMANCE_EVENT_NAME);
    assert s[|events|].name == PERFORMANCE_EVENT_NAME;
    assert k.Some?;
    assert forall j :: 0 <= j < |events| ==> s[j] == events[j];
  }

  /** The route's loop: one upsert per performer, each counted. */
  method JoinPerformers(db: Database.Store, performers: set<Id>, eventId: Id) returns (synced: nat)
    modifies db`eventRegistrations
    ensures db.eventRegistrations == JoinAll(old(db.eventRegistrations), performers, eventId)
    ensures synced == |performers|
  {
    ghost var start := db.eventRegistrations;
    var todo := performers;
    synced := 0;
    while todo != {}
      invariant todo <= performers
      invariant JoinedExactly(start, db.eventRegistrations, performers - todo, eventId)
      invariant synced == |performers - todo|
      decreases |todo|
    {
      var u :| u in todo;
      JoinStep(start, db.eventRegistrations, performers - todo, u, eventId);
      assert performers - (todo - {u}) == (performers - todo) + {u};
      db.eventRegistrations := db.eventRegistrations[(u, eventId) := true];
      todo := todo - {u};
      synced := synced + 1;
    }
    assert performers - todo == performers;
    JoinAllExactly(start, db.eventRegistrations, performers, eventId);
  }

  /** The route's work: find or create the event, then join every
      performer; the count is the number of performers. */
  method SyncPerformers(db: Database.Store, now: int) returns (synced: nat)
    requires db.Valid()
    modifies db`events, db`nextId, db`eventRegistrations
    ensures db.Valid()
    ensures PerformanceEventId(db.events).Some?
    ensures db.events == (if PerformanceEventId(old(db.events)).Some? then old(db.events)
                          else old(db.events) + [NewPerformanceEvent(old(db.nextId), now)])
    ensures db.eventRegistrations == JoinAll(old(db.eventRegistrations),
      Performers(db.performanceRegistrations, db.performances), PerformanceEventId(db.events).value)
    ensures synced == |Performers(db.performanceRegistrations, db.performances)|
  {
    var eventId := EnsurePerformanceEvent(db, now);
    var performers := Performers(db.performanceRegistrations, db.performances);
    synced := JoinPerformers(db, performers, eventId);
  }
}
