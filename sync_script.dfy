/** The maintenance script that syncs performers into the "Performance"
    event, skipping those already joined and counting both groups. */
module SyncScript {
  import opened Types
  import Database
  import PerformanceSync

  /** Finds or creates the event, then upserts a joining registration for
      every performer not yet joined. `synced` counts the performers that were
      not joined before, `alreadyJoined` the rest; the registrations end up
      exactly as the admin route leaves them. */
  method Run(db: Database.Store, now: int) returns (synced: nat, alreadyJoined: nat)
    requires db.Valid()
    modifies db`events, db`nextId, db`eventRegistrations
    ensures db.Valid()
    ensures PerformanceSync.PerformanceEventId(db.events).Some?
    ensures db.events == (if PerformanceSync.PerformanceEventId(old(db.events)).Some? then old(db.events)
                          else old(db.events) + [PerformanceSync.NewPerformanceEvent(old(db.nextId), now)])
    ensures var performers := PerformanceSync.Performers(db.performanceRegistrations, db.performances);
      var eventId := PerformanceSync.PerformanceEventId(db.events).value;
      && db.eventRegistrations == PerformanceSync.JoinAll(old(db.eventRegistrations), performers, eventId)
      && synced == |PerformanceSync.NotJoined(old(db.eventRegistrations), performers, eventId)|
      && synced + alreadyJoined == |performers|
  {
    var eventId := PerformanceSync.EnsurePerformanceEvent(db, now);
    var performers := PerformanceSync.Performers(db.performanceRegistrations, db.performances);
    synced, alreadyJoined := SyncEach(db, performers, eventId);
  }

  /** The script's loop: a performer already joined is counted and skipped,
      any other gets a joining registration and is counted as synced. */
  method SyncEach(db: Database.Store, performers: set<Id>, eventId: Id) returns (synced: nat, alreadyJoined: nat)
    modifies db`eventRegistrations
    ensures db.eventRegistrations == PerformanceSync.JoinAll(old(db.eventRegistrations), performers, eventId)
    ensures synced == |PerformanceSync.NotJoined(old(db.eventRegistrations), performers, eventId)|
    ensures synced + alreadyJoined == |performers|
  {
    ghost var start := db.eventRegistrations;
    var todo := performers;
    synced, alreadyJoined := 0, 0;
    while todo != {}
      invariant todo <= performers
      invariant PerformanceSync.JoinedExactly(start, db.eventRegistrations, performers - todo, eventId)
      invariant synced == |PerformanceSync.NotJoined(start, performers - todo, eventId)|
      invariant synced + alreadyJoined == |performers - todo|
      decreases |todo|
    {
      var u :| u in todo;
      ghost var done := performers - todo;
      PerformanceSync.JoinStep(start, db.eventRegistrations, done, u, eventId);
      assert performers - (todo - {u}) == done + {u};
      PerformanceSync.JoinedElsewhere(start, db.eventRegistrations, done, u, eventId);
      PerformanceSync.NotJoinedOne(start, done, u, eventId);
      if Database.Joined(db.eventRegistrations, u, eventId) {
        alreadyJoined := alreadyJoined + 1;
      } else {
        db.eventRegistrations := db.eventRegistrations[(u, eventId) := true];
        synced := synced + 1;
      }
      todo := todo - {u};
    }
    assert performers - todo == performers;
    PerformanceSync.JoinAllExactly(start, db.eventRegistrations, performers, eventId);
  }

  /** Running the script a second time finds every performer joined: it
      syncs nobody and changes nothing. */
  method RunTwice(db: Database.Store, now: int) returns (synced1: nat, joined1: nat, synced2: nat, joined2: nat)
    requires db.Valid()
    modifies db`events, db`nextId, db`eventRegistrations
    ensures db.Valid()
    ensures db.events == (if PerformanceSync.PerformanceEventId(old(db.events)).Some? then old(db.events)
                          else old(db.events) + [PerformanceSync.NewPerformanceEvent(old(db.nextId), now)])
    ensures PerformanceSync.PerformanceEventId(db.events).Some?
    ensures synced2 == 0
    ensures joined2 == |PerformanceSync.Performers(db.performanceRegistrations, db.performances)|
    ensures synced1 + joined1 == joined2
    ensures db.eventRegistrations == PerformanceSync.JoinAll(old(db.eventRegistrations),
      PerformanceSync.Performers(db.performanceRegistrations, db.performances),
      PerformanceSync.PerformanceEventId(db.events).value)
  {
    synced1, joined1 := Run(db, now);
    ghost var events1 := db.events;
    ghost var eventId := PerformanceSync.PerformanceEventId(db.events).value;
    ghost var performers := PerformanceSync.Performers(db.performanceRegistrations, db.performances);
    synced2, joined2 := Run(db, now);
    assert db.events == events1;
    PerformanceSync.JoinAllMonotone(old(db.eventRegistrations), performers, eventId);
    PerformanceSync.JoinAllIdempotent(old(db.eventRegistrations), performers, eventId);
  }
}
