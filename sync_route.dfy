/** `POST /api/admin/sync-performance-event`: an admin puts every performer
    into the "Performance" event. */
module SyncRoute {
  import opened Types
  import Database
  import Text
  import ServerLogger
  import PerformanceSync

  function SyncDetails(synced: nat): string
  {
    "Admin synced " + Text.NatToString(synced) + " users to Performance event"
  }

  /** Non-admins get 403 and nothing changes. For an admin the event is found
      or created, every performer's registration for it becomes joining,
      nothing else in the registrations changes, the answer counts every
      performer (including those already joined), and the sync is logged. */
  method Post(db: Database.Store, session: Option<Principal>, now: int) returns (r: Response)
    requires db.Valid()
    modifies db`events, db`nextId, db`eventRegistrations, db`logs
    ensures db.Valid()
    ensures !IsAdmin(session) ==>
      && r == Response(403, Failure("Forbidden"))
      && db.events == old(db.events) && db.nextId == old(db.nextId)
      && db.eventRegistrations == old(db.eventRegistrations) && db.logs == old(db.logs)
    ensures IsAdmin(session) ==>
      && PerformanceSync.PerformanceEventId(db.events).Some?
      && db.events == (if PerformanceSync.PerformanceEventId(old(db.events)).Some? then old(db.events)
                       else old(db.events) + [PerformanceSync.NewPerformanceEvent(old(db.nextId), now)])
    ensures IsAdmin(session) && PerformanceSync.PerformanceEventId(db.events).Some? ==>
      db.eventRegistrations == PerformanceSync.JoinAll(old(db.eventRegistrations),
        PerformanceSync.Performers(db.performanceRegistrations, db.performances),
        PerformanceSync.PerformanceEventId(db.events).value)
    ensures IsAdmin(session) ==>
      var synced := |PerformanceSync.Performers(db.performanceRegistrations, db.performances)|;
      && r == Response(200, Synced(synced))
      && db.logs == ServerLogger.Logged(old(db.logs), db.users, session.value.id,
                      ServerLogger.ActionName(ServerLogger.AdminSyncPerformanceEvent),
                      Some(SyncDetails(synced)), Some([("syncedCount", JNumber(synced))]), now)
  {
    if !IsAdmin(session) {
      return Response(403, Failure("Forbidden"));
    }
    var synced := PerformanceSync.SyncPerformers(db, now);
    ghost var regs, events := db.eventRegistrations, db.events;
    ServerLogger.LogAction(db, session.value.id, ServerLogger.AdminSyncPerformanceEvent,
                           Some(SyncDetails(synced)), Some([("syncedCount", JNumber(synced))]), now);
    assert db.eventRegistrations == regs && db.events == events;
    r := Response(200, Synced(synced));
  }
}
