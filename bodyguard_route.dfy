/** `POST /api/admin/bodyguard`: an admin grants or revokes one user's
    bodyguard role. */
module BodyguardRoute {
  import opened Types
  import Database

  /** 403 for non-admins and 400 without a user id, with nothing written.
      The update fails (500, nothing written) when the user does not exist
      or `isBodyguard` is present but not a boolean. A boolean sets the flag;
      an absent value leaves the row as it is. Only that flag of that user
      can change. */
  method Post(db: Database.Store, session: Option<Principal>, userId: Option<Id>, isBodyguard: Field)
    returns (r: Response)
    requires db.Valid()
    modifies db`users
    ensures db.Valid()
    ensures !IsAdmin(session) ==> r == Response(403, Failure("Admin access required")) && db.users == old(db.users)
    ensures IsAdmin(session) && userId.None? ==> r == Response(400, Failure("User ID is required")) && db.users == old(db.users)
    ensures IsAdmin(session) && userId.Some? && (userId.value !in old(db.users) || isBodyguard == NonBoolean) ==>
      r == Response(500, Failure("Failed to update bodyguard status")) && db.users == old(db.users)
    ensures IsAdmin(session) && userId.Some? && userId.value in old(db.users) && isBodyguard != NonBoolean ==>
      var u := old(db.users)[userId.value];
      var flag := if isBodyguard.Bool? then isBodyguard.b else u.isBodyguard;
      && db.users == old(db.users)[userId.value := u.(isBodyguard := flag)]
      && r == Response(200, BodyguardBody(userId.value, u.name, flag))
  {
    if !IsAdmin(session) {
      return Response(403, Failure("Admin access required"));
    }
    if userId.None? {
      return Response(400, Failure("User ID is required"));
    }
    var id := userId.value;
    if id !in db.users || isBodyguard == NonBoolean {
      return Response(500, Failure("Failed to update bodyguard status"));
    }
    var u := db.users[id];
    var flag := if isBodyguard.Bool? then isBodyguard.b else u.isBodyguard;
    Database.UpdateUserKeepsConsistent(db.users, db.tickets, db.performances, db.performanceRegistrations,
                                       db.nextId, id, u.(isBodyguard := flag));
    db.users := db.users[id := u.(isBodyguard := flag)];
    r := Response(200, BodyguardBody(id, u.name, flag));
  }
}
