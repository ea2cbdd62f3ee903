/** `GET` and `POST /api/user/notification`: the caller's unread counter. */
module NotificationRoute {
  import opened Types
  import Database

  /** `user?.notificationCount || 0`. */
  function Get(session: Option<Principal>, users: map<Id, User>): (r: Response)
    ensures session.None? ==> r == Unauthorized()
    ensures session.Some? && session.value.id in users ==>
      r == Response(200, NotificationCount(users[session.value.id].notificationCount))
    ensures session.Some? && session.value.id !in users ==> r == Response(200, NotificationCount(0))
  {
    if session.None? then Unauthorized()
    else if session.value.id in users then Response(200, NotificationCount(users[session.value.id].notificationCount))
    else Response(200, NotificationCount(0))
  }

  /** The largest value of the database's `Int` column, a signed 32-bit
      integer. */
  const INT32_MAX: int := 0x7FFF_FFFF

  /** Adds one to the caller's counter and answers with the new value; the
      update fails with 500 when the caller's row is gone or when the counter
      already holds the column's largest value. */
  method Post(db: Database.Store, session: Option<Principal>) returns (r: Response)
    requires db.Valid()
    modifies db`users
    ensures db.Valid()
    ensures session.None? ==> r == Unauthorized() && db.users == old(db.users)
    ensures session.Some? && session.value.id !in old(db.users) ==>
      r == Response(500, Failure("Failed to update notification count")) && db.users == old(db.users)
    ensures session.Some? && session.value.id in old(db.users) && old(db.users)[session.value.id].notificationCount >= INT32_MAX ==>
      r == Response(500, Failure("Failed to update notification count")) && db.users == old(db.users)
    ensures session.Some? && session.value.id in old(db.users) && old(db.users)[session.value.id].notificationCount < INT32_MAX ==>
      var u := old(db.users)[session.value.id];
      && db.users == old(db.users)[session.value.id := u.(notificationCount := u.notificationCount + 1)]
      && r == Response(200, NotificationCount(u.notificationCount + 1))
  {
    if session.None? {
      return Unauthorized();
    }
    var id := session.value.id;
    if id !in db.users {
      return Response(500, Failure("Failed to update notification count"));
    }
    var u := db.users[id];
    if u.notificationCount >= INT32_MAX {
      return Response(500, Failure("Failed to update notification count"));
    }
    Database.UpdateUserKeepsConsistent(db.users, db.tickets, db.performances, db.performanceRegistrations,
                                       db.nextId, id, u.(notificationCount := u.notificationCount + 1));
    db.users := db.users[id := u.(notificationCount := u.notificationCount + 1)];
    r := Response(200, NotificationCount(u.notificationCount + 1));
  }

  /** After a successful increment, reading the counter gives exactly the
      value the increment answered. */
  lemma PostThenGet(users: map<Id, User>, p: Principal)
    requires p.id in users
    ensures var u := users[p.id];
      Get(Some(p), users[p.id := u.(notificationCount := u.notificationCount + 1)])
        == Response(200, NotificationCount(u.notificationCount + 1))
  {
  }
}
