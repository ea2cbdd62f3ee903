/** `POST` and `GET /api/logs`: clients append activity entries; admins
    read one user's most recent entries. */
module LogsRoute {
  import opened Types
  import Database
  import Sorting

  /** The most entries one read returns. */
  const LOG_PAGE_SIZE: nat := 500

  /** 401 without a session and 400 without an action, with nothing
      appended; the insert fails (500) when the caller's user row is gone.
      Otherwise exactly one entry is appended for the caller, with details
      and metadata null when missing. Unlike the server-side logger this
      route reports the failure. */
  method Post(db: Database.Store, session: Option<Principal>, action: Option<string>, details: Option<string>,
              metadata: Option<Metadata>, now: int) returns (r: Response)
    modifies db`logs
    ensures session.None? ==> r == Unauthorized() && db.logs == old(db.logs)
    ensures session.Some? && Falsy(action) ==> r == Response(400, Failure("Action is required")) && db.logs == old(db.logs)
    ensures session.Some? && !Falsy(action) && session.value.id !in db.users ==>
      r == Response(500, Failure("Failed to create log")) && db.logs == old(db.logs)
    ensures session.Some? && !Falsy(action) && session.value.id in db.users ==>
      && r == Response(200, Success)
      && db.logs == old(db.logs) + [LogEntry(session.value.id, action.value, NullIfEmpty(details), metadata, now)]
  {
    if session.None? {
      return Unauthorized();
    }
    if Falsy(action) {
      return Response(400, Failure("Action is required"));
    }
    if session.value.id !in db.users {
      return Response(500, Failure("Failed to create log"));
    }
    db.logs := db.logs + [LogEntry(session.value.id, action.value, NullIfEmpty(details), metadata, now)];
    r := Response(200, Success);
  }

  function LogCreatedAt(l: LogEntry): int { l.createdAt }

  /** `findMany({ where: { userId }, orderBy: { createdAt: "desc" }, take: 500 })`. */
  function UserLogs(logs: seq<LogEntry>, userId: Id): (r: seq<LogEntry>)
    ensures |r| <= LOG_PAGE_SIZE && |r| <= |logs|
    ensures Sorting.SortedDesc(r, LogCreatedAt)
  {
    var sorted := Sorting.SortDesc(Sorting.Filter(logs, (l: LogEntry) => l.userId == userId), LogCreatedAt);
    if |sorted| <= LOG_PAGE_SIZE then sorted else sorted[..LOG_PAGE_SIZE]
  }

  /** 401 unless the caller is an admin (not 403), 400 without a user id;
      otherwise at most 500 of that user's entries, newest first. */
  function Get(session: Option<Principal>, userId: Option<Id>, logs: seq<LogEntry>): (r: Response)
    ensures !IsAdmin(session) ==> r == Unauthorized()
    ensures IsAdmin(session) && userId.None? ==> r == Response(400, Failure("User ID is required"))
    ensures IsAdmin(session) && userId.Some? ==> r == Response(200, LogList(UserLogs(logs, userId.value)))
  {
    if !IsAdmin(session) then Unauthorized()
    else if userId.None? then Response(400, Failure("User ID is required"))
    else Response(200, LogList(UserLogs(logs, userId.value)))
  }

  /** A read returns 500 entries when the user has more, and all of them
      otherwise, newest first, with no entry repeated or made up: the
      result is part of the user's entries, copy for copy. */
  lemma UserLogsBounded(logs: seq<LogEntry>, userId: Id)
    ensures var r := UserLogs(logs, userId);
      var mine := Sorting.Filter(logs, (l: LogEntry) => l.userId == userId);
      && |r| == (if |mine| <= LOG_PAGE_SIZE then |mine| else LOG_PAGE_SIZE)
      && Sorting.SortedDesc(r, LogCreatedAt)
      && multiset(r) <= multiset(mine)
      && (|mine| <= LOG_PAGE_SIZE ==> multiset(r) == multiset(mine))
  {
    var mine := Sorting.Filter(logs, (l: LogEntry) => l.userId == userId);
    var sorted := Sorting.SortDesc(mine, LogCreatedAt);
    var r := UserLogs(logs, userId);
    assert sorted == r + sorted[|r|..];
    assert multiset(sorted) == multiset(r) + multiset(sorted[|r|..]);
  }

  /** Every entry a read returns is a stored entry of the requested user. */
  lemma UserLogsOwn(logs: seq<LogEntry>, userId: Id)
    ensures var r := UserLogs(logs, userId);
      forall i :: 0 <= i < |r| ==> r[i].userId == userId && r[i] in logs
  {
    var mine := Sorting.Filter(logs, (l: LogEntry) => l.userId == userId);
    var sorted := Sorting.SortDesc(mine, LogCreatedAt);
    var r := UserLogs(logs, userId);
    forall i | 0 <= i < |r| ensures r[i].userId == userId && r[i] in logs {
      assert r[i] == sorted[i];
      assert sorted[i] in multiset(mine);
    }
  }

  /** The cap drops the oldest entries: none of the user's entries left out
      is newer than an entry returned. */
  lemma UserLogsNewest(logs: seq<LogEntry>, userId: Id)
    ensures var r := UserLogs(logs, userId);
      var mine := Sorting.Filter(logs, (l: LogEntry) => l.userId == userId);
      forall i, j :: 0 <= i < |r| && 0 <= j < |mine| && mine[j] !in r ==> mine[j].createdAt <= r[i].createdAt
  {
    var mine := Sorting.Filter(logs, (l: LogEntry) => l.userId == userId);
    var sorted := Sorting.SortDesc(mine, LogCreatedAt);
    var r := UserLogs(logs, userId);
    forall i, j | 0 <= i < |r| && 0 <= j < |mine| && mine[j] !in r
      ensures mine[j].createdAt <= r[i].createdAt
    {
      assert mine[j] in multiset(sorted);
      var k :| 0 <= k < |sorted| && sorted[k] == mine[j];
      assert k >= |r|;
      Sorting.TakeOfSorted(sorted, LogCreatedAt, LOG_PAGE_SIZE);
    }
  }
}
