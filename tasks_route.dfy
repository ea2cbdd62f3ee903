/** `GET` and `POST /api/tasks`: the shared list of things guests bring or
    handle, newest first, and adding one. */
module TasksRoute {
  import opened Types
  import Database
  import Sorting
  import Text
  import ServerLogger

  function TaskCreatedAt(t: Task): int { t.createdAt }

  /** Every task, newest first, for any signed-in caller. */
  function Get(session: Option<Principal>, tasks: seq<Task>): (r: Response)
    ensures session.None? ==> r == Unauthorized()
    ensures session.Some? ==>
      && r.status == 200 && r.body.TaskList?
      && Sorting.SortedDesc(r.body.tasks, TaskCreatedAt)
      && multiset(r.body.tasks) == multiset(tasks)
  {
    if session.None? then Unauthorized()
    else Response(200, TaskList(Sorting.SortDesc(tasks, TaskCreatedAt)))
  }

  predicate ValidKind(kind: string)
  {
    kind == "bring" || kind == "handle"
  }

  /** `!description || description.trim().length === 0`. */
  predicate BlankDescription(description: Option<string>)
  {
    Falsy(description) || Text.Trim(description.value) == []
  }

  /** The log line: the kind in words, then at most the first 50 characters
      of the trimmed description. */
  function TaskDetails(description: string, kind: string): (d: string)
    ensures var head := if kind == "bring" then "Added contribution: " else "Added task: ";
      var body := Text.Trim(description);
      && |head| <= |d| <= |head| + 50
      && |d| - |head| <= |body|
      && d == head + body[..|d| - |head|]
      && (|body| <= 50 ==> d == head + body)
      && (|body| > 50 ==> |d| == |head| + 50)
  {
    var head := if kind == "bring" then "Added contribution: " else "Added task: ";
    var tail := Text.Prefix(Text.Trim(description), 50);
    head + tail
  }

  /** 401 without a session; 400 for a blank description, checked before the
      kind; 400 for a kind other than "bring" or "handle". The insert fails
      (500) when the caller's user row is gone. Otherwise one task with the
      trimmed description, the kind and the caller as owner is stored, the
      addition is logged and the route answers 201. */
  method Post(db: Database.Store, session: Option<Principal>, description: Option<string>, kind: Option<string>,
              now: int) returns (r: Response)
    requires db.Valid()
    modifies db`tasks, db`nextId, db`logs
    ensures db.Valid()
    ensures session.None? || BlankDescription(description) || Falsy(kind) || !ValidKind(kind.value)
            || session.value.id !in db.users ==>
      db.tasks == old(db.tasks) && db.nextId == old(db.nextId) && db.logs == old(db.logs)
    ensures session.None? ==> r == Unauthorized()
    ensures session.Some? && BlankDescription(description) ==> r == Response(400, Failure("Description is required"))
    ensures session.Some? && !BlankDescription(description) && (Falsy(kind) || !ValidKind(kind.value)) ==>
      r == Response(400, Failure("Type must be 'bring' or 'handle'"))
    ensures session.Some? && !BlankDescription(description) && !Falsy(kind) && ValidKind(kind.value)
            && session.value.id !in db.users ==>
      r == Response(500, Failure("Failed to create task"))
    ensures session.Some? && !BlankDescription(description) && !Falsy(kind) && ValidKind(kind.value)
            && session.value.id in db.users ==>
      && db.tasks == old(db.tasks) + [Task(old(db.nextId), Text.Trim(description.value), kind.value, session.value.id, now)]
      && db.nextId == old(db.nextId) + 1
      && r == Response(201, TaskBody(Task(old(db.nextId), Text.Trim(description.value), kind.value, session.value.id, now)))
    ensures session.Some? && !BlankDescription(description) && !Falsy(kind) && ValidKind(kind.value)
            && session.value.id in db.users ==>
      db.logs == old(db.logs) + [LogEntry(session.value.id, "ADD_TASK",
                   Some(TaskDetails(description.value, kind.value)),
                   Some([("taskId", JId(old(db.nextId))), ("type", JString(kind.value))]), now)]
  {
    if session.None? {
      return Unauthorized();
    }
    if BlankDescription(description) {
      return Response(400, Failure("Description is required"));
    }
    if Falsy(kind) || !ValidKind(kind.value) {
      return Response(400, Failure("Type must be 'bring' or 'handle'"));
    }
    var userId := session.value.id;
    if userId !in db.users {
      return Response(500, Failure("Failed to create task"));
    }
    var t := CreateTask(db, Text.Trim(description.value), kind.value, userId, now);
    ServerLogger.LogAction(db, userId, ServerLogger.AddTask, Some(TaskDetails(description.value, kind.value)),
                           Some([("taskId", JId(t.id)), ("type", JString(kind.value))]), now);
    r := Response(201, TaskBody(t));
  }

  /** `task.create`: the row at the next identifier, appended. */
  method CreateTask(db: Database.Store, description: string, kind: string, userId: Id, now: int) returns (t: Task)
    requires db.Valid()
    modifies db`tasks, db`nextId
    ensures db.Valid()
    ensures t == Task(old(db.nextId), description, kind, userId, now)
    ensures db.tasks == old(db.tasks) + [t] && db.nextId == old(db.nextId) + 1
  {
    t := Task(db.nextId, description, kind, userId, now);
    db.tasks := db.tasks + [t];
    db.nextId := db.nextId + 1;
  }

  /** A task added by a successful POST is in every later list. */
  lemma AddedTaskListed(session: Principal, tasks: seq<Task>, t: Task)
    ensures t in Get(Some(session), tasks + [t]).body.tasks
  {
    assert t in multiset(tasks + [t]);
  }
}
