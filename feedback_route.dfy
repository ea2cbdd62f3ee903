/** `GET` and `POST /api/feedback`: guests submit feedback; admins read it,
    newest first. */
module FeedbackRoute {
  import opened Types
  import Database
  import Sorting
  import Text
  import ServerLogger

  function FeedbackCreatedAt(f: Feedback): int { f.createdAt }

  function Get(session: Option<Principal>, feedback: seq<Feedback>): (r: Response)
    ensures !IsAdmin(session) ==> r == Response(403, Failure("Admin access required"))
    ensures IsAdmin(session) ==>
      && r.status == 200 && r.body.FeedbackList?
      && Sorting.SortedDesc(r.body.feedbacks, FeedbackCreatedAt)
      && multiset(r.body.feedbacks) == multiset(feedback)
  {
    if !IsAdmin(session) then Response(403, Failure("Admin access required"))
    else Response(200, FeedbackList(Sorting.SortDesc(feedback, FeedbackCreatedAt)))
  }

  predicate BlankContent(content: Option<string>)
  {
    Falsy(content) || Text.Trim(content.value) == []
  }

  /** 401 without a session and 400 for blank content, with nothing written;
      the insert fails (500) when the caller's user row is gone. Otherwise
      one entry with the trimmed content is stored for the caller, logged,
      and returned with 201. */
  method Post(db: Database.Store, session: Option<Principal>, content: Option<string>, now: int)
    returns (r: Response)
    requires db.Valid()
    modifies db`feedback, db`nextId, db`logs
    ensures db.Valid()
    ensures session.None? || BlankContent(content) || session.value.id !in db.users ==>
      db.feedback == old(db.feedback) && db.nextId == old(db.nextId) && db.logs == old(db.logs)
    ensures session.None? ==> r == Unauthorized()
    ensures session.Some? && BlankContent(content) ==> r == Response(400, Failure("Feedback content is required"))
    ensures session.Some? && !BlankContent(content) && session.value.id !in db.users ==>
      r == Response(500, Failure("Failed to submit feedback"))
    ensures session.Some? && !BlankContent(content) && session.value.id in db.users ==>
      var f := Feedback(old(db.nextId), Text.Trim(content.value), session.value.id, now);
      && db.feedback == old(db.feedback) + [f]
      && db.nextId == old(db.nextId) + 1
      && db.logs == old(db.logs) + [LogEntry(session.value.id, "ADD_FEEDBACK", Some("Submitted feedback"),
                                             Some([("feedbackId", JId(f.id))]), now)]
      && r == Response(201, FeedbackBody(f))
  {
    if session.None? {
      return Unauthorized();
    }
    if BlankContent(content) {
      return Response(400, Failure("Feedback content is required"));
    }
    var userId := session.value.id;
    if userId !in db.users {
      return Response(500, Failure("Failed to submit feedback"));
    }
    var f := CreateFeedback(db, Text.Trim(content.value), userId, now);
    ServerLogger.LogAction(db, userId, ServerLogger.AddFeedback, Some("Submitted feedback"),
                           Some([("feedbackId", JId(f.id))]), now);
    r := Response(201, FeedbackBody(f));
  }

  /** `feedback.create`: the row at the next identifier, appended. */
  method CreateFeedback(db: Database.Store, content: string, userId: Id, now: int) returns (f: Feedback)
    requires db.Valid()
    modifies db`feedback, db`nextId
    ensures db.Valid()
    ensures f == Feedback(old(db.nextId), content, userId, now)
    ensures db.feedback == old(db.feedback) + [f] && db.nextId == old(db.nextId) + 1
  {
    f := Feedback(db.nextId, content, userId, now);
    db.feedback := db.feedback + [f];
    db.nextId := db.nextId + 1;
  }

  /** Stored feedback is never blank and never starts or ends with white
      space. */
  lemma StoredContentTrimmed(content: string)
    requires Text.Trim(content) != []
    ensures var c := Text.Trim(content);
      !Text.IsWhitespace(c[0]) && !Text.IsWhitespace(c[|c| - 1]) && !Text.AllWhitespace(content)
  {
  }
}
