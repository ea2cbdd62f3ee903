/** `GET` and `PUT /api/user/language`: the caller's interface language,
    Turkish unless chosen otherwise. */
module LanguageRoute {
  import opened Types
  import Database

  const DEFAULT_LANGUAGE: string := "tr"

  predicate Supported(language: string)
  {
    language == "en" || language == "tr"
  }

  /** `user?.language || "tr"`: without a session, without a row or
      without a stored language the answer is "tr". */
  function Get(session: Option<Principal>, users: map<Id, User>): (r: Response)
    ensures r.status == 200 && r.body.Language?
    ensures session.Some? && session.value.id in users && users[session.value.id].language != "" ==>
      r.body.language == users[session.value.id].language
    ensures session.None? || session.value.id !in users || users[session.value.id].language == "" ==>
      r.body.language == DEFAULT_LANGUAGE
  {
    if session.Some? && session.value.id in users && users[session.value.id].language != "" then
      Response(200, Language(users[session.value.id].language))
    else
      Response(200, Language(DEFAULT_LANGUAGE))
  }

  /** 401 without a session and 400 unless the language is "en" or "tr",
      with nothing written; the update fails with 500 when the caller's row
      is gone. Otherwise only the caller's language changes. */
  method Put(db: Database.Store, session: Option<Principal>, language: Option<string>) returns (r: Response)
    requires db.Valid()
    modifies db`users
    ensures db.Valid()
    ensures session.None? ==> r == Unauthorized() && db.users == old(db.users)
    ensures session.Some? && (language.None? || !Supported(language.value)) ==>
      r == Response(400, Failure("Invalid language")) && db.users == old(db.users)
    ensures session.Some? && language.Some? && Supported(language.value) && session.value.id !in old(db.users) ==>
      r == Response(500, Failure("Failed to update language")) && db.users == old(db.users)
    ensures session.Some? && language.Some? && Supported(language.value) && session.value.id in old(db.users) ==>
      && db.users == old(db.users)[session.value.id := old(db.users)[session.value.id].(language := language.value)]
      && r == Response(200, Language(language.value))
  {
    if session.None? {
      return Unauthorized();
    }
    if language.None? || !Supported(language.value) {
      return Response(400, Failure("Invalid language"));
    }
    var id := session.value.id;
    if id !in db.users {
      return Response(500, Failure("Failed to update language"));
    }
    var u := db.users[id].(language := language.value);
    Database.UpdateUserKeepsConsistent(db.users, db.tickets, db.performances, db.performanceRegistrations,
                                       db.nextId, id, u);
    db.users := db.users[id := u];
    r := Response(200, Language(language.value));
  }

  /** A successful change is what the next read returns. */
  lemma PutThenGet(users: map<Id, User>, p: Principal, language: string)
    requires p.id in users && Supported(language)
    ensures Get(Some(p), users[p.id := users[p.id].(language := language)]) == Response(200, Language(language))
  {
  }
}
