/** `GET` and `PUT /api/admin/settings`: the single settings row, created
    with both switches off on first read; admins update it field by field or
    reset every user's notification counter instead. */
module SettingsRoute {
  import opened Types
  import Database

  const DEFAULT_SETTINGS: AppSettings := AppSettings(false, false)

  /** Returns the settings, creating the default row when there is none. */
  method Get(db: Database.Store) returns (r: Response)
    modifies db`settings
    ensures db.settings.Some? && r == Response(200, SettingsBody(db.settings.value))
    ensures old(db.settings).Some? ==> db.settings == old(db.settings)
    ensures old(db.settings).None? ==> db.settings == Some(DEFAULT_SETTINGS)
  {
    if db.settings.None? {
      db.settings := Some(DEFAULT_SETTINGS);
    }
    r := Response(200, SettingsBody(db.settings.value));
  }

  /** A second read finds the row the first one returned or created: the
      same answer and no second row. */
  method GetTwice(db: Database.Store) returns (first: Response, second: Response)
    modifies db`settings
    ensures second == first
    ensures old(db.settings).Some? ==> db.settings == old(db.settings)
    ensures old(db.settings).None? ==> db.settings == Some(DEFAULT_SETTINGS)
  {
    first := Get(db);
    second := Get(db);
  }

  /** `updateData` applied to an existing row: a field given as a boolean
      replaces the stored value, any other field keeps it. */
  function Updated(s: AppSettings, votingEnabled: Field, illusionMode: Field): (r: AppSettings)
    ensures votingEnabled.Bool? ==> r.votingEnabled == votingEnabled.b
    ensures !votingEnabled.Bool? ==> r.votingEnabled == s.votingEnabled
    ensures illusionMode.Bool? ==> r.illusionMode == illusionMode.b
    ensures !illusionMode.Bool? ==> r.illusionMode == s.illusionMode
  {
    AppSettings(if votingEnabled.Bool? then votingEnabled.b else s.votingEnabled,
                if illusionMode.Bool? then illusionMode.b else s.illusionMode)
  }

  /** The row created from `updateData` when none exists: each missing field
      becomes false, which is updating the default row. */
  function Created(votingEnabled: Field, illusionMode: Field): (r: AppSettings)
    ensures r == Updated(DEFAULT_SETTINGS, votingEnabled, illusionMode)
  {
    AppSettings(if votingEnabled.Bool? then votingEnabled.b else false,
                if illusionMode.Bool? then illusionMode.b else false)
  }

  /** Every user's counter set to 0, nothing else changed. */
  function ResetCounts(users: map<Id, User>): (r: map<Id, User>)
    ensures r.Keys == users.Keys
    ensures forall u :: u in r ==> r[u] == users[u].(notificationCount := 0)
  {
    map u | u in users :: users[u].(notificationCount := 0)
  }

  /** 403 for non-admins. `resetNotifications: true` zeroes every counter
      and leaves the settings alone; otherwise the boolean fields are applied
      to the row, which is created if missing. */
  method Put(db: Database.Store, session: Option<Principal>, resetNotifications: Field,
             votingEnabled: Field, illusionMode: Field) returns (r: Response)
    requires db.Valid()
    modifies db`users, db`settings
    ensures db.Valid()
    ensures !IsAdmin(session) ==>
      r == Response(403, Failure("Forbidden")) && db.users == old(db.users) && db.settings == old(db.settings)
    ensures IsAdmin(session) && resetNotifications == Bool(true) ==>
      && r == Response(200, Message("All notifications reset"))
      && db.users == ResetCounts(old(db.users)) && db.settings == old(db.settings)
    ensures IsAdmin(session) && resetNotifications != Bool(true) ==>
      && db.users == old(db.users)
      && db.settings == Some(if old(db.settings).Some? then Updated(old(db.settings).value, votingEnabled, illusionMode)
                             else Created(votingEnabled, illusionMode))
      && r == Response(200, SettingsBody(db.settings.value))
  {
    if !IsAdmin(session) {
      return Response(403, Failure("Forbidden"));
    }
    if resetNotifications == Bool(true) {
      var users := ResetCounts(db.users);
      Database.SameContactsKeepConsistent(db.users, users, db.tickets, db.performances,
                                          db.performanceRegistrations, db.nextId);
      db.users := users;
      return Response(200, Message("All notifications reset"));
    }
    var s := if db.settings.Some? then Updated(db.settings.value, votingEnabled, illusionMode)
             else Created(votingEnabled, illusionMode);
    db.settings := Some(s);
    r := Response(200, SettingsBody(s));
  }

  /** Applying the same update twice is applying it once, and an update
      with no boolean field changes nothing. */
  lemma UpdateIdempotent(s: AppSettings, votingEnabled: Field, illusionMode: Field)
    ensures Updated(Updated(s, votingEnabled, illusionMode), votingEnabled, illusionMode)
            == Updated(s, votingEnabled, illusionMode)
    ensures !votingEnabled.Bool? && !illusionMode.Bool? ==> Updated(s, votingEnabled, illusionMode) == s
  {
  }
}
