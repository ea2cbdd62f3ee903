/** The seed script: makes sure the admin account, the admin's ticket and the
    four sample events exist, creating only what is missing. */
module Seed {
  import opened Types
  import Database

  const ADMIN_EMAIL := "admin@kiki-christmas.com"
  const ADMIN_PHONE := "+905551234567"
  const ADMIN_PASSWORD := "admin123"

  /** The admin row; the columns the script does not set take their
      defaults. */
  function AdminUser(): User
  {
    User("Admin User", ADMIN_EMAIL, ADMIN_PHONE, BcryptHash(ADMIN_PASSWORD), true, true, false, 0, "")
  }

  /** The data of one sample event. */
  datatype SampleEvent = SampleEvent(name: string, description: string, price: int)

  /** The four sample events, in the order the script creates them. */
  function SampleEvents(): seq<SampleEvent>
  {
    [ SampleEvent("Cocktail Hour", CocktailHourText(), 25),
      SampleEvent("Christmas Market", ChristmasMarketText(), 0),
      SampleEvent("Dinner Feast", DinnerFeastText(), 50),
      SampleEvent("After Party", AfterPartyText(), 15) ]
  }

  function CocktailHourText(): string
  {
    "Enjoy festive cocktails and mocktails while mingling with fellow guests. Live jazz music and holiday appetizers included."
  }

  function ChristmasMarketText(): string
  {
    "Browse handmade gifts, decorations, and delicious treats at our mini market. Perfect for last-minute gift shopping!"
  }

  function DinnerFeastText(): string
  {
    "A magnificent Christmas dinner with traditional roast turkey, ham, and all the fixings. Vegetarian options available."
  }

  function AfterPartyText(): string
  {
    "Dance the night away with DJ Santa spinning holiday hits and club classics until 2 AM!"
  }

  /** The row `event.create({ data })` stores: the other columns take their
      defaults (no image, unlocked, no auto-join, active). */
  function SeededEvent(id: Id, data: SampleEvent, now: int): Event
  {
    Event(id, data.name, Some(data.description), data.price, None, false, false, true, now)
  }

  /** The events after the loop over `samples`: each sample in turn is
      appended, with the next identifier, unless an event of that name
      exists by then. */
  function AddMissingEvents(events: seq<Event>, samples: seq<SampleEvent>, nextId: Id, now: int): (r: seq<Event>)
    ensures |events| <= |r| <= |events| + |samples|
    ensures r[..|events|] == events
    decreases |samples|
  {
    if samples == [] then events
    else
      var prev := AddMissingEvents(events, samples[..|samples| - 1], nextId, now);
      var s := samples[|samples| - 1];
      if Database.HasEventNamed(prev, s.name) then prev
      else prev + [SeededEvent(nextId + |prev| - |events|, s, now)]
  }

  /** Events only grow: a name present before is present after. */
  lemma NamedKept(events: seq<Event>, more: seq<Event>, name: string)
    requires |events| <= |more| && more[..|events|] == events
    requires Database.HasEventNamed(events, name)
    ensures Database.HasEventNamed(more, name)
  {
    var k :| 0 <= k < |events| && events[k].name == name;
    assert more[k] == events[k];
  }

  /** After the loop, every sample's name names an event. */
  lemma {:induction false} SamplesPresent(events: seq<Event>, samples: seq<SampleEvent>, nextId: Id, now: int)
    ensures forall i :: 0 <= i < |samples| ==>
      Database.HasEventNamed(AddMissingEvents(events, samples, nextId, now), samples[i].name)
    decreases |samples|
  {
    if samples != [] {
      var init := samples[..|samples| - 1];
      var prev := AddMissingEvents(events, init, nextId, now);
      var r := AddMissingEvents(events, samples, nextId, now);
      var s := samples[|samples| - 1];
      SamplesPresent(events, init, nextId, now);
      assert |prev| <= |r| && r[..|prev|] == prev;
      forall i | 0 <= i < |samples| ensures Database.HasEventNamed(r, samples[i].name) {
        if i < |samples| - 1 {
          assert samples[i] == init[i];
          NamedKept(prev, r, samples[i].name);
        } else if !Database.HasEventNamed(prev, s.name) {
          assert r[|prev|].name == s.name;
        }
      }
    }
  }

  /** Every appended event is one of the samples, stored with consecutive
      identifiers from `nextId` and active from creation; its name is new:
      no pre-existing event and no other appended event has it. */
  lemma {:induction false} AddedEventsNew(events: seq<Event>, samples: seq<SampleEvent>, nextId: Id, now: int)
    ensures forall k, j :: |events| <= k < |AddMissingEvents(events, samples, nextId, now)| && 0 <= j < |events| ==>
      AddMissingEvents(events, samples, nextId, now)[k].name != events[j].name
    ensures forall k :: |events| <= k < |AddMissingEvents(events, samples, nextId, now)| ==>
      AddMissingEvents(events, samples, nextId, now)[k].id == nextId + (k - |events|)
    ensures forall k :: |events| <= k < |AddMissingEvents(events, samples, nextId, now)| ==>
      var e := AddMissingEvents(events, samples, nextId, now)[k];
      e.isActive && !e.isLocked && !e.autoJoin
    ensures forall k :: |events| <= k < |AddMissingEvents(events, samples, nextId, now)| ==>
      exists j :: 0 <= j < |samples| &&
        AddMissingEvents(events, samples, nextId, now)[k] == SeededEvent(nextId + (k - |events|), samples[j], now)
    ensures forall k1, k2 :: |events| <= k1 < k2 < |AddMissingEvents(events, samples, nextId, now)| ==>
      AddMissingEvents(events, samples, nextId, now)[k1].name != AddMissingEvents(events, samples, nextId, now)[k2].name
    decreases |samples|
  {
    if samples != [] {
      var init := samples[..|samples| - 1];
      var prev := AddMissingEvents(events, init, nextId, now);
      AddedEventsNew(events, init, nextId, now);
      var s := samples[|samples| - 1];
      if !Database.HasEventNamed(prev, s.name) {
        var e := SeededEvent(nextId + |prev| - |events|, s, now);
        assert AddMissingEvents(events, samples, nextId, now) == prev + [e];
        if Database.HasEventNamed(events, s.name) {
          NamedKept(events, prev, s.name);
        }
        var r := prev + [e];
        forall k, j | |events| <= k < |r| && 0 <= j < |events|
          ensures r[k].name != events[j].name
        {
          if k < |prev| {
            assert r[k] == prev[k];
          }
        }
        forall k | |events| <= k < |r|
          ensures exists j :: 0 <= j < |samples| && r[k] == SeededEvent(nextId + (k - |events|), samples[j], now)
        {
          if k < |prev| {
            assert r[k] == prev[k];
            var j :| 0 <= j < |init| && prev[k] == SeededEvent(nextId + (k - |events|), init[j], now);
            assert init[j] == samples[j];
          } else {
            assert r[k] == SeededEvent(nextId + (k - |events|), samples[|samples| - 1], now);
          }
        }
        forall k1, k2 | |events| <= k1 < k2 < |r|
          ensures r[k1].name != r[k2].name
        {
          assert r[k1] == prev[k1];
          if k2 == |prev| {
            assert prev[k1].name != s.name;
          } else {
            assert r[k2] == prev[k2];
          }
        }
      } else {
        assert AddMissingEvents(events, samples, nextId, now) == prev;
        forall k | |events| <= k < |prev|
          ensures exists j :: 0 <= j < |samples| && prev[k] == SeededEvent(nextId + (k - |events|), samples[j], now)
        {
          var j :| 0 <= j < |init| && prev[k] == SeededEvent(nextId + (k - |events|), init[j], now);
          assert init[j] == samples[j];
        }
      }
    } else {
      assert AddMissingEvents(events, samples, nextId, now) == events;
    }
  }

  /** When every sample's name is taken, the loop adds nothing. */
  lemma {:induction false} NothingMissing(events: seq<Event>, samples: seq<SampleEvent>, nextId: Id, now: int)
    requires forall i :: 0 <= i < |samples| ==> Database.HasEventNamed(events, samples[i].name)
    ensures AddMissingEvents(events, samples, nextId, now) == events
    decreases |samples|
  {
    if samples != [] {
      var init := samples[..|samples| - 1];
      assert forall i :: 0 <= i < |init| ==> init[i] == samples[i];
      NothingMissing(events, init, nextId, now);
      assert Database.HasEventNamed(events, samples[|samples| - 1].name);
    }
  }

  /** The admin lookup by e-mail, then the create when absent. The create
      fails (the script exits with an error) when another account already
      has the admin's phone; nothing is written then. */
  method EnsureAdmin(db: Database.Store) returns (ok: bool, adminId: Id)
    requires db.Valid()
    modifies db`users, db`nextId
    ensures db.Valid()
    ensures ok ==> adminId in db.users && db.users[adminId].email == ADMIN_EMAIL
    ensures Database.EmailTaken(old(db.users), ADMIN_EMAIL) ==>
      ok && db.users == old(db.users) && db.nextId == old(db.nextId)
    ensures !Database.EmailTaken(old(db.users), ADMIN_EMAIL) && Database.PhoneTaken(old(db.users), ADMIN_PHONE) ==>
      !ok && db.users == old(db.users) && db.nextId == old(db.nextId)
    ensures !Database.EmailTaken(old(db.users), ADMIN_EMAIL) && !Database.PhoneTaken(old(db.users), ADMIN_PHONE) ==>
      && ok && adminId == old(db.nextId) && old(db.nextId) !in old(db.users)
      && db.users == old(db.users)[adminId := AdminUser()] && db.nextId == old(db.nextId) + 1
  {
    var existing := Database.UserWithEmail(db.users, ADMIN_EMAIL);
    if existing.Some? {
      return true, existing.value;
    }
    if Database.PhoneTaken(db.users, ADMIN_PHONE) {
      return false, 0;
    }
    Database.AddUser(db.users, db.tickets, db.performances, db.performanceRegistrations, db.nextId, AdminUser());
    adminId := db.nextId;
    db.users := db.users[adminId := AdminUser()];
    db.nextId := db.nextId + 1;
    ok := true;
  }

  /** An ACTIVATED ticket for the admin, only when the admin has none. */
  method EnsureAdminTicket(db: Database.Store, adminId: Id)
    requires db.Valid() && adminId in db.users
    modifies db`tickets, db`nextId
    ensures db.Valid()
    ensures adminId in old(db.tickets) ==> db.tickets == old(db.tickets) && db.nextId == old(db.nextId)
    ensures adminId !in old(db.tickets) ==>
      db.tickets == old(db.tickets)[adminId := Ticket(old(db.nextId), Activated)] && db.nextId == old(db.nextId) + 1
  {
    if adminId !in db.tickets {
      db.tickets := db.tickets[adminId := Ticket(db.nextId, Activated)];
      db.nextId := db.nextId + 1;
    }
  }

  /** The loop over the sample events. */
  method EnsureEvents(db: Database.Store, samples: seq<SampleEvent>, now: int)
    requires db.Valid()
    modifies db`events, db`nextId
    ensures db.Valid()
    ensures db.events == AddMissingEvents(old(db.events), samples, old(db.nextId), now)
    ensures db.nextId == old(db.nextId) + (|db.events| - |old(db.events)|)
  {
    ghost var events0 := db.events;
    ghost var next0 := db.nextId;
    var i := 0;
    while i < |samples|
      invariant 0 <= i <= |samples|
      invariant db.Valid()
      invariant db.events == AddMissingEvents(events0, samples[..i], next0, now)
      invariant db.nextId == next0 + (|db.events| - |events0|)
    {
      assert samples[..i + 1][..i] == samples[..i];
      if !Database.HasEventNamed(db.events, samples[i].name) {
        db.events := db.events + [SeededEvent(db.nextId, samples[i], now)];
        db.nextId := db.nextId + 1;
      }
      i := i + 1;
    }
    assert samples[..i] == samples;
  }

  /** The loop, with what it guarantees: every sample name taken afterwards,
      and nothing added when every name was taken before. */
  method EnsureSampleEvents(db: Database.Store, samples: seq<SampleEvent>, now: int)
    requires db.Valid()
    modifies db`events, db`nextId
    ensures db.Valid()
    ensures |old(db.events)| <= |db.events| <= |old(db.events)| + |samples|
    ensures db.events[..|old(db.events)|] == old(db.events)
    ensures db.events == AddMissingEvents(old(db.events), samples, old(db.nextId), now)
    ensures forall i :: 0 <= i < |samples| ==> Database.HasEventNamed(db.events, samples[i].name)
    ensures (forall i :: 0 <= i < |samples| ==> Database.HasEventNamed(old(db.events), samples[i].name)) ==>
      db.events == old(db.events) && db.nextId == old(db.nextId)
  {
    ghost var events0 := db.events;
    ghost var next0 := db.nextId;
    EnsureEvents(db, samples, now);
    SamplesPresent(events0, samples, next0, now);
    if forall i :: 0 <= i < |samples| ==> Database.HasEventNamed(events0, samples[i].name) {
      NothingMissing(events0, samples, next0, now);
    }
  }

  /** What a completed seed leaves behind: the admin account, its ticket,
      and an event for every sample name. */
  ghost predicate Seeded(users: map<Id, User>, tickets: map<Id, Ticket>, events: seq<Event>,
                         samples: seq<SampleEvent>)
  {
    && Database.EmailsUnique(users)
    && Database.EmailTaken(users, ADMIN_EMAIL)
    && Database.UserWithEmail(users, ADMIN_EMAIL).value in tickets
    && forall i :: 0 <= i < |samples| ==> Database.HasEventNamed(events, samples[i].name)
  }

  /** The admin's identifier once the script has looked it up or created
      it. */
  function AdminIdAfter(users: map<Id, User>, nextId: Id): Id
    requires Database.EmailsUnique(users)
  {
    if Database.EmailTaken(users, ADMIN_EMAIL) then Database.UserWithEmail(users, ADMIN_EMAIL).value else nextId
  }

  /** The identifier the first sample event gets: one past whatever admin
      account and admin ticket the script creates. */
  function FirstEventId(users: map<Id, User>, tickets: map<Id, Ticket>, nextId: Id): Id
    requires Database.EmailsUnique(users)
  {
    nextId + (if Database.EmailTaken(users, ADMIN_EMAIL) then 0 else 1)
           + (if AdminIdAfter(users, nextId) in tickets then 0 else 1)
  }

  /** The admin account and its ticket: both lookups, and the creates for
      whatever is missing. */
  method EnsureAdminAndTicket(db: Database.Store) returns (ok: bool, adminId: Id)
    requires db.Valid()
    modifies db`users, db`tickets, db`nextId
    ensures db.Valid()
    ensures ok <==> Database.EmailTaken(old(db.users), ADMIN_EMAIL) || !Database.PhoneTaken(old(db.users), ADMIN_PHONE)
    ensures !ok ==> db.users == old(db.users) && db.tickets == old(db.tickets) && db.nextId == old(db.nextId)
    ensures Database.EmailTaken(old(db.users), ADMIN_EMAIL) ==> db.users == old(db.users)
    ensures ok && !Database.EmailTaken(old(db.users), ADMIN_EMAIL) ==>
      old(db.nextId) !in old(db.users) && db.users == old(db.users)[old(db.nextId) := AdminUser()]
    ensures ok ==>
      && Database.EmailTaken(db.users, ADMIN_EMAIL)
      && adminId == Database.UserWithEmail(db.users, ADMIN_EMAIL).value
      && adminId in db.tickets
      && db.tickets == old(db.tickets)[adminId := db.tickets[adminId]]
      && (adminId in old(db.tickets) ==> db.tickets[adminId] == old(db.tickets)[adminId])
      && (adminId !in old(db.tickets) ==> db.tickets[adminId].status == Activated)
    ensures ok && adminId in old(db.tickets) ==> db.nextId == old(db.nextId)
    ensures ok ==>
      && adminId == AdminIdAfter(old(db.users), old(db.nextId))
      && db.nextId == FirstEventId(old(db.users), old(db.tickets), old(db.nextId))
  {
    ok, adminId := EnsureAdmin(db);
    if !ok {
      return;
    }
    EnsureAdminTicket(db, adminId);
    assert Database.UserWithEmail(db.users, ADMIN_EMAIL).value == adminId;
  }

  /** The script over a list of sample events. It stops at a failed admin
      create; otherwise the admin exists with exactly the ticket it had or a
      new ACTIVATED one, every sample name names an event, and no existing
      event is changed. On a seeded store it writes nothing. */
  method Run(db: Database.Store, samples: seq<SampleEvent>, now: int) returns (ok: bool)
    requires db.Valid()
    modifies db`users, db`tickets, db`events, db`nextId
    ensures db.Valid()
    ensures ok <==> Database.EmailTaken(old(db.users), ADMIN_EMAIL) || !Database.PhoneTaken(old(db.users), ADMIN_PHONE)
    ensures !ok ==>
      db.users == old(db.users) && db.tickets == old(db.tickets) && db.events == old(db.events)
      && db.nextId == old(db.nextId)
    ensures ok ==> Seeded(db.users, db.tickets, db.events, samples)
    ensures ok ==>
      db.events == AddMissingEvents(old(db.events), samples, FirstEventId(old(db.users), old(db.tickets), old(db.nextId)), now)
    ensures Database.EmailTaken(old(db.users), ADMIN_EMAIL) ==> db.users == old(db.users)
    ensures ok && !Database.EmailTaken(old(db.users), ADMIN_EMAIL) ==>
      old(db.nextId) !in old(db.users) && db.users == old(db.users)[old(db.nextId) := AdminUser()]
    ensures ok ==>
      var admin := Database.UserWithEmail(db.users, ADMIN_EMAIL).value;
      && db.tickets == old(db.tickets)[admin := db.tickets[admin]]
      && (admin in old(db.tickets) ==> db.tickets[admin] == old(db.tickets)[admin])
      && (admin !in old(db.tickets) ==> db.tickets[admin].status == Activated)
    ensures |old(db.events)| <= |db.events| <= |old(db.events)| + |samples|
    ensures db.events[..|old(db.events)|] == old(db.events)
    ensures Seeded(old(db.users), old(db.tickets), old(db.events), samples) ==>
      && ok && db.users == old(db.users) && db.tickets == old(db.tickets)
      && db.events == old(db.events) && db.nextId == old(db.nextId)
  {
    var adminId;
    ok, adminId := EnsureAdminAndTicket(db);
    if ok {
      ghost var users1, tickets1, next1 := db.users, db.tickets, db.nextId;
      EnsureSampleEvents(db, samples, now);
      assert db.events == AddMissingEvents(old(db.events), samples, next1, now);
      assert db.users == users1 && db.tickets == tickets1;
    }
  }

  /** Running the seed twice: a second run after a successful first one
      succeeds too and leaves what one run leaves: at most one admin
      account added, one ticket key touched, at most one event per
      sample. */
  method RunTwice(db: Database.Store, samples: seq<SampleEvent>, now1: int, now2: int) returns (ok1: bool, ok2: bool)
    requires db.Valid()
    modifies db`users, db`tickets, db`events, db`nextId
    ensures ok1 ==> ok2 && Seeded(db.users, db.tickets, db.events, samples)
    ensures ok1 ==>
      db.users == if Database.EmailTaken(old(db.users), ADMIN_EMAIL) then old(db.users)
                  else old(db.users)[old(db.nextId) := AdminUser()]
    ensures ok1 ==>
      var admin := Database.UserWithEmail(db.users, ADMIN_EMAIL).value;
      db.tickets == old(db.tickets)[admin := db.tickets[admin]]
    ensures ok1 ==>
      db.events == AddMissingEvents(old(db.events), samples, FirstEventId(old(db.users), old(db.tickets), old(db.nextId)), now1)
    ensures |old(db.events)| <= |db.events| <= |old(db.events)| + |samples|
    ensures db.events[..|old(db.events)|] == old(db.events)
  {
    ok1 := Run(db, samples, now1);
    ghost var events1 := db.events;
    ok2 := Run(db, samples, now2);
    assert ok1 ==> db.events == events1;
  }
}
