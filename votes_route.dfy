/** `GET /api/performances/votes`: the leaderboard. Per performance it sums
    the points of its votes, counts them, looks up the caller's own vote and
    whether the caller takes part, then orders the rows by total points,
    highest first. Nothing is written. */
module VotesRoute {
  import opened Types
  import Sorting

  /** The votes cast for one performance, in stored order. */
  function VotesFor(votes: seq<Vote>, performanceId: Id): (r: seq<Vote>)
    ensures forall i :: 0 <= i < |r| ==> r[i].performanceId == performanceId
    ensures forall i :: 0 <= i < |votes| && votes[i].performanceId == performanceId ==> votes[i] in r
    ensures forall i :: 0 <= i < |r| ==> r[i] in votes
    ensures forall v: Vote :: multiset(r)[v] == if v.performanceId == performanceId then multiset(votes)[v] else 0
  {
    var cast := (v: Vote) => v.performanceId == performanceId;
    assert forall v: Vote :: multiset(Sorting.Filter(votes, cast))[v] == if cast(v) then multiset(votes)[v] else 0 by {
      forall v: Vote {
        Sorting.FilterCount(votes, cast, v);
      }
    }
    Sorting.Filter(votes, cast)
  }

  /** `votes.reduce((sum, v) => sum + v.points, 0)`. */
  function TotalPoints(votes: seq<Vote>): int
  {
    if votes == [] then 0 else votes[0].points + TotalPoints(votes[1..])
  }

  /** `votes.find(v => v.userId === viewer)?.points || null`: the points of
      the caller's first vote, with no vote and a zero vote both null. */
  function UserVote(votes: seq<Vote>, viewer: Id): (r: Option<int>)
    ensures r.Some? ==> r.value != 0 && exists i :: 0 <= i < |votes| && votes[i].userId == viewer && votes[i].points == r.value
    ensures (forall i :: 0 <= i < |votes| ==> votes[i].userId != viewer) ==> r.None?
    ensures forall i :: 0 <= i < |votes| && votes[i].userId == viewer && (forall j :: 0 <= j < i ==> votes[j].userId != viewer) ==>
      r == (if votes[i].points == 0 then None else Some(votes[i].points))
  {
    if votes == [] then None
    else if votes[0].userId == viewer then (if votes[0].points == 0 then None else Some(votes[0].points))
    else UserVote(votes[1..], viewer)
  }

  /** The registrants of one performance. */
  function Participants(registrations: set<(Id, Id)>, performanceId: Id): (r: set<Id>)
    ensures forall u :: u in r <==> (u, performanceId) in registrations
  {
    set reg | reg in registrations && reg.1 == performanceId :: reg.0
  }

  /** One leaderboard row: the caller takes part exactly when they created
      the performance or are registered for it. */
  function StatsOf(p: Performance, votes: seq<Vote>, registrations: set<(Id, Id)>, viewer: Id): (s: PerformanceStats)
    ensures s.id == p.id && s.name == p.name && s.description == p.description && s.creatorId == p.creatorId
    ensures s.totalPoints == TotalPoints(VotesFor(votes, p.id)) && s.voteCount == |VotesFor(votes, p.id)|
    ensures s.userVote == UserVote(VotesFor(votes, p.id), viewer)
    ensures s.isParticipant <==> p.creatorId == viewer || viewer in s.participants
    ensures forall u :: u in s.participants <==> (u, p.id) in registrations
  {
    var mine := VotesFor(votes, p.id);
    var participants := Participants(registrations, p.id);
    PerformanceStats(p.id, p.name, p.description, p.creatorId, participants, TotalPoints(mine), |mine|,
                     UserVote(mine, viewer), p.creatorId == viewer || viewer in participants)
  }

  /** `performances.map(...)`. */
  function AllStats(performances: seq<Performance>, votes: seq<Vote>, registrations: set<(Id, Id)>, viewer: Id)
    : (r: seq<PerformanceStats>)
    ensures |r| == |performances|
    ensures forall i :: 0 <= i < |r| ==> r[i] == StatsOf(performances[i], votes, registrations, viewer)
  {
    if performances == [] then []
    else [StatsOf(performances[0], votes, registrations, viewer)] + AllStats(performances[1..], votes, registrations, viewer)
  }

  function TotalPointsOf(s: PerformanceStats): int { s.totalPoints }

  /** Admins always see the board; others only once settings exist with
      voting enabled. */
  predicate CanViewVotes(session: Principal, settings: Option<AppSettings>)
  {
    session.isAdmin || (settings.Some? && settings.value.votingEnabled)
  }

  function Get(session: Option<Principal>, settings: Option<AppSettings>, performances: seq<Performance>,
               votes: seq<Vote>, registrations: set<(Id, Id)>): (r: Response)
    ensures session.None? ==> r == Unauthorized()
    ensures session.Some? && !CanViewVotes(session.value, settings) ==>
      r == Response(403, Failure("Voting is not open yet"))
    ensures session.Some? && CanViewVotes(session.value, settings) ==>
      && r.status == 200 && r.body.Leaderboard?
      && |r.body.entries| == |performances|
      && Sorting.SortedDesc(r.body.entries, TotalPointsOf)
      && multiset(r.body.entries) == multiset(AllStats(performances, votes, registrations, session.value.id))
  {
    if session.None? then Unauthorized()
    else if !CanViewVotes(session.value, settings) then Response(403, Failure("Voting is not open yet"))
    else
      var rows := AllStats(performances, votes, registrations, session.value.id);
      Response(200, Leaderboard(Sorting.SortDesc(rows, TotalPointsOf)))
  }

  lemma {:induction false} TotalPointsAppend(a: seq<Vote>, b: seq<Vote>)
    ensures TotalPoints(a + b) == TotalPoints(a) + TotalPoints(b)
  {
    if a == [] {
      assert a + b == b;
    } else {
      assert (a + b)[1..] == a[1..] + b;
      TotalPointsAppend(a[1..], b);
    }
  }

  lemma VotesForAppend(votes: seq<Vote>, v: Vote, performanceId: Id)
    ensures VotesFor(votes + [v], performanceId) ==
      VotesFor(votes, performanceId) + (if v.performanceId == performanceId then [v] else [])
  {
    Sorting.FilterAppend(votes, v, (w: Vote) => w.performanceId == performanceId);
  }

  /** A further vote changes only the row of its own performance, adding its
      points to the total and one to the count. */
  lemma NewVoteCounts(p: Performance, votes: seq<Vote>, v: Vote, registrations: set<(Id, Id)>, viewer: Id)
    ensures var before := StatsOf(p, votes, registrations, viewer);
      var after := StatsOf(p, votes + [v], registrations, viewer);
      && after.totalPoints == before.totalPoints + (if v.performanceId == p.id then v.points else 0)
      && after.voteCount == before.voteCount + (if v.performanceId == p.id then 1 else 0)
  {
    VotesForAppend(votes, v, p.id);
    TotalPointsAppend(VotesFor(votes, p.id), if v.performanceId == p.id then [v] else []);
    assert TotalPoints([v]) == v.points by { assert [v][1..] == []; }
  }
}
