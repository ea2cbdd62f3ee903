/** `GET /api/admin/stats`: table sizes and the number of tickets in each
    status, for admins only. Nothing is written. */
module StatsRoute {
  import opened Types

  /** The owners whose ticket has status `s`. */
  function WithStatus(tickets: map<Id, Ticket>, s: TicketStatus): (r: set<Id>)
    ensures forall u :: u in r <==> u in tickets && tickets[u].status == s
  {
    set u | u in tickets && tickets[u].status == s
  }

  function Get(session: Option<Principal>, users: map<Id, User>, tickets: map<Id, Ticket>,
               performances: seq<Performance>, events: seq<Event>): (r: Response)
    ensures !IsAdmin(session) ==> r == Response(403, Failure("Admin access required"))
    ensures IsAdmin(session) ==>
      && r.status == 200 && r.body.Stats?
      && r.body.totalUsers == |users| && r.body.totalPerformances == |performances| && r.body.totalEvents == |events|
      && r.body.activated == |WithStatus(tickets, Activated)|
      && r.body.pending == |WithStatus(tickets, PaymentPending)|
      && r.body.notActivated == |WithStatus(tickets, NotActivated)|
      && r.body.activated + r.body.pending + r.body.notActivated == |tickets|
  {
    if !IsAdmin(session) then Response(403, Failure("Admin access required"))
    else
      StatusesPartition(tickets);
      Response(200, Stats(|users|, |performances|, |events|,
                          |WithStatus(tickets, Activated)|, |WithStatus(tickets, PaymentPending)|,
                          |WithStatus(tickets, NotActivated)|))
  }

  /** Every ticket has exactly one of the three statuses, so the three
      counts add up to the number of tickets. */
  lemma StatusesPartition(tickets: map<Id, Ticket>)
    ensures |WithStatus(tickets, Activated)| + |WithStatus(tickets, PaymentPending)|
            + |WithStatus(tickets, NotActivated)| == |tickets|
  {
    var a, p, n := WithStatus(tickets, Activated), WithStatus(tickets, PaymentPending), WithStatus(tickets, NotActivated);
    assert a * p == {} && (a + p) * n == {};
    assert a + p + n == tickets.Keys;
    assert |a + p| == |a| + |p|;
    assert |a + p + n| == |a + p| + |n|;
  }
}
