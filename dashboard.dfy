/** The dashboard's figures: user counts, the service requests of every dispensary taken
    together, and the per-status counts behind the stat cards and the two bar charts. */
module DashboardPage {
  import opened Types
  import Collections

  /** The test `u.status === "active"`. */
  function IsActive(): User -> bool {
    (u: User) => u.status == Active
  }

  /** `users.filter(u => u.status === "active").length`: never more than the total, and
      equal to it exactly when every user is active. */
  function ActiveUsers(users: seq<User>): (n: nat)
    ensures n <= |users|
    ensures n == |users| <==> forall i :: 0 <= i < |users| ==> users[i].status == Active
  {
    Collections.CountAll(users, IsActive());
    Collections.Count(users, IsActive())
  }

  /** `dispensaries.flatMap(d => d.serviceRequests)`. */
  function AllRequests(dispensaries: seq<Dispensary>): (r: seq<ServiceRequest>)
    ensures forall i, q :: 0 <= i < |dispensaries| && q in dispensaries[i].serviceRequests ==> q in r
    decreases |dispensaries|
  {
    if |dispensaries| == 0 then [] else dispensaries[0].serviceRequests + AllRequests(dispensaries[1..])
  }

  /** Flattening works piecewise: the requests come dispensary by dispensary, in order. */
  lemma {:induction false} AllRequestsConcat(a: seq<Dispensary>, b: seq<Dispensary>)
    ensures AllRequests(a + b) == AllRequests(a) + AllRequests(b)
    decreases |a|
  {
    if |a| == 0 {
      assert a + b == b;
    } else {
      AllRequestsConcat(a[1..], b);
      assert (a + b)[1..] == a[1..] + b;
    }
  }

  /** A request is on the dashboard exactly when some dispensary holds it. */
  lemma {:induction false} AllRequestsMembers(dispensaries: seq<Dispensary>, q: ServiceRequest)
    ensures q in AllRequests(dispensaries) <==>
            exists i :: 0 <= i < |dispensaries| && q in dispensaries[i].serviceRequests
    decreases |dispensaries|
  {
    if |dispensaries| > 0 {
      AllRequestsMembers(dispensaries[1..], q);
      var tail := dispensaries[1..];
      if exists i :: 1 <= i < |dispensaries| && q in dispensaries[i].serviceRequests {
        var i :| 1 <= i < |dispensaries| && q in dispensaries[i].serviceRequests;
        assert tail[i - 1] == dispensaries[i];
      }
      if exists i :: 0 <= i < |tail| && q in tail[i].serviceRequests {
        var i :| 0 <= i < |tail| && q in tail[i].serviceRequests;
        assert tail[i] == dispensaries[i + 1];
      }
    }
  }

  /** The test `sr.status === status`. */
  function HasStatus(status: RequestStatus): ServiceRequest -> bool {
    (q: ServiceRequest) => q.status == status
  }

  /** The number of requests in a status, over every dispensary. */
  function RequestCount(dispensaries: seq<Dispensary>, status: RequestStatus): (n: nat)
    ensures n <= |AllRequests(dispensaries)|
  {
    Collections.Count(AllRequests(dispensaries), HasStatus(status))
  }

  /** Every request is in exactly one of the three statuses, so the pending, in-progress
      and resolved counts add up to the number of requests. */
  lemma RequestCountsSum(dispensaries: seq<Dispensary>)
    ensures RequestCount(dispensaries, Pending) + RequestCount(dispensaries, InProgress) +
            RequestCount(dispensaries, Resolved) == |AllRequests(dispensaries)|
  {
    Collections.CountPartition3(AllRequests(dispensaries), HasStatus(Pending), HasStatus(InProgress), HasStatus(Resolved));
  }

  /** The test `d.status === status`. */
  function InStatus(status: DispensaryStatus): Dispensary -> bool {
    (d: Dispensary) => d.status == status
  }

  function DispensaryCount(dispensaries: seq<Dispensary>, status: DispensaryStatus): (n: nat)
    ensures n <= |dispensaries|
  {
    Collections.Count(dispensaries, InStatus(status))
  }

  /** The open, under-maintenance and closed counts add up to the number of
      dispensaries. */
  lemma DispensaryCountsSum(dispensaries: seq<Dispensary>)
    ensures DispensaryCount(dispensaries, Open) + DispensaryCount(dispensaries, UnderMaintenance) +
            DispensaryCount(dispensaries, Closed) == |dispensaries|
  {
    Collections.CountPartition3(dispensaries, InStatus(Open), InStatus(UnderMaintenance), InStatus(Closed));
  }

  /** One bar of a chart. */
  datatype Bar = Bar(name: string, value: nat)

  /** The four stat cards. */
  datatype Stats = Stats(totalUsers: nat, activeUsers: nat, pendingRequests: nat, resolvedRequests: nat)

  function CardStats(users: seq<User>, dispensaries: seq<Dispensary>): (r: Stats)
    ensures r.totalUsers == |users| && r.activeUsers <= r.totalUsers
    ensures r.pendingRequests + r.resolvedRequests <= |AllRequests(dispensaries)|
  {
    RequestCountsSum(dispensaries);
    Stats(|users|, ActiveUsers(users), RequestCount(dispensaries, Pending), RequestCount(dispensaries, Resolved))
  }

  /** The requests-by-status chart: its bars count every request once, and two of them
      repeat the figures of the stat cards. */
  function RequestsByStatus(dispensaries: seq<Dispensary>): (r: seq<Bar>)
    ensures |r| == 3 && r[0].name == "Pending" && r[1].name == "In Progress" && r[2].name == "Resolved"
    ensures r[0].value + r[1].value + r[2].value == |AllRequests(dispensaries)|
    ensures forall users :: r[0].value == CardStats(users, dispensaries).pendingRequests &&
                            r[2].value == CardStats(users, dispensaries).resolvedRequests
  {
    RequestCountsSum(dispensaries);
    [Bar("Pending", RequestCount(dispensaries, Pending)),
     Bar("In Progress", RequestCount(dispensaries, InProgress)),
     Bar("Resolved", RequestCount(dispensaries, Resolved))]
  }

  /** The dispensary-status chart: its bars count every dispensary once. */
  function DispensaryStatusData(dispensaries: seq<Dispensary>): (r: seq<Bar>)
    ensures |r| == 3 && r[0].name == "Open" && r[1].name == "Under Maintenance" && r[2].name == "Closed"
    ensures r[0].value + r[1].value + r[2].value == |dispensaries|
  {
    DispensaryCountsSum(dispensaries);
    [Bar("Open", DispensaryCount(dispensaries, Open)),
     Bar("Under Maintenance", DispensaryCount(dispensaries, UnderMaintenance)),
     Bar("Closed", DispensaryCount(dispensaries, Closed))]
  }
}
