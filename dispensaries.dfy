/** The dispensary page: the stored dispensaries with an add dialog, a button per row
    that files a fresh service request under that dispensary, and a dialog listing a
    dispensary's requests whose status select rewrites the stored requests. */
module DispensariesPage {
  import opened Wrappers
  import opened Types
  import opened Effects
  import Collections
  import DashboardPage

  /** The add dialog's fields (everything but the id and the creation time). */
  datatype DispensaryForm = DispensaryForm(
    name: string,
    address: string,
    category: DispensaryCategory,
    status: DispensaryStatus,
    engineers: seq<string>,
    serviceRequests: seq<ServiceRequest>)

  /** What the dialog starts from and returns to after an add. */
  const BlankDispensaryForm := DispensaryForm("", "", Medical, Open, [], [])

  /** `handleInputChange` on the name or address, `handleSelectChange` on a select. */
  datatype DispensaryChange =
    | SetName(name: string)
    | SetAddress(address: string)
    | SetCategory(category: DispensaryCategory)
    | SetStatus(status: DispensaryStatus)

  function ApplyDispensaryChange(form: DispensaryForm, change: DispensaryChange): (r: DispensaryForm)
    ensures change.SetName? ==> r == form.(name := change.name)
    ensures change.SetAddress? ==> r == form.(address := change.address)
    ensures change.SetCategory? ==> r == form.(category := change.category)
    ensures change.SetStatus? ==> r == form.(status := change.status)
  {
    match change
    case SetName(n) => form.(name := n)
    case SetAddress(a) => form.(address := a)
    case SetCategory(c) => form.(category := c)
    case SetStatus(s) => form.(status := s)
  }

  /** The record `addDispensary` stores: the form with the supplied id and time. */
  function NewDispensary(form: DispensaryForm, freshId: string, now: int): (d: Dispensary)
    ensures d.id == freshId && d.createdAt == now
    ensures DispensaryForm(d.name, d.address, d.category, d.status, d.engineers, d.serviceRequests) == form
  {
    Dispensary(freshId, form.name, form.address, form.category, form.status, form.engineers, now, form.serviceRequests)
  }

  /** The request `handleAddServiceRequest` files: pending, medium priority, no notes,
      titled after the dispensary. */
  function NewRequestFor(d: Dispensary, freshId: string, now: int): (q: ServiceRequest)
    ensures q.id == freshId && q.createdAt == now && q.dispensaryId == d.id
    ensures q.status == Pending && q.priority == Medium
    ensures q.title == "Service Request for " + d.name
    ensures q.description == "New service request description"
    ensures q.resolvedAt.None? && q.responseNotes == [] && q.dispensaryName == ""
  {
    ServiceRequest(freshId, "Service Request for " + d.name, "New service request description",
                   Pending, Medium, now, None, d.id, "", [])
  }

  /** The test `d.id === id`. */
  function HasId(id: string): Dispensary -> bool {
    Collections.IdIs((d: Dispensary) => d.id, id)
  }

  /** The stored update of `handleAddServiceRequest`: the dispensaries with that id get
      the request at the end of their list; the rest, and the order, are untouched. */
  function WithRequest(dispensaries: seq<Dispensary>, id: string, q: ServiceRequest): (r: seq<Dispensary>)
    ensures |r| == |dispensaries|
    ensures forall i :: 0 <= i < |dispensaries| ==>
      r[i] == if dispensaries[i].id == id
              then dispensaries[i].(serviceRequests := dispensaries[i].serviceRequests + [q])
              else dispensaries[i]
  {
    Collections.MapWhere(dispensaries, HasId(id),
      (d: Dispensary) => d.(serviceRequests := d.serviceRequests + [q]))
  }

  /** `requests.map(r => r.id === id ? { ...r, status } : r)`: no resolution time is
      stamped here. */
  function SetStatusIn(requests: seq<ServiceRequest>, id: string, status: RequestStatus): (r: seq<ServiceRequest>)
    ensures |r| == |requests|
    ensures forall i :: 0 <= i < |requests| ==>
      r[i] == if requests[i].id == id then requests[i].(status := status) else requests[i]
  {
    seq(|requests|, i requires 0 <= i < |requests| =>
      if requests[i].id == id then requests[i].(status := status) else requests[i])
  }

  /** The stored update of `updateServiceRequestStatus`: every dispensary's list is
      rewritten; the dispensaries themselves keep their order and other fields. */
  function SetStatusEverywhere(dispensaries: seq<Dispensary>, id: string, status: RequestStatus): (r: seq<Dispensary>)
    ensures |r| == |dispensaries|
    ensures forall i :: 0 <= i < |dispensaries| ==>
      r[i] == dispensaries[i].(serviceRequests := SetStatusIn(dispensaries[i].serviceRequests, id, status))
  {
    seq(|dispensaries|, i requires 0 <= i < |dispensaries| =>
      dispensaries[i].(serviceRequests := SetStatusIn(dispensaries[i].serviceRequests, id, status)))
  }

  /** How many dispensaries carry the id. */
  function CountId(dispensaries: seq<Dispensary>, id: string): nat {
    Collections.Count(dispensaries, HasId(id))
  }

  /** Filing a request adds it once per dispensary with that id to the dashboard's list,
      so with unique dispensary ids the dashboard gains exactly one request. */
  lemma {:induction false} WithRequestCounts(dispensaries: seq<Dispensary>, id: string, q: ServiceRequest, p: ServiceRequest -> bool)
    ensures Collections.Count(DashboardPage.AllRequests(WithRequest(dispensaries, id, q)), p) ==
            Collections.Count(DashboardPage.AllRequests(dispensaries), p) + (if p(q) then CountId(dispensaries, id) else 0)
    decreases |dispensaries|
  {
    if |dispensaries| > 0 {
      var d := dispensaries[0];
      var tail := dispensaries[1..];
      var after := WithRequest(dispensaries, id, q);
      WithRequestCounts(tail, id, q, p);
      assert after[1..] == WithRequest(tail, id, q);
      Collections.FilterConcat(after[0].serviceRequests, DashboardPage.AllRequests(after[1..]), p);
      Collections.FilterConcat(d.serviceRequests, DashboardPage.AllRequests(tail), p);
      if d.id == id {
        Collections.FilterConcat(d.serviceRequests, [q], p);
        assert Collections.Filter([q], p) == if p(q) then [q] else [] by {
          assert [q][1..] == [];
        }
      }
    }
  }

  predicate UniqueIds(dispensaries: seq<Dispensary>) {
    Collections.UniqueBy(dispensaries, (d: Dispensary) => d.id)
  }

  /** With unique ids, the id of a stored dispensary is carried exactly once. */
  lemma CountOwnId(dispensaries: seq<Dispensary>, k: nat)
    requires UniqueIds(dispensaries) && k < |dispensaries|
    ensures CountId(dispensaries, dispensaries[k].id) == 1
  {
    var p := HasId(dispensaries[k].id);
    var front, back := dispensaries[..k], dispensaries[k + 1..];
    forall i | 0 <= i < |front| ensures !p(front[i]) {
      assert front[i] == dispensaries[i];
    }
    forall i | 0 <= i < |back| ensures !p(back[i]) {
      assert back[i] == dispensaries[k + 1 + i];
    }
    Collections.FilterNone(front, p);
    Collections.FilterNone(back, p);
    assert Collections.Filter([dispensaries[k]], p) == [dispensaries[k]] by {
      assert [dispensaries[k]][1..] == [];
    }
    assert dispensaries == front + [dispensaries[k]] + back;
    Collections.FilterConcat(front + [dispensaries[k]], back, p);
    Collections.FilterConcat(front, [dispensaries[k]], p);
  }

  /** "Add Service Request" on a row raises the dashboard's request total and its pending
      count by exactly one and leaves the other counts alone. */
  lemma FilingCountsOnce(dispensaries: seq<Dispensary>, k: nat, freshId: string, now: int)
    requires UniqueIds(dispensaries) && k < |dispensaries|
    ensures var d := dispensaries[k];
      var after := WithRequest(dispensaries, d.id, NewRequestFor(d, freshId, now));
      |DashboardPage.AllRequests(after)| == |DashboardPage.AllRequests(dispensaries)| + 1 &&
      DashboardPage.RequestCount(after, Pending) == DashboardPage.RequestCount(dispensaries, Pending) + 1 &&
      DashboardPage.RequestCount(after, InProgress) == DashboardPage.RequestCount(dispensaries, InProgress) &&
      DashboardPage.RequestCount(after, Resolved) == DashboardPage.RequestCount(dispensaries, Resolved)
  {
    var d := dispensaries[k];
    var q := NewRequestFor(d, freshId, now);
    var after := WithRequest(dispensaries, d.id, q);
    CountOwnId(dispensaries, k);
    WithRequestCounts(dispensaries, d.id, q, DashboardPage.HasStatus(Pending));
    WithRequestCounts(dispensaries, d.id, q, DashboardPage.HasStatus(InProgress));
    WithRequestCounts(dispensaries, d.id, q, DashboardPage.HasStatus(Resolved));
    DashboardPage.RequestCountsSum(dispensaries);
    DashboardPage.RequestCountsSum(after);
  }

  /** Changing a status on the stored dispensaries is the same as changing it on the
      dashboard's flattened list: the list keeps its length and order. */
  lemma {:induction false} SetStatusFlattens(dispensaries: seq<Dispensary>, id: string, status: RequestStatus)
    ensures DashboardPage.AllRequests(SetStatusEverywhere(dispensaries, id, status)) ==
            SetStatusIn(DashboardPage.AllRequests(dispensaries), id, status)
    decreases |dispensaries|
  {
    if |dispensaries| > 0 {
      var tail := dispensaries[1..];
      SetStatusFlattens(tail, id, status);
      assert SetStatusEverywhere(dispensaries, id, status)[1..] == SetStatusEverywhere(tail, id, status);
      var a := dispensaries[0].serviceRequests;
      var b := DashboardPage.AllRequests(tail);
      assert SetStatusIn(a + b, id, status) == SetStatusIn(a, id, status) + SetStatusIn(b, id, status);
    }
  }

  /** A status change never stamps or clears a resolution time. */
  lemma SetStatusKeepsResolvedAt(requests: seq<ServiceRequest>, id: string, status: RequestStatus)
    ensures forall i :: 0 <= i < |requests| ==>
      SetStatusIn(requests, id, status)[i].resolvedAt == requests[i].resolvedAt &&
      SetStatusIn(requests, id, status)[i].(status := requests[i].status) == requests[i]
  {
  }

  class Dispensaries {
    var dispensaries: seq<Dispensary>
    var form: DispensaryForm
    var open: bool
    var selected: Option<Dispensary>
    /** The dialog's own copy of the requests it lists. */
    var shownRequests: seq<ServiceRequest>

    /** The list stored under the dispensaries key (empty when nothing is stored). */
    constructor (stored: Option<seq<Dispensary>>)
      ensures dispensaries == stored.GetOr([])
      ensures form == BlankDispensaryForm && !open && selected.None? && shownRequests == []
    {
      dispensaries := stored.GetOr([]);
      form := BlankDispensaryForm;
      open := false;
      selected := None;
      shownRequests := [];
    }

    /** The dialog trigger and its `onOpenChange`. */
    method SetOpen(value: bool)
      modifies this`open
      ensures open == value
    {
      open := value;
    }

    method ChangeForm(change: DispensaryChange)
      modifies this`form
      ensures form == ApplyDispensaryChange(old(form), change)
    {
      form := ApplyDispensaryChange(form, change);
    }

    /** `addDispensary`: no field is checked; the form is stored with the supplied id and
        time, reset and closed. */
    method AddDispensary(freshId: string, now: int) returns (outcome: Outcome)
      modifies this`dispensaries, this`form, this`open
      ensures dispensaries == old(dispensaries) + [NewDispensary(old(form), freshId, now)]
      ensures form == BlankDispensaryForm && !open
      ensures outcome == Toast("Dispensary added", "Dispensary " + old(form).name + " added successfully")
    {
      var d := NewDispensary(form, freshId, now);
      dispensaries := dispensaries + [d];
      form := BlankDispensaryForm;
      open := false;
      outcome := Toast("Dispensary added", "Dispensary " + d.name + " added successfully");
    }

    /** "View Service Requests" on row `i`. */
    method ViewRequests(i: nat)
      requires i < |dispensaries|
      modifies this`selected, this`shownRequests
      ensures selected == Some(dispensaries[i]) && shownRequests == dispensaries[i].serviceRequests
    {
      selected := Some(dispensaries[i]);
      shownRequests := dispensaries[i].serviceRequests;
    }

    method CloseRequests()
      modifies this`selected
      ensures selected.None?
    {
      selected := None;
    }

    /** "Add Service Request" on row `i`: the request is stored under that dispensary and
        appended to whatever the dialog last listed; the dialog opens on the row's record
        as it was before the request was added. */
    method AddServiceRequest(i: nat, freshId: string, now: int) returns (outcome: Outcome)
      requires i < |dispensaries|
      modifies this`dispensaries, this`selected, this`shownRequests
      ensures var d := old(dispensaries)[i];
        dispensaries == WithRequest(old(dispensaries), d.id, NewRequestFor(d, freshId, now)) &&
        selected == Some(d) &&
        shownRequests == old(shownRequests) + [NewRequestFor(d, freshId, now)] &&
        outcome == Toast("Service request added", "Service request added for " + d.name)
    {
      var d := dispensaries[i];
      var q := NewRequestFor(d, freshId, now);
      dispensaries := WithRequest(dispensaries, d.id, q);
      selected := Some(d);
      shownRequests := shownRequests + [q];
      outcome := Toast("Service request added", "Service request added for " + d.name);
    }

    /** The status select of the dialog's row `j`: the stored requests with that id and the
        dialog's copy both take the status. */
    method UpdateRequestStatus(j: nat, status: RequestStatus) returns (outcome: Outcome)
      requires j < |shownRequests|
      modifies this`dispensaries, this`shownRequests
      ensures var id := old(shownRequests)[j].id;
        dispensaries == SetStatusEverywhere(old(dispensaries), id, status) &&
        shownRequests == SetStatusIn(old(shownRequests), id, status) &&
        outcome == Toast("Service request updated", "Service request status updated to " + status.Name())
    {
      var id := shownRequests[j].id;
      dispensaries := SetStatusEverywhere(dispensaries, id, status);
      shownRequests := SetStatusIn(shownRequests, id, status);
      outcome := Toast("Service request updated", "Service request status updated to " + status.Name());
    }
  }
}
