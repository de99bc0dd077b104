/** The service-request board: a fixed set of requests held in page state, searched and
    filtered, listed newest first and paged; a detail view whose buttons move a request
    forward through pending, in progress and resolved; and a response dialog that
    appends a note. */
module ServiceRequestsPage {
  import opened Wrappers
  import opened Types
  import opened Effects
  import Text
  import Collections
  import Permissions
  import UserStore
  import opened Constants

  // ---------------------------------------------------------------- filtering

  /** The search text occurs in the title or the description (ignoring case), and status
      and priority match when a filter is chosen. */
  predicate Matches(r: ServiceRequest, search: string, statusFilter: Option<RequestStatus>, priorityFilter: Option<Priority>) {
    (Text.ContainsIgnoreCase(r.title, search) || Text.ContainsIgnoreCase(r.description, search)) &&
    (statusFilter.None? || r.status == statusFilter.value) &&
    (priorityFilter.None? || r.priority == priorityFilter.value)
  }

  function Filtered(requests: seq<ServiceRequest>, search: string, statusFilter: Option<RequestStatus>, priorityFilter: Option<Priority>): (r: seq<ServiceRequest>)
    ensures forall i :: 0 <= i < |r| ==> r[i] in requests && Matches(r[i], search, statusFilter, priorityFilter)
    ensures forall i :: 0 <= i < |requests| && Matches(requests[i], search, statusFilter, priorityFilter) ==> requests[i] in r
  {
    Collections.Filter(requests, (q: ServiceRequest) => Matches(q, search, statusFilter, priorityFilter))
  }

  /** With the filters cleared every request is kept, in order. */
  lemma ClearedFiltersKeepAll(requests: seq<ServiceRequest>)
    ensures Filtered(requests, "", None, None) == requests
  {
    forall i | 0 <= i < |requests| ensures Matches(requests[i], "", None, None) {
      Text.ContainsEmpty(requests[i].title);
    }
    Collections.FilterAll(requests, (q: ServiceRequest) => Matches(q, "", None, None));
  }

  // ---------------------------------------------------------------- newest first

  /** The sort key: the creation time. */
  function CreatedAt(): ServiceRequest -> int {
    (q: ServiceRequest) => q.createdAt
  }

  predicate NewestFirst(s: seq<ServiceRequest>) {
    forall i, j :: 0 <= i < j < |s| ==> s[i].createdAt >= s[j].createdAt
  }

  /** `[...requests].sort((a, b) => b.createdAt - a.createdAt)`: newest first, a
      rearrangement of its input, and stable among requests created at the same
      instant. */
  function SortNewestFirst(s: seq<ServiceRequest>): (r: seq<ServiceRequest>)
    ensures NewestFirst(r)
    ensures multiset(r) == multiset(s)
    ensures forall t :: Collections.Filter(r, Collections.KeyIs(CreatedAt(), t)) ==
                        Collections.Filter(s, Collections.KeyIs(CreatedAt(), t))
  {
    var r := Collections.SortDescending(s, CreatedAt());
    assert forall i, j :: 0 <= i < j < |r| ==> CreatedAt()(r[i]) >= CreatedAt()(r[j]);
    forall t ensures Collections.Filter(r, Collections.KeyIs(CreatedAt(), t)) ==
                     Collections.Filter(s, Collections.KeyIs(CreatedAt(), t)) {
      Collections.SortStable(s, CreatedAt(), t);
    }
    r
  }

  // ---------------------------------------------------------------- responses and status

  /** How far along a request is. */
  function Rank(s: RequestStatus): nat {
    match s
    case Pending => 0
    case InProgress => 1
    case Resolved => 2
  }

  /** The test `request.id === id`. */
  function HasId(id: string): ServiceRequest -> bool {
    Collections.IdIs((q: ServiceRequest) => q.id, id)
  }

  /** One request after a response: the note is appended, a pending request moves to in
      progress, nothing else changes. */
  function AddResponse(q: ServiceRequest, note: ResponseNote): (r: ServiceRequest)
    ensures r.responseNotes == q.responseNotes + [note]
    ensures r.status == if q.status == Pending then InProgress else q.status
    ensures Rank(r.status) >= Rank(q.status) && r.status != Pending
    ensures r.(responseNotes := q.responseNotes, status := q.status) == q
  {
    q.(responseNotes := q.responseNotes + [note], status := if q.status == Pending then InProgress else q.status)
  }

  /** One request after a status change: resolving stamps the time, any other status keeps
      the old stamp. */
  function WithStatus(q: ServiceRequest, status: RequestStatus, now: int): (r: ServiceRequest)
    ensures r.status == status
    ensures r.resolvedAt == if status == Resolved then Some(now) else q.resolvedAt
    ensures r.(status := q.status, resolvedAt := q.resolvedAt) == q
  {
    q.(status := status, resolvedAt := if status == Resolved then Some(now) else q.resolvedAt)
  }

  /** Every resolved request carries its resolution time. */
  predicate Stamped(requests: seq<ServiceRequest>) {
    forall i :: 0 <= i < |requests| && requests[i].status == Resolved ==> requests[i].resolvedAt.Some?
  }

  /** `handleRespondToRequest`'s map: the requests with that id get the note. */
  function RespondAll(requests: seq<ServiceRequest>, id: string, note: ResponseNote): (r: seq<ServiceRequest>)
    ensures |r| == |requests|
    ensures forall i :: 0 <= i < |requests| ==>
      r[i] == if requests[i].id == id then AddResponse(requests[i], note) else requests[i]
    ensures forall i :: 0 <= i < |requests| ==> r[i].id == requests[i].id
    ensures Stamped(requests) ==> Stamped(r)
  {
    Collections.MapWhere(requests, HasId(id), (q: ServiceRequest) => AddResponse(q, note))
  }

  /** `handleUpdateRequestStatus`'s map: the requests with that id take the new status. */
  function UpdateStatusAll(requests: seq<ServiceRequest>, id: string, status: RequestStatus, now: int): (r: seq<ServiceRequest>)
    ensures |r| == |requests|
    ensures forall i :: 0 <= i < |requests| ==>
      r[i] == if requests[i].id == id then WithStatus(requests[i], status, now) else requests[i]
    ensures forall i :: 0 <= i < |requests| ==> r[i].id == requests[i].id
    ensures Stamped(requests) ==> Stamped(r)
  {
    Collections.MapWhere(requests, HasId(id), (q: ServiceRequest) => WithStatus(q, status, now))
  }

  /** The seed satisfies the invariant. */
  lemma StaticStamped()
    ensures Stamped(StaticRequests)
  {
  }

  /** The status buttons of the detail view: none for a resolved request or for someone
      who may not respond; "Mark as In Progress" only while pending; "Mark as Resolved"
      otherwise. Every button moves the request strictly forward. */
  function StatusActions(actor: Option<User>, q: ServiceRequest): (r: seq<RequestStatus>)
    ensures !Permissions.CanManage(actor) || q.status == Resolved ==> r == []
    ensures forall i :: 0 <= i < |r| ==> Rank(r[i]) > Rank(q.status)
    ensures Permissions.CanManage(actor) && q.status != Resolved ==> Resolved in r
    ensures InProgress in r <==> Permissions.CanManage(actor) && q.status == Pending
  {
    if !Permissions.CanManage(actor) || q.status == Resolved then []
    else if q.status == Pending then [InProgress, Resolved]
    else [Resolved]
  }

  /** `newStatus.replace('-', ' ')` in the status toast. */
  function StatusMessage(status: RequestStatus): (r: string)
    ensures |r| == |"Service request status updated to "| + |status.Name()|
    ensures status != InProgress ==> r == "Service request status updated to " + status.Name()
  {
    var name := status.Name();
    if status != InProgress then
      Text.ReplaceFirstAbsent(name, '-', ' ');
      "Service request status updated to " + Text.ReplaceFirst(name, '-', ' ')
    else "Service request status updated to " + Text.ReplaceFirst(name, '-', ' ')
  }

  /** Only the dash of "in-progress" is replaced in the toast. */
  lemma InProgressMessage()
    ensures StatusMessage(InProgress) == "Service request status updated to in progress"
  {
  }

  /** `word.charAt(0).toUpperCase() + word.slice(1)`. */
  function Capitalize(w: string): (r: string)
    ensures |r| == |w|
    ensures |w| > 0 ==> r[0] == Text.UpperChar(w[0]) && r[1..] == w[1..]
  {
    if w == "" then "" else [Text.UpperChar(w[0])] + w[1..]
  }

  function CapitalizeAll(words: seq<string>): (r: seq<string>)
    ensures |r| == |words|
    ensures forall i :: 0 <= i < |words| ==> r[i] == Capitalize(words[i])
  {
    seq(|words|, i requires 0 <= i < |words| => Capitalize(words[i]))
  }

  /** `formatStatus`: split at dashes, capitalize each word, join with spaces. */
  function FormatStatus(s: string): (r: string)
    ensures '-' !in s ==> r == Capitalize(s)
  {
    Text.SplitFirst(s, '-');
    Text.Join(CapitalizeAll(Text.Split(s, '-')), " ")
  }

  /** A dashed name of words reads as those words capitalized and spaced. */
  lemma FormatJoined(words: seq<string>)
    requires |words| >= 1
    requires forall w :: w in words ==> '-' !in w
    ensures FormatStatus(Text.Join(words, "-")) == Text.Join(CapitalizeAll(words), " ")
  {
    Text.JoinSplit(words, '-');
  }

  /** `getUserName`: the author's name, or "Unknown User" when the id is not stored. */
  function AuthorName(users: seq<User>, userId: string): (r: string)
    ensures UserStore.FindById(users, userId).None? ==> r == "Unknown User"
    ensures UserStore.FindById(users, userId).Some? ==>
      exists k :: 0 <= k < |users| && users[k].id == userId && r == users[k].name &&
                  forall j :: 0 <= j < k ==> users[j].id != userId
  {
    match UserStore.FindById(users, userId)
    case Some(u) => u.name
    case None => "Unknown User"
  }

  // ---------------------------------------------------------------- the page

  class ServiceRequests {
    const actor: Option<User>
    /** The stored users, read only to name the authors of notes. */
    const users: seq<User>
    var requests: seq<ServiceRequest>
    var search: string
    var statusFilter: Option<RequestStatus>
    var priorityFilter: Option<Priority>
    var currentPage: int
    var itemsPerPage: int
    var viewing: Option<ServiceRequest>
    var responding: Option<ServiceRequest>
    var note: string

    /** Page and page size stay positive, and every resolved request carries its
        resolution time. */
    predicate Valid()
      reads this
    {
      currentPage >= 1 && itemsPerPage >= 1 && Stamped(requests)
    }

    /** The filtered requests, newest first. */
    function Shown(): seq<ServiceRequest>
      reads this
    {
      SortNewestFirst(Filtered(requests, search, statusFilter, priorityFilter))
    }

    function TotalPages(): nat
      reads this
      requires Valid()
    {
      Collections.TotalPages(|Shown()|, itemsPerPage)
    }

    function Rows(): seq<ServiceRequest>
      reads this
      requires Valid()
    {
      Collections.PageSlice(Shown(), currentPage, itemsPerPage)
    }

    constructor (actor: Option<User>, users: Option<seq<User>>)
      ensures this.actor == actor && this.users == users.GetOr([])
      ensures requests == StaticRequests
      ensures search == "" && statusFilter.None? && priorityFilter.None?
      ensures currentPage == 1 && itemsPerPage == 10
      ensures viewing.None? && responding.None? && note == ""
      ensures Valid()
    {
      this.actor := actor;
      this.users := users.GetOr([]);
      requests := StaticRequests;
      search := "";
      statusFilter := None;
      priorityFilter := None;
      currentPage := 1;
      itemsPerPage := 10;
      viewing := None;
      responding := None;
      note := "";
      StaticStamped();
    }

    method SetSearch(text: string)
      modifies this`search
      ensures search == text
    {
      search := text;
    }

    method SetStatusFilter(status: Option<RequestStatus>)
      modifies this`statusFilter
      ensures statusFilter == status
    {
      statusFilter := status;
    }

    method SetPriorityFilter(priority: Option<Priority>)
      modifies this`priorityFilter
      ensures priorityFilter == priority
    {
      priorityFilter := priority;
    }

    /** `resetFilters`: afterwards the first page of all requests, newest first. */
    method ResetFilters()
      modifies this`search, this`statusFilter, this`priorityFilter, this`currentPage
      ensures search == "" && statusFilter.None? && priorityFilter.None? && currentPage == 1
      ensures Shown() == SortNewestFirst(requests)
    {
      search := "";
      statusFilter := None;
      priorityFilter := None;
      currentPage := 1;
      ClearedFiltersKeepAll(requests);
    }

    /** The page-size select (5, 10 or 20) also returns to the first page. */
    method SetItemsPerPage(size: int)
      requires Valid()
      requires size == 5 || size == 10 || size == 20
      modifies this`itemsPerPage, this`currentPage
      ensures itemsPerPage == size && currentPage == 1
      ensures Valid()
    {
      itemsPerPage := size;
      currentPage := 1;
    }

    /** The pager is rendered only while some request matches. */
    method PreviousPage()
      requires Valid()
      modifies this`currentPage
      ensures Valid()
      ensures currentPage == if |Shown()| > 0 then Collections.AfterPrevious(old(currentPage)) else old(currentPage)
    {
      if |Shown()| > 0 {
        currentPage := Collections.AfterPrevious(currentPage);
      }
    }

    method NextPage()
      requires Valid()
      modifies this`currentPage
      ensures Valid()
      ensures currentPage == if |Shown()| > 0 then Collections.AfterNext(old(currentPage), TotalPages()) else old(currentPage)
    {
      if |Shown()| > 0 {
        currentPage := Collections.AfterNext(currentPage, TotalPages());
      }
    }

    /** The eye button of row `i` opens the detail view. */
    method ViewRow(i: nat)
      requires Valid() && i < |Rows()|
      modifies this`viewing
      ensures viewing == Some(old(Rows())[i])
    {
      viewing := Some(Rows()[i]);
    }

    method CloseView()
      modifies this`viewing
      ensures viewing.None?
    {
      viewing := None;
    }

    /** The respond button of row `i`, shown only to those who may respond. */
    method RespondToRow(i: nat)
      requires Valid() && i < |Rows()|
      modifies this`responding
      ensures responding == if Permissions.CanManage(actor) then Some(old(Rows())[i]) else old(responding)
    {
      if Permissions.CanManage(actor) {
        responding := Some(Rows()[i]);
      }
    }

    /** "Add Response" in the detail view hands the viewed request to the response
        dialog; it is offered with the status buttons only. */
    method RespondFromView()
      modifies this`viewing, this`responding
      ensures old(viewing).Some? && Permissions.CanManage(actor) && old(viewing).value.status != Resolved ==>
        responding == old(viewing) && viewing.None?
      ensures !(old(viewing).Some? && Permissions.CanManage(actor) && old(viewing).value.status != Resolved) ==>
        responding == old(responding) && viewing == old(viewing)
    {
      if viewing.Some? && Permissions.CanManage(actor) && viewing.value.status != Resolved {
        responding := viewing;
        viewing := None;
      }
    }

    /** Closing the response dialog keeps the typed note. */
    method CloseResponse()
      modifies this`responding
      ensures responding.None?
    {
      responding := None;
    }

    method SetNote(text: string)
      modifies this`note
      ensures note == text
    {
      note := text;
    }

    /** `handleRespondToRequest`, behind a button disabled while the note is blank: the
        note (with its id and time, which the caller supplies) is appended to the request
        being answered. */
    method SubmitResponse(noteId: string, now: int) returns (outcome: Outcome)
      requires Valid()
      modifies this`requests, this`note, this`responding
      ensures Valid()
      ensures old(responding).None? || Text.Trim(old(note)) == "" || actor.None? ==>
        requests == old(requests) && note == old(note) && responding == old(responding) && outcome == Silent
      ensures old(responding).Some? && Text.Trim(old(note)) != "" && actor.Some? ==>
        requests == RespondAll(old(requests), old(responding).value.id,
                               ResponseNote(noteId, old(note), now, actor.value.id)) &&
        note == "" && responding.None? &&
        outcome == Toast("Response Added", "Your response has been added to the service request")
    {
      if responding.None? || Text.Trim(note) == "" || actor.None? {
        return Silent;
      }
      requests := RespondAll(requests, responding.value.id, ResponseNote(noteId, note, now, actor.value.id));
      note := "";
      responding := None;
      outcome := Toast("Response Added", "Your response has been added to the service request");
    }

    /** A status button of the detail view (`handleUpdateRequestStatus` for the viewed
        request); a status with no button does nothing. The view then shows the updated
        record. */
    method ChangeStatus(status: RequestStatus, now: int) returns (outcome: Outcome)
      requires Valid()
      modifies this`requests, this`viewing
      ensures Valid()
      ensures old(viewing).None? || status !in StatusActions(actor, old(viewing).value) ==>
        requests == old(requests) && viewing == old(viewing) && outcome == Silent
      ensures old(viewing).Some? && status in StatusActions(actor, old(viewing).value) ==>
        var id := old(viewing).value.id;
        requests == UpdateStatusAll(old(requests), id, status, now) &&
        viewing == (match Collections.Find(requests, HasId(id))
                    case Some(q) => Some(q)
                    case None => old(viewing)) &&
        outcome == Toast("Status Updated", StatusMessage(status))
    {
      if viewing.None? || status !in StatusActions(actor, viewing.value) {
        return Silent;
      }
      var id := viewing.value.id;
      requests := UpdateStatusAll(requests, id, status, now);
      var found := Collections.Find(requests, HasId(id));
      if found.Some? {
        viewing := found;
      }
      outcome := Toast("Status Updated", StatusMessage(status));
    }
  }

  /** A status change through the buttons never moves a request back and never touches a
      resolved one. */
  lemma StatusOnlyMovesForward(requests: seq<ServiceRequest>, actor: Option<User>, viewed: ServiceRequest, status: RequestStatus, now: int)
    requires status in StatusActions(actor, viewed)
    requires forall i :: 0 <= i < |requests| && requests[i].id == viewed.id ==> requests[i].status == viewed.status
    ensures forall i :: 0 <= i < |requests| ==>
      Rank(UpdateStatusAll(requests, viewed.id, status, now)[i].status) >= Rank(requests[i].status)
    ensures forall i :: 0 <= i < |requests| && requests[i].status == Resolved ==>
      UpdateStatusAll(requests, viewed.id, status, now)[i] == requests[i]
  {
  }
}
