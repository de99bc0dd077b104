/** The knowledge-base list page: a paged table of the stored entries filtered by a title
    search, a category and a status, with per-row view, edit and delete actions gated by
    the signed-in user's role. */
module KnowledgeBasePage {
  import opened Wrappers
  import opened Types
  import opened Effects
  import Text
  import Collections
  import Permissions
  import KnowledgeBaseStore

  /** The rows the table keeps: the search text occurs in the title (ignoring case; the
      description is not searched), and category and status match when a filter is set. */
  predicate Matches(e: KnowledgeBaseEntry, search: string, categoryFilter: Option<KbCategory>, statusFilter: Option<KbStatus>) {
    Text.ContainsIgnoreCase(e.title, search) &&
    (categoryFilter.None? || e.category == categoryFilter.value) &&
    (statusFilter.None? || e.status == statusFilter.value)
  }

  function Filtered(entries: seq<KnowledgeBaseEntry>, search: string, categoryFilter: Option<KbCategory>, statusFilter: Option<KbStatus>): (r: seq<KnowledgeBaseEntry>)
    ensures forall i :: 0 <= i < |r| ==> r[i] in entries && Matches(r[i], search, categoryFilter, statusFilter)
    ensures forall i :: 0 <= i < |entries| && Matches(entries[i], search, categoryFilter, statusFilter) ==> entries[i] in r
  {
    Collections.Filter(entries, (e: KnowledgeBaseEntry) => Matches(e, search, categoryFilter, statusFilter))
  }

  /** With the filters cleared every entry is listed, in stored order. */
  lemma ClearedFiltersShowAll(entries: seq<KnowledgeBaseEntry>)
    ensures Filtered(entries, "", None, None) == entries
  {
    forall i | 0 <= i < |entries| ensures Matches(entries[i], "", None, None) {
      Text.ContainsEmpty(entries[i].title);
    }
    Collections.FilterAll(entries, (e: KnowledgeBaseEntry) => Matches(e, "", None, None));
  }

  /** The per-row actions. */
  datatype EntryAction = ViewEntry | EditEntry | DeleteEntry

  /** `canView` is always true, `canEdit` holds for administrators and managers, and
      `canDelete` for administrators only; the buttons appear in that order. */
  function EntryActions(actor: Option<User>): (r: seq<EntryAction>)
    ensures |r| >= 1 && r[0] == ViewEntry
    ensures EditEntry in r <==> Permissions.CanManage(actor)
    ensures DeleteEntry in r <==> Permissions.CanDelete(actor)
    ensures DeleteEntry in r ==> EditEntry in r
  {
    Permissions.DeleteImpliesManage(actor);
    [ViewEntry] +
    (if Permissions.CanManage(actor) then [EditEntry] else []) +
    (if Permissions.CanDelete(actor) then [DeleteEntry] else [])
  }

  /** The route a row's view or edit link leads to. */
  function ActionPath(action: EntryAction, id: string): (r: Option<string>)
    ensures action.DeleteEntry? <==> r.None?
    ensures action.ViewEntry? ==> r == Some("/knowledge-base/view/" + id)
    ensures action.EditEntry? ==> r == Some("/knowledge-base/edit/" + id)
  {
    match action
    case ViewEntry => Some("/knowledge-base/view/" + id)
    case EditEntry => Some("/knowledge-base/edit/" + id)
    case DeleteEntry => None
  }

  /** The Add Entry link (to "/knowledge-base/add") is offered exactly to those who may edit. */
  predicate CanAdd(actor: Option<User>) {
    Permissions.CanManage(actor)
  }

  class KnowledgeBase {
    const actor: Option<User>
    var entries: seq<KnowledgeBaseEntry>
    var search: string
    var categoryFilter: Option<KbCategory>
    var statusFilter: Option<KbStatus>
    var currentPage: int
    var itemsPerPage: int

    predicate Valid()
      reads this
    {
      currentPage >= 1 && itemsPerPage >= 1
    }

    function Shown(): seq<KnowledgeBaseEntry>
      reads this
    {
      Filtered(entries, search, categoryFilter, statusFilter)
    }

    function TotalPages(): nat
      reads this
      requires Valid()
    {
      Collections.TotalPages(|Shown()|, itemsPerPage)
    }

    /** The rows of the current page. */
    function Rows(): seq<KnowledgeBaseEntry>
      reads this
      requires Valid()
    {
      Collections.PageSlice(Shown(), currentPage, itemsPerPage)
    }

    /** The list stored under the knowledge-base key (empty when nothing is stored). */
    constructor (stored: Option<seq<KnowledgeBaseEntry>>, actor: Option<User>)
      ensures this.actor == actor && entries == stored.GetOr([])
      ensures search == "" && categoryFilter.None? && statusFilter.None?
      ensures currentPage == 1 && itemsPerPage == 5
      ensures Valid()
    {
      this.actor := actor;
      entries := stored.GetOr([]);
      search := "";
      categoryFilter := None;
      statusFilter := None;
      currentPage := 1;
      itemsPerPage := 5;
    }

    method SetSearch(text: string)
      modifies this`search
      ensures search == text
    {
      search := text;
    }

    method SetCategoryFilter(category: Option<KbCategory>)
      modifies this`categoryFilter
      ensures categoryFilter == category
    {
      categoryFilter := category;
    }

    method SetStatusFilter(status: Option<KbStatus>)
      modifies this`statusFilter
      ensures statusFilter == status
    {
      statusFilter := status;
    }

    /** `resetFilters`: afterwards the first page of the whole list is shown. */
    method ResetFilters()
      modifies this`search, this`categoryFilter, this`statusFilter, this`currentPage
      ensures search == "" && categoryFilter.None? && statusFilter.None? && currentPage == 1
      ensures Shown() == entries
    {
      search := "";
      categoryFilter := None;
      statusFilter := None;
      currentPage := 1;
      ClearedFiltersShowAll(entries);
    }

    /** The page-size select (5, 10 or 20) also returns to the first page. */
    method SetItemsPerPage(size: int)
      requires Valid()
      requires size == 5 || size == 10 || size == 20
      modifies this`itemsPerPage, this`currentPage
      ensures itemsPerPage == size && currentPage == 1
      ensures Valid()
    {
      itemsPerPage := size;
      currentPage := 1;
    }

    /** The pager is rendered only while some entry matches. */
    method PreviousPage()
      requires Valid()
      modifies this`currentPage
      ensures Valid()
      ensures currentPage == if |Shown()| > 0 then Collections.AfterPrevious(old(currentPage)) else old(currentPage)
    {
      if |Shown()| > 0 {
        currentPage := Collections.AfterPrevious(currentPage);
      }
    }

    method NextPage()
      requires Valid()
      modifies this`currentPage
      ensures Valid()
      ensures currentPage == if |Shown()| > 0 then Collections.AfterNext(old(currentPage), TotalPages()) else old(currentPage)
    {
      if |Shown()| > 0 {
        currentPage := Collections.AfterNext(currentPage, TotalPages());
      }
    }

    /** `handleDeleteEntry`, on a row button shown only to administrators: every entry
        with the id goes, with no guard of any other kind. */
    method Delete(entryId: string) returns (outcome: Outcome)
      modifies this`entries
      ensures !Permissions.CanDelete(actor) ==> entries == old(entries) && outcome == Silent
      ensures Permissions.CanDelete(actor) ==>
        entries == KnowledgeBaseStore.RemoveEntry(old(entries), entryId) &&
        outcome == Toast("Success", "Knowledge base entry deleted successfully")
    {
      if !Permissions.CanDelete(actor) {
        return Silent;
      }
      entries := KnowledgeBaseStore.RemoveEntry(entries, entryId);
      outcome := Toast("Success", "Knowledge base entry deleted successfully");
    }
  }

  /** Deleting an entry never brings a row that did not match before into the table, and
      every other matching entry stays listed. */
  lemma DeleteKeepsOtherRows(entries: seq<KnowledgeBaseEntry>, id: string, search: string,
                            categoryFilter: Option<KbCategory>, statusFilter: Option<KbStatus>)
    ensures var before := Filtered(entries, search, categoryFilter, statusFilter);
      var after := Filtered(KnowledgeBaseStore.RemoveEntry(entries, id), search, categoryFilter, statusFilter);
      (forall i :: 0 <= i < |after| ==> after[i] in before && after[i].id != id) &&
      (forall i :: 0 <= i < |before| && before[i].id != id ==> before[i] in after)
  {
    var before := Filtered(entries, search, categoryFilter, statusFilter);
    var rest := KnowledgeBaseStore.RemoveEntry(entries, id);
    var after := Filtered(rest, search, categoryFilter, statusFilter);
    forall i | 0 <= i < |after| ensures after[i] in before && after[i].id != id {
      assert after[i] in rest;
      var k :| 0 <= k < |rest| && rest[k] == after[i];
      var m :| 0 <= m < |entries| && entries[m] == rest[k];
    }
    forall i | 0 <= i < |before| && before[i].id != id ensures before[i] in after {
      var m :| 0 <= m < |entries| && entries[m] == before[i];
      var k :| 0 <= k < |rest| && rest[k] == entries[m];
    }
  }
}
