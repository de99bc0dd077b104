/** The page that edits one knowledge-base entry, chosen by the id in the route. */
module EditKnowledgeBaseEntryPage {
  import opened Wrappers
  import opened Types
  import opened Effects
  import opened KnowledgeBaseStore

  class EditKnowledgeBaseEntry {
    /** The route's id; "" when the route carries none. */
    const entryId: string
    var entries: seq<KnowledgeBaseEntry>
    var form: KbForm

    constructor (stored: Option<seq<KnowledgeBaseEntry>>, entryId: string)
      ensures this.entryId == entryId && entries == stored.GetOr([]) && form == BlankKbForm
    {
      this.entryId := entryId;
      entries := stored.GetOr([]);
      form := BlankKbForm;
    }

    /** The load effect: copy the entry with the route's id into the form, or report it
        missing and go back to the list. The stored list is never touched. */
    method Load() returns (outcome: Outcome)
      modifies this`form
      ensures entryId == "" ==> form == old(form) && outcome == Silent
      ensures entryId != "" && FindEntry(entries, entryId).Some? ==>
        form == LoadKbForm(FindEntry(entries, entryId).value) && outcome == Silent
      ensures entryId != "" && FindEntry(entries, entryId).None? ==>
        form == old(form) && outcome == ErrorAndGo("Knowledge base entry not found", "/knowledge-base")
    {
      outcome := Silent;
      if entryId != "" {
        var found := FindEntry(entries, entryId);
        if found.Some? {
          form := LoadKbForm(found.value);
        } else {
          outcome := ErrorAndGo("Knowledge base entry not found", "/knowledge-base");
        }
      }
    }

    /** `handleChange`. */
    method Change(change: KbChange)
      modifies this`form
      ensures form == ApplyKbChange(old(form), change)
    {
      form := ApplyKbChange(form, change);
    }

    /** `handleSubmit`: a missing title or description is refused; otherwise the form is
        merged into every entry with the route's id and the page returns to the list. */
    method Submit() returns (outcome: Outcome)
      modifies this`entries
      ensures !KbFilled(form) ==>
        entries == old(entries) && outcome == ErrorToast("Please fill in all required fields")
      ensures KbFilled(form) ==>
        entries == UpdateEntry(old(entries), entryId, form) &&
        outcome == ToastAndGo("Success", "Knowledge base entry updated successfully", "/knowledge-base")
    {
      if !KbFilled(form) {
        return ErrorToast("Please fill in all required fields");
      }
      entries := UpdateEntry(entries, entryId, form);
      outcome := ToastAndGo("Success", "Knowledge base entry updated successfully", "/knowledge-base");
    }
  }

  /** Loading the entry at `k`, editing it and saving rewrites that entry alone, in
      place: it keeps its id and creation time and takes the edited fields, and the list
      keeps its length and its unique ids. */
  lemma LoadEditSave(entries: seq<KnowledgeBaseEntry>, k: nat, changes: seq<KbChange>)
    requires UniqueIds(entries) && k < |entries|
    ensures var id := entries[k].id;
      var form := ApplyKbChanges(LoadKbForm(FindEntry(entries, id).value), changes);
      var r := UpdateEntry(entries, id, form);
      |r| == |entries| && r == entries[k := MergeEntry(entries[k], form)] &&
      r[k].id == id && r[k].createdAt == entries[k].createdAt && UniqueIds(r)
  {
    FindUnique(entries, k);
    var form := ApplyKbChanges(LoadKbForm(entries[k]), changes);
    SaveLoadedEntry(entries, k, form);
  }

  /** Loading an entry and saving it untouched leaves the stored list as it was. */
  lemma UnchangedSaveIsNoOp(entries: seq<KnowledgeBaseEntry>, k: nat)
    requires UniqueIds(entries) && k < |entries|
    ensures UpdateEntry(entries, entries[k].id, LoadKbForm(FindEntry(entries, entries[k].id).value)) == entries
  {
    FindUnique(entries, k);
    var form := LoadKbForm(entries[k]);
    SaveLoadedEntry(entries, k, form);
    MergeLoadedUnchanged(entries[k], entries[k]);
  }

  /** Saving under an id no entry has changes nothing, though the success toast is still
      shown. */
  lemma SaveUnknownIdChangesNothing(entries: seq<KnowledgeBaseEntry>, id: string, form: KbForm)
    requires FindEntry(entries, id).None?
    ensures UpdateEntry(entries, id, form) == entries
  {
  }
}
