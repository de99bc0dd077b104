/** The page that creates a knowledge-base entry. */
module AddKnowledgeBaseEntryPage {
  import opened Wrappers
  import opened Types
  import opened Effects
  import opened KnowledgeBaseStore

  class AddKnowledgeBaseEntry {
    var entries: seq<KnowledgeBaseEntry>
    var form: KbForm

    /** The list stored under the knowledge-base key (empty when nothing is stored). */
    constructor (stored: Option<seq<KnowledgeBaseEntry>>)
      ensures entries == stored.GetOr([]) && form == BlankKbForm
    {
      entries := stored.GetOr([]);
      form := BlankKbForm;
    }

    /** `handleChange`. */
    method Change(change: KbChange)
      modifies this`form
      ensures form == ApplyKbChange(old(form), change)
    {
      form := ApplyKbChange(form, change);
    }

    /** `handleSubmit`: a missing title or description is refused; otherwise the new entry
        goes at the end and the page returns to the list. */
    method Submit(freshId: string, now: int) returns (outcome: Outcome)
      modifies this`entries
      ensures !KbFilled(form) ==>
        entries == old(entries) && outcome == ErrorToast("Please fill in all required fields")
      ensures KbFilled(form) ==>
        entries == old(entries) + [NewEntry(form, freshId, now)] &&
        outcome == ToastAndGo("Success", "Knowledge base entry added successfully", "/knowledge-base")
    {
      if !KbFilled(form) {
        return ErrorToast("Please fill in all required fields");
      }
      entries := entries + [NewEntry(form, freshId, now)];
      outcome := ToastAndGo("Success", "Knowledge base entry added successfully", "/knowledge-base");
    }
  }

  /** An entry submitted without touching category or status gets the defaults "Services"
      and "active", whatever text was typed. */
  lemma {:induction false} DefaultsKept(changes: seq<KbChange>, id: string, now: int)
    requires forall i :: 0 <= i < |changes| ==> !changes[i].SetCategory? && !changes[i].SetStatus?
    ensures var e := NewEntry(ApplyKbChanges(BlankKbForm, changes), id, now);
      e.category == Services && e.status == KbActive
  {
    TextOnlyKeepsSelects(BlankKbForm, changes);
  }
}
