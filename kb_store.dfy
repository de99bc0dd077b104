/** The operations the knowledge-base pages perform on the persisted entry list: look an
    entry up by id, delete by id, append a new entry, and merge an edited form into the
    entry with a given id; and the entry form shared by the add and edit pages. */
module KnowledgeBaseStore {
  import opened Wrappers
  import opened Types
  import Collections

  /** The test `e => e.id === id`. */
  function HasId(id: string): KnowledgeBaseEntry -> bool {
    Collections.IdIs((e: KnowledgeBaseEntry) => e.id, id)
  }

  /** `entries.find(e => e.id === id)`: the first entry with that id. */
  function FindEntry(entries: seq<KnowledgeBaseEntry>, id: string): (r: Option<KnowledgeBaseEntry>)
    ensures r.None? <==> forall i :: 0 <= i < |entries| ==> entries[i].id != id
    ensures r.Some? ==> exists k :: 0 <= k < |entries| && entries[k] == r.value && r.value.id == id &&
                                   forall j :: 0 <= j < k ==> entries[j].id != id
  {
    var p := HasId(id);
    var r := Collections.Find(entries, p);
    if r.Some? then
      var k := Collections.FirstIndex(entries, p).value;
      assert entries[k] == r.value && forall j :: 0 <= j < k ==> !p(entries[j]);
      r
    else r
  }

  /** No two entries share an id. */
  predicate UniqueIds(entries: seq<KnowledgeBaseEntry>) {
    Collections.UniqueBy(entries, (e: KnowledgeBaseEntry) => e.id)
  }

  /** With unique ids the entry found is the one at the index holding the id. */
  lemma FindUnique(entries: seq<KnowledgeBaseEntry>, k: nat)
    requires UniqueIds(entries) && k < |entries|
    ensures FindEntry(entries, entries[k].id) == Some(entries[k])
  {
    var r := FindEntry(entries, entries[k].id);
    var m :| 0 <= m < |entries| && entries[m] == r.value && r.value.id == entries[k].id;
    assert m == k;
  }

  /** The test `e => e.id !== id`. */
  function Others(id: string): KnowledgeBaseEntry -> bool {
    Collections.IdIsNot((e: KnowledgeBaseEntry) => e.id, id)
  }

  /** `entries.filter(e => e.id !== id)`: every entry with that id is gone and every other
      entry stays. */
  function RemoveEntry(entries: seq<KnowledgeBaseEntry>, id: string): (r: seq<KnowledgeBaseEntry>)
    ensures |r| <= |entries|
    ensures forall i :: 0 <= i < |r| ==> r[i] in entries && r[i].id != id
    ensures forall i :: 0 <= i < |entries| && entries[i].id != id ==> entries[i] in r
  {
    Collections.Filter(entries, Others(id))
  }

  /** Deleting an id that no entry has changes nothing. */
  lemma RemoveAbsent(entries: seq<KnowledgeBaseEntry>, id: string)
    requires FindEntry(entries, id).None?
    ensures RemoveEntry(entries, id) == entries
  {
    Collections.FilterAll(entries, Others(id));
  }

  /** With unique ids, deleting the id of the entry at `k` cuts out that one entry and
      keeps the others in their order. */
  lemma RemoveAtIndex(entries: seq<KnowledgeBaseEntry>, k: nat)
    requires UniqueIds(entries) && k < |entries|
    ensures RemoveEntry(entries, entries[k].id) == entries[..k] + entries[k + 1..]
  {
    Collections.FilterDropsOne(entries, k, Others(entries[k].id));
  }

  /** Deleting twice is deleting once, and deleting keeps the ids unique. */
  lemma RemoveIdempotent(entries: seq<KnowledgeBaseEntry>, id: string)
    ensures RemoveEntry(RemoveEntry(entries, id), id) == RemoveEntry(entries, id)
    ensures UniqueIds(entries) ==> UniqueIds(RemoveEntry(entries, id))
  {
    Collections.FilterIdempotent(entries, Others(id));
    if UniqueIds(entries) {
      Collections.FilterPairwise(entries, Others(id), (a: KnowledgeBaseEntry, b: KnowledgeBaseEntry) => a.id != b.id);
    }
  }

  /** The entry form: the entry it was loaded from, if any (`setFormData(entryToEdit)`
      copies every field of it), and the seven fields the form shows. The URLs hold ""
      when empty. */
  datatype KbForm = KbForm(
    base: Option<KnowledgeBaseEntry>,
    title: string,
    category: KbCategory,
    description: string,
    videoUrl: string,
    blogUrl: string,
    fileUrl: string,
    status: KbStatus)

  /** `{title: "", category: "Services", description: "", videoUrl: "", blogUrl: "",
      fileUrl: "", status: "active"}`. */
  const BlankKbForm := KbForm(None, "", Services, "", "", "", "", KbActive)

  /** What one `onChange` event writes: `{...prev, [name]: value}`. */
  datatype KbChange =
    | SetTitle(title: string)
    | SetCategory(category: KbCategory)
    | SetDescription(description: string)
    | SetVideoUrl(videoUrl: string)
    | SetBlogUrl(blogUrl: string)
    | SetFileUrl(fileUrl: string)
    | SetStatus(status: KbStatus)

  function ApplyKbChange(form: KbForm, change: KbChange): (r: KbForm)
    ensures r.base == form.base
    ensures r.title == (if change.SetTitle? then change.title else form.title)
    ensures r.category == (if change.SetCategory? then change.category else form.category)
    ensures r.description == (if change.SetDescription? then change.description else form.description)
    ensures r.videoUrl == (if change.SetVideoUrl? then change.videoUrl else form.videoUrl)
    ensures r.blogUrl == (if change.SetBlogUrl? then change.blogUrl else form.blogUrl)
    ensures r.fileUrl == (if change.SetFileUrl? then change.fileUrl else form.fileUrl)
    ensures r.status == (if change.SetStatus? then change.status else form.status)
  {
    match change
    case SetTitle(x) => form.(title := x)
    case SetCategory(x) => form.(category := x)
    case SetDescription(x) => form.(description := x)
    case SetVideoUrl(x) => form.(videoUrl := x)
    case SetBlogUrl(x) => form.(blogUrl := x)
    case SetFileUrl(x) => form.(fileUrl := x)
    case SetStatus(x) => form.(status := x)
  }

  /** A sequence of change events. */
  function ApplyKbChanges(form: KbForm, changes: seq<KbChange>): (r: KbForm)
    ensures r.base == form.base
    decreases |changes|
  {
    if |changes| == 0 then form else ApplyKbChanges(ApplyKbChange(form, changes[0]), changes[1..])
  }

  /** Events that touch neither select leave category and status as they were. */
  lemma {:induction false} TextOnlyKeepsSelects(form: KbForm, changes: seq<KbChange>)
    requires forall i :: 0 <= i < |changes| ==> !changes[i].SetCategory? && !changes[i].SetStatus?
    ensures ApplyKbChanges(form, changes).category == form.category
    ensures ApplyKbChanges(form, changes).status == form.status
    decreases |changes|
  {
    if |changes| > 0 {
      assert forall i :: 0 <= i < |changes| - 1 ==> changes[1..][i] == changes[i + 1];
      TextOnlyKeepsSelects(ApplyKbChange(form, changes[0]), changes[1..]);
    }
  }

  /** `!formData.title || !formData.description` fails. */
  function KbFilled(form: KbForm): (r: bool)
    ensures form.title == "" || form.description == "" ==> !r
    ensures form.title != "" && form.description != "" ==> r
  {
    form.title != "" && form.description != ""
  }

  /** The entry an add form creates, with a fresh id and the creation time; every shown
      field, the URLs included, is copied from the form as it is. */
  function NewEntry(form: KbForm, id: string, now: int): (r: KnowledgeBaseEntry)
    ensures r.id == id && r.createdAt == now
    ensures r.title == form.title && r.category == form.category && r.description == form.description
    ensures r.videoUrl == form.videoUrl && r.blogUrl == form.blogUrl && r.fileUrl == form.fileUrl
    ensures r.status == form.status
  {
    KnowledgeBaseEntry(id, form.title, form.category, form.description,
                       form.videoUrl, form.blogUrl, form.fileUrl, form.status, now)
  }

  /** Appending a new entry puts it last and leaves the earlier entries in place; a fresh
      id keeps the ids unique. */
  lemma AppendEntry(entries: seq<KnowledgeBaseEntry>, form: KbForm, id: string, now: int)
    ensures var r := entries + [NewEntry(form, id, now)];
      |r| == |entries| + 1 && r[..|entries|] == entries && r[|entries|].id == id
    ensures UniqueIds(entries) && FindEntry(entries, id).None? ==>
      UniqueIds(entries + [NewEntry(form, id, now)])
  {
    var r := entries + [NewEntry(form, id, now)];
    assert r[..|entries|] == entries;
  }

  /** `setFormData(entryToEdit)`. */
  function LoadKbForm(e: KnowledgeBaseEntry): (r: KbForm)
    ensures r.base == Some(e)
    ensures r.title == e.title && r.category == e.category && r.description == e.description
    ensures r.videoUrl == e.videoUrl && r.blogUrl == e.blogUrl && r.fileUrl == e.fileUrl
    ensures r.status == e.status
  {
    KbForm(Some(e), e.title, e.category, e.description, e.videoUrl, e.blogUrl, e.fileUrl, e.status)
  }

  /** `{...entry, ...formData}`: the form's seven fields win; `id` and `createdAt` come
      from the loaded entry when there is one (it was copied into the form whole), and
      from the stored entry otherwise. */
  function MergeEntry(stored: KnowledgeBaseEntry, form: KbForm): (r: KnowledgeBaseEntry)
    ensures r.title == form.title && r.category == form.category && r.description == form.description
    ensures r.videoUrl == form.videoUrl && r.blogUrl == form.blogUrl && r.fileUrl == form.fileUrl
    ensures r.status == form.status
    ensures form.base.None? ==> r.id == stored.id && r.createdAt == stored.createdAt
    ensures form.base.Some? ==> r.id == form.base.value.id && r.createdAt == form.base.value.createdAt
  {
    form.base.GetOr(stored).(title := form.title, category := form.category, description := form.description,
                             videoUrl := form.videoUrl, blogUrl := form.blogUrl, fileUrl := form.fileUrl,
                             status := form.status)
  }

  /** The rewrite `entry => ({...entry, ...formData})`. */
  function SaveKbForm(form: KbForm): KnowledgeBaseEntry -> KnowledgeBaseEntry {
    (e: KnowledgeBaseEntry) => MergeEntry(e, form)
  }

  /** `entries.map(entry => entry.id === id ? {...entry, ...formData} : entry)`. */
  function UpdateEntry(entries: seq<KnowledgeBaseEntry>, id: string, form: KbForm): (r: seq<KnowledgeBaseEntry>)
    ensures |r| == |entries|
    ensures forall i :: 0 <= i < |entries| ==>
      r[i] == if entries[i].id == id then MergeEntry(entries[i], form) else entries[i]
  {
    Collections.MapWhere(entries, HasId(id), SaveKbForm(form))
  }

  /** Saving a form loaded from the entry at `k` rewrites that entry alone, in place: it
      keeps its id and creation time and takes the form's fields; the ids stay unique. */
  lemma SaveLoadedEntry(entries: seq<KnowledgeBaseEntry>, k: nat, form: KbForm)
    requires UniqueIds(entries) && k < |entries|
    requires form.base == Some(entries[k])
    ensures var r := UpdateEntry(entries, entries[k].id, form);
      r == entries[k := MergeEntry(entries[k], form)] &&
      r[k].id == entries[k].id && r[k].createdAt == entries[k].createdAt &&
      UniqueIds(r)
  {
  }

  /** Saving a loaded form unchanged writes back the entry it was loaded from. */
  lemma MergeLoadedUnchanged(stored: KnowledgeBaseEntry, e: KnowledgeBaseEntry)
    ensures MergeEntry(stored, LoadKbForm(e)) == e
  {
  }
}
