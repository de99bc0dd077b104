/** The read-only page that shows one knowledge-base entry, chosen by the id in the
    route: its description split into paragraphs and links to its resources. */
module ViewKnowledgeBaseEntryPage {
  import opened Wrappers
  import opened Types
  import opened Effects
  import Text
  import Permissions
  import KnowledgeBaseStore

  /** `canEdit`: the edit button is offered to administrators and managers. */
  predicate CanEdit(actor: Option<User>) {
    Permissions.CanManage(actor)
  }

  /** What the page renders: the spinner until an entry is held, then the entry. */
  datatype Screen = Spinner | Entry(entry: KnowledgeBaseEntry)

  class ViewKnowledgeBaseEntry {
    const entryId: string
    const entries: seq<KnowledgeBaseEntry>
    var entry: Option<KnowledgeBaseEntry>

    constructor (stored: Option<seq<KnowledgeBaseEntry>>, entryId: string)
      ensures this.entryId == entryId && entries == stored.GetOr([]) && entry.None?
    {
      this.entryId := entryId;
      entries := stored.GetOr([]);
      entry := None;
    }

    function Render(): (r: Screen)
      reads this
      ensures r.Spinner? <==> entry.None?
      ensures r.Entry? ==> r.entry == entry.value
    {
      if entry.Some? then Entry(entry.value) else Spinner
    }

    /** The load effect: hold the entry with the route's id, or report it missing and go
        back to the list. */
    method Load() returns (outcome: Outcome)
      modifies this`entry
      ensures entryId == "" ==> entry == old(entry) && outcome == Silent
      ensures entryId != "" && KnowledgeBaseStore.FindEntry(entries, entryId).Some? ==>
        entry == KnowledgeBaseStore.FindEntry(entries, entryId) && outcome == Silent
      ensures entryId != "" && KnowledgeBaseStore.FindEntry(entries, entryId).None? ==>
        entry == old(entry) && outcome == ErrorAndGo("Knowledge base entry not found", "/knowledge-base")
    {
      outcome := Silent;
      if entryId != "" {
        var found := KnowledgeBaseStore.FindEntry(entries, entryId);
        if found.Some? {
          entry := found;
        } else {
          outcome := ErrorAndGo("Knowledge base entry not found", "/knowledge-base");
        }
      }
    }
  }

  /** `entry.description.split('\n')`: one paragraph per piece, so one more paragraph than
      there are line breaks; no paragraph holds a line break, and joining them with line
      breaks gives back the description. */
  function Paragraphs(description: string): (r: seq<string>)
    ensures |r| == multiset(description)['\n'] + 1
    ensures forall p :: p in r ==> '\n' !in p
    ensures Text.Join(r, "\n") == description
  {
    Text.SplitCount(description, '\n');
    Text.SplitPiecesFree(description, '\n');
    Text.SplitJoin(description, '\n');
    Text.Split(description, '\n')
  }

  /** The resource links. */
  datatype Resource = WatchVideo(url: string) | ReadBlog(url: string) | DownloadFile(url: string)

  /** One link per non-empty URL, in the order video, blog, file. */
  function Resources(e: KnowledgeBaseEntry): (r: seq<Resource>)
    ensures WatchVideo(e.videoUrl) in r <==> e.videoUrl != ""
    ensures ReadBlog(e.blogUrl) in r <==> e.blogUrl != ""
    ensures DownloadFile(e.fileUrl) in r <==> e.fileUrl != ""
    ensures forall x :: x in r ==> x in [WatchVideo(e.videoUrl), ReadBlog(e.blogUrl), DownloadFile(e.fileUrl)]
    ensures |r| <= 3
  {
    (if e.videoUrl != "" then [WatchVideo(e.videoUrl)] else []) +
    (if e.blogUrl != "" then [ReadBlog(e.blogUrl)] else []) +
    (if e.fileUrl != "" then [DownloadFile(e.fileUrl)] else [])
  }

  /** `entry.videoUrl || entry.blogUrl || entry.fileUrl`: the Resources section. */
  predicate ShowsResources(e: KnowledgeBaseEntry) {
    e.videoUrl != "" || e.blogUrl != "" || e.fileUrl != ""
  }

  /** The section is shown exactly when it holds at least one link. */
  lemma ResourcesSectionNonEmpty(e: KnowledgeBaseEntry)
    ensures ShowsResources(e) <==> |Resources(e)| > 0
  {
    if ShowsResources(e) {
      if e.videoUrl != "" {
        assert WatchVideo(e.videoUrl) in Resources(e);
      } else if e.blogUrl != "" {
        assert ReadBlog(e.blogUrl) in Resources(e);
      } else {
        assert DownloadFile(e.fileUrl) in Resources(e);
      }
    }
  }
}
