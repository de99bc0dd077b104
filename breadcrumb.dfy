/** The breadcrumb trail above every page: a Home link, then one crumb per non-empty
    segment of the path, each linking to the path up to and including it, the last one
    shown as the current page. */
module Breadcrumb {
  import Text
  import Collections

  predicate NonEmpty(x: string) {
    x != ""
  }

  /** `pathname.split("/").filter(x => x)`. */
  function Segments(pathname: string): (r: seq<string>)
    ensures forall i :: 0 <= i < |r| ==> r[i] != "" && '/' !in r[i]
    ensures |r| <= multiset(pathname)['/'] + 1
    ensures forall x :: x in r <==> x in Text.Split(pathname, '/') && x != ""
  {
    var pieces := Text.Split(pathname, '/');
    Text.SplitPiecesFree(pathname, '/');
    Text.SplitCount(pathname, '/');
    Collections.Filter(pieces, NonEmpty)
  }

  /** `"/" + segments.slice(0, index + 1).join("/")`. */
  function RouteTo(segments: seq<string>, index: nat): (r: string)
    requires index < |segments|
    ensures |r| >= 1 + |segments[index]| && r[0] == '/'
    ensures r[|r| - |segments[index]|..] == segments[index]
  {
    var prefix := segments[..index + 1];
    Text.JoinEndsWithLast(prefix, "/");
    "/" + Text.Join(prefix, "/")
  }

  /** `s.replace(/-/g, " ")`. */
  function DashesToSpaces(s: string): (r: string)
    ensures |r| == |s|
    ensures forall i :: 0 <= i < |s| ==> r[i] == if s[i] == '-' then ' ' else s[i]
  {
    seq(|s|, i requires 0 <= i < |s| => if s[i] == '-' then ' ' else s[i])
  }

  /** `generateBreadcrumbName`: a fixed title for the known sections, otherwise the segment
      with its first character upper-cased and its later dashes turned into spaces. */
  function Label(segment: string): (r: string)
    ensures segment == "dashboard" ==> r == "Dashboard"
    ensures segment == "users" || segment == "manage-admin-users" ==> r == "Manage Admin Users"
    ensures segment == "manage-support-engineers" ==> r == "Manage Support Engineers"
    ensures segment == "dispensaries" ==> r == "Dispensaries"
    ensures segment == "service-requests" ==> r == "Service Requests"
    ensures !KnownSegment(segment) ==> |r| == |segment|
    ensures !KnownSegment(segment) && |segment| > 0 ==> r[0] == Text.UpperChar(segment[0])
    ensures !KnownSegment(segment) ==>
      forall i :: 1 <= i < |segment| ==> r[i] == if segment[i] == '-' then ' ' else segment[i]
  {
    match segment
    case "dashboard" => "Dashboard"
    case "users" => "Manage Admin Users"
    case "manage-admin-users" => "Manage Admin Users"
    case "manage-support-engineers" => "Manage Support Engineers"
    case "dispensaries" => "Dispensaries"
    case "service-requests" => "Service Requests"
    case _ =>
      if segment == "" then ""
      else [Text.UpperChar(segment[0])] + DashesToSpaces(segment[1..])
  }

  predicate KnownSegment(segment: string) {
    segment in {"dashboard", "users", "manage-admin-users", "manage-support-engineers",
                "dispensaries", "service-requests"}
  }

  /** One entry of the trail. */
  datatype Crumb = Link(title: string, to: string) | Page(title: string)

  /** The first entry: a link to the dashboard. */
  const Home := Link("Home", "/dashboard")

  /** The crumbs after Home, one per segment. */
  function Crumbs(pathname: string): (r: seq<Crumb>)
    ensures |r| == |Segments(pathname)|
    ensures forall i :: 0 <= i < |r| ==> r[i].title == Label(Segments(pathname)[i])
    ensures forall i :: 0 <= i < |r| ==> (r[i].Page? <==> i == |r| - 1)
    ensures forall i :: 0 <= i < |r| - 1 ==> r[i].to == RouteTo(Segments(pathname), i)
  {
    var segs := Segments(pathname);
    seq(|segs|, i requires 0 <= i < |segs| =>
      if i == |segs| - 1 then Page(Label(segs[i])) else Link(Label(segs[i]), RouteTo(segs, i)))
  }

  /** The whole trail as rendered. */
  function Trail(pathname: string): (r: seq<Crumb>)
    ensures |r| >= 1 && r[0] == Home
    ensures r[1..] == Crumbs(pathname)
  {
    [Home] + Crumbs(pathname)
  }

  /** Following the link of crumb `i` leads to a page whose own trail has the first `i + 1`
      segments: each crumb links to the path it stands for. */
  lemma {:induction false} RouteToSegments(segments: seq<string>, index: nat)
    requires index < |segments|
    requires forall i :: 0 <= i < |segments| ==> segments[i] != "" && '/' !in segments[i]
    ensures Segments(RouteTo(segments, index)) == segments[..index + 1]
  {
    var prefix := segments[..index + 1];
    forall p | p in prefix ensures '/' !in p {
    }
    Text.JoinSplit(prefix, '/');
    var joined := Text.Join(prefix, "/");
    assert Text.Split("/" + joined, '/') == [""] + prefix by {
      Text.SplitPrependFree("", "/" + joined, '/');
      assert "" + ("/" + joined) == "/" + joined;
      assert ("/" + joined)[1..] == joined;
    }
    Collections.FilterConcat([""], prefix, NonEmpty);
    assert Collections.Filter([""], NonEmpty) == [] by {
      assert [""][1..] == [];
    }
    Collections.FilterAll(prefix, NonEmpty);
  }

  /** Joining segments into a path and reading the trail of that path gives the same
      segments back. */
  lemma SegmentsOfCanonicalPath(segments: seq<string>)
    requires |segments| >= 1
    requires forall i :: 0 <= i < |segments| ==> segments[i] != "" && '/' !in segments[i]
    ensures Segments(RouteTo(segments, |segments| - 1)) == segments
  {
    var last := |segments| - 1;
    RouteToSegments(segments, last);
    assert segments[..last + 1] == segments;
  }

  /** A path with no non-empty segment, such as "/", shows only Home. */
  lemma RootShowsOnlyHome()
    ensures Trail("/") == [Home]
  {
    assert Text.Split("/", '/') == ["", ""] by {
      assert "/"[1..] == "";
    }
    var p := Text.Split("/", '/');
    assert Collections.Filter(p, NonEmpty) == [] by {
      Collections.FilterNone(p, NonEmpty);
    }
  }

  /** An unknown, non-empty segment is labelled by its upper-cased first character and the
      rest with dashes turned into spaces. */
  lemma UnknownLabel(segment: string)
    requires !KnownSegment(segment) && segment != ""
    ensures Label(segment) == [Text.UpperChar(segment[0])] + DashesToSpaces(segment[1..])
  {
  }

  /** A segment with no dash keeps its letters under `DashesToSpaces`. */
  lemma NoDashKept(s: string)
    requires '-' !in s
    ensures DashesToSpaces(s) == s
  {
  }

  lemma DashesInKnowledgeBase(rest: string)
    requires rest == "nowledge-base"
    ensures DashesToSpaces(rest) == "nowledge base"
  {
    var d := DashesToSpaces(rest);
    assert forall i :: 0 <= i < 13 ==> d[i] == "nowledge base"[i];
  }

  /** A section without a fixed title: "knowledge-base" reads "Knowledge base". */
  lemma KnowledgeBaseLabel(segment: string)
    requires segment == "knowledge-base"
    ensures Label(segment) == "Knowledge base"
  {
    assert !KnownSegment(segment);
    assert segment[0] == 'k' && segment[1..] == "nowledge-base";
    UnknownLabel(segment);
    DashesInKnowledgeBase(segment[1..]);
  }

  /** "settings" reads "Settings". */
  lemma SettingsLabel(segment: string)
    requires segment == "settings"
    ensures Label(segment) == "Settings"
  {
    assert !KnownSegment(segment);
    UnknownLabel(segment);
    NoDashKept(segment[1..]);
  }

  /** A leading dash is kept: "-x" reads "-x". */
  lemma LeadingDashLabel(segment: string)
    requires segment == "-x"
    ensures Label(segment) == "-x"
  {
    assert !KnownSegment(segment);
    UnknownLabel(segment);
    NoDashKept(segment[1..]);
  }
}
