/**
 * The auto-add detector run on every page load (`checkAutoAdd`): on a `/post/<id>`
 * page it makes an already queued video current, or silently appends the page's
 * video as current once a probe of the page finds a title.
 */
module AutoAdd {
  import opened Wrappers
  import opened Text
  import opened Queue

  const PostPrefix: string := "/post/"
  const SiteTitlePrefix: string := "Floatplane - "
  /** Attempts after the first one: four probes at most. */
  const MaxRetries: nat := 3

  /** What one attempt sees of the page: the text of its first `h1` when there is one, the
      document title, and the content of its `og:image` meta tag when there is one. */
  datatype Probe = Probe(heading: Option<string>, documentTitle: string, image: Option<string>)

  /** The page being loaded: its path, its full URL, and what each successive attempt sees. */
  datatype Page = Page(path: string, href: string, probes: seq<Probe>)

  /** The title an attempt reads: the heading's text, or the document title without a heading.
      A heading that is present wins even when its text is empty. */
  function ProbeTitle(p: Probe): (t: string)
    ensures p.heading.Some? ==> t == p.heading.value
    ensures p.heading.None? ==> t == p.documentTitle
  {
    p.heading.GetOr(p.documentTitle)
  }

  /** `path.split('/post/')[1]` on a path that starts with `/post/`: the text after the prefix
      up to the next `/post/`, or to the end. */
  function PostId(path: string): (id: string)
    requires StartsWith(path, PostPrefix)
    ensures StartsWith(path, PostPrefix + id)
    ensures forall j :: |PostPrefix| <= j < |PostPrefix| + |id| ==> !OccursAt(path, PostPrefix, j)
    ensures |PostPrefix| + |id| == |path| || OccursAt(path, PostPrefix, |PostPrefix| + |id|)
  {
    var n := IndexOfFrom(path, PostPrefix, |PostPrefix|);
    var id := if n == -1 then path[|PostPrefix|..] else path[|PostPrefix|..n];
    assert path[..|PostPrefix| + |id|] == PostPrefix + id;
    id
  }

  /** `title.replace('Floatplane - ', '').trim()`: a title without the site prefix is only
      trimmed, and the result never has spaces at its ends. */
  function CleanTitle(title: string): (r: string)
    ensures r == [] || (!IsSpace(r[0]) && !IsSpace(r[|r| - 1]))
    ensures IndexOfFrom(title, SiteTitlePrefix, 0) == -1 ==> r == Trim(title)
    ensures IndexOfFrom(title, SiteTitlePrefix, 0) != -1 ==> |r| <= |title| - |SiteTitlePrefix|
    ensures var k := IndexOfFrom(title, SiteTitlePrefix, 0);
      k != -1 ==> r == Trim(title[..k] + title[k + |SiteTitlePrefix|..])
  {
    Trim(RemoveFirst(title, SiteTitlePrefix))
  }

  /** A title that begins with the site prefix loses exactly that prefix before trimming. */
  lemma CleanTitleDropsSitePrefix(rest: string)
    ensures CleanTitle(SiteTitlePrefix + rest) == Trim(rest)
  {
    RemoveFirstOfPrefixed(SiteTitlePrefix, rest);
  }

  /** The entry the detector builds: the page's id and URL, the cleaned title, the `og:image`
      thumbnail (empty without one), no duration, and no subchannel. */
  function PageEntry(id: string, href: string, p: Probe): (e: Entry)
    ensures e.id == id && e.url == href && e.duration == "" && e.subchannel == ""
    ensures e.thumbnail == (if p.image.Some? then p.image.value else "")
    ensures e.title == CleanTitle(ProbeTitle(p))
  {
    var title := CleanTitle(ProbeTitle(p));
    Entry(id, href, title, p.image.GetOr(""), "", "")
  }

  /** The first attempt, at or after `attempt`, whose probe reads a non-empty title, within
      the budget of 1 + MaxRetries attempts and the probes given; -1 when there is none. */
  function FirstTitled(probes: seq<Probe>, attempt: nat): (k: int)
    ensures k == -1 || (attempt <= k < |probes| && k <= MaxRetries && ProbeTitle(probes[k]) != "")
    ensures k != -1 ==> forall j :: attempt <= j < k ==> ProbeTitle(probes[j]) == ""
    ensures k == -1 ==> forall j :: attempt <= j < |probes| && j <= MaxRetries ==> ProbeTitle(probes[j]) == ""
    decreases |probes| - attempt
  {
    if attempt >= |probes| || attempt > MaxRetries then -1
    else if ProbeTitle(probes[attempt]) != "" then attempt
    else FirstTitled(probes, attempt + 1)
  }

  /** `attemptAdd(retries = 3)`: probe, and while the title is empty and retries remain, try again. */
  method FirstTitledAttempt(probes: seq<Probe>) returns (k: int)
    ensures k == FirstTitled(probes, 0)
  {
    var attempt, retries := 0, MaxRetries;
    while attempt < |probes|
      invariant 0 <= attempt <= |probes| && attempt + retries == MaxRetries
      invariant forall j :: 0 <= j < attempt ==> ProbeTitle(probes[j]) == ""
      decreases |probes| - attempt
    {
      if ProbeTitle(probes[attempt]) != "" {
        return attempt;
      }
      if retries == 0 {
        return -1;
      }
      attempt, retries := attempt + 1, retries - 1;
    }
    return -1;
  }

  /** What the detector does to the queue. */
  datatype Action = Ignore | Select(index: nat) | Append(entry: Entry)

  /** The detector's decision: nothing on an empty queue or a non-video page; select a queued
      id unless it is already current; otherwise append the page's video once a title is read. */
  function Decide(s: QueueState, page: Page): (a: Action)
    ensures s.entries == [] || !StartsWith(page.path, PostPrefix) ==> a.Ignore?
    ensures a.Select? ==>
      StartsWith(page.path, PostPrefix) && a.index == IndexOf(s.entries, PostId(page.path)) && a.index != s.current
    ensures a.Append? ==>
      StartsWith(page.path, PostPrefix) && IndexOf(s.entries, PostId(page.path)) == -1
      && FirstTitled(page.probes, 0) != -1 && a.entry.id == PostId(page.path)
      && a.entry == PageEntry(PostId(page.path), page.href, page.probes[FirstTitled(page.probes, 0)])
    ensures a.Ignore? && s.entries != [] && StartsWith(page.path, PostPrefix) ==>
      var k := IndexOf(s.entries, PostId(page.path));
      (k != -1 && k == s.current) || (k == -1 && FirstTitled(page.probes, 0) == -1)
  {
    if s.entries == [] || !StartsWith(page.path, PostPrefix) then Ignore
    else
      var id := PostId(page.path);
      var k := IndexOf(s.entries, id);
      if k != -1 then (if s.current != k then Select(k) else Ignore)
      else
        var t := FirstTitled(page.probes, 0);
        if t == -1 then Ignore else Append(PageEntry(id, page.href, page.probes[t]))
  }

  /** The state after an action; an append makes the new last entry current. */
  function Apply(s: QueueState, a: Action): (r: QueueState)
    ensures s.entries <= r.entries
    ensures a.Ignore? ==> r == s
    ensures a.Select? ==> r.entries == s.entries && r.current == a.index
    ensures a.Append? ==> |r.entries| == |s.entries| + 1 && r.current == |s.entries| && r.entries[r.current] == a.entry
  {
    match a
    case Ignore => s
    case Select(k) => QueueState(s.entries, k)
    case Append(e) => QueueState(s.entries + [e], |s.entries|)
  }

  /** The detector never duplicates an id, keeps the queued list as a prefix, adds at most
      the page's own video (with an empty duration), and keeps the index at least -1. */
  lemma AutoAddKeepsInvariant(s: QueueState, page: Page)
    ensures var r := Apply(s, Decide(s, page));
      (s.Valid() ==> r.Valid())
      && (s.current >= -1 ==> r.current >= -1)
      && s.entries <= r.entries && |r.entries| <= |s.entries| + 1
      && (|r.entries| > |s.entries| ==>
            StartsWith(page.path, PostPrefix)
            && r.entries[|s.entries|].id == PostId(page.path) && r.entries[|s.entries|].duration == "")
  {
    var a := Decide(s, page);
    if a.Append? {
      AddNeverDuplicates(s.entries, a.entry);
    }
  }

  /** On a video page with a non-empty queue, the page's video ends up current whenever it was
      queued or a title was read in time; otherwise the page is left untracked. */
  lemma AutoAddMakesPageCurrent(s: QueueState, page: Page)
    requires s.entries != [] && StartsWith(page.path, PostPrefix)
    ensures var r := Apply(s, Decide(s, page));
      var id := PostId(page.path);
      if IndexOf(s.entries, id) != -1 || FirstTitled(page.probes, 0) != -1 then
        0 <= r.current < |r.entries| && r.entries[r.current].id == id
      else r == s
  {
  }

  /** A page already queued is only synchronised: the list is untouched. */
  lemma AutoAddSyncsQueuedPage(s: QueueState, page: Page)
    requires s.entries != [] && StartsWith(page.path, PostPrefix)
    requires IndexOf(s.entries, PostId(page.path)) != -1
    ensures Apply(s, Decide(s, page)) == QueueState(s.entries, IndexOf(s.entries, PostId(page.path)))
    ensures Decide(s, page).Ignore? <==> s.current == IndexOf(s.entries, PostId(page.path))
  {
  }

  /** The page as the `ended` handler's reload sees it: only the first attempt runs before
      the decision, later retries are timers. */
  function FirstAttemptOnly(page: Page): (p: Page)
    ensures p.path == page.path && p.href == page.href
    ensures |p.probes| == (if page.probes == [] then 0 else 1) && p.probes <= page.probes
  {
    page.(probes := if |page.probes| > 0 then page.probes[..1] else [])
  }
}
