/**
  The slash command's ephemeral reply: a title, a per-status summary, then the issues
  status by status in the fixed order, cut to fit the block budget with a note saying
  how much was left out.
 */
module Ephemeral {
  import opened Strings
  import opened Sorting
  import opened Grouping
  import opened Jira
  import opened Slack
  import opened StatusGroups

  /** The block budget of the message, and the three blocks (header, summary, divider) that open it. */
  const MaxBlocks := 48
  const IntroBlocks := 3

  /** `mapOrder` is an order in which ranging over `groups` may visit its keys: each key once. */
  predicate RangeOrder(mapOrder: seq<string>, groups: map<string, seq<IssueItem>>) {
    Distinct(mapOrder) && Elems(mapOrder) == groups.Keys
  }

  lemma RangeOrderKeys(mapOrder: seq<string>, groups: map<string, seq<IssueItem>>)
    requires RangeOrder(mapOrder, groups)
    ensures KeysIn(mapOrder, groups)
  {
    forall i | 0 <= i < |mapOrder| ensures mapOrder[i] in groups {
      assert mapOrder[i] in Elems(mapOrder);
    }
  }

  // ---------------------------------------------------------------- the opening blocks

  /** The number of issues in all groups. */
  function Total(groups: map<string, seq<IssueItem>>, mapOrder: seq<string>): nat
    requires KeysIn(mapOrder, groups)
  {
    |Concat(mapOrder, groups)|
  }

  /** The total loop: the sizes of the groups, summed in map order. */
  method TotalIssues(groups: map<string, seq<IssueItem>>, mapOrder: seq<string>) returns (total: nat)
    requires RangeOrder(mapOrder, groups)
    ensures KeysIn(mapOrder, groups) && total == Total(groups, mapOrder)
  {
    RangeOrderKeys(mapOrder, groups);
    total := 0;
    for i := 0 to |mapOrder|
      invariant KeysIn(mapOrder[..i], groups) && total == |Concat(mapOrder[..i], groups)|
    {
      assert mapOrder[..i + 1][..i] == mapOrder[..i];
      total := total + |groups[mapOrder[i]]|;
    }
    assert mapOrder[..|mapOrder|] == mapOrder;
  }

  /** The total does not depend on the order the map is ranged in. */
  lemma TotalAnyOrder(groups: map<string, seq<IssueItem>>, o1: seq<string>, o2: seq<string>)
    requires RangeOrder(o1, groups) && RangeOrder(o2, groups)
    ensures KeysIn(o1, groups) && KeysIn(o2, groups)
    ensures Total(groups, o1) == Total(groups, o2)
  {
    RangeOrderKeys(o1, groups);
    RangeOrderKeys(o2, groups);
    ConcatReordered(o1, o2, groups);
    assert |multiset(Concat(o1, groups))| == |multiset(Concat(o2, groups))|;
  }

  /** One summary line: the status and the size of its group. */
  function SummaryLine(status: string, size: nat): string {
    "• *" + status + ":* " + IntToString(size)
  }

  function SummaryLines(groups: map<string, seq<IssueItem>>, ss: seq<string>): (r: seq<string>)
    requires KeysIn(ss, groups)
    ensures |r| == |ss|
    decreases |ss|
  {
    if ss == [] then []
    else
      var last := ss[|ss| - 1];
      SummaryLines(groups, ss[..|ss| - 1]) + [SummaryLine(last, |groups[last]|)]
  }

  /** statusOrder's inner search loop, with its early break. */
  method InStatusOrder(status: string) returns (found: bool)
    ensures found == (status in StatusOrder)
  {
    found := false;
    for j := 0 to |StatusOrder|
      invariant forall k :: 0 <= k < j ==> StatusOrder[k] != status
    {
      if StatusOrder[j] == status {
        found := true;
        break;
      }
    }
  }

  lemma KeysInSnoc(ss: seq<string>, s: string, groups: map<string, seq<IssueItem>>)
    requires KeysIn(ss, groups) && s in groups
    ensures KeysIn(ss + [s], groups)
  {
    assert forall i :: 0 <= i < |ss| ==> (ss + [s])[i] == ss[i];
  }

  lemma SummaryLinesSnoc(groups: map<string, seq<IssueItem>>, ss: seq<string>, s: string)
    requires KeysIn(ss, groups) && s in groups
    ensures KeysIn(ss + [s], groups)
    ensures SummaryLines(groups, ss + [s]) == SummaryLines(groups, ss) + [SummaryLine(s, |groups[s]|)]
  {
    KeysInSnoc(ss, s, groups);
    assert (ss + [s])[..|ss|] == ss;
  }

  lemma PresentSnoc(ss: seq<string>, s: string, groups: map<string, seq<IssueItem>>)
    ensures Present(ss + [s], groups) == Present(ss, groups) + (if s in groups then [s] else [])
  {
    assert (ss + [s])[..|ss|] == ss;
  }

  lemma UnlistedSnoc(ss: seq<string>, s: string)
    ensures Unlisted(ss + [s]) == Unlisted(ss) + (if s !in StatusOrder then [s] else [])
  {
    assert (ss + [s])[..|ss|] == ss;
  }

  /** The first summary loop: the statuses of the fixed order that have a group. */
  method PresentSummaryLines(groups: map<string, seq<IssueItem>>) returns (lines: seq<string>)
    ensures lines == SummaryLines(groups, Present(StatusOrder, groups))
  {
    lines := [];
    ghost var present: seq<string> := [];
    for i := 0 to |StatusOrder|
      invariant present == Present(StatusOrder[..i], groups)
      invariant lines == SummaryLines(groups, present)
    {
      var status := StatusOrder[i];
      TakeSnoc(StatusOrder, i);
      PresentSnoc(StatusOrder[..i], status, groups);
      if status in groups {
        SummaryLinesSnoc(groups, present, status);
        lines := lines + [SummaryLine(status, |groups[status]|)];
        present := present + [status];
      }
    }
    assert StatusOrder[..|StatusOrder|] == StatusOrder;
  }

  /** The second summary loop: the statuses outside the fixed order, in map order, after `lines0`. */
  method UnlistedSummaryLines(groups: map<string, seq<IssueItem>>, mapOrder: seq<string>,
                              ghost listed0: seq<string>, lines0: seq<string>)
    returns (lines: seq<string>)
    requires KeysIn(mapOrder, groups) && KeysIn(listed0, groups)
    requires lines0 == SummaryLines(groups, listed0)
    ensures KeysIn(listed0 + Unlisted(mapOrder), groups)
    ensures lines == SummaryLines(groups, listed0 + Unlisted(mapOrder))
  {
    lines := lines0;
    ghost var listed := listed0;
    assert listed0 + Unlisted(mapOrder[..0]) == listed;
    for i := 0 to |mapOrder|
      invariant listed == listed0 + Unlisted(mapOrder[..i])
      invariant KeysIn(listed, groups)
      invariant lines == SummaryLines(groups, listed)
    {
      UnlistedStep(listed0, mapOrder, i);
      lines, listed := NoteUnlisted(groups, mapOrder[i], listed, lines);
    }
    assert mapOrder[..|mapOrder|] == mapOrder;
  }

  /** The body of the second summary loop: a status outside the fixed order gets its line. */
  method NoteUnlisted(groups: map<string, seq<IssueItem>>, status: string, ghost listed0: seq<string>, lines0: seq<string>)
    returns (lines: seq<string>, ghost listed: seq<string>)
    requires status in groups && KeysIn(listed0, groups) && lines0 == SummaryLines(groups, listed0)
    ensures listed == listed0 + (if status !in StatusOrder then [status] else [])
    ensures KeysIn(listed, groups) && lines == SummaryLines(groups, listed)
    ensures lines == lines0 + (if status !in StatusOrder then [SummaryLine(status, |groups[status]|)] else [])
  {
    lines, listed := lines0, listed0;
    var found := InStatusOrder(status);
    if !found {
      SummaryLinesSnoc(groups, listed, status);
      lines := lines + [SummaryLine(status, |groups[status]|)];
      listed := listed + [status];
    }
  }

  lemma UnlistedStep(listed0: seq<string>, mapOrder: seq<string>, i: nat)
    requires i < |mapOrder|
    ensures listed0 + Unlisted(mapOrder[..i + 1])
         == listed0 + Unlisted(mapOrder[..i]) + (if mapOrder[i] !in StatusOrder then [mapOrder[i]] else [])
  {
    TakeSnoc(mapOrder, i);
    UnlistedSnoc(mapOrder[..i], mapOrder[i]);
  }

  /** The two summary loops: the fixed statuses that have issues, then the others in map order. */
  method BuildSummaryLines(groups: map<string, seq<IssueItem>>, mapOrder: seq<string>) returns (lines: seq<string>)
    requires RangeOrder(mapOrder, groups)
    ensures KeysIn(ListingOrder(groups, mapOrder), groups)
    ensures lines == SummaryLines(groups, ListingOrder(groups, mapOrder))
  {
    RangeOrderKeys(mapOrder, groups);
    lines := PresentSummaryLines(groups);
    lines := UnlistedSummaryLines(groups, mapOrder, Present(StatusOrder, groups), lines);
  }

  /** The title names the mode: all issues, or open ones only. */
  function Title(username: string, includeAll: bool): string {
    if includeAll then "🔍 All Issues for " + username else "🔍 Issues for " + username
  }

  lemma TitleNamesMode(username: string, includeAll: bool)
    ensures Title(username, includeAll) == "🔍 All Issues for " + username <==> includeAll
  {
    assert |"🔍 All Issues for "| != |"🔍 Issues for "|;
  }

  function SummaryText(total: nat, statuses: nat, lines: seq<string>): string {
    "Found *" + IntToString(total) + "* issue(s) across *" + IntToString(statuses) + "* status(es)\n\n📊 *Summary:*\n"
    + Join(lines, "\n")
  }

  /** The three opening blocks. */
  function Intro(username: string, groups: map<string, seq<IssueItem>>, includeAll: bool, mapOrder: seq<string>): seq<Block>
    requires RangeOrder(mapOrder, groups)
  {
    RangeOrderKeys(mapOrder, groups);
    ListingOrderExact(groups, mapOrder);
    [ Header(Title(username, includeAll)),
      Section(SummaryText(Total(groups, mapOrder), |groups|, SummaryLines(groups, ListingOrder(groups, mapOrder)))),
      Divider ]
  }

  // ---------------------------------------------------------------- the listed entries

  /**
    One would-be block of the listing: a status header with its group size, or an issue
    with the number of issues of its status from it to the end of the group.
   */
  datatype Entry = StatusHead(status: string, size: nat) | IssueEntry(item: IssueItem, left: nat)

  function ItemEntries(items: seq<IssueItem>): (r: seq<Entry>)
    ensures |r| == |items|
  {
    seq(|items|, i requires 0 <= i < |items| => IssueEntry(items[i], |items| - i))
  }

  function StatusEntries(status: string, items: seq<IssueItem>): seq<Entry> {
    [StatusHead(status, |items|)] + ItemEntries(items)
  }

  /** Everything the listing would show with no budget: each status of `ss` that has a group, in order. */
  function Entries(groups: map<string, seq<IssueItem>>, ss: seq<string>): seq<Entry>
    decreases |ss|
  {
    if ss == [] then []
    else
      var last := ss[|ss| - 1];
      Entries(groups, ss[..|ss| - 1]) + (if last in groups then StatusEntries(last, groups[last]) else [])
  }

  /** Whether an entry fits at position j after the opening blocks: a header needs room for one issue as well. */
  predicate Placeable(e: Entry, j: nat) {
    if e.StatusHead? then IntroBlocks + j + 2 <= MaxBlocks else IntroBlocks + j < MaxBlocks
  }

  predicate Placed(es: seq<Entry>) {
    forall j :: 0 <= j < |es| ==> Placeable(es[j], j)
  }

  /** The first position from `j` on whose entry does not fit, or the end. */
  function FirstMisfit(es: seq<Entry>, j: nat): (r: nat)
    requires j <= |es|
    ensures j <= r <= |es|
    decreases |es| - j
  {
    if j == |es| || !Placeable(es[j], j) then j else FirstMisfit(es, j + 1)
  }

  /** How many entries are shown: the longest prefix whose entries all fit. */
  function ShownCount(es: seq<Entry>): nat {
    FirstMisfit(es, 0)
  }

  function IssuesIn(es: seq<Entry>): nat
    decreases |es|
  {
    if es == [] then 0 else IssuesIn(es[..|es| - 1]) + (if es[|es| - 1].IssueEntry? then 1 else 0)
  }

  function ItemsOf(es: seq<Entry>): seq<IssueItem>
    decreases |es|
  {
    if es == [] then []
    else ItemsOf(es[..|es| - 1]) + (if es[|es| - 1].IssueEntry? then [es[|es| - 1].item] else [])
  }

  function StatusHeadText(status: string, size: nat): string {
    "\n📂 *" + status + "* (" + IntToString(size) + ")"
  }

  /** The block of one entry; an issue's summary is cut at 100 characters. */
  function Render(url: string, e: Entry): Block {
    match e
    case StatusHead(s, n) => Section(StatusHeadText(s, n))
    case IssueEntry(it, _) => Section(ListLine(url, it, 100, PRField(it.gitPullRequest)))
  }

  function RenderAll(url: string, es: seq<Entry>): (r: seq<Block>)
    ensures |r| == |es|
    decreases |es|
  {
    if es == [] then [] else RenderAll(url, es[..|es| - 1]) + [Render(url, es[|es| - 1])]
  }

  function NotShownText(remaining: int): string {
    "\n_...and " + IntToString(remaining) + " more issue(s) not shown_"
  }

  function MoreInStatusText(left: int, remaining: int): string {
    "_...and " + IntToString(left) + " more in this status (" + IntToString(remaining) + " total remaining)_"
  }

  /** The note that replaces the first entry that does not fit. */
  function Marker(next: Entry, remaining: int): Block {
    if next.StatusHead? then Section(NotShownText(remaining))
    else Section(MoreInStatusText(next.left, remaining))
  }

  /** The message for a full listing `es`: the shown prefix, then the note if anything is cut. */
  function Layout(url: string, intro: seq<Block>, es: seq<Entry>, total: nat): seq<Block> {
    var k := ShownCount(es);
    intro + RenderAll(url, es[..k])
    + (if k < |es| then [Marker(es[k], total - IssuesIn(es[..k]))] else [])
  }

  /** The ephemeral message of buildEphemeralStatusBlocks. */
  function EphemeralBlocks(url: string, username: string, groups: map<string, seq<IssueItem>>, includeAll: bool,
                           mapOrder: seq<string>): seq<Block>
    requires RangeOrder(mapOrder, groups)
  {
    RangeOrderKeys(mapOrder, groups);
    Layout(url, Intro(username, groups, includeAll, mapOrder), Entries(groups, StatusOrder), Total(groups, mapOrder))
  }

  // ---------------------------------------------------------------- facts about the entries

  lemma {:induction false} FirstMisfitAt(es: seq<Entry>, j: nat, p: nat)
    requires j <= p <= |es|
    requires forall i :: j <= i < p ==> Placeable(es[i], i)
    requires p == |es| || !Placeable(es[p], p)
    ensures FirstMisfit(es, j) == p
    decreases p - j
  {
    if j < p {
      FirstMisfitAt(es, j + 1, p);
    }
  }

  lemma {:induction false} FirstMisfitFits(es: seq<Entry>, j: nat, i: nat)
    requires j <= |es| && j <= i < FirstMisfit(es, j)
    ensures Placeable(es[i], i)
    decreases |es| - j
  {
    if j < i {
      FirstMisfitFits(es, j + 1, i);
    }
  }

  /** A prefix that fits, followed by an entry that does not, is exactly the shown part. */
  lemma CutLayout(url: string, intro: seq<Block>, es: seq<Entry>, p: seq<Entry>, total: nat)
    requires |p| < |es| && es[..|p|] == p && Placed(p) && !Placeable(es[|p|], |p|)
    ensures Layout(url, intro, es, total) == intro + RenderAll(url, p) + [Marker(es[|p|], total - IssuesIn(p))]
  {
    forall i | 0 <= i < |p| ensures Placeable(es[i], i) {
      assert es[i] == p[i];
    }
    FirstMisfitAt(es, 0, |p|);
  }

  /** Entries that fit never take the message past the budget. */
  lemma PlacedBound(es: seq<Entry>)
    requires Placed(es)
    ensures IntroBlocks + |es| <= MaxBlocks
  {
    if es != [] {
      assert Placeable(es[|es| - 1], |es| - 1);
    }
  }

  /** The issue loop's cut: no room is left for the next issue, so the note takes its place. */
  lemma ItemCut(url: string, intro: seq<Block>, full: seq<Entry>, n: nat, item: IssueItem, left: nat, total: nat,
                blocks: seq<Block>, cb: int, shown: int, result: seq<Block>)
    requires n < |full| && full[n] == IssueEntry(item, left)
    requires Listed(url, intro, full[..n], blocks, cb, shown) && cb >= MaxBlocks
    requires result == blocks + [Section(MoreInStatusText(left, total - shown))]
    ensures result == Layout(url, intro, full, total)
    ensures cb == MaxBlocks
  {
    var p := full[..n];
    assert |p| == n && full[..|p|] == p;
    assert !Placeable(full[|p|], |p|);
    PlacedBound(p);
    CutLayout(url, intro, full, p, total);
    assert Marker(full[|p|], total - IssuesIn(p)) == Section(MoreInStatusText(left, total - shown));
  }

  /** The status loop's cut: no room is left for a header and one issue, so the note takes its place. */
  lemma HeaderCut(url: string, intro: seq<Block>, full: seq<Entry>, es: seq<Entry>, status: string, size: nat, total: nat,
                  blocks: seq<Block>, cb: int, shown: int)
    requires Listed(url, intro, es, blocks, cb, shown) && cb + 2 > MaxBlocks
    requires |es| < |full| && full[..|es|] == es && full[|es|] == StatusHead(status, size)
    ensures blocks + [Section(NotShownText(total - shown))] == Layout(url, intro, full, total)
  {
    CutLayout(url, intro, full, es, total);
  }

  lemma PrefixFacts<T>(whole: seq<T>, full: seq<T>, n: nat)
    requires whole <= full && n < |whole|
    ensures n < |full| && full[..n] == whole[..n] && full[n] == whole[n]
  {
    assert full[..|whole|] == whole;
    assert full[..|whole|][..n] == full[..n];
  }

  lemma TakeSnoc<T>(s: seq<T>, n: nat)
    requires n < |s|
    ensures s[..n] + [s[n]] == s[..n + 1]
  {
  }

  /** Where each entry of one status sits in the listing. */
  lemma StatusEntriesAt(done: seq<Entry>, status: string, items: seq<IssueItem>, i: nat)
    requires i < |items|
    ensures (done + StatusEntries(status, items))[|done|] == StatusHead(status, |items|)
    ensures (done + StatusEntries(status, items))[|done| + 1 + i] == IssueEntry(items[i], |items| - i)
    ensures (done + StatusEntries(status, items))[..|done|] == done
  {
    var w := done + StatusEntries(status, items);
    assert w[|done| + 1 + i] == StatusEntries(status, items)[1 + i];
  }

  lemma StatusEntriesHead(done: seq<Entry>, status: string, items: seq<IssueItem>)
    ensures (done + StatusEntries(status, items))[|done|] == StatusHead(status, |items|)
    ensures (done + StatusEntries(status, items))[..|done|] == done
    ensures (done + StatusEntries(status, items))[..|done| + 1] == done + [StatusHead(status, |items|)]
  {
  }

  /** A listing that fits entirely is shown entirely, without a note. */
  lemma FullLayout(url: string, intro: seq<Block>, es: seq<Entry>, total: nat)
    requires Placed(es)
    ensures Layout(url, intro, es, total) == intro + RenderAll(url, es)
  {
    FirstMisfitAt(es, 0, |es|);
    assert es[..|es|] == es;
  }

  lemma EntriesSnoc(groups: map<string, seq<IssueItem>>, ss: seq<string>, s: string)
    ensures Entries(groups, ss + [s])
         == Entries(groups, ss) + (if s in groups then StatusEntries(s, groups[s]) else [])
  {
    assert (ss + [s])[..|ss|] == ss;
  }

  lemma {:induction false} EntriesPrefix(groups: map<string, seq<IssueItem>>, ss: seq<string>, n: nat)
    requires n <= |ss|
    ensures Entries(groups, ss[..n]) <= Entries(groups, ss)
    decreases |ss|
  {
    if n < |ss| {
      var init := ss[..|ss| - 1];
      assert init[..n] == ss[..n];
      EntriesPrefix(groups, init, n);
    } else {
      assert ss[..n] == ss;
    }
  }

  lemma RenderSnoc(url: string, es: seq<Entry>, e: Entry)
    ensures RenderAll(url, es + [e]) == RenderAll(url, es) + [Render(url, e)]
    ensures IssuesIn(es + [e]) == IssuesIn(es) + (if e.IssueEntry? then 1 else 0)
  {
    assert (es + [e])[..|es|] == es;
  }

  lemma PlacedSnoc(es: seq<Entry>, e: Entry)
    requires Placed(es) && Placeable(e, |es|)
    ensures Placed(es + [e])
  {
    forall j | 0 <= j < |es| + 1 ensures Placeable((es + [e])[j], j) {
      if j < |es| {
        assert (es + [e])[j] == es[j];
      }
    }
  }

  /** The state the listing loops keep while nothing has been cut: the blocks render `es`. */
  predicate Listed(url: string, intro: seq<Block>, es: seq<Entry>, blocks: seq<Block>, currentBlocks: int, issuesShown: int) {
    blocks == intro + RenderAll(url, es) && currentBlocks == IntroBlocks + |es| && issuesShown == IssuesIn(es) && Placed(es)
  }

  lemma ListedSnoc(url: string, intro: seq<Block>, es: seq<Entry>, blocks: seq<Block>, cb: int, shown: int, e: Entry)
    requires Listed(url, intro, es, blocks, cb, shown) && Placeable(e, |es|)
    ensures Listed(url, intro, es + [e], blocks + [Render(url, e)], cb + 1, shown + (if e.IssueEntry? then 1 else 0))
  {
    RenderSnoc(url, es, e);
    PlacedSnoc(es, e);
  }

  /** The body of the issue loop when the issue fits: its PR field, its line, and the counters. */
  method PlaceIssue(url: string, ghost intro: seq<Block>, ghost whole: seq<Entry>, ghost n: nat, ghost next: nat,
                    issue: IssueItem, blocks0: seq<Block>, cb0: int, shown0: int)
    returns (blocks: seq<Block>, currentBlocks: int, issuesShown: int)
    requires n < |whole| && next == n + 1 && whole[n].IssueEntry? && whole[n].item == issue
    requires Listed(url, intro, whole[..n], blocks0, cb0, shown0) && cb0 < MaxBlocks
    ensures Listed(url, intro, whole[..next], blocks, currentBlocks, issuesShown)
  {
    var pr := FormatPRs(issue.gitPullRequest);
    ListedSnoc(url, intro, whole[..n], blocks0, cb0, shown0, whole[n]);
    TakeSnoc(whole, n);
    blocks := blocks0 + [Section(ListLine(url, issue, 100, pr))];
    currentBlocks := cb0 + 1;
    issuesShown := shown0 + 1;
  }

  /** One status of the outer loop once its header fits: the header, then the issue loop. */
  method ListStatus(url: string, ghost intro: seq<Block>, ghost full: seq<Entry>, ghost done: seq<Entry>,
                    status: string, issues: seq<IssueItem>, totalIssues: nat,
                    blocks0: seq<Block>, cb0: int, shown0: int)
    returns (blocks: seq<Block>, currentBlocks: int, issuesShown: int, truncated: bool)
    requires Listed(url, intro, done, blocks0, cb0, shown0) && cb0 + 2 <= MaxBlocks
    requires done + StatusEntries(status, issues) <= full
    ensures !truncated ==> Listed(url, intro, done + StatusEntries(status, issues), blocks, currentBlocks, issuesShown)
    ensures truncated ==> blocks == Layout(url, intro, full, totalIssues) && currentBlocks == MaxBlocks
  {
    blocks, currentBlocks, issuesShown, truncated := blocks0, cb0, shown0, false;
    StatusStartIn(full, done, status, issues);
    ListedSnoc(url, intro, done, blocks, currentBlocks, issuesShown, StatusHead(status, |issues|));
    blocks := blocks + [Section(StatusHeadText(status, |issues|))];
    currentBlocks := currentBlocks + 1;
    ghost var n := |done| + 1;
    for i := 0 to |issues|
      invariant n == |done| + 1 + i
      invariant !truncated && Listed(url, intro, full[..n], blocks, currentBlocks, issuesShown)
    {
      StatusIssueIn(full, done, status, issues, i);
      if currentBlocks >= MaxBlocks {
        // the flag is still clear here: this loop only runs while nothing has been cut
        blocks := NoteRestOfStatus(url, intro, full, n, issues[i], |issues| - i, totalIssues, blocks, currentBlocks, issuesShown);
        truncated := true;
        break;
      }
      ghost var next := n + 1;
      blocks, currentBlocks, issuesShown := PlaceIssue(url, intro, full, n, next, issues[i], blocks, currentBlocks, issuesShown);
      n := next;
    }
    if !truncated {
      ListedWhole(url, intro, full, done + StatusEntries(status, issues), n, blocks, currentBlocks, issuesShown);
    }
  }

  /** Where the header of a status sits in the full listing. */
  lemma StatusStartIn(full: seq<Entry>, done: seq<Entry>, status: string, items: seq<IssueItem>)
    requires done + StatusEntries(status, items) <= full
    ensures |done| < |full| && full[..|done|] == done && full[|done|] == StatusHead(status, |items|)
    ensures done + [StatusHead(status, |items|)] == full[..|done| + 1]
  {
    StatusEntriesHead(done, status, items);
    PrefixFacts(done + StatusEntries(status, items), full, |done|);
    TakeSnoc(full, |done|);
  }

  /** Where the i-th issue of a status sits in the full listing. */
  lemma StatusIssueIn(full: seq<Entry>, done: seq<Entry>, status: string, items: seq<IssueItem>, i: nat)
    requires done + StatusEntries(status, items) <= full && i < |items|
    ensures |done| + 1 + i < |full| && full[|done| + 1 + i] == IssueEntry(items[i], |items| - i)
  {
    StatusEntriesAt(done, status, items, i);
    PrefixFacts(done + StatusEntries(status, items), full, |done| + 1 + i);
  }

  /** The issue loop's cut: the note telling how many issues of this status, and in all, are left. */
  method NoteRestOfStatus(url: string, ghost intro: seq<Block>, ghost full: seq<Entry>, ghost n: nat, ghost item: IssueItem,
                          remainingInStatus: nat, totalIssues: nat, blocks0: seq<Block>, cb0: int, shown0: int)
    returns (blocks: seq<Block>)
    requires n < |full| && full[n] == IssueEntry(item, remainingInStatus)
    requires Listed(url, intro, full[..n], blocks0, cb0, shown0) && cb0 >= MaxBlocks
    ensures blocks == Layout(url, intro, full, totalIssues) && cb0 == MaxBlocks
  {
    var remainingTotal := totalIssues - shown0;
    blocks := blocks0 + [Section(MoreInStatusText(remainingInStatus, remainingTotal))];
    ItemCut(url, intro, full, n, item, remainingInStatus, totalIssues, blocks0, cb0, shown0, blocks);
  }

  lemma ListedWhole(url: string, intro: seq<Block>, full: seq<Entry>, whole: seq<Entry>, n: nat,
                    blocks: seq<Block>, cb: int, shown: int)
    requires whole <= full && n == |whole| && Listed(url, intro, full[..n], blocks, cb, shown)
    ensures Listed(url, intro, whole, blocks, cb, shown)
  {
    assert full[..n] == whole;
  }

  /** The opening of buildEphemeralStatusBlocks: the total, the summary lines and the three blocks. */
  method BuildIntro(username: string, groups: map<string, seq<IssueItem>>, includeAll: bool, mapOrder: seq<string>)
    returns (blocks: seq<Block>, totalIssues: nat)
    requires RangeOrder(mapOrder, groups)
    ensures KeysIn(mapOrder, groups) && totalIssues == Total(groups, mapOrder)
    ensures blocks == Intro(username, groups, includeAll, mapOrder)
  {
    totalIssues := TotalIssues(groups, mapOrder);
    var summaryLines := BuildSummaryLines(groups, mapOrder);
    var title := "🔍 Issues for " + username;
    if includeAll {
      title := "🔍 All Issues for " + username;
    }
    blocks := [Header(title), Section(SummaryText(totalIssues, |groups|, summaryLines)), Divider];
  }

  /** The status loop of buildEphemeralStatusBlocks, after the opening blocks `intro`. */
  method ListStatuses(url: string, groups: map<string, seq<IssueItem>>, order: seq<string>, totalIssues: nat,
                      intro: seq<Block>)
    returns (blocks: seq<Block>)
    ensures blocks == Layout(url, intro, Entries(groups, order), totalIssues)
  {
    ghost var full := Entries(groups, order);
    blocks := intro;
    var currentBlocks := IntroBlocks;
    var issuesShown := 0;
    var truncated := false;
    ghost var done: seq<Entry> := [];
    assert intro + RenderAll(url, done) == intro;
    for si := 0 to |order|
      invariant done == Entries(groups, order[..si])
      invariant !truncated ==> Listed(url, intro, done, blocks, currentBlocks, issuesShown)
      invariant truncated ==> blocks == Layout(url, intro, full, totalIssues) && currentBlocks == MaxBlocks
    {
      var status := order[si];
      TakeSnoc(order, si);
      EntriesSnoc(groups, order[..si], status);
      if status !in groups {
        continue;
      }
      var issues := groups[status];
      EntriesPrefix(groups, order, si + 1);
      if currentBlocks + 2 > MaxBlocks {
        if !truncated {
          StatusEntriesHead(done, status, issues);
          PrefixFacts(done + StatusEntries(status, issues), full, |done|);
          HeaderCut(url, intro, full, done, status, |issues|, totalIssues, blocks, currentBlocks, issuesShown);
          blocks := blocks + [Section(NotShownText(totalIssues - issuesShown))];
          truncated := true;
        }
        break;
      }
      blocks, currentBlocks, issuesShown, truncated :=
        ListStatus(url, intro, full, done, status, issues, totalIssues, blocks, currentBlocks, issuesShown);
      done := done + StatusEntries(status, issues);
    }
    if !truncated {
      assert order[..|order|] == order;
      FullLayout(url, intro, full, totalIssues);
    }
  }

  /** buildEphemeralStatusBlocks: the opening blocks, then the status loop under the block budget. */
  method BuildEphemeralStatusBlocks(url: string, username: string, groups: map<string, seq<IssueItem>>,
                                    includeAll: bool, mapOrder: seq<string>)
    returns (blocks: seq<Block>)
    requires RangeOrder(mapOrder, groups)
    ensures blocks == EphemeralBlocks(url, username, groups, includeAll, mapOrder)
  {
    var intro, totalIssues := BuildIntro(username, groups, includeAll, mapOrder);
    blocks := ListStatuses(url, groups, StatusOrder, totalIssues, intro);
  }

  // ---------------------------------------------------------------- properties of the message

  /**
    The shown count in closed form: a header never takes the 45th listing slot (it needs room
    for one issue as well), and nothing takes the 46th.
   */
  lemma ShownCountClosed(es: seq<Entry>)
    ensures ShownCount(es) == if |es| <= 44 then |es| else if es[44].StatusHead? then 44 else 45
  {
    var p := if |es| <= 44 then |es| else if es[44].StatusHead? then 44 else 45;
    FirstMisfitAt(es, 0, p);
  }

  /** The message has at most 49 blocks: the opening three, at most 45 listed entries, and one note. */
  lemma EphemeralBound(url: string, username: string, groups: map<string, seq<IssueItem>>, includeAll: bool,
                       mapOrder: seq<string>)
    requires RangeOrder(mapOrder, groups)
    ensures |EphemeralBlocks(url, username, groups, includeAll, mapOrder)| <= MaxBlocks + 1
  {
    ShownCountClosed(Entries(groups, StatusOrder));
  }

  /** The first three blocks are the title header, the summary section and the divider. */
  lemma EphemeralOpening(url: string, username: string, groups: map<string, seq<IssueItem>>, includeAll: bool,
                         mapOrder: seq<string>)
    requires RangeOrder(mapOrder, groups)
    ensures KeysIn(mapOrder, groups) && KeysIn(ListingOrder(groups, mapOrder), groups)
    ensures var b := EphemeralBlocks(url, username, groups, includeAll, mapOrder);
      |b| >= 3 && b[0] == Header(Title(username, includeAll)) && b[2] == Divider
      && b[1] == Section(SummaryText(Total(groups, mapOrder), |groups|, SummaryLines(groups, ListingOrder(groups, mapOrder))))
  {
    RangeOrderKeys(mapOrder, groups);
    ListingOrderExact(groups, mapOrder);
    var intro := Intro(username, groups, includeAll, mapOrder);
    LayoutPrefix(url, intro, Entries(groups, StatusOrder), Total(groups, mapOrder));
  }

  lemma LayoutPrefix(url: string, intro: seq<Block>, es: seq<Entry>, total: nat)
    ensures |Layout(url, intro, es, total)| >= |intro|
    ensures forall i :: 0 <= i < |intro| ==> Layout(url, intro, es, total)[i] == intro[i]
  {
  }

  /** A truncation note: a section whose text opens with "_...and", possibly after a line break. */
  predicate IsNote(b: Block) {
    b.Section? && (HasPrefix(b.text, "_...and ") || HasPrefix(b.text, "\n_...and "))
  }

  lemma MarkerIsNote(next: Entry, remaining: int)
    ensures IsNote(Marker(next, remaining))
  {
  }

  /** Status headers and issue lines are never mistaken for a note. */
  lemma RenderIsNotNote(url: string, e: Entry)
    ensures !IsNote(Render(url, e))
  {
    match e
    case StatusHead(s, n) =>
      HeadTextStart(s, n);
      NotNoteByStart(StatusHeadText(s, n), '\n', '📂');
    case IssueEntry(it, _) =>
      var pr := PRField(it.gitPullRequest);
      ListLineStart(url, it, 100, pr);
      NotNoteByStart(ListLine(url, it, 100, pr), '•', ' ');
  }

  lemma HeadTextStart(status: string, size: nat)
    ensures |StatusHeadText(status, size)| >= 2
    ensures StatusHeadText(status, size)[0] == '\n' && StatusHeadText(status, size)[1] == '📂'
  {
    var rest := status + "* (" + IntToString(size) + ")";
    assert StatusHeadText(status, size) == "\n📂 *" + rest;
  }

  lemma ListLineStart(url: string, it: IssueItem, limit: nat, pr: string)
    ensures |ListLine(url, it, limit, pr)| >= 2
    ensures ListLine(url, it, limit, pr)[0] == '•' && ListLine(url, it, limit, pr)[1] == ' '
  {
    var rest := url + "/browse/" + it.key + "|*" + it.key + "*> — " + Truncated(Escape(it.summary), limit)
                + "\n   *Status:* " + it.status + "  |  *PR:* " + pr;
    assert ListLine(url, it, limit, pr) == "• <" + rest;
  }

  /** A text whose first two characters begin neither note is not a note. */
  lemma NotNoteByStart(t: string, c0: char, c1: char)
    requires |t| >= 2 && t[0] == c0 && t[1] == c1
    requires c0 != '_' && (c0 != '\n' || c1 != '_')
    ensures !IsNote(Section(t))
  {
    assert !HasPrefix(t, "_...and ") by {
      if |t| >= 8 {
        assert t[..8][0] == c0;
      }
    }
    assert !HasPrefix(t, "\n_...and ") by {
      if |t| >= 9 {
        assert t[..9][0] == c0 && t[..9][1] == c1;
      }
    }
  }

  lemma {:induction false} RenderAllAt(url: string, es: seq<Entry>, i: nat)
    requires i < |es|
    ensures RenderAll(url, es)[i] == Render(url, es[i])
    decreases |es|
  {
    if i < |es| - 1 {
      RenderAllAt(url, es[..|es| - 1], i);
    }
  }

  /** Behind opening blocks that are not notes, the only note a layout holds is its last block, when something is cut. */
  lemma LayoutNotes(url: string, intro: seq<Block>, es: seq<Entry>, total: nat)
    requires forall i :: 0 <= i < |intro| ==> !IsNote(intro[i])
    ensures var b := Layout(url, intro, es, total);
      forall i :: 0 <= i < |b| ==> (IsNote(b[i]) <==> ShownCount(es) < |es| && i == |b| - 1)
  {
    var k := ShownCount(es);
    var b := Layout(url, intro, es, total);
    var shown := RenderAll(url, es[..k]);
    forall i | 0 <= i < |b| ensures IsNote(b[i]) <==> k < |es| && i == |b| - 1 {
      if i < |intro| {
        assert b[i] == intro[i];
      } else if i < |intro| + k {
        assert b[i] == shown[i - |intro|];
        RenderAllAt(url, es[..k], i - |intro|);
        RenderIsNotNote(url, es[..k][i - |intro|]);
      } else {
        MarkerIsNote(es[k], total - IssuesIn(es[..k]));
      }
    }
  }

  /** At most one truncation note, and only as the last block: it appears exactly when an entry is cut. */
  lemma EphemeralOneNote(url: string, username: string, groups: map<string, seq<IssueItem>>, includeAll: bool,
                         mapOrder: seq<string>)
    requires RangeOrder(mapOrder, groups)
    ensures var b := EphemeralBlocks(url, username, groups, includeAll, mapOrder);
      var es := Entries(groups, StatusOrder);
      forall i :: 0 <= i < |b| ==> (IsNote(b[i]) <==> ShownCount(es) < |es| && i == |b| - 1)
  {
    RangeOrderKeys(mapOrder, groups);
    ListingOrderExact(groups, mapOrder);
    var intro := Intro(username, groups, includeAll, mapOrder);
    OpeningHasNoNote(Title(username, includeAll), Total(groups, mapOrder), |groups|,
                     SummaryLines(groups, ListingOrder(groups, mapOrder)));
    LayoutNotes(url, intro, Entries(groups, StatusOrder), Total(groups, mapOrder));
  }

  /** The opening blocks: a header, a section starting "Found", a divider; none of them a note. */
  lemma OpeningHasNoNote(title: string, total: nat, statuses: nat, lines: seq<string>)
    ensures var intro := [Header(title), Section(SummaryText(total, statuses, lines)), Divider];
      forall i :: 0 <= i < |intro| ==> !IsNote(intro[i])
  {
    assert SummaryText(total, statuses, lines)[0] == 'F';
  }

  lemma {:induction false} ItemsOfAppend(a: seq<Entry>, b: seq<Entry>)
    ensures ItemsOf(a + b) == ItemsOf(a) + ItemsOf(b)
    ensures IssuesIn(a + b) == IssuesIn(a) + IssuesIn(b)
    decreases |b|
  {
    if b == [] {
      assert a + b == a;
    } else {
      var init := b[..|b| - 1];
      assert (a + b)[..|a + b| - 1] == a + init;
      ItemsOfAppend(a, init);
    }
  }

  /** Every issue entry counts once: the issue count is the number of listed items. */
  lemma {:induction false} IssuesInItems(es: seq<Entry>)
    ensures IssuesIn(es) == |ItemsOf(es)|
    decreases |es|
  {
    if es != [] {
      IssuesInItems(es[..|es| - 1]);
    }
  }

  lemma {:induction false} ItemsOfIssues(es: seq<Entry>, items: seq<IssueItem>)
    requires |es| == |items|
    requires forall i :: 0 <= i < |es| ==> es[i].IssueEntry? && es[i].item == items[i]
    ensures ItemsOf(es) == items
    decreases |es|
  {
    if es != [] {
      var n := |es| - 1;
      ItemsOfIssues(es[..n], items[..n]);
      assert items == items[..n] + [items[n]];
    }
  }

  /** One status contributes its issues, in group order. */
  lemma StatusEntriesItems(status: string, items: seq<IssueItem>)
    ensures ItemsOf(StatusEntries(status, items)) == items
  {
    var head: seq<Entry> := [StatusHead(status, |items|)];
    ItemsOfAppend(head, ItemEntries(items));
    assert head[..0] == [];
    ItemsOfIssues(ItemEntries(items), items);
  }

  /** The listing, without a budget, holds the groups of the statuses of `ss` that have one, in the order of `ss`. */
  lemma {:induction false} EntriesItems(groups: map<string, seq<IssueItem>>, ss: seq<string>)
    ensures ItemsOf(Entries(groups, ss)) == Concat(Present(ss, groups), groups)
    decreases |ss|
  {
    if ss != [] {
      var init, last := ss[..|ss| - 1], ss[|ss| - 1];
      EntriesItems(groups, init);
      var tail := if last in groups then StatusEntries(last, groups[last]) else [];
      ItemsOfAppend(Entries(groups, init), tail);
      var p := Present(init, groups);
      if last in groups {
        StatusEntriesItems(last, groups[last]);
        assert (p + [last])[..|p|] == p;
      } else {
        assert Entries(groups, ss) == Entries(groups, init) + tail && tail == [];
        assert ItemsOf(Entries(groups, ss)) == ItemsOf(Entries(groups, init)) + ItemsOf(tail);
        assert ItemsOf(tail) == [];
        assert Present(ss, groups) == p + [];
        assert Present(ss, groups) == p;
      }
    }
  }

  lemma ItemsOfPrefix(es: seq<Entry>, k: nat)
    requires k <= |es|
    ensures ItemsOf(es[..k]) <= ItemsOf(es)
  {
    assert es == es[..k] + es[k..];
    ItemsOfAppend(es[..k], es[k..]);
  }

  /**
    The issues listed are an initial run of the groups of the fixed statuses, taken in the fixed
    order; the note counts every issue of every group that was not listed; and with no note, all
    issues of the fixed statuses are listed.
   */
  lemma EphemeralListing(url: string, username: string, groups: map<string, seq<IssueItem>>, includeAll: bool,
                         mapOrder: seq<string>)
    requires RangeOrder(mapOrder, groups)
    ensures KeysIn(mapOrder, groups)
    ensures var es := Entries(groups, StatusOrder);
      var k := ShownCount(es);
      var b := EphemeralBlocks(url, username, groups, includeAll, mapOrder);
      var listed := ItemsOf(es[..k]);
      listed <= Concat(Present(StatusOrder, groups), groups)
      && (k < |es| ==> b[|b| - 1] == Marker(es[k], Total(groups, mapOrder) - |listed|))
      && (k == |es| ==> listed == Concat(Present(StatusOrder, groups), groups))
  {
    ListedRun(groups);
    EphemeralIsLayout(url, username, groups, includeAll, mapOrder);
    LayoutLastNote(url, Intro(username, groups, includeAll, mapOrder), Entries(groups, StatusOrder), Total(groups, mapOrder));
  }

  /** The message is the layout of the fixed statuses' entries after the opening blocks. */
  lemma EphemeralIsLayout(url: string, username: string, groups: map<string, seq<IssueItem>>, includeAll: bool,
                          mapOrder: seq<string>)
    requires RangeOrder(mapOrder, groups)
    ensures KeysIn(mapOrder, groups)
    ensures EphemeralBlocks(url, username, groups, includeAll, mapOrder)
         == Layout(url, Intro(username, groups, includeAll, mapOrder), Entries(groups, StatusOrder), Total(groups, mapOrder))
  {
    RangeOrderKeys(mapOrder, groups);
  }

  /** The listed items are an initial run of the fixed statuses' groups, all of them when nothing is cut. */
  lemma ListedRun(groups: map<string, seq<IssueItem>>)
    ensures var es := Entries(groups, StatusOrder);
      var listed := ItemsOf(es[..ShownCount(es)]);
      listed <= Concat(Present(StatusOrder, groups), groups)
      && (ShownCount(es) == |es| ==> listed == Concat(Present(StatusOrder, groups), groups))
  {
    var es := Entries(groups, StatusOrder);
    EntriesItems(groups, StatusOrder);
    ItemsOfPrefix(es, ShownCount(es));
    assert es[..|es|] == es;
  }

  /** A cut layout ends with the note for the first entry left out, counting what the listed items leave. */
  lemma LayoutLastNote(url: string, intro: seq<Block>, es: seq<Entry>, total: nat)
    ensures var k := ShownCount(es);
      var b := Layout(url, intro, es, total);
      k < |es| ==> b[|b| - 1] == Marker(es[k], total - |ItemsOf(es[..k])|)
  {
    IssuesInItems(es[..ShownCount(es)]);
  }

  lemma {:induction false} EntriesNone(groups: map<string, seq<IssueItem>>, ss: seq<string>)
    requires forall i :: 0 <= i < |ss| ==> ss[i] !in groups
    ensures Entries(groups, ss) == []
    decreases |ss|
  {
    if ss != [] {
      EntriesNone(groups, ss[..|ss| - 1]);
    }
  }

  /** Groups whose status is outside the fixed order are counted in the summary but never listed. */
  lemma EphemeralListsOnlyFixed(url: string, username: string, groups: map<string, seq<IssueItem>>, includeAll: bool,
                                mapOrder: seq<string>)
    requires RangeOrder(mapOrder, groups)
    requires forall s :: s in groups ==> s !in StatusOrder
    ensures EphemeralBlocks(url, username, groups, includeAll, mapOrder) == Intro(username, groups, includeAll, mapOrder)
  {
    forall i | 0 <= i < |StatusOrder| ensures StatusOrder[i] !in groups {
      assert StatusOrder[i] in StatusOrder;
    }
    EntriesNone(groups, StatusOrder);
  }
}
