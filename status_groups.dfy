/**
  The slash command's view of the issues: the issues of one user, grouped by status,
  the order in which statuses are listed, and the thread replies of one status group,
  cut into chunks of 15 issues.
 */
module StatusGroups {
  import opened Wrappers
  import opened Strings
  import opened Sorting
  import opened Grouping
  import opened Jira
  import opened Slack

  // ---------------------------------------------------------------- filterIssuesByUser

  /** The display name of an optional person, "" when there is none. */
  function NameOf(p: Option<Person>): string {
    if p.Some? then p.value.displayName else ""
  }

  /** The user match: the lower-cased assignee or QA-contact name contains the lower-cased user name. */
  predicate BelongsTo(f: Fields, usernameLower: string) {
    Contains(ToLower(NameOf(f.assignee)), usernameLower) || Contains(ToLower(NameOf(f.qaContact)), usernameLower)
  }

  /** Whether filterIssuesByUser keeps an issue. */
  predicate Kept(issue: Issue, usernameLower: string, skipFilters: bool) {
    (skipFilters || Survives(issue)) && BelongsTo(issue.fields, usernameLower)
  }

  /** The items of the kept issues, in fetch order. */
  function UserItems(issues: seq<Issue>, usernameLower: string, skipFilters: bool): seq<IssueItem>
    decreases |issues|
  {
    if issues == [] then []
    else
      var last := issues[|issues| - 1];
      UserItems(issues[..|issues| - 1], usernameLower, skipFilters)
      + (if Kept(last, usernameLower, skipFilters) then [ItemOf(last)] else [])
  }

  /** The items of all issues, in fetch order. */
  function Items(issues: seq<Issue>): (r: seq<IssueItem>)
    ensures |r| == |issues|
    decreases |issues|
  {
    if issues == [] then [] else Items(issues[..|issues| - 1]) + [ItemOf(issues[|issues| - 1])]
  }

  /** The issues that pass the daily report's filters, in fetch order. */
  function Survivors(issues: seq<Issue>): seq<Issue>
    decreases |issues|
  {
    if issues == [] then []
    else
      var last := issues[|issues| - 1];
      Survivors(issues[..|issues| - 1]) + (if Survives(last) then [last] else [])
  }

  lemma UserItemsSnoc(issues: seq<Issue>, issue: Issue, u: string, skip: bool)
    ensures UserItems(issues + [issue], u, skip)
         == UserItems(issues, u, skip) + (if Kept(issue, u, skip) then [ItemOf(issue)] else [])
  {
    assert (issues + [issue])[..|issues|] == issues;
  }

  /** The body of filterIssuesByUser's inner loop: one issue, appended when it is kept. */
  method FilterIssue(issue: Issue, usernameLower: string, skipFilters: bool, filtered0: seq<IssueItem>)
    returns (filtered: seq<IssueItem>)
    ensures filtered == filtered0 + (if Kept(issue, usernameLower, skipFilters) then [ItemOf(issue)] else [])
  {
    filtered := filtered0;
    var prs := ExtractPRs(issue.fields.gitPullRequest);
    if !skipFilters {
      var excluded := ShouldFilterOut(issue.fields.components, issue.fields.labels);
      if excluded {
        return;
      }
      if issue.fields.issueType == "Epic" && |prs| == 0 {
        return;
      }
    }
    var assigneeName := "";
    var qaContactName := "";
    if issue.fields.assignee.Some? {
      assigneeName := issue.fields.assignee.value.displayName;
    }
    if issue.fields.qaContact.Some? {
      qaContactName := issue.fields.qaContact.value.displayName;
    }
    if Contains(ToLower(assigneeName), usernameLower) || Contains(ToLower(qaContactName), usernameLower) {
      filtered := filtered + [IssueItem(issue.key, issue.fields.summary, issue.fields.status, prs)];
    }
  }


  /** filterIssuesByUser: the nested loops over result pages and their issues. */
  method FilterIssuesByUser(responses: seq<SearchResponse>, username: string, skipFilters: bool)
    returns (filtered: seq<IssueItem>)
    ensures filtered == UserItems(AllIssues(responses), ToLower(username), skipFilters)
  {
    filtered := [];
    var usernameLower := ToLower(username);
    for r := 0 to |responses|
      invariant filtered == UserItems(AllIssues(responses[..r]), usernameLower, skipFilters)
    {
      assert responses[..r + 1][..r] == responses[..r];
      var issues := responses[r].issues;
      ghost var before := AllIssues(responses[..r]);
      assert before + issues[..0] == before;
      for j := 0 to |issues|
        invariant filtered == UserItems(before + issues[..j], usernameLower, skipFilters)
      {
        PrefixSnoc(before, issues, j);
        UserItemsSnoc(before + issues[..j], issues[j], usernameLower, skipFilters);
        filtered := FilterIssue(issues[j], usernameLower, skipFilters, filtered);
      }
      assert issues[..|issues|] == issues;
    }
    assert responses[..|responses|] == responses;
  }

  /** Filtering distributes over concatenation: pages are filtered in fetch order. */
  lemma {:induction false} UserItemsAppend(a: seq<Issue>, b: seq<Issue>, u: string, skip: bool)
    ensures UserItems(a + b, u, skip) == UserItems(a, u, skip) + UserItems(b, u, skip)
    decreases |b|
  {
    if b == [] {
      assert a + b == a;
    } else {
      var b' := b[..|b| - 1];
      assert (a + b)[..|a + b| - 1] == a + b';
      UserItemsAppend(a, b', u, skip);
    }
  }

  /** Every returned item was built from a kept issue. */
  lemma {:induction false} UserItemsSound(issues: seq<Issue>, u: string, skip: bool, it: IssueItem)
    requires it in UserItems(issues, u, skip)
    ensures exists k :: 0 <= k < |issues| && Kept(issues[k], u, skip) && ItemOf(issues[k]) == it
    decreases |issues|
  {
    var n := |issues| - 1;
    var init, last := issues[..n], issues[n];
    var tail := if Kept(last, u, skip) then [ItemOf(last)] else [];
    assert UserItems(issues, u, skip) == UserItems(init, u, skip) + tail;
    if it in UserItems(init, u, skip) {
      UserItemsSound(init, u, skip, it);
      var k :| 0 <= k < |init| && Kept(init[k], u, skip) && ItemOf(init[k]) == it;
      assert issues[k] == init[k];
    } else {
      assert it in tail;
      assert Kept(issues[n], u, skip) && ItemOf(issues[n]) == it;
    }
  }

  /** Every kept issue's item is returned. */
  lemma {:induction false} UserItemsComplete(issues: seq<Issue>, u: string, skip: bool, k: nat)
    requires k < |issues| && Kept(issues[k], u, skip)
    ensures ItemOf(issues[k]) in UserItems(issues, u, skip)
    decreases |issues|
  {
    var n := |issues| - 1;
    var init, last := issues[..n], issues[n];
    var tail := if Kept(last, u, skip) then [ItemOf(last)] else [];
    assert UserItems(issues, u, skip) == UserItems(init, u, skip) + tail;
    if k < n {
      assert init[k] == issues[k];
      UserItemsComplete(init, u, skip, k);
    } else {
      assert tail == [ItemOf(issues[k])];
    }
  }

  /** An item is returned exactly when some issue it was built from is kept. */
  lemma UserItemsMembers(issues: seq<Issue>, u: string, skip: bool, it: IssueItem)
    ensures it in UserItems(issues, u, skip)
            <==> exists k :: 0 <= k < |issues| && Kept(issues[k], u, skip) && ItemOf(issues[k]) == it
  {
    if it in UserItems(issues, u, skip) {
      UserItemsSound(issues, u, skip, it);
    }
    if exists k :: 0 <= k < |issues| && Kept(issues[k], u, skip) && ItemOf(issues[k]) == it {
      var k :| 0 <= k < |issues| && Kept(issues[k], u, skip) && ItemOf(issues[k]) == it;
      UserItemsComplete(issues, u, skip, k);
    }
  }

  /** Without skipping, the result is the skipping result over the issues that pass the filters. */
  lemma {:induction false} FiltersThenMatch(issues: seq<Issue>, u: string)
    ensures UserItems(issues, u, false) == UserItems(Survivors(issues), u, true)
    decreases |issues|
  {
    if issues != [] {
      var init, last := issues[..|issues| - 1], issues[|issues| - 1];
      FiltersThenMatch(init, u);
      assert UserItems(issues, u, false)
          == UserItems(init, u, false) + (if Kept(last, u, false) then [ItemOf(last)] else []);
      if Survives(last) {
        assert Survivors(issues) == Survivors(init) + [last];
        UserItemsSnoc(Survivors(init), last, u, true);
      } else {
        assert Survivors(issues) == Survivors(init);
      }
    }
  }

  lemma ContainsEmpty(s: string)
    ensures Contains(s, "")
  {
    assert s[..0] == "";
  }

  /** The empty name is contained in every name: with the filters skipped, every issue is returned. */
  lemma {:induction false} EmptyNameMatchesAll(issues: seq<Issue>)
    ensures UserItems(issues, ToLower(""), true) == Items(issues)
    decreases |issues|
  {
    if issues != [] {
      var last := issues[|issues| - 1];
      EmptyNameMatchesAll(issues[..|issues| - 1]);
      ContainsEmpty(ToLower(NameOf(last.fields.assignee)));
      assert ToLower("") == "";
    }
  }

  // ---------------------------------------------------------------- groupIssuesByStatus

  /** Each item paired with its own status, in input order. */
  function StatusPairs(issues: seq<IssueItem>): (r: seq<(string, IssueItem)>)
    ensures |r| == |issues|
    decreases |issues|
  {
    if issues == [] then []
    else StatusPairs(issues[..|issues| - 1]) + [(issues[|issues| - 1].status, issues[|issues| - 1])]
  }

  /** The items with status `s`, in input order. */
  function WithStatus(issues: seq<IssueItem>, s: string): seq<IssueItem>
    decreases |issues|
  {
    if issues == [] then []
    else
      var last := issues[|issues| - 1];
      WithStatus(issues[..|issues| - 1], s) + (if last.status == s then [last] else [])
  }

  /** groupIssuesByStatus: append each item to the group of its status. */
  method GroupIssuesByStatus(issues: seq<IssueItem>) returns (groups: map<string, seq<IssueItem>>)
    ensures groups == GroupMap(StatusPairs(issues))
  {
    groups := map[];
    for i := 0 to |issues|
      invariant groups == GroupMap(StatusPairs(issues[..i]))
    {
      var issue := issues[i];
      assert issues[..i + 1] == issues[..i] + [issue];
      assert StatusPairs(issues[..i + 1]) == StatusPairs(issues[..i]) + [(issue.status, issue)] by {
        assert issues[..i + 1][..i] == issues[..i];
      }
      GroupMapSnoc(StatusPairs(issues[..i]), issue.status, issue);
      groups := groups[issue.status := (if issue.status in groups then groups[issue.status] else []) + [issue]];
    }
    assert issues[..|issues|] == issues;
  }

  /** The group of a status holds exactly the items with that status, in input order. */
  lemma {:induction false} GroupIsStatusFilter(issues: seq<IssueItem>, s: string)
    ensures Group(StatusPairs(issues), s) == WithStatus(issues, s)
    decreases |issues|
  {
    if issues != [] {
      GroupIsStatusFilter(issues[..|issues| - 1], s);
    }
  }

  /** The statuses that occur among the items. */
  function Statuses(issues: seq<IssueItem>): set<string> {
    set i | 0 <= i < |issues| :: issues[i].status
  }

  lemma StatusesSnoc(issues: seq<IssueItem>)
    requires issues != []
    ensures Statuses(issues) == Statuses(issues[..|issues| - 1]) + {issues[|issues| - 1].status}
  {
    var init := issues[..|issues| - 1];
    forall x | x in Statuses(issues) ensures x in Statuses(init) + {issues[|issues| - 1].status} {
      var i :| 0 <= i < |issues| && issues[i].status == x;
      if i < |init| {
        assert init[i] == issues[i];
      }
    }
    forall x | x in Statuses(init) ensures x in Statuses(issues) {
      var i :| 0 <= i < |init| && init[i].status == x;
      assert issues[i] == init[i];
    }
  }

  lemma StatusPairsInit(issues: seq<IssueItem>)
    requires issues != []
    ensures StatusPairs(issues)[..|issues| - 1] == StatusPairs(issues[..|issues| - 1])
    ensures StatusPairs(issues)[|issues| - 1] == (issues[|issues| - 1].status, issues[|issues| - 1])
  {
  }

  /** The keys of the pairs are the statuses that occur. */
  lemma {:induction false} StatusPairsKeys(issues: seq<IssueItem>)
    ensures KeySet(StatusPairs(issues)) == Statuses(issues)
    decreases |issues|
  {
    if issues != [] {
      StatusPairsKeys(issues[..|issues| - 1]);
      StatusPairsInit(issues);
      StatusesSnoc(issues);
    }
  }

  /** The values of the pairs are the items themselves, in order. */
  lemma {:induction false} StatusPairsValues(issues: seq<IssueItem>)
    ensures Values(StatusPairs(issues)) == issues
    decreases |issues|
  {
    if issues != [] {
      var init := issues[..|issues| - 1];
      StatusPairsValues(init);
      StatusPairsInit(issues);
      assert issues == init + [issues[|issues| - 1]];
    }
  }

  lemma {:induction false} WithStatusHasStatus(issues: seq<IssueItem>, s: string)
    ensures forall it :: it in WithStatus(issues, s) ==> it.status == s
    decreases |issues|
  {
    if issues != [] {
      WithStatusHasStatus(issues[..|issues| - 1], s);
    }
  }

  /**
    The groups: a key for the status of every item and for no other status, no empty
    group, each group exactly the items of its status in input order, and, read in any
    order that lists each status once, every item exactly once.
   */
  lemma StatusGroupsPartition(issues: seq<IssueItem>, order: seq<string>)
    requires Distinct(order) && Elems(order) == GroupMap(StatusPairs(issues)).Keys
    ensures GroupMap(StatusPairs(issues)).Keys == Statuses(issues)
    ensures forall s :: s in GroupMap(StatusPairs(issues)) ==> GroupMap(StatusPairs(issues))[s] != []
    ensures forall s :: s in GroupMap(StatusPairs(issues)) ==> GroupMap(StatusPairs(issues))[s] == WithStatus(issues, s)
    ensures forall s, it :: s in GroupMap(StatusPairs(issues)) && it in GroupMap(StatusPairs(issues))[s] ==> it.status == s
    ensures KeysIn(order, GroupMap(StatusPairs(issues)))
    ensures multiset(Concat(order, GroupMap(StatusPairs(issues)))) == multiset(issues)
    ensures |Concat(order, GroupMap(StatusPairs(issues)))| == |issues|
  {
    var kvs := StatusPairs(issues);
    StatusPairsKeys(issues);
    StatusPairsValues(issues);
    forall s | s in GroupMap(kvs)
      ensures GroupMap(kvs)[s] != [] && GroupMap(kvs)[s] == WithStatus(issues, s)
    {
      GroupNonEmpty(kvs, s);
      GroupIsStatusFilter(issues, s);
    }
    forall s, it | s in GroupMap(kvs) && it in GroupMap(kvs)[s] ensures it.status == s {
      GroupIsStatusFilter(issues, s);
      WithStatusHasStatus(issues, s);
    }
    Partition(kvs, order);
  }

  // ---------------------------------------------------------------- status order

  /** The fixed order in which statuses are listed. */
  const StatusOrder: seq<string> :=
    ["Open", "In Progress", "Modified", "Closed", "Archived", "POST", "ON_QA", "MODIFIED", "Verified", "Done"]

  /** The statuses of `ss` that have a group, in the order of `ss`. */
  function Present(ss: seq<string>, groups: map<string, seq<IssueItem>>): (r: seq<string>)
    ensures KeysIn(r, groups)
    decreases |ss|
  {
    if ss == [] then []
    else
      var last := ss[|ss| - 1];
      var init := Present(ss[..|ss| - 1], groups);
      var r := init + (if last in groups then [last] else []);
      assert forall i :: 0 <= i < |init| ==> r[i] == init[i];
      r
  }

  /** The statuses of `ss` outside the fixed order, in the order of `ss`. */
  function Unlisted(ss: seq<string>): seq<string>
    decreases |ss|
  {
    if ss == [] then []
    else
      var last := ss[|ss| - 1];
      Unlisted(ss[..|ss| - 1]) + (if last !in StatusOrder then [last] else [])
  }

  /**
    The order statuses are listed in: those of the fixed order that have issues, then the
    others in the order the map is ranged over (`mapOrder`, unspecified by the language).
   */
  function ListingOrder(groups: map<string, seq<IssueItem>>, mapOrder: seq<string>): seq<string> {
    Present(StatusOrder, groups) + Unlisted(mapOrder)
  }

  lemma {:induction false} PresentMembers(ss: seq<string>, groups: map<string, seq<IssueItem>>, x: string)
    ensures x in Present(ss, groups) <==> x in ss && x in groups
    decreases |ss|
  {
    if ss != [] {
      PresentMembers(ss[..|ss| - 1], groups, x);
      assert ss == ss[..|ss| - 1] + [ss[|ss| - 1]];
    }
  }

  lemma {:induction false} UnlistedMembers(ss: seq<string>, x: string)
    ensures x in Unlisted(ss) <==> x in ss && x !in StatusOrder
    decreases |ss|
  {
    if ss != [] {
      UnlistedMembers(ss[..|ss| - 1], x);
      assert ss == ss[..|ss| - 1] + [ss[|ss| - 1]];
    }
  }

  lemma {:induction false} DistinctSnoc<T>(s: seq<T>, x: T)
    requires Distinct(s) && x !in s
    ensures Distinct(s + [x])
  {
    forall i, j | 0 <= i < j < |s| + 1 ensures (s + [x])[i] != (s + [x])[j] {
      assert (s + [x])[i] == s[i];
      if j == |s| {
        assert s[i] in s;
      }
    }
  }

  lemma {:induction false} DistinctInit<T>(s: seq<T>)
    requires Distinct(s) && s != []
    ensures Distinct(s[..|s| - 1]) && s[|s| - 1] !in s[..|s| - 1]
  {
    var init := s[..|s| - 1];
    forall i | 0 <= i < |init| ensures init[i] != s[|s| - 1] {
      assert init[i] == s[i];
    }
  }

  lemma {:induction false} PresentDistinct(ss: seq<string>, groups: map<string, seq<IssueItem>>)
    requires Distinct(ss)
    ensures Distinct(Present(ss, groups))
    decreases |ss|
  {
    if ss != [] {
      var init, last := ss[..|ss| - 1], ss[|ss| - 1];
      DistinctInit(ss);
      PresentDistinct(init, groups);
      if last in groups {
        PresentMembers(init, groups, last);
        DistinctSnoc(Present(init, groups), last);
      }
    }
  }

  lemma {:induction false} UnlistedDistinct(ss: seq<string>)
    requires Distinct(ss)
    ensures Distinct(Unlisted(ss))
    decreases |ss|
  {
    if ss != [] {
      var init, last := ss[..|ss| - 1], ss[|ss| - 1];
      DistinctInit(ss);
      UnlistedDistinct(init);
      if last !in StatusOrder {
        UnlistedMembers(init, last);
        DistinctSnoc(Unlisted(init), last);
      }
    }
  }

  lemma StatusOrderDistinct()
    ensures Distinct(StatusOrder)
  {
  }

  lemma DistinctDisjointAppend<T>(a: seq<T>, b: seq<T>)
    requires Distinct(a) && Distinct(b) && forall x :: x in a ==> x !in b
    ensures Distinct(a + b)
  {
    forall i, j | 0 <= i < j < |a + b| ensures (a + b)[i] != (a + b)[j] {
      if i < |a| && j >= |a| {
        assert (a + b)[i] == a[i] && a[i] in a;
        assert (a + b)[j] == b[j - |a|] && b[j - |a|] in b;
      } else if i >= |a| {
        assert (a + b)[i] == b[i - |a|] && (a + b)[j] == b[j - |a|];
      } else {
        assert (a + b)[i] == a[i] && (a + b)[j] == a[j];
      }
    }
  }

  /**
    Every status with a group is listed exactly once: the summary lines and the thread
    replies cover all statuses, the fixed ones first.
   */
  lemma ListingOrderExact(groups: map<string, seq<IssueItem>>, mapOrder: seq<string>)
    requires Distinct(mapOrder) && Elems(mapOrder) == groups.Keys
    ensures Distinct(ListingOrder(groups, mapOrder))
    ensures Elems(ListingOrder(groups, mapOrder)) == groups.Keys
    ensures KeysIn(ListingOrder(groups, mapOrder), groups)
  {
    var p, u := Present(StatusOrder, groups), Unlisted(mapOrder);
    StatusOrderDistinct();
    PresentDistinct(StatusOrder, groups);
    UnlistedDistinct(mapOrder);
    forall x ensures (x in p <==> x in StatusOrder && x in groups) && (x in u <==> x in mapOrder && x !in StatusOrder) {
      PresentMembers(StatusOrder, groups, x);
      UnlistedMembers(mapOrder, x);
    }
    DistinctDisjointAppend(p, u);
    forall x ensures x in Elems(p + u) <==> x in groups {
      assert x in mapOrder <==> x in Elems(mapOrder);
    }
    forall i | 0 <= i < |p + u| ensures (p + u)[i] in groups {
      assert (p + u)[i] in Elems(p + u);
    }
  }

  // ---------------------------------------------------------------- buildStatusGroupBlocks

  /** The header of the first reply of a status group. */
  function GroupHeader(status: string): string {
    "📂 *" + status + "*\n"
  }

  /** The thread reply's issue block: a bulleted line with the summary cut at 150 characters. */
  function ReplyIssueBlock(url: string, it: IssueItem): Block {
    Section(ListLine(url, it, 150, PRField(it.gitPullRequest)))
  }

  function ReplyIssueBlocks(url: string, issues: seq<IssueItem>): (r: seq<Block>)
    ensures |r| == |issues|
    decreases |issues|
  {
    if issues == [] then [] else ReplyIssueBlocks(url, issues[..|issues| - 1]) + [ReplyIssueBlock(url, issues[|issues| - 1])]
  }

  /** One reply: the status header and a divider on the first chunk only, then one block per issue. */
  function StatusGroupBlocks(url: string, status: string, issues: seq<IssueItem>, isFirstChunk: bool): seq<Block> {
    (if isFirstChunk then [Section(GroupHeader(status)), Divider] else []) + ReplyIssueBlocks(url, issues)
  }

  /** The body of buildStatusGroupBlocks' issue loop: the PR field, the summary and the line of one issue. */
  method AppendReplyIssue(url: string, issue: IssueItem, blocks0: seq<Block>) returns (blocks: seq<Block>)
    ensures blocks == blocks0 + [ReplyIssueBlock(url, issue)]
  {
    var pr := FormatPRs(issue.gitPullRequest);
    blocks := blocks0 + [Section(ListLine(url, issue, 150, pr))];
  }

  lemma ReplyIssueBlocksSnoc(url: string, head: seq<Block>, issues: seq<IssueItem>, i: nat)
    requires i < |issues|
    ensures head + ReplyIssueBlocks(url, issues[..i + 1]) == head + ReplyIssueBlocks(url, issues[..i]) + [ReplyIssueBlock(url, issues[i])]
  {
    assert issues[..i + 1][..i] == issues[..i];
  }

  /** buildStatusGroupBlocks: the optional header, then the issue loop. */
  method BuildStatusGroupBlocks(url: string, status: string, issues: seq<IssueItem>, isFirstChunk: bool)
    returns (blocks: seq<Block>)
    ensures blocks == StatusGroupBlocks(url, status, issues, isFirstChunk)
  {
    blocks := [];
    if isFirstChunk {
      blocks := blocks + [Section(GroupHeader(status))];
      blocks := blocks + [Divider];
    }
    ghost var head := blocks;
    assert head == if isFirstChunk then [Section(GroupHeader(status)), Divider] else [];
    assert head + ReplyIssueBlocks(url, issues[..0]) == head;
    for i := 0 to |issues|
      invariant blocks == head + ReplyIssueBlocks(url, issues[..i])
    {
      ReplyIssueBlocksSnoc(url, head, issues, i);
      blocks := AppendReplyIssue(url, issues[i], blocks);
    }
    assert issues[..|issues|] == issues;
  }

  lemma {:induction false} ReplyIssueBlocksAt(url: string, issues: seq<IssueItem>, k: nat)
    requires k < |issues|
    ensures ReplyIssueBlocks(url, issues)[k] == ReplyIssueBlock(url, issues[k])
    decreases |issues|
  {
    if k < |issues| - 1 {
      ReplyIssueBlocksAt(url, issues[..|issues| - 1], k);
    }
  }

  /** A reply holds one block per issue, in order, after the header and divider of a first chunk. */
  lemma StatusGroupBlocksLayout(url: string, status: string, issues: seq<IssueItem>, isFirstChunk: bool)
    ensures |StatusGroupBlocks(url, status, issues, isFirstChunk)| == |issues| + (if isFirstChunk then 2 else 0)
    ensures isFirstChunk ==> StatusGroupBlocks(url, status, issues, isFirstChunk)[..2] == [Section(GroupHeader(status)), Divider]
    ensures forall k :: 0 <= k < |issues| ==>
      StatusGroupBlocks(url, status, issues, isFirstChunk)[k + (if isFirstChunk then 2 else 0)] == ReplyIssueBlock(url, issues[k])
  {
    var head: seq<Block> := if isFirstChunk then [Section(GroupHeader(status)), Divider] else [];
    assert StatusGroupBlocks(url, status, issues, isFirstChunk) == head + ReplyIssueBlocks(url, issues);
    assert (head + ReplyIssueBlocks(url, issues))[..|head|] == head;
    forall k | 0 <= k < |issues|
      ensures StatusGroupBlocks(url, status, issues, isFirstChunk)[k + (if isFirstChunk then 2 else 0)] == ReplyIssueBlock(url, issues[k])
    {
      StatusGroupBlockAt(url, status, issues, isFirstChunk, k);
    }
  }

  lemma StatusGroupBlockAt(url: string, status: string, issues: seq<IssueItem>, isFirstChunk: bool, k: nat)
    requires k < |issues|
    ensures StatusGroupBlocks(url, status, issues, isFirstChunk)[k + (if isFirstChunk then 2 else 0)] == ReplyIssueBlock(url, issues[k])
  {
    var head: seq<Block> := if isFirstChunk then [Section(GroupHeader(status)), Divider] else [];
    var body := ReplyIssueBlocks(url, issues);
    assert StatusGroupBlocks(url, status, issues, isFirstChunk) == head + body;
    assert (head + body)[k + |head|] == body[k];
    ReplyIssueBlocksAt(url, issues, k);
  }

  // ---------------------------------------------------------------- thread chunks

  /** Issues per thread reply. */
  const MaxIssuesPerMessage := 15

  /** The reference cut of a group into replies: 15 issues at a time, the last chunk shorter. */
  function Chunks(issues: seq<IssueItem>): seq<seq<IssueItem>>
    decreases |issues|
  {
    if issues == [] then []
    else if |issues| <= MaxIssuesPerMessage then [issues]
    else [issues[..MaxIssuesPerMessage]] + Chunks(issues[MaxIssuesPerMessage..])
  }

  function Flatten<T>(xss: seq<seq<T>>): seq<T>
    decreases |xss|
  {
    if xss == [] then [] else xss[0] + Flatten(xss[1..])
  }

  /** Concatenating the chunks gives back the whole group. */
  lemma {:induction false} ChunksFlatten(issues: seq<IssueItem>)
    ensures Flatten(Chunks(issues)) == issues
    decreases |issues|
  {
    if |issues| > MaxIssuesPerMessage {
      var rest := issues[MaxIssuesPerMessage..];
      ChunksFlatten(rest);
      assert Chunks(issues)[1..] == Chunks(rest);
      assert issues == issues[..MaxIssuesPerMessage] + rest;
    } else if issues != [] {
      assert Chunks(issues)[1..] == [];
    }
  }

  /** No chunk is empty and none holds more than 15 issues. */
  lemma {:induction false} ChunksSizes(issues: seq<IssueItem>)
    ensures forall k :: 0 <= k < |Chunks(issues)| ==> 0 < |Chunks(issues)[k]| <= MaxIssuesPerMessage
    decreases |issues|
  {
    if |issues| > MaxIssuesPerMessage {
      var rest := issues[MaxIssuesPerMessage..];
      ChunksSizes(rest);
      var cs := Chunks(issues);
      assert cs[1..] == Chunks(rest);
      forall k | 0 <= k < |cs| ensures 0 < |cs[k]| <= MaxIssuesPerMessage {
        if k > 0 {
          assert cs[k] == Chunks(rest)[k - 1];
        }
      }
    }
  }

  /** The number of chunks is the group size divided by 15, rounded up. */
  lemma {:induction false} ChunksCount(issues: seq<IssueItem>)
    ensures |Chunks(issues)| * MaxIssuesPerMessage - MaxIssuesPerMessage < |issues| <= |Chunks(issues)| * MaxIssuesPerMessage
    decreases |issues|
  {
    if |issues| > MaxIssuesPerMessage {
      ChunksCount(issues[MaxIssuesPerMessage..]);
    }
  }

  /** Where chunk k of a group of n issues ends: 15 issues on, or the end of the group. */
  function ChunkEnd(n: nat, k: nat): nat {
    if MaxIssuesPerMessage * k + MaxIssuesPerMessage <= n then MaxIssuesPerMessage * k + MaxIssuesPerMessage else n
  }

  lemma {:induction false} ChunkAt(issues: seq<IssueItem>, k: nat)
    requires k < |Chunks(issues)|
    ensures MaxIssuesPerMessage * k < |issues|
    ensures Chunks(issues)[k] == issues[MaxIssuesPerMessage * k..ChunkEnd(|issues|, k)]
    decreases k
  {
    if k > 0 {
      var rest := issues[MaxIssuesPerMessage..];
      assert Chunks(issues)[k] == Chunks(rest)[k - 1];
      ChunkAt(rest, k - 1);
      var lo := MaxIssuesPerMessage * (k - 1);
      assert rest[lo..ChunkEnd(|rest|, k - 1)] == issues[lo + MaxIssuesPerMessage..ChunkEnd(|issues|, k)];
    }
  }

  /** Chunk k is the slice issues[15k .. min(15k + 15, n)]. */
  lemma ChunksAreSlices(issues: seq<IssueItem>)
    ensures forall k :: 0 <= k < |Chunks(issues)| ==>
      MaxIssuesPerMessage * k < |issues| && Chunks(issues)[k] == issues[MaxIssuesPerMessage * k..ChunkEnd(|issues|, k)]
  {
    forall k | 0 <= k < |Chunks(issues)|
      ensures MaxIssuesPerMessage * k < |issues| && Chunks(issues)[k] == issues[MaxIssuesPerMessage * k..ChunkEnd(|issues|, k)]
    {
      ChunkAt(issues, k);
    }
  }

  /** The remainder of the group from offset `i`, empty once `i` passes the end. */
  function From(issues: seq<IssueItem>, i: nat): seq<IssueItem> {
    if i <= |issues| then issues[i..] else []
  }

  /** One step of the chunk loop: the next chunk is the slice from `i` to `end`. */
  lemma ChunkStep(issues: seq<IssueItem>, i: nat, end: nat)
    requires i < |issues|
    requires end == if i + MaxIssuesPerMessage <= |issues| then i + MaxIssuesPerMessage else |issues|
    ensures Chunks(From(issues, i)) == [issues[i..end]] + Chunks(From(issues, i + MaxIssuesPerMessage))
  {
    var rest := issues[i..];
    if |rest| > MaxIssuesPerMessage {
      assert rest[..MaxIssuesPerMessage] == issues[i..end];
      assert rest[MaxIssuesPerMessage..] == issues[i + MaxIssuesPerMessage..];
    } else {
      assert rest == issues[i..end];
    }
  }

  /** The replies of a status group's chunks: only the first carries the status header. */
  function Replies(url: string, status: string, chunks: seq<seq<IssueItem>>): (r: seq<seq<Block>>)
    ensures |r| == |chunks|
  {
    seq(|chunks|, k requires 0 <= k < |chunks| => StatusGroupBlocks(url, status, chunks[k], k == 0))
  }

  lemma RepliesSnoc(url: string, status: string, done: seq<seq<IssueItem>>, chunk: seq<IssueItem>, reply: seq<Block>)
    requires reply == StatusGroupBlocks(url, status, chunk, |done| == 0)
    ensures Replies(url, status, done + [chunk]) == Replies(url, status, done) + [reply]
  {
  }

  /** The chunk loop of sendThreadedResponse for one status group, with the replies collected instead of sent. */
  method ThreadReplies(url: string, status: string, issues: seq<IssueItem>) returns (replies: seq<seq<Block>>)
    ensures |replies| == |Chunks(issues)|
    ensures forall k :: 0 <= k < |replies| ==> replies[k] == StatusGroupBlocks(url, status, Chunks(issues)[k], k == 0)
  {
    replies := [];
    ghost var done: seq<seq<IssueItem>> := [];
    var i := 0;
    while i < |issues|
      invariant i == MaxIssuesPerMessage * |done|
      invariant done + Chunks(From(issues, i)) == Chunks(issues)
      invariant replies == Replies(url, status, done)
      decreases |issues| - i
    {
      var end := i + MaxIssuesPerMessage;
      if end > |issues| {
        end := |issues|;
      }
      var chunk := issues[i..end];
      ChunkStep(issues, i, end);
      var blocks := BuildStatusGroupBlocks(url, status, chunk, i == 0);
      RepliesSnoc(url, status, done, chunk, blocks);
      SeqAssoc(done, [chunk], Chunks(From(issues, i + MaxIssuesPerMessage)));
      replies := replies + [blocks];
      done := done + [chunk];
      i := i + MaxIssuesPerMessage;
    }
    assert From(issues, i) == [];
  }

  lemma SeqAssoc<T>(a: seq<T>, b: seq<T>, c: seq<T>)
    ensures a + b + c == a + (b + c)
  {
  }
}
