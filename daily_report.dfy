/**
  The daily report's message layout (buildSlackBlocks): surviving issues are grouped by
  responsible person, the persons are sorted, and the person runs are packed greedily
  into Slack payloads of at most 48 blocks before each closing divider.
 */
module DailyReport {
  import opened Wrappers
  import opened Strings
  import opened Sorting
  import opened Grouping
  import opened Jira
  import opened Slack

  /** The per-payload cap of the packing loop. */
  const MaxBlocks := 48

  /** Slack refuses a message with more blocks than this. */
  const SlackBlockLimit := 50

  // ---------------------------------------------------------------- grouping

  /** The surviving issues, each paired with the person it is grouped under, in fetch order. */
  function Tagged(issues: seq<Issue>): seq<(string, IssueItem)>
    decreases |issues|
  {
    if issues == [] then []
    else
      var last := issues[|issues| - 1];
      Tagged(issues[..|issues| - 1])
      + (if Survives(last) then [(ResponsiblePerson(last.fields), ItemOf(last))] else [])
  }

  /** The items the report must show: one per surviving issue, in fetch order. */
  function SurvivingItems(issues: seq<Issue>): seq<IssueItem>
    decreases |issues|
  {
    if issues == [] then []
    else
      var last := issues[|issues| - 1];
      SurvivingItems(issues[..|issues| - 1]) + (if Survives(last) then [ItemOf(last)] else [])
  }

  lemma {:induction false} TaggedValues(issues: seq<Issue>)
    ensures Values(Tagged(issues)) == SurvivingItems(issues)
    decreases |issues|
  {
    if issues != [] {
      var init, last := issues[..|issues| - 1], issues[|issues| - 1];
      TaggedValues(init);
      var extra := if Survives(last) then [(ResponsiblePerson(last.fields), ItemOf(last))] else [];
      ValuesAppend(Tagged(init), extra);
    }
  }

  lemma {:induction false} ValuesAppend<K, V>(a: seq<(K, V)>, b: seq<(K, V)>)
    ensures Values(a + b) == Values(a) + Values(b)
    decreases |b|
  {
    if b == [] {
      assert a + b == a;
    } else {
      var b' := b[..|b| - 1];
      assert (a + b)[..|a + b| - 1] == a + b';
      ValuesAppend(a, b');
    }
  }

  lemma TaggedSnoc(issues: seq<Issue>, issue: Issue)
    ensures Tagged(issues + [issue])
         == Tagged(issues) + (if Survives(issue) then [(ResponsiblePerson(issue.fields), ItemOf(issue))] else [])
  {
    assert (issues + [issue])[..|issues|] == issues;
  }

  /** The grouping loop of buildSlackBlocks: filter, pick the person, append to that person's list. */
  method GroupByPerson(responses: seq<SearchResponse>) returns (grouped: map<string, seq<IssueItem>>)
    ensures grouped == GroupMap(Tagged(AllIssues(responses)))
  {
    grouped := map[];
    for i := 0 to |responses|
      invariant grouped == GroupMap(Tagged(AllIssues(responses[..i])))
    {
      var issues := responses[i].issues;
      ghost var before := AllIssues(responses[..i]);
      AllIssuesSnoc(responses, i);
      assert before + issues[..0] == before;
      for j := 0 to |issues|
        invariant grouped == GroupMap(Tagged(before + issues[..j]))
      {
        PrefixSnoc(before, issues, j);
        grouped := GroupIssue(issues[j], before + issues[..j], grouped);
      }
      assert issues[..|issues|] == issues;
    }
    assert responses[..|responses|] == responses;
  }

  lemma AllIssuesSnoc(responses: seq<SearchResponse>, i: nat)
    requires i < |responses|
    ensures AllIssues(responses[..i + 1]) == AllIssues(responses[..i]) + responses[i].issues
  {
    assert responses[..i + 1][..i] == responses[..i];
  }

  /** The body of the grouping loop: one issue, filtered out or appended under its person. */
  method GroupIssue(issue: Issue, ghost seen: seq<Issue>, grouped0: map<string, seq<IssueItem>>)
    returns (grouped: map<string, seq<IssueItem>>)
    requires grouped0 == GroupMap(Tagged(seen))
    ensures grouped == GroupMap(Tagged(seen + [issue]))
  {
    grouped := grouped0;
    TaggedSnoc(seen, issue);
    var excluded := ShouldFilterOut(issue.fields.components, issue.fields.labels);
    if excluded {
      assert Tagged(seen + [issue]) == Tagged(seen);
      return;
    }
    var prs := ExtractPRs(issue.fields.gitPullRequest);
    if issue.fields.issueType == "Epic" && |prs| == 0 {
      assert Tagged(seen + [issue]) == Tagged(seen);
      return;
    }
    var assignee := "Unassigned";
    if (issue.fields.status == "ON_QA" || issue.fields.status == "MODIFIED") && issue.fields.qaContact.Some? {
      assignee := issue.fields.qaContact.value.displayName;
    } else if issue.fields.assignee.Some? {
      assignee := issue.fields.assignee.value.displayName;
    }
    var item := IssueItem(issue.key, issue.fields.summary, issue.fields.status, prs);
    assert Survives(issue) && assignee == ResponsiblePerson(issue.fields) && item == ItemOf(issue);
    GroupMapSnoc(Tagged(seen), assignee, item);
    grouped := grouped[assignee := (if assignee in grouped then grouped[assignee] else []) + [item]];
  }

  /** The keys of the grouping map, collected in unspecified map order and then sorted. */
  method SortedPersons(grouped: map<string, seq<IssueItem>>) returns (persons: seq<string>)
    ensures persons == Ascending(grouped.Keys)
  {
    var keys: seq<string> := [];
    var rest := grouped.Keys;
    while rest != {}
      invariant rest <= grouped.Keys
      invariant Distinct(keys)
      invariant multiset(keys) == multiset(grouped.Keys - rest)
      decreases |rest|
    {
      var a :| a in rest;
      assert a !in multiset(keys);
      assert grouped.Keys - (rest - {a}) == (grouped.Keys - rest) + {a};
      forall i | 0 <= i < |keys| ensures keys[i] != a {
        assert keys[i] in multiset(keys);
      }
      keys := keys + [a];
      rest := rest - {a};
    }
    assert grouped.Keys - rest == grouped.Keys;
    persons := SortStrings(keys);
    SortEnumeration(grouped.Keys, keys);
  }

  /** Every listed person has a group. */
  lemma AscendingKeysIn<V>(m: map<string, V>)
    ensures KeysIn(Ascending(m.Keys), m)
  {
    var ps := Ascending(m.Keys);
    forall i | 0 <= i < |ps| ensures ps[i] in m {
      assert ps[i] in multiset(ps);
    }
  }

  /** The persons of the report, in ascending order of name. */
  ghost function ReportPersons(responses: seq<SearchResponse>): seq<string> {
    Ascending(KeySet(Tagged(AllIssues(responses))))
  }

  /** The report's groups: each person's surviving items, in fetch order. */
  function ReportGroups(responses: seq<SearchResponse>): map<string, seq<IssueItem>> {
    GroupMap(Tagged(AllIssues(responses)))
  }

  /** The items in the order the report lists them: person by person, each group in fetch order. */
  ghost function ReportItems(responses: seq<SearchResponse>): seq<IssueItem> {
    assert ReportGroups(responses).Keys == KeySet(Tagged(AllIssues(responses)));
    AscendingKeysIn(ReportGroups(responses));
    Concat(ReportPersons(responses), ReportGroups(responses))
  }

  /** Each surviving issue is listed exactly once, and nothing else is listed. */
  lemma EverySurvivorOnce(responses: seq<SearchResponse>)
    ensures multiset(ReportItems(responses)) == multiset(SurvivingItems(AllIssues(responses)))
    ensures |ReportItems(responses)| == |SurvivingItems(AllIssues(responses))|
  {
    var kvs := Tagged(AllIssues(responses));
    var ps := ReportPersons(responses);
    DistinctElems(ps, KeySet(kvs));
    Partition(kvs, ps);
    TaggedValues(AllIssues(responses));
  }

  lemma DistinctElems(ps: seq<string>, s: set<string>)
    requires multiset(ps) == multiset(s)
    ensures Elems(ps) == s
  {
    forall x ensures x in Elems(ps) <==> x in s {
      assert x in ps <==> x in multiset(ps);
    }
  }

  // ---------------------------------------------------------------- block stream

  /** The header opening a person's run. */
  function PersonHeader(name: string): string {
    "*👤 " + name + "*"
  }

  /** The header repeated at the top of a payload when a person's run spills over. */
  function ContinuedHeader(name: string): string {
    "*👤 " + name + "* (continued)"
  }

  predicate EndsWith(s: string, suffix: string) {
    |suffix| <= |s| && s[|s| - |suffix|..] == suffix
  }

  /** A "(continued)" person header. */
  predicate IsContinuation(b: Block) {
    b.Section? && HasPrefix(b.text, "*👤 ") && EndsWith(b.text, "* (continued)")
  }

  /** A block showing one issue: its text opens with the issue link. */
  predicate IsIssueBlock(b: Block) {
    b.Section? && b.text != [] && b.text[0] == '<'
  }

  /** A person header is not a continued header: it ends with `*`, not `)`. */
  lemma PersonHeaderKind(name: string)
    ensures !IsContinuation(Section(PersonHeader(name)))
  {
    var h := PersonHeader(name);
    assert h[|h| - 1] == '*';
  }

  lemma ContinuedHeaderKind(name: string)
    ensures IsContinuation(Section(ContinuedHeader(name)))
  {
    var c := ContinuedHeader(name);
    assert c[..|"*👤 "|] == "*👤 ";
    assert c[|c| - |"* (continued)"|..] == "* (continued)";
  }

  /** Neither kind of header shows an issue: both open with `*`. */
  lemma HeadersAreNotIssues(name: string)
    ensures !IsIssueBlock(Section(PersonHeader(name))) && !IsIssueBlock(Section(ContinuedHeader(name)))
  {
  }

  /** The person a header or continued header names, read back from its text; none for any other block. */
  function HeaderName(b: Block): Option<string> {
    if IsContinuation(b) && |b.text| >= 16 then Some(b.text[3..|b.text| - 13])
    else if b.Section? && |b.text| >= 4 && HasPrefix(b.text, "*👤 ") && b.text[|b.text| - 1] == '*' then
      Some(b.text[3..|b.text| - 1])
    else None
  }

  lemma PersonHeaderName(name: string)
    ensures HeaderName(Section(PersonHeader(name))) == Some(name)
  {
    PersonHeaderKind(name);
    var h := PersonHeader(name);
    assert h[..|"*👤 "|] == "*👤 " && h[3..|h| - 1] == name;
  }

  lemma ContinuedHeaderName(name: string)
    ensures HeaderName(Section(ContinuedHeader(name))) == Some(name)
  {
    ContinuedHeaderKind(name);
    var c := ContinuedHeader(name);
    assert c[3..|c| - 13] == name;
  }

  /** An issue section names nobody: it opens with `<`. */
  lemma IssueBlockNameless(url: string, it: IssueItem)
    ensures HeaderName(IssueBlock(url, it)) == None
  {
    assert IssueBlock(url, it).text[0] == '<';
  }

  /** The person of the last header in a run of blocks: whose run is open at its end. */
  function LastHeader(blocks: seq<Block>): Option<string>
    decreases |blocks|
  {
    if blocks == [] then None
    else if HeaderName(blocks[|blocks| - 1]).Some? then HeaderName(blocks[|blocks| - 1])
    else LastHeader(blocks[..|blocks| - 1])
  }

  lemma LastHeaderSnoc(blocks: seq<Block>, b: Block)
    ensures LastHeader(blocks + [b]) == if HeaderName(b).Some? then HeaderName(b) else LastHeader(blocks)
  {
    assert (blocks + [b])[..|blocks|] == blocks;
  }

  /**
    A payload opening with a "(continued)" header continues the run left open by the payload
    before it: the header names the person of that payload's last header.
   */
  predicate ContinuesRun(prev: seq<Block>, page: seq<Block>) {
    page != [] && IsContinuation(page[0])
    ==> LastHeader(prev).Some? && page[0] == Section(ContinuedHeader(LastHeader(prev).value))
  }

  /** Every continued header names the person whose run spilled over from the payload before. */
  predicate RunsContinued(pages: seq<seq<Block>>) {
    forall k :: 0 < k < |pages| ==> ContinuesRun(pages[k - 1], pages[k])
  }

  /** The closed payloads and the one being filled are linked as `RunsContinued` asks. */
  predicate Linked(pages: seq<seq<Block>>, cur: seq<Block>) {
    RunsContinued(pages) && (pages != [] ==> ContinuesRun(pages[|pages| - 1], cur))
  }

  lemma LinkedPush(pages: seq<seq<Block>>, cur: seq<Block>)
    requires Linked(pages, cur)
    ensures RunsContinued(pages + [cur])
  {
    var p := pages + [cur];
    forall k | 0 < k < |p| ensures ContinuesRun(p[k - 1], p[k]) {
      if k < |pages| {
        assert p[k - 1] == pages[k - 1] && p[k] == pages[k];
      } else {
        assert p[k - 1] == pages[|pages| - 1] && p[k] == cur;
      }
    }
  }

  lemma LinkedAppend(pages: seq<seq<Block>>, cur: seq<Block>, b: Block)
    requires Linked(pages, cur) && (cur != [] || !IsContinuation(b))
    ensures Linked(pages, cur + [b])
  {
    if cur != [] {
      assert (cur + [b])[0] == cur[0];
    }
  }

  /** `finalizeMessage` keeps the payloads linked. */
  lemma LinkedFinalized(pages: seq<seq<Block>>, cur: seq<Block>)
    requires Linked(pages, cur)
    ensures RunsContinued(Finalized(pages, cur))
  {
    if cur != [] {
      LinkedPush(pages, cur);
    }
  }

  /** One issue's section, with the PR-link loop. */
  method IssueSection(url: string, it: IssueItem) returns (b: Block)
    ensures b == IssueBlock(url, it)
  {
    var pr := FormatPRs(it.gitPullRequest);
    b := Section(ReportLine(url, it, pr));
  }

  /** The section of one issue. */
  function IssueBlock(url: string, it: IssueItem): Block {
    Section(ReportLine(url, it, PRField(it.gitPullRequest)))
  }

  function IssueSections(url: string, items: seq<IssueItem>): (r: seq<Block>)
    ensures |r| == |items|
    decreases |items|
  {
    if items == [] then [] else IssueSections(url, items[..|items| - 1]) + [IssueBlock(url, items[|items| - 1])]
  }

  /** One person's run: the header, one section per issue, a closing divider. */
  function PersonRun(url: string, name: string, items: seq<IssueItem>): seq<Block> {
    [Section(PersonHeader(name))] + IssueSections(url, items) + [Divider]
  }

  /** The runs of the first `n` persons, one after the other. */
  function Runs(url: string, persons: seq<string>, m: map<string, seq<IssueItem>>, n: nat): seq<Block>
    requires KeysIn(persons, m) && n <= |persons|
    decreases n
  {
    if n == 0 then [] else Runs(url, persons, m, n - 1) + PersonRun(url, persons[n - 1], m[persons[n - 1]])
  }

  /** The report as one unbroken stream of blocks: the person runs in the order given. */
  function Stream(url: string, persons: seq<string>, m: map<string, seq<IssueItem>>): seq<Block>
    requires KeysIn(persons, m)
  {
    Runs(url, persons, m, |persons|)
  }

  /** The report's stream: the persons in ascending order. */
  ghost function ReportStream(url: string, responses: seq<SearchResponse>): seq<Block> {
    assert ReportGroups(responses).Keys == KeySet(Tagged(AllIssues(responses)));
    AscendingKeysIn(ReportGroups(responses));
    Stream(url, ReportPersons(responses), ReportGroups(responses))
  }

  // ---------------------------------------------------------------- payloads

  /**
    The stream recovered from a list of payloads: where a payload opens with a
    "(continued)" header, that header and the divider closing the payload before
    it are dropped and the two payloads are joined.
   */
  function Reassembled(pages: seq<seq<Block>>): seq<Block>
    decreases |pages|
  {
    if pages == [] then []
    else
      var acc, q := Reassembled(pages[..|pages| - 1]), pages[|pages| - 1];
      if q != [] && IsContinuation(q[0]) && acc != [] then acc[..|acc| - 1] + q[1..] else acc + q
  }

  /** All blocks of all payloads, in order. */
  function Flatten(pages: seq<seq<Block>>): seq<Block>
    decreases |pages|
  {
    if pages == [] then [] else Flatten(pages[..|pages| - 1]) + pages[|pages| - 1]
  }

  /** The issue sections among a run of blocks, in order; headers and dividers left out. */
  function IssuesOf(blocks: seq<Block>): (r: seq<Block>)
    ensures forall k :: 0 <= k < |r| ==> IsIssueBlock(r[k])
    decreases |blocks|
  {
    if blocks == [] then []
    else
      var b := blocks[|blocks| - 1];
      IssuesOf(blocks[..|blocks| - 1]) + (if IsIssueBlock(b) then [b] else [])
  }

  lemma IssuesOfOne(b: Block)
    ensures IssuesOf([b]) == if IsIssueBlock(b) then [b] else []
  {
    assert [b][..0] == [];
  }

  lemma {:induction false} IssuesOfAppend(a: seq<Block>, b: seq<Block>)
    ensures IssuesOf(a + b) == IssuesOf(a) + IssuesOf(b)
    decreases |b|
  {
    if b == [] {
      assert a + b == a;
    } else {
      var init := b[..|b| - 1];
      assert (a + b)[..|a + b| - 1] == a + init;
      IssuesOfAppend(a, init);
    }
  }

  lemma {:induction false} IssueSectionsAppend(url: string, a: seq<IssueItem>, b: seq<IssueItem>)
    ensures IssueSections(url, a + b) == IssueSections(url, a) + IssueSections(url, b)
    decreases |b|
  {
    if b == [] {
      assert a + b == a;
    } else {
      var init := b[..|b| - 1];
      assert (a + b)[..|a + b| - 1] == a + init;
      IssueSectionsAppend(url, a, init);
    }
  }

  /** Every block of an issue-section run shows an issue. */
  lemma {:induction false} IssueSectionsListed(url: string, items: seq<IssueItem>)
    ensures IssuesOf(IssueSections(url, items)) == IssueSections(url, items)
    decreases |items|
  {
    if items != [] {
      var init, b := items[..|items| - 1], IssueBlock(url, items[|items| - 1]);
      IssueSectionsListed(url, init);
      IssuesOfAppend(IssueSections(url, init), [b]);
      assert b.text[0] == '<';
      IssuesOfOne(b);
    }
  }

  /** Framing a run of issue sections with two blocks that show no issue adds no issue. */
  lemma FramedIssues(h: Block, body: seq<Block>, d: Block)
    requires !IsIssueBlock(h) && !IsIssueBlock(d)
    ensures IssuesOf([h] + body + [d]) == IssuesOf(body)
  {
    IssuesOfAppend([h] + body, [d]);
    IssuesOfAppend([h], body);
    IssuesOfOne(h);
    IssuesOfOne(d);
  }

  /** A person's run shows exactly that person's issues: the header and divider show none. */
  lemma PersonRunIssues(url: string, name: string, items: seq<IssueItem>)
    ensures IssuesOf(PersonRun(url, name, items)) == IssueSections(url, items)
  {
    HeadersAreNotIssues(name);
    FramedIssues(Section(PersonHeader(name)), IssueSections(url, items), Divider);
    IssueSectionsListed(url, items);
  }

  lemma PrefixKeysIn(persons: seq<string>, m: map<string, seq<IssueItem>>, n: nat)
    requires KeysIn(persons, m) && 0 < n <= |persons|
    ensures KeysIn(persons[..n], m) && persons[..n][..n - 1] == persons[..n - 1]
    ensures Concat(persons[..n], m) == Concat(persons[..n - 1], m) + m[persons[n - 1]]
  {
    assert forall i :: 0 <= i < n ==> persons[..n][i] == persons[i];
    assert persons[..n][..n - 1] == persons[..n - 1];
  }

  /** The issues shown by the first `n` runs are those of the first `n` groups, person by person. */
  lemma {:induction false} RunsIssues(url: string, persons: seq<string>, m: map<string, seq<IssueItem>>, n: nat)
    requires KeysIn(persons, m) && n <= |persons|
    ensures KeysIn(persons[..n], m)
    ensures IssuesOf(Runs(url, persons, m, n)) == IssueSections(url, Concat(persons[..n], m))
    decreases n
  {
    if n == 0 {
      assert persons[..0] == [];
    } else {
      RunsIssues(url, persons, m, n - 1);
      var p := persons[n - 1];
      PrefixKeysIn(persons, m, n);
      IssuesOfAppend(Runs(url, persons, m, n - 1), PersonRun(url, p, m[p]));
      PersonRunIssues(url, p, m[p]);
      IssueSectionsAppend(url, Concat(persons[..n - 1], m), m[p]);
    }
  }

  /** Every payload holds at least two blocks and closes with a divider. */
  predicate ClosedByDivider(pages: seq<seq<Block>>) {
    forall k :: 0 <= k < |pages| ==> |pages[k]| >= 2 && pages[k][|pages[k]| - 1] == Divider
  }

  /** A closing divider shows no issue. */
  lemma DividerIssues(front: seq<Block>)
    ensures IssuesOf(front + [Divider]) == IssuesOf(front)
  {
    assert (front + [Divider])[..|front|] == front;
  }

  /** A leading block that shows no issue adds none. */
  lemma HeaderIssues(h: Block, rest: seq<Block>)
    requires !IsIssueBlock(h)
    ensures IssuesOf([h] + rest) == IssuesOf(rest)
  {
    IssuesOfAppend([h], rest);
    IssuesOfOne(h);
  }

  /** Dropping a divider and a header that shows no issue loses no issue. */
  lemma JoinIssues(front: seq<Block>, h: Block, rest: seq<Block>)
    requires !IsIssueBlock(h)
    ensures IssuesOf(front + rest) == IssuesOf(front + [Divider]) + IssuesOf([h] + rest)
  {
    DividerIssues(front);
    HeaderIssues(h, rest);
    IssuesOfAppend(front, rest);
  }

  /** A continued header opens with `*`, so it shows no issue. */
  lemma ContinuationNotIssue(b: Block)
    requires IsContinuation(b)
    ensures !IsIssueBlock(b)
  {
    assert b.text[..|"*👤 "|] == "*👤 ";
    assert b.text[0] == b.text[..|"*👤 "|][0];
  }

  lemma ClosedByDividerInit(pages: seq<seq<Block>>)
    requires ClosedByDivider(pages) && pages != []
    ensures ClosedByDivider(pages[..|pages| - 1])
  {
    assert forall k :: 0 <= k < |pages| - 1 ==> pages[..|pages| - 1][k] == pages[k];
  }

  /** Payloads that close with a divider join into a stream that closes with one. */
  lemma {:induction false} ReassembledClosed(pages: seq<seq<Block>>)
    requires ClosedByDivider(pages) && pages != []
    ensures Reassembled(pages) != [] && Reassembled(pages)[|Reassembled(pages)| - 1] == Divider
    decreases |pages|
  {
    var init, q := pages[..|pages| - 1], pages[|pages| - 1];
    if init != [] {
      ClosedByDividerInit(pages);
      ReassembledClosed(init);
    }
  }

  /** Joining one more payload onto the stream adds that payload's issues after the others. */
  lemma ReassembleStepIssues(init: seq<seq<Block>>, q: seq<Block>)
    requires ClosedByDivider(init) && |q| >= 2
    ensures IssuesOf(Reassembled(init + [q])) == IssuesOf(Reassembled(init)) + IssuesOf(q)
  {
    assert (init + [q])[..|init|] == init;
    var acc := Reassembled(init);
    if IsContinuation(q[0]) && acc != [] {
      ReassembledClosed(init);
      ContinuedIssues(acc, q);
    } else {
      IssuesOfAppend(acc, q);
    }
  }

  lemma ContinuedIssues(acc: seq<Block>, q: seq<Block>)
    requires acc != [] && acc[|acc| - 1] == Divider
    requires |q| >= 2 && IsContinuation(q[0])
    ensures IssuesOf(acc[..|acc| - 1] + q[1..]) == IssuesOf(acc) + IssuesOf(q)
  {
    var front := acc[..|acc| - 1];
    assert acc == front + [Divider];
    assert q == [q[0]] + q[1..];
    ContinuationNotIssue(q[0]);
    JoinIssues(front, q[0], q[1..]);
  }

  /**
    Joining payloads drops only dividers and continued headers, so it keeps every issue
    section of the payloads, in order.
   */
  lemma {:induction false} ReassembledIssues(pages: seq<seq<Block>>)
    requires ClosedByDivider(pages)
    ensures IssuesOf(Reassembled(pages)) == IssuesOf(Flatten(pages))
    decreases |pages|
  {
    if pages != [] {
      var init, q := pages[..|pages| - 1], pages[|pages| - 1];
      ClosedByDividerInit(pages);
      ReassembledIssues(init);
      assert init + [q] == pages;
      ReassembleStepIssues(init, q);
      IssuesOfAppend(Flatten(init), q);
    }
  }

  /** finalizeMessage: the payload being filled is added to the list when it holds anything. */
  function Finalized(pages: seq<seq<Block>>, cur: seq<Block>): seq<seq<Block>> {
    if cur == [] then pages else pages + [cur]
  }

  /** A payload opens with the header, or the continued header, of a listed person. */
  predicate OpensWith(page: seq<Block>, persons: seq<string>) {
    page != [] &&
    exists j :: 0 <= j < |persons|
      && (page[0] == Section(PersonHeader(persons[j])) || page[0] == Section(ContinuedHeader(persons[j])))
  }

  /** The shape every payload has: within Slack's limit, a header first, a divider last. */
  predicate WellFormedPage(page: seq<Block>, persons: seq<string>) {
    && 2 <= |page| <= MaxBlocks + 1
    && page[|page| - 1] == Divider
    && OpensWith(page, persons)
  }

  /** Every listed person has at least one issue. */
  predicate NonEmptyGroups(persons: seq<string>, m: map<string, seq<IssueItem>>)
    requires KeysIn(persons, m)
  {
    forall i :: 0 <= i < |persons| ==> m[persons[i]] != []
  }

  lemma OpensWithAppend(page: seq<Block>, b: Block, persons: seq<string>)
    requires OpensWith(page, persons)
    ensures OpensWith(page + [b], persons)
  {
    var j :| 0 <= j < |persons|
      && (page[0] == Section(PersonHeader(persons[j])) || page[0] == Section(ContinuedHeader(persons[j])));
    assert (page + [b])[0] == page[0];
  }

  /** Adding a block to the payload being filled extends the recovered stream by that block. */
  lemma ReassembleAppend(pages: seq<seq<Block>>, cur: seq<Block>, b: Block)
    requires cur != [] || !IsContinuation(b)
    ensures Reassembled(Finalized(pages, cur + [b])) == Reassembled(Finalized(pages, cur)) + [b]
  {
    var p' := pages + [cur + [b]];
    assert p'[..|p'| - 1] == pages;
    if cur != [] {
      var p := pages + [cur];
      assert p[..|p| - 1] == pages;
      assert (cur + [b])[0] == cur[0] && (cur + [b])[1..] == cur[1..] + [b];
    }
  }

  /**
    Closing a payload with a divider and opening the next one with a continued header
    leaves the recovered stream as it was.
   */
  lemma ReassembleContinue(pages: seq<seq<Block>>, cur: seq<Block>, h: Block)
    requires cur != [] && IsContinuation(h)
    ensures Reassembled(Finalized(pages + [cur + [Divider]], [h])) == Reassembled(Finalized(pages, cur))
  {
    ReassembleAppend(pages, cur, Divider);
    var full := pages + [cur + [Divider]];
    var p' := full + [[h]];
    assert p'[..|p'| - 1] == full;
    assert [h][1..] == [];
  }

  lemma IssueSectionsSnoc(url: string, items: seq<IssueItem>, i: nat)
    requires i < |items|
    ensures IssueSections(url, items[..i + 1]) == IssueSections(url, items[..i]) + [IssueBlock(url, items[i])]
  {
    assert items[..i + 1][..i] == items[..i];
  }

  /** What the stream holds once the issues of the person at `pi` up to `ii` are added. */
  function StreamUpTo(url: string, persons: seq<string>, m: map<string, seq<IssueItem>>, pi: nat, ii: nat): seq<Block>
    requires KeysIn(persons, m) && pi < |persons| && ii <= |m[persons[pi]]|
  {
    Runs(url, persons, m, pi) + [Section(PersonHeader(persons[pi]))] + IssueSections(url, m[persons[pi]][..ii])
  }

  lemma StreamUpToDone(url: string, persons: seq<string>, m: map<string, seq<IssueItem>>, pi: nat)
    requires KeysIn(persons, m) && pi < |persons|
    ensures StreamUpTo(url, persons, m, pi, |m[persons[pi]]|) + [Divider] == Runs(url, persons, m, pi + 1)
  {
    var items := m[persons[pi]];
    assert items[..|items|] == items;
    var a, h, body := Runs(url, persons, m, pi), [Section(PersonHeader(persons[pi]))], IssueSections(url, items);
    calc {
      StreamUpTo(url, persons, m, pi, |items|) + [Divider];
      a + h + body + [Divider];
      { SeqAssoc3(a, h, body, [Divider]); }
      a + (h + body + [Divider]);
      a + PersonRun(url, persons[pi], items);
    }
  }

  lemma SeqAssoc3<T>(a: seq<T>, b: seq<T>, c: seq<T>, d: seq<T>)
    ensures a + b + c + d == a + (b + c + d)
  {
  }

  /** Payloads already closed: each well formed and at least 46 blocks long. */
  predicate ClosedPagesOk(pages: seq<seq<Block>>, persons: seq<string>) {
    forall k :: 0 <= k < |pages| ==> WellFormedPage(pages[k], persons) && |pages[k]| >= MaxBlocks - 2
  }

  lemma ClosedPagesPush(pages: seq<seq<Block>>, page: seq<Block>, persons: seq<string>)
    requires ClosedPagesOk(pages, persons)
    requires WellFormedPage(page, persons) && |page| >= MaxBlocks - 2
    ensures ClosedPagesOk(pages + [page], persons)
  {
    forall k | 0 <= k < |pages| + 1
      ensures WellFormedPage((pages + [page])[k], persons) && |(pages + [page])[k]| >= MaxBlocks - 2
    {
      if k < |pages| {
        assert (pages + [page])[k] == pages[k];
      }
    }
  }

  /**
    The state of the packing while the issues of the person at `pi` are placed: the
    first `ii` of them are in, the payload being filled is not over the cap and opens
    with a header, and the recovered stream is the report up to that issue.
   */
  predicate Filling(url: string, persons: seq<string>, grouped: map<string, seq<IssueItem>>, pi: nat, ii: nat,
                    pages: seq<seq<Block>>, cur: seq<Block>)
  {
    && KeysIn(persons, grouped) && pi < |persons| && ii <= |grouped[persons[pi]]|
    && 1 <= |cur| <= MaxBlocks
    && OpensWith(cur, persons)
    && ClosedPagesOk(pages, persons)
    && LastHeader(cur) == Some(persons[pi]) && Linked(pages, cur)
    && Reassembled(Finalized(pages, cur)) == StreamUpTo(url, persons, grouped, pi, ii)
  }

  /** A full payload is closed with a divider and the next opens with the continued header. */
  lemma ContinueStep(url: string, persons: seq<string>, grouped: map<string, seq<IssueItem>>, pi: nat, ii: nat,
                     pages: seq<seq<Block>>, cur: seq<Block>)
    requires Filling(url, persons, grouped, pi, ii, pages, cur) && |cur| == MaxBlocks
    ensures Filling(url, persons, grouped, pi, ii, pages + [cur + [Divider]], [Section(ContinuedHeader(persons[pi]))])
  {
    var h := Section(ContinuedHeader(persons[pi]));
    ContinuedHeaderKind(persons[pi]);
    OpensWithAppend(cur, Divider, persons);
    ReassembleContinue(pages, cur, h);
    ClosedPagesPush(pages, cur + [Divider], persons);
    LinkedAppend(pages, cur, Divider);
    LinkedPush(pages, cur + [Divider]);
    LastHeaderSnoc(cur, Divider);
    ContinuedHeaderName(persons[pi]);
    LastHeaderSnoc([], h);
    assert [] + [h] == [h];
    assert OpensWith([h], persons) by {
      assert [h][0] == Section(ContinuedHeader(persons[pi]));
    }
  }

  /** The next issue's section is added to a payload with room for it. */
  lemma IssueStep(url: string, persons: seq<string>, grouped: map<string, seq<IssueItem>>, pi: nat, ii: nat,
                  pages: seq<seq<Block>>, cur: seq<Block>, b: Block)
    requires Filling(url, persons, grouped, pi, ii, pages, cur) && |cur| < MaxBlocks
    requires ii < |grouped[persons[pi]]| && b == IssueBlock(url, grouped[persons[pi]][ii])
    ensures Filling(url, persons, grouped, pi, ii + 1, pages, cur + [b])
  {
    ReassembleAppend(pages, cur, b);
    StreamUpToSnoc(url, persons, grouped, pi, ii);
    OpensWithAppend(cur, b, persons);
    LinkedAppend(pages, cur, b);
    IssueBlockNameless(url, grouped[persons[pi]][ii]);
    LastHeaderSnoc(cur, b);
  }

  lemma StreamUpToSnoc(url: string, persons: seq<string>, m: map<string, seq<IssueItem>>, pi: nat, ii: nat)
    requires KeysIn(persons, m) && pi < |persons| && ii < |m[persons[pi]]|
    ensures StreamUpTo(url, persons, m, pi, ii + 1) == StreamUpTo(url, persons, m, pi, ii) + [IssueBlock(url, m[persons[pi]][ii])]
  {
    var items := m[persons[pi]];
    IssueSectionsSnoc(url, items, ii);
    var a, body := Runs(url, persons, m, pi) + [Section(PersonHeader(persons[pi]))], IssueSections(url, items[..ii]);
    assert a + (body + [IssueBlock(url, items[ii])]) == a + body + [IssueBlock(url, items[ii])];
  }

  /**
    The inner loop of the packing: one person's issues. An issue that finds the payload
    full closes it with a divider and continues under a "(continued)" header.
   */
  method PackIssues(url: string, persons: seq<string>, grouped: map<string, seq<IssueItem>>, pi: nat,
                    pages0: seq<seq<Block>>, cur0: seq<Block>, count0: int)
    returns (pages: seq<seq<Block>>, cur: seq<Block>, blockCount: int)
    requires Filling(url, persons, grouped, pi, 0, pages0, cur0)
    requires count0 == |cur0|
    ensures Filling(url, persons, grouped, pi, |grouped[persons[pi]]|, pages, cur)
    ensures blockCount == |cur|
    ensures grouped[persons[pi]] != [] ==> |cur| >= 2
  {
    pages, cur, blockCount := pages0, cur0, count0;
    var person := persons[pi];
    var issues := grouped[person];
    var ii := 0;
    while ii < |issues|
      invariant 0 <= ii <= |issues|
      invariant Filling(url, persons, grouped, pi, ii, pages, cur)
      invariant blockCount == |cur|
      invariant ii > 0 ==> |cur| >= 2
    {
      if blockCount + 1 > MaxBlocks {
        ContinueStep(url, persons, grouped, pi, ii, pages, cur);
        cur := cur + [Divider];
        pages := pages + [cur];
        cur := [Section(ContinuedHeader(person))];
        blockCount := 1;
      }
      var b := IssueSection(url, issues[ii]);
      IssueStep(url, persons, grouped, pi, ii, pages, cur, b);
      cur := cur + [b];
      blockCount := blockCount + 1;
      ii := ii + 1;
    }
  }

  /**
    The state of the packing between two persons: the runs of the first `pi` persons are
    placed, and the payload being filled, if any, is closed by a divider.
   */
  predicate Between(url: string, persons: seq<string>, grouped: map<string, seq<IssueItem>>, pi: nat,
                    pages: seq<seq<Block>>, cur: seq<Block>)
  {
    && KeysIn(persons, grouped) && pi <= |persons|
    && |cur| <= MaxBlocks + 1
    && ClosedPagesOk(pages, persons)
    && (cur != [] ==> OpensWith(cur, persons) && cur[|cur| - 1] == Divider && |cur| >= 2)
    && (cur != [] && NonEmptyGroups(persons, grouped) ==> |cur| >= 3)
    && (pi == 0 ==> pages == [] && cur == [])
    && (pi > 0 ==> Finalized(pages, cur) != [])
    && Linked(pages, cur)
    && Reassembled(Finalized(pages, cur)) == Runs(url, persons, grouped, pi)
  }

  lemma Begin(url: string, persons: seq<string>, grouped: map<string, seq<IssueItem>>)
    requires KeysIn(persons, grouped)
    ensures Between(url, persons, grouped, 0, [], [])
  {
  }

  /** Fewer than three slots left: the payload being filled is closed and a fresh one begun. */
  lemma NewPage(url: string, persons: seq<string>, grouped: map<string, seq<IssueItem>>, pi: nat,
                pages: seq<seq<Block>>, cur: seq<Block>)
    requires Between(url, persons, grouped, pi, pages, cur) && |cur| > MaxBlocks - 3
    ensures Between(url, persons, grouped, pi, Finalized(pages, cur), [])
  {
    ClosedPagesPush(pages, cur, persons);
    LinkedPush(pages, cur);
  }

  /** A person's header opens the person's run. */
  lemma StartRun(url: string, persons: seq<string>, grouped: map<string, seq<IssueItem>>, pi: nat,
                 pages: seq<seq<Block>>, cur: seq<Block>)
    requires Between(url, persons, grouped, pi, pages, cur) && pi < |persons| && |cur| <= MaxBlocks - 3
    ensures Filling(url, persons, grouped, pi, 0, pages, cur + [Section(PersonHeader(persons[pi]))])
  {
    var h := Section(PersonHeader(persons[pi]));
    PersonHeaderKind(persons[pi]);
    ReassembleAppend(pages, cur, h);
    LinkedAppend(pages, cur, h);
    PersonHeaderName(persons[pi]);
    LastHeaderSnoc(cur, h);
    if cur != [] {
      OpensWithAppend(cur, h, persons);
    } else {
      assert OpensWith([h], persons) by {
        assert [h][0] == Section(PersonHeader(persons[pi]));
      }
    }
    assert grouped[persons[pi]][..0] == [];
  }

  /** The divider closing a person's run. */
  lemma EndRun(url: string, persons: seq<string>, grouped: map<string, seq<IssueItem>>, pi: nat, next: nat,
               pages: seq<seq<Block>>, cur: seq<Block>)
    requires next == pi + 1
    requires KeysIn(persons, grouped) && pi < |persons|
    requires Filling(url, persons, grouped, pi, |grouped[persons[pi]]|, pages, cur)
    requires grouped[persons[pi]] != [] ==> |cur| >= 2
    ensures Between(url, persons, grouped, next, pages, cur + [Divider])
  {
    ReassembleAppend(pages, cur, Divider);
    OpensWithAppend(cur, Divider, persons);
    LinkedAppend(pages, cur, Divider);
    StreamUpToDone(url, persons, grouped, pi);
  }

  /** Closing the last payload. */
  lemma Finish(url: string, persons: seq<string>, grouped: map<string, seq<IssueItem>>,
               pages: seq<seq<Block>>, cur: seq<Block>)
    requires Between(url, persons, grouped, |persons|, pages, cur)
    ensures Reassembled(Finalized(pages, cur)) == Stream(url, persons, grouped)
    ensures forall k :: 0 <= k < |Finalized(pages, cur)| ==> WellFormedPage(Finalized(pages, cur)[k], persons)
    ensures forall k :: 0 <= k < |Finalized(pages, cur)| - 1 ==> |Finalized(pages, cur)[k]| >= MaxBlocks - 2
    ensures NonEmptyGroups(persons, grouped)
            ==> forall k :: 0 <= k < |Finalized(pages, cur)| ==> |Finalized(pages, cur)[k]| >= 3
    ensures Finalized(pages, cur) == [] <==> persons == []
    ensures RunsContinued(Finalized(pages, cur))
  {
    LinkedFinalized(pages, cur);
    var all := Finalized(pages, cur);
    forall k | 0 <= k < |all| ensures WellFormedPage(all[k], persons) && (k < |all| - 1 ==> |all[k]| >= MaxBlocks - 2) {
      if k < |pages| {
        assert all[k] == pages[k];
      }
    }
  }

  /**
    One round of the person loop of the packing: a new payload when fewer than three
    slots are left, then the person's header, issues and closing divider.
   */
  method PackPerson(url: string, persons: seq<string>, grouped: map<string, seq<IssueItem>>, pi: nat, next: nat,
                    pages0: seq<seq<Block>>, cur0: seq<Block>, count0: int)
    returns (pages: seq<seq<Block>>, cur: seq<Block>, blockCount: int)
    requires Between(url, persons, grouped, pi, pages0, cur0) && pi < |persons| && next == pi + 1
    requires count0 == |cur0|
    ensures Between(url, persons, grouped, next, pages, cur)
    ensures blockCount == |cur|
  {
    pages, cur, blockCount := pages0, cur0, count0;
    var person := persons[pi];
    if blockCount + 3 > MaxBlocks {
      NewPage(url, persons, grouped, pi, pages, cur);
      pages := Finalized(pages, cur);
      cur := [];
      blockCount := 0;
    }
    StartRun(url, persons, grouped, pi, pages, cur);
    cur := cur + [Section(PersonHeader(person))];
    blockCount := blockCount + 1;
    pages, cur, blockCount := PackIssues(url, persons, grouped, pi, pages, cur, blockCount);
    EndRun(url, persons, grouped, pi, next, pages, cur);
    cur := cur + [Divider];
    blockCount := blockCount + 1;
  }

  /**
    The packing of buildSlackBlocks: the person runs in order, then the last payload
    is closed.
   */
  method Paginate(url: string, persons: seq<string>, grouped: map<string, seq<IssueItem>>)
    returns (pages: seq<seq<Block>>)
    requires KeysIn(persons, grouped)
    ensures Reassembled(pages) == Stream(url, persons, grouped)
    ensures forall k :: 0 <= k < |pages| ==> WellFormedPage(pages[k], persons)
    ensures forall k :: 0 <= k < |pages| - 1 ==> |pages[k]| >= MaxBlocks - 2
    ensures NonEmptyGroups(persons, grouped) ==> forall k :: 0 <= k < |pages| ==> |pages[k]| >= 3
    ensures pages == [] <==> persons == []
    ensures RunsContinued(pages)
  {
    var closed, cur := PackAll(url, persons, grouped);
    Finish(url, persons, grouped, closed, cur);
    pages := Finalized(closed, cur);
  }

  /** The person loop of the packing: every run packed, the last payload still open. */
  method PackAll(url: string, persons: seq<string>, grouped: map<string, seq<IssueItem>>)
    returns (pages: seq<seq<Block>>, cur: seq<Block>)
    requires KeysIn(persons, grouped)
    ensures Between(url, persons, grouped, |persons|, pages, cur)
  {
    pages := [];
    cur := [];
    var blockCount := 0;
    Begin(url, persons, grouped);
    var pi := 0;
    while pi < |persons|
      invariant pi <= |persons|
      invariant Between(url, persons, grouped, pi, pages, cur)
      invariant blockCount == |cur|
    {
      var next := pi + 1;
      pages, cur, blockCount := PackPerson(url, persons, grouped, pi, next, pages, cur, blockCount);
      pi := next;
    }
    AllPacked(url, persons, grouped, pi, pages, cur);
  }

  lemma AllPacked(url: string, persons: seq<string>, grouped: map<string, seq<IssueItem>>, pi: nat,
                  pages: seq<seq<Block>>, cur: seq<Block>)
    requires Between(url, persons, grouped, pi, pages, cur) && pi >= |persons|
    ensures Between(url, persons, grouped, |persons|, pages, cur)
  {
  }

  /** buildSlackBlocks: group, sort the persons, pack the runs into payloads. */
  method BuildSlackBlocks(url: string, responses: seq<SearchResponse>) returns (pages: seq<seq<Block>>)
    ensures Reassembled(pages) == ReportStream(url, responses)
    ensures forall k :: 0 <= k < |pages| ==> 3 <= |pages[k]| < SlackBlockLimit
    ensures forall k :: 0 <= k < |pages| ==> WellFormedPage(pages[k], ReportPersons(responses))
    ensures forall k :: 0 <= k < |pages| - 1 ==> |pages[k]| >= MaxBlocks - 2
    ensures pages == [] <==> SurvivingItems(AllIssues(responses)) == []
    ensures RunsContinued(pages)
    ensures IssuesOf(Flatten(pages)) == IssueSections(url, ReportItems(responses))
  {
    var grouped := GroupByPerson(responses);
    var persons := SortedPersons(grouped);
    assert grouped.Keys == KeySet(Tagged(AllIssues(responses)));
    assert grouped == ReportGroups(responses) && persons == ReportPersons(responses);
    AscendingKeysIn(grouped);
    pages := Paginate(url, persons, grouped);
    ReportPages(url, responses, pages);
    ReportIssuesInOrder(url, responses, pages);
  }

  /** What the packing promises for the report's persons and groups, stated for the whole report. */
  lemma ReportPages(url: string, responses: seq<SearchResponse>, pages: seq<seq<Block>>)
    requires KeysIn(ReportPersons(responses), ReportGroups(responses))
    requires Reassembled(pages) == Stream(url, ReportPersons(responses), ReportGroups(responses))
    requires forall k :: 0 <= k < |pages| ==> WellFormedPage(pages[k], ReportPersons(responses))
    requires forall k :: 0 <= k < |pages| - 1 ==> |pages[k]| >= MaxBlocks - 2
    requires NonEmptyGroups(ReportPersons(responses), ReportGroups(responses))
             ==> forall k :: 0 <= k < |pages| ==> |pages[k]| >= 3
    requires pages == [] <==> ReportPersons(responses) == []
    ensures Reassembled(pages) == ReportStream(url, responses)
    ensures forall k :: 0 <= k < |pages| ==> 3 <= |pages[k]| < SlackBlockLimit
    ensures forall k :: 0 <= k < |pages| ==> WellFormedPage(pages[k], ReportPersons(responses))
    ensures forall k :: 0 <= k < |pages| - 1 ==> |pages[k]| >= MaxBlocks - 2
    ensures pages == [] <==> SurvivingItems(AllIssues(responses)) == []
  {
    var kvs := Tagged(AllIssues(responses));
    var persons, grouped := ReportPersons(responses), ReportGroups(responses);
    assert grouped.Keys == KeySet(kvs);
    assert NonEmptyGroups(persons, grouped) by {
      forall i | 0 <= i < |persons| ensures grouped[persons[i]] != [] {
        GroupNonEmpty(kvs, persons[i]);
      }
    }
    EverySurvivorOnce(responses);
    assert persons == [] <==> |multiset(persons)| == 0;
  }

  /**
    Every issue the report lists is shown once, in report order, across all payloads:
    read in order, the issue sections of the payloads are those of the report's items.
   */
  lemma ReportIssuesInOrder(url: string, responses: seq<SearchResponse>, pages: seq<seq<Block>>)
    requires Reassembled(pages) == ReportStream(url, responses)
    requires forall k :: 0 <= k < |pages| ==> WellFormedPage(pages[k], ReportPersons(responses))
    ensures IssuesOf(Flatten(pages)) == IssueSections(url, ReportItems(responses))
  {
    var persons, grouped := ReportPersons(responses), ReportGroups(responses);
    assert grouped.Keys == KeySet(Tagged(AllIssues(responses)));
    AscendingKeysIn(grouped);
    PagesIssues(url, persons, grouped, pages);
  }

  /** The issue sections of payloads that join into the stream are the groups' items, person by person. */
  lemma PagesIssues(url: string, persons: seq<string>, m: map<string, seq<IssueItem>>, pages: seq<seq<Block>>)
    requires KeysIn(persons, m) && Reassembled(pages) == Stream(url, persons, m)
    requires forall k :: 0 <= k < |pages| ==> WellFormedPage(pages[k], persons)
    ensures IssuesOf(Flatten(pages)) == IssueSections(url, Concat(persons, m))
  {
    assert ClosedByDivider(pages) by {
      forall k | 0 <= k < |pages| ensures |pages[k]| >= 2 && pages[k][|pages[k]| - 1] == Divider {
        assert WellFormedPage(pages[k], persons);
      }
    }
    ReassembledIssues(pages);
    RunsIssues(url, persons, m, |persons|);
    assert persons[..|persons|] == persons;
  }
}
