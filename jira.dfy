/**
  The issue records the JIRA search API returns, and the per-issue rules shared by the
  daily report and the slash command: pull-request extraction, the component/label
  exclusion test, the Epic rule and the responsible person.
 */
module Jira {
  import opened Wrappers

  /**
    The pull-request custom field as encoding/json decodes it into an interface{}:
    null, a string, a list of values, or anything else (number, boolean, object).
   */
  datatype Json = Null | Str(s: string) | List(items: seq<Json>) | Other

  datatype Person = Person(displayName: string)

  datatype Component = Component(name: string)

  /** The fields of one issue that the search asks for; a nil pointer is None. */
  datatype Fields = Fields(
    summary: string,
    status: string,
    assignee: Option<Person>,
    qaContact: Option<Person>,
    issueType: string,
    components: seq<Component>,
    labels: seq<string>,
    gitPullRequest: Json)

  datatype Issue = Issue(key: string, fields: Fields)

  /** One page of search results. */
  datatype SearchResponse = SearchResponse(total: int, startAt: int, maxResults: int, issues: seq<Issue>)

  /** The simplified view of an issue that is grouped and displayed. */
  datatype IssueItem = IssueItem(key: string, summary: string, status: string, gitPullRequest: seq<string>)

  /** Components whose issues are left out of the report (exact, case-sensitive names). */
  const ExcludedComponents: seq<string> := ["User Interface"]

  /** Labels whose issues are left out of the report (exact, case-sensitive names). */
  const ExcludedLabels: seq<string> := ["user-interface", "mtv-storage-offload", "mtv-copy-offload"]

  /** The non-empty string elements of a decoded JSON list, in their original order. */
  function NonEmptyStrings(items: seq<Json>): seq<string>
    decreases |items|
  {
    if items == [] then []
    else
      var last := items[|items| - 1];
      NonEmptyStrings(items[..|items| - 1]) + (if last.Str? && last.s != "" then [last.s] else [])
  }

  /** The pull-request links of a pull-request field value. */
  function PullRequests(v: Json): seq<string> {
    match v
    case Str(s) => if s != "" then [s] else []
    case List(items) => NonEmptyStrings(items)
    case _ => []
  }

  /** The links kept from a list are exactly its non-empty string elements. */
  lemma {:induction false} NonEmptyStringsMembers(items: seq<Json>, s: string)
    ensures s in NonEmptyStrings(items) <==> s != "" && Str(s) in items
    decreases |items|
  {
    if items != [] {
      var init := items[..|items| - 1];
      NonEmptyStringsMembers(init, s);
      assert items == init + [items[|items| - 1]];
    }
  }

  /** Filtering a list distributes over concatenation, so the kept links stay in list order. */
  lemma {:induction false} NonEmptyStringsAppend(a: seq<Json>, b: seq<Json>)
    ensures NonEmptyStrings(a + b) == NonEmptyStrings(a) + NonEmptyStrings(b)
    decreases |b|
  {
    if b == [] {
      assert a + b == a;
    } else {
      var b' := b[..|b| - 1];
      assert (a + b)[..|a + b| - 1] == a + b';
      NonEmptyStringsAppend(a, b');
    }
  }

  /** What each shape of the field yields. */
  lemma PullRequestShapes(v: Json)
    ensures v.Null? || v.Other? || v == Str("") ==> PullRequests(v) == []
    ensures v.Str? && v.s != "" ==> PullRequests(v) == [v.s]
    ensures v.List? ==> forall s :: s in PullRequests(v) <==> s != "" && Str(s) in v.items
  {
    if v.List? {
      forall s ensures s in PullRequests(v) <==> s != "" && Str(s) in v.items {
        NonEmptyStringsMembers(v.items, s);
      }
    }
  }

  /** extractPRs: the accumulate loop over a list, or the string case. */
  method ExtractPRs(prField: Json) returns (prs: seq<string>)
    ensures prs == PullRequests(prField)
  {
    prs := [];
    match prField {
      case Null =>
        return;
      case Str(v) =>
        if v != "" {
          prs := [v];
        }
      case List(v) =>
        for i := 0 to |v|
          invariant prs == NonEmptyStrings(v[..i])
        {
          assert v[..i + 1][..i] == v[..i];
          var item := v[i];
          if item.Str? && item.s != "" {
            prs := prs + [item.s];
          }
        }
        assert v[..|v|] == v;
      case Other =>
    }
  }

  /** The exclusion rule: some component or some label equals an excluded entry exactly. */
  predicate IsExcluded(components: seq<Component>, labels: seq<string>) {
    (exists c :: c in components && c.name in ExcludedComponents)
    || (exists l :: l in labels && l in ExcludedLabels)
  }

  /** shouldFilterOut: the two nested search loops with early return. */
  method ShouldFilterOut(components: seq<Component>, labels: seq<string>) returns (excluded: bool)
    ensures excluded == IsExcluded(components, labels)
  {
    for i := 0 to |components|
      invariant forall k :: 0 <= k < i ==> components[k].name !in ExcludedComponents
    {
      for e := 0 to |ExcludedComponents|
        invariant forall f :: 0 <= f < e ==> components[i].name != ExcludedComponents[f]
      {
        if components[i].name == ExcludedComponents[e] {
          assert components[i] in components;
          return true;
        }
      }
    }
    for i := 0 to |labels|
      invariant forall k :: 0 <= k < i ==> labels[k] !in ExcludedLabels
    {
      for e := 0 to |ExcludedLabels|
        invariant forall f :: 0 <= f < e ==> labels[i] != ExcludedLabels[f]
      {
        if labels[i] == ExcludedLabels[e] {
          assert labels[i] in labels;
          return true;
        }
      }
    }
    return false;
  }

  /** The match is whole-name and case-sensitive: near misses are kept. */
  lemma ExclusionIsExact()
    ensures !IsExcluded([Component("User Interface Tests")], [])
    ensures !IsExcluded([], ["User-Interface", "mtv-copy"])
    ensures IsExcluded([Component("Storage"), Component("User Interface")], [])
  {
    assert Component("User Interface") in [Component("Storage"), Component("User Interface")];
  }

  /** An issue reaches the report unless it is excluded or is an Epic without pull requests. */
  predicate Survives(issue: Issue) {
    && !IsExcluded(issue.fields.components, issue.fields.labels)
    && !(issue.fields.issueType == "Epic" && |PullRequests(issue.fields.gitPullRequest)| == 0)
  }

  /**
    The person an issue is grouped under: the QA contact while the issue is ON_QA or
    MODIFIED and has one, otherwise the assignee, otherwise "Unassigned".
   */
  function ResponsiblePerson(f: Fields): (r: string)
  {
    if (f.status == "ON_QA" || f.status == "MODIFIED") && f.qaContact.Some? then f.qaContact.value.displayName
    else if f.assignee.Some? then f.assignee.value.displayName
    else "Unassigned"
  }

  /** The three-way rule, read from the result's side. */
  lemma ResponsiblePersonRule(f: Fields)
    ensures f.qaContact.Some? && (f.status == "ON_QA" || f.status == "MODIFIED")
            ==> ResponsiblePerson(f) == f.qaContact.value.displayName
    ensures !(f.qaContact.Some? && (f.status == "ON_QA" || f.status == "MODIFIED")) && f.assignee.Some?
            ==> ResponsiblePerson(f) == f.assignee.value.displayName
    ensures ResponsiblePerson(f) == "Unassigned"
            <== f.assignee.None? && (f.qaContact.None? || (f.status != "ON_QA" && f.status != "MODIFIED"))
  {
  }

  /** The simplified item built from an issue. */
  function ItemOf(issue: Issue): IssueItem {
    IssueItem(issue.key, issue.fields.summary, issue.fields.status, PullRequests(issue.fields.gitPullRequest))
  }

  /** All issues of all result pages, in fetch order. */
  function AllIssues(responses: seq<SearchResponse>): seq<Issue>
    decreases |responses|
  {
    if responses == [] then []
    else AllIssues(responses[..|responses| - 1]) + responses[|responses| - 1].issues
  }

  /** countTotalIssues: the sum of the page sizes. */
  method CountTotalIssues(responses: seq<SearchResponse>) returns (count: int)
    ensures count == |AllIssues(responses)|
  {
    count := 0;
    for i := 0 to |responses|
      invariant count == |AllIssues(responses[..i])|
    {
      assert responses[..i + 1][..i] == responses[..i];
      count := count + |responses[i].issues|;
    }
    assert responses[..|responses|] == responses;
  }
}
