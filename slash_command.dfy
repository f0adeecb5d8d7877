/**
  The pure parts of the /issues slash command: reading the command text, choosing whose
  issues to show, the JQL query, and the name picked from a Slack users.info reply.
 */
module SlashCommand {
  import opened Wrappers
  import opened Strings

  /** The flag that asks for closed issues too. */
  const AllFlag := "--all"

  /** What the command text asks for. */
  datatype Request = Request(includeAll: bool, username: string)

  /** Command-text parsing: trim, look for the flag anywhere, delete every occurrence, trim again. */
  function ParseCommand(text: string): Request {
    var t := TrimSpace(text);
    Request(Contains(t, AllFlag), TrimSpace(RemoveAll(t, AllFlag)))
  }

  /** A string with no surrounding white space. */
  predicate Trimmed(s: string) {
    s == [] || (!IsSpace(s[0]) && !IsSpace(s[|s| - 1]))
  }

  lemma ContainsTooShort(s: string, sub: string)
    requires |s| < |sub|
    ensures !Contains(s, sub)
  {
  }

  /**
    The flag has no border (no proper prefix of it is also a suffix), so an occurrence
    that starts inside flag-free text cannot end inside the flag that follows it.
   */
  lemma {:induction false} RemoveAroundFlag(a: string, b: string)
    requires !Contains(a, AllFlag)
    ensures RemoveAll(a + AllFlag + b, AllFlag) == a + RemoveAll(b, AllFlag)
    decreases |a|
  {
    var s := a + AllFlag + b;
    if a == [] {
      assert s == AllFlag + b;
      RemoveAllHead(AllFlag, b);
    } else {
      FlagNotAtHead(a, b);
      RemoveAllSkip(s, AllFlag);
      NoFlagInTail(a);
      RemoveAroundFlag(a[1..], b);
      DropFirst(a, AllFlag, b);
      Uncons(a, RemoveAll(b, AllFlag));
    }
  }

  lemma DropFirst<T>(a: seq<T>, m: seq<T>, b: seq<T>)
    requires a != []
    ensures (a + m + b)[1..] == a[1..] + m + b
  {
  }

  lemma Uncons<T>(a: seq<T>, r: seq<T>)
    requires a != []
    ensures a + r == [a[0]] + (a[1..] + r)
  {
  }

  lemma RemoveAllHead(pat: string, b: string)
    requires pat != []
    ensures RemoveAll(pat + b, pat) == RemoveAll(b, pat)
  {
    var s := pat + b;
    assert s[..|pat|] == pat && s[|pat|..] == b;
  }

  lemma RemoveAllSkip(s: string, pat: string)
    requires pat != [] && |pat| <= |s| && !HasPrefix(s, pat)
    ensures RemoveAll(s, pat) == [s[0]] + RemoveAll(s[1..], pat)
  {
  }

  /** Text that starts with flag-free text does not start with the flag, whatever follows. */
  lemma FlagNotAtHead(a: string, b: string)
    requires a != [] && !Contains(a, AllFlag)
    ensures !HasPrefix(a + AllFlag + b, AllFlag)
  {
    var s := a + AllFlag + b;
    if |a| >= 5 {
      assert s[..5] == a[..5];
      assert !HasPrefix(a, AllFlag);
    } else {
      var k := if |a| <= 3 then |a| + 1 else |a|;
      assert s[k] == '-' && AllFlag[k] != '-';
      assert s[..5][k] == s[k];
    }
  }

  lemma NoFlagInTail(a: string)
    requires a != [] && !Contains(a, AllFlag)
    ensures !Contains(a[1..], AllFlag)
  {
    if |a| <= 5 {
      ContainsTooShort(a[1..], AllFlag);
    }
  }

  lemma TrimOfTrimmed(s: string)
    requires Trimmed(s)
    ensures TrimSpace(s) == s
  {
  }

  lemma TrimLeftCons(c: char, s: string)
    requires IsSpace(c)
    ensures TrimLeft([c] + s) == TrimLeft(s)
  {
    assert ([c] + s)[1..] == s;
  }

  lemma TrimRightSnoc(s: string, c: char)
    requires IsSpace(c)
    ensures TrimRight(s + [c]) == TrimRight(s)
  {
    assert (s + [c])[..|s|] == s;
  }

  lemma TrimAfterSpace(s: string)
    requires Trimmed(s)
    ensures TrimSpace(" " + s) == s
  {
    TrimLeftCons(' ', s);
    assert " " + s == [' '] + s;
    assert TrimLeft(s) == s;
    assert TrimRight(s) == s;
  }

  lemma TrimBeforeSpace(s: string)
    requires Trimmed(s)
    ensures TrimSpace(s + " ") == s
  {
    assert s + " " == s + [' '];
    TrimRightSnoc(s, ' ');
    if s == [] {
      TrimLeftCons(' ', []);
      assert TrimLeft(s + " ") == [];
    } else {
      assert (s + " ")[0] == s[0];
      assert TrimLeft(s + " ") == s + " ";
      assert TrimRight(s) == s;
    }
  }

  lemma NoFlagAfterSpace(s: string)
    requires !Contains(s, AllFlag)
    ensures !Contains(" " + s, AllFlag)
  {
    var t := " " + s;
    assert t[1..] == s;
    assert !HasPrefix(t, AllFlag) by { assert t[0] == ' '; }
  }

  lemma NoFlagBeforeSpace(s: string)
    requires !Contains(s, AllFlag)
    ensures !Contains(s + " ", AllFlag)
  {
    var t := s + " ";
    ContainsAt(t, AllFlag);
    ContainsAt(s, AllFlag);
    forall i | OccursAt(t, AllFlag, i) ensures OccursAt(s, AllFlag, i) {
      assert t[i + 4] == t[i..i + 5][4] == 'l';
      assert t[|s|] == ' ';
      assert i + 5 <= |s|;
      assert t[i..i + 5] == s[i..i + 5];
    }
  }

  lemma RemoveLeadingFlag(b: string)
    ensures RemoveAll(AllFlag + b, AllFlag) == RemoveAll(b, AllFlag)
  {
    RemoveAroundFlag([], b);
    assert [] + AllFlag + b == AllFlag + b;
  }

  lemma RemoveTrailingFlag(a: string)
    requires !Contains(a, AllFlag)
    ensures RemoveAll(a + AllFlag, AllFlag) == a
  {
    RemoveAroundFlag(a, []);
    assert a + AllFlag + [] == a + AllFlag;
  }

  lemma FlagOnlyBefore()
    ensures ParseCommand(AllFlag + " ") == Request(true, [])
  {
    TrimBeforeSpace(AllFlag);
    RemoveLeadingFlag([]);
    assert AllFlag + [] == AllFlag;
    assert HasPrefix(AllFlag, AllFlag);
  }

  lemma FlagOnlyAfter()
    ensures ParseCommand(" " + AllFlag) == Request(true, [])
  {
    TrimAfterSpace(AllFlag);
    RemoveLeadingFlag([]);
    assert AllFlag + [] == AllFlag;
    assert HasPrefix(AllFlag, AllFlag);
  }

  lemma FlagFirstKept(name: string)
    requires Trimmed(name) && name != []
    ensures TrimSpace(AllFlag + " " + name) == AllFlag + " " + name
  {
    var text := AllFlag + " " + name;
    assert Trimmed(text) by {
      assert text[0] == '-' && text[|text| - 1] == name[|name| - 1];
    }
    TrimOfTrimmed(text);
  }

  lemma FlagFirstFound(name: string)
    ensures Contains(AllFlag + " " + name, AllFlag)
  {
    assert (AllFlag + " " + name)[..5] == AllFlag;
  }

  lemma FlagFirstRemoved(name: string)
    requires Trimmed(name) && !Contains(name, AllFlag)
    ensures TrimSpace(RemoveAll(AllFlag + " " + name, AllFlag)) == name
  {
    assert AllFlag + " " + name == AllFlag + (" " + name);
    RemoveLeadingFlag(" " + name);
    NoFlagAfterSpace(name);
    RemoveAbsent(" " + name, AllFlag);
    TrimAfterSpace(name);
  }

  lemma FlagLastKept(name: string)
    requires Trimmed(name) && name != []
    ensures TrimSpace(name + " " + AllFlag) == name + " " + AllFlag
  {
    var text := name + " " + AllFlag;
    assert Trimmed(text) by {
      assert text[0] == name[0] && text[|text| - 1] == 'l';
    }
    TrimOfTrimmed(text);
  }

  lemma FlagLastFound(name: string)
    ensures Contains(name + " " + AllFlag, AllFlag)
  {
    var text := name + " " + AllFlag;
    ContainsAt(text, AllFlag);
    assert text[|name| + 1..|name| + 6] == AllFlag;
    assert OccursAt(text, AllFlag, |name| + 1);
  }

  lemma FlagLastRemoved(name: string)
    requires Trimmed(name) && !Contains(name, AllFlag)
    ensures TrimSpace(RemoveAll(name + " " + AllFlag, AllFlag)) == name
  {
    NoFlagBeforeSpace(name);
    RemoveTrailingFlag(name + " ");
    TrimBeforeSpace(name);
  }

  /** The flag before the name: the name is read back unchanged, with the flag set. */
  lemma FlagBeforeName(name: string)
    requires Trimmed(name) && !Contains(name, AllFlag)
    ensures ParseCommand(AllFlag + " " + name) == Request(true, name)
  {
    if name == [] {
      assert AllFlag + " " + name == AllFlag + " ";
      FlagOnlyBefore();
    } else {
      FlagFirstKept(name);
      FlagFirstFound(name);
      FlagFirstRemoved(name);
    }
  }

  /** The flag after the name: the same request as with the flag first. */
  lemma FlagAfterName(name: string)
    requires Trimmed(name) && !Contains(name, AllFlag)
    ensures ParseCommand(name + " " + AllFlag) == Request(true, name)
  {
    if name == [] {
      assert name + " " + AllFlag == " " + AllFlag;
      FlagOnlyAfter();
    } else {
      FlagLastKept(name);
      FlagLastFound(name);
      FlagLastRemoved(name);
    }
  }

  /** A name without a dash, such as "John Doe", cannot hold the flag. */
  lemma NoDashNoFlag(s: string)
    requires '-' !in s
    ensures !Contains(s, AllFlag)
  {
    ContainsAt(s, AllFlag);
    forall i | 0 <= i <= |s| - 5 ensures !OccursAt(s, AllFlag, i) {
      assert s[i] in s;
      assert s[i..i + 5][0] == s[i];
    }
  }

  /** Without the flag the whole trimmed text is the name. */
  lemma ParseWithoutFlag(text: string)
    requires !Contains(TrimSpace(text), AllFlag)
    ensures ParseCommand(text) == Request(false, TrimSpace(text))
  {
    RemoveAbsent(TrimSpace(text), AllFlag);
    TrimOfTrimmed(TrimSpace(text));
  }

  /** The name of a request never carries surrounding white space. */
  lemma ParsedNameTrimmed(text: string)
    ensures Trimmed(ParseCommand(text).username)
  {
  }

  /** The error text shown when the caller's own name cannot be found. */
  const AutoDetectError := "Failed to auto-detect your name.\n\nPlease specify a name: `/issues John Doe`"

  /**
    Whose issues to show: the name given, or else the caller's own name from the Slack
    lookup (whose outcome is a parameter, the call itself being I/O).
   */
  function TargetUser(username: string, lookup: Result<string, string>): (r: Result<string, string>)
    ensures username != "" ==> r == Success(username)
    ensures username == "" && lookup.Success? ==> r == Success(lookup.value)
    ensures username == "" && lookup.Failure? ==> r == Failure(AutoDetectError)
  {
    if username == "" then
      match lookup
      case Failure(_) => Failure(AutoDetectError)
      case Success(realName) => Success(realName)
    else Success(username)
  }

  const JqlBase := "project = MTV"
  const JqlAllOrder := " ORDER BY status ASC, updated DESC"
  const JqlOpenClause := " AND (status IN (POST, ON_QA, MODIFIED) OR (type = Epic AND status != Closed))"
  const JqlOpenOrder := " ORDER BY status ASC"

  /** buildJQLQuery: the project query, narrowed to open statuses unless every issue is wanted. */
  function BuildJQLQuery(username: string, includeAll: bool): (q: string)
    ensures HasPrefix(q, JqlBase)
  {
    var jql := JqlBase;
    if includeAll then jql + JqlAllOrder else jql + JqlOpenClause + JqlOpenOrder
  }

  /** The user is matched afterwards, in the program: the query never mentions the name. */
  lemma QueryIgnoresUser(u1: string, u2: string, includeAll: bool)
    ensures BuildJQLQuery(u1, includeAll) == BuildJQLQuery(u2, includeAll)
  {
  }

  /** The two queries differ exactly in the open-status clause. */
  lemma QueryShapes(username: string)
    ensures BuildJQLQuery(username, true) == JqlBase + JqlAllOrder
    ensures BuildJQLQuery(username, false) == JqlBase + JqlOpenClause + JqlOpenOrder
    ensures BuildJQLQuery(username, true) != BuildJQLQuery(username, false)
  {
    assert |JqlAllOrder| < |JqlOpenClause|;
  }

  /** The part of a users.info reply that is read: the ok flag, the error, and the names. */
  datatype UserInfo = UserInfo(ok: bool, error: string, name: string, realName: string,
                               profileDisplayName: string, profileRealName: string)

  /** The fallback order, as a list to read left to right. */
  function FirstNonEmpty(candidates: seq<string>, fallback: string): (r: string)
    decreases |candidates|
  {
    if candidates == [] then fallback
    else if candidates[0] != "" then candidates[0]
    else FirstNonEmpty(candidates[1..], fallback)
  }

  /** getSlackUserRealName after the reply is decoded: the error, or the first non-empty name. */
  function UserRealName(u: UserInfo): (r: Result<string, string>)
    ensures r.Failure? <==> !u.ok
    ensures r.Failure? ==> r.error == "Slack API error: " + u.error
    ensures r.Success? ==> (r.value == "" <==> (u.profileDisplayName == "" && u.realName == ""
                                                && u.profileRealName == "" && u.name == ""))
  {
    if !u.ok then Failure("Slack API error: " + u.error)
    else if u.profileDisplayName != "" then Success(u.profileDisplayName)
    else if u.realName != "" then Success(u.realName)
    else if u.profileRealName != "" then Success(u.profileRealName)
    else Success(u.name)
  }

  /** The chain of tests picks the first non-empty name in the documented order, then the handle. */
  lemma {:induction false} UserRealNameOrder(u: UserInfo)
    requires u.ok
    ensures UserRealName(u) == Success(FirstNonEmpty([u.profileDisplayName, u.realName, u.profileRealName], u.name))
  {
    var c := [u.profileDisplayName, u.realName, u.profileRealName];
    var c1 := [u.realName, u.profileRealName];
    var c2 := [u.profileRealName];
    assert c[1..] == c1 && c1[1..] == c2 && c2[1..] == [];
    assert FirstNonEmpty(c2, u.name) == if u.profileRealName != "" then u.profileRealName else u.name;
    assert FirstNonEmpty(c1, u.name) == if u.realName != "" then u.realName else FirstNonEmpty(c2, u.name);
  }
}
