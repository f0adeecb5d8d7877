/**
  Slack message blocks and the text helpers both programs use to render one issue:
  mrkdwn escaping, summary truncation and the PR-link field.
 */
module Slack {
  import opened Strings
  import opened Jira

  /** A Slack layout block: a plain-text header, an mrkdwn section, or a divider. */
  datatype Block = Header(text: string) | Section(text: string) | Divider

  /** The entity Slack's mrkdwn uses for one character, or the character itself. */
  function EscapeChar(c: char): string {
    if c == '&' then "&amp;" else if c == '<' then "&lt;" else if c == '>' then "&gt;" else [c]
  }

  /** A one-pass reference escaping: every character replaced by its entity independently. */
  function EscapeEach(s: string): string
    decreases |s|
  {
    if s == [] then [] else EscapeChar(s[0]) + EscapeEach(s[1..])
  }

  /** escapeSlackText: `&` is replaced first, then `<`, then `>`. */
  function Escape(s: string): string {
    ReplaceChar(ReplaceChar(ReplaceChar(s, '&', "&amp;"), '<', "&lt;"), '>', "&gt;")
  }

  lemma {:induction false} ReplaceCharAbsent(s: string, c: char, rep: string)
    requires c !in s
    ensures ReplaceChar(s, c, rep) == s
    decreases |s|
  {
    if s != [] {
      assert s[0] != c;
      assert forall i :: 0 <= i < |s[1..]| ==> s[1..][i] == s[i + 1];
      ReplaceCharAbsent(s[1..], c, rep);
      assert s == [s[0]] + s[1..];
    }
  }

  lemma ReplaceCharSingle(c: char, d: char, rep: string)
    ensures ReplaceChar([c], d, rep) == if c == d then rep else [c]
  {
    assert [c][1..] == [];
  }

  lemma EscapeOneChar(c: char)
    ensures Escape([c]) == EscapeChar(c)
  {
    if c == '&' {
      EscapeAmpChar(c);
    } else if c == '<' {
      EscapeLtChar(c);
    } else if c == '>' {
      EscapeGtChar(c);
    } else {
      EscapePlainChar(c);
    }
  }

  lemma EscapeAmpChar(c: char)
    requires c == '&'
    ensures Escape([c]) == "&amp;"
  {
    ReplaceCharSingle(c, '&', "&amp;");
    var s1 := ReplaceChar([c], '&', "&amp;");
    assert '<' !in s1 && '>' !in s1;
    ReplaceCharAbsent(s1, '<', "&lt;");
    ReplaceCharAbsent(s1, '>', "&gt;");
  }

  lemma EscapeLtChar(c: char)
    requires c == '<'
    ensures Escape([c]) == "&lt;"
  {
    ReplaceCharSingle(c, '&', "&amp;");
    ReplaceCharSingle(c, '<', "&lt;");
    var s2 := ReplaceChar(ReplaceChar([c], '&', "&amp;"), '<', "&lt;");
    assert '>' !in s2;
    ReplaceCharAbsent(s2, '>', "&gt;");
  }

  lemma EscapeGtChar(c: char)
    requires c == '>'
    ensures Escape([c]) == "&gt;"
  {
    ReplaceCharSingle(c, '&', "&amp;");
    ReplaceCharSingle(c, '<', "&lt;");
    ReplaceCharSingle(c, '>', "&gt;");
  }

  lemma EscapePlainChar(c: char)
    requires c != '&' && c != '<' && c != '>'
    ensures Escape([c]) == [c]
  {
    ReplaceCharSingle(c, '&', "&amp;");
    ReplaceCharSingle(c, '<', "&lt;");
    ReplaceCharSingle(c, '>', "&gt;");
  }

  /**
    The chained replacements escape each character independently: because `&` goes
    first, the `&` of the entities introduced for `<` and `>` is never escaped again.
   */
  lemma {:induction false} EscapeIsOnePass(s: string)
    ensures Escape(s) == EscapeEach(s)
    decreases |s|
  {
    if s != [] {
      var c, rest := s[0], s[1..];
      assert s == [c] + rest;
      ReplaceCharAppend([c], rest, '&', "&amp;");
      var a1, b1 := ReplaceChar([c], '&', "&amp;"), ReplaceChar(rest, '&', "&amp;");
      ReplaceCharAppend(a1, b1, '<', "&lt;");
      var a2, b2 := ReplaceChar(a1, '<', "&lt;"), ReplaceChar(b1, '<', "&lt;");
      ReplaceCharAppend(a2, b2, '>', "&gt;");
      EscapeOneChar(c);
      EscapeIsOnePass(rest);
    }
  }

  lemma {:induction false} EscapeEachAppend(a: string, b: string)
    ensures EscapeEach(a + b) == EscapeEach(a) + EscapeEach(b)
    decreases |a|
  {
    if a == [] {
      assert a + b == b;
    } else {
      assert (a + b)[1..] == a[1..] + b;
      EscapeEachAppend(a[1..], b);
    }
  }

  /** The escaped text carries no angle bracket, so it cannot open or close a Slack link. */
  lemma {:induction false} EscapeHasNoAngles(s: string)
    ensures '<' !in Escape(s) && '>' !in Escape(s)
    decreases |s|
  {
    EscapeIsOnePass(s);
    if s != [] {
      EscapeIsOnePass(s[1..]);
      EscapeHasNoAngles(s[1..]);
      assert EscapeEach(s) == EscapeChar(s[0]) + EscapeEach(s[1..]);
    }
  }

  /** Text without `&`, `<` and `>` is left exactly as it was. */
  lemma EscapeIdentity(s: string)
    requires '&' !in s && '<' !in s && '>' !in s
    ensures Escape(s) == s
  {
    ReplaceCharAbsent(s, '&', "&amp;");
    ReplaceCharAbsent(s, '<', "&lt;");
    ReplaceCharAbsent(s, '>', "&gt;");
  }

  lemma EscapeEachExample()
    ensures EscapeEach("<a&b>") == "&lt;a&amp;b&gt;"
  {
    var s := "<a&b>";
    assert s == ['<'] + "a&b>";
    EscapeEachAppend(['<'], "a&b>");
    assert "a&b>" == ['a'] + "&b>";
    EscapeEachAppend(['a'], "&b>");
    assert "&b>" == ['&'] + "b>";
    EscapeEachAppend(['&'], "b>");
    assert "b>" == ['b'] + ">";
    EscapeEachAppend(['b'], ">");
    assert EscapeEach(['<']) == "&lt;" && EscapeEach(['a']) == "a" && EscapeEach(['&']) == "&amp;";
    assert EscapeEach(['b']) == "b" && EscapeEach(['>']) == "&gt;";
  }

  /** `&` goes first, so the entities introduced for `<` and `>` are not escaped twice. */
  lemma EscapeExample()
    ensures Escape("<a&b>") == "&lt;a&amp;b&gt;"
  {
    EscapeIsOnePass("<a&b>");
    EscapeEachExample();
  }

  /** Decoding the three entities back into their characters. */
  function Unescape(s: string): string
    decreases |s|
  {
    if s == [] then []
    else if HasPrefix(s, "&amp;") then "&" + Unescape(s[5..])
    else if HasPrefix(s, "&lt;") then "<" + Unescape(s[4..])
    else if HasPrefix(s, "&gt;") then ">" + Unescape(s[4..])
    else [s[0]] + Unescape(s[1..])
  }

  lemma UnescapeAmp(rest: string)
    ensures Unescape("&amp;" + rest) == "&" + Unescape(rest)
  {
    var t := "&amp;" + rest;
    assert t[..5] == "&amp;" && t[5..] == rest;
  }

  lemma UnescapeLt(rest: string)
    ensures Unescape("&lt;" + rest) == "<" + Unescape(rest)
  {
    var t := "&lt;" + rest;
    assert t[..4] == "&lt;" && t[4..] == rest;
    assert !HasPrefix(t, "&amp;") by {
      if |t| >= 5 {
        assert t[..5][1] == t[1] == 'l';
      }
    }
  }

  lemma UnescapeGt(rest: string)
    ensures Unescape("&gt;" + rest) == ">" + Unescape(rest)
  {
    var t := "&gt;" + rest;
    assert t[..4] == "&gt;" && t[4..] == rest;
    assert !HasPrefix(t, "&amp;") by {
      if |t| >= 5 {
        assert t[..5][1] == t[1] == 'g';
      }
    }
    assert !HasPrefix(t, "&lt;") by {
      assert t[..4][1] == t[1] == 'g';
    }
  }

  lemma UnescapePlain(c: char, rest: string)
    requires c != '&'
    ensures Unescape([c] + rest) == [c] + Unescape(rest)
  {
    var t := [c] + rest;
    assert t[0] == c && t[1..] == rest;
  }

  /** Decoding undoes the escape of one character, whatever follows it. */
  lemma UnescapeChar(c: char, rest: string)
    ensures Unescape(EscapeChar(c) + rest) == [c] + Unescape(rest)
  {
    if c == '&' {
      UnescapeAmp(rest);
    } else if c == '<' {
      UnescapeLt(rest);
    } else if c == '>' {
      UnescapeGt(rest);
    } else {
      UnescapePlain(c, rest);
    }
  }

  /** Escaping loses nothing: the original text is recovered from the escaped one. */
  lemma {:induction false} UnescapeEscape(s: string)
    ensures Unescape(Escape(s)) == s
    decreases |s|
  {
    EscapeIsOnePass(s);
    if s != [] {
      EscapeIsOnePass(s[1..]);
      UnescapeEscape(s[1..]);
      UnescapeChar(s[0], EscapeEach(s[1..]));
      assert s == [s[0]] + s[1..];
    }
  }

  /** Cutting a summary to `n` characters and marking the cut with "...". */
  function Truncated(s: string, n: nat): (r: string)
    ensures |s| <= n ==> r == s
    ensures |s| > n ==> |r| == n + 3 && HasPrefix(s, r[..n]) && r[n..] == "..."
    ensures |r| <= n + 3
  {
    if |s| > n then s[..n] + "..." else s
  }

  /** One PR link: `<url|PRn>` where n counts from 1. */
  function PRLink(url: string, n: int): string {
    "<" + url + "|PR" + IntToString(n) + ">"
  }

  /** The numbered links of all PRs, in order. */
  function PRLinks(prs: seq<string>): (r: seq<string>)
    ensures |r| == |prs|
  {
    seq(|prs|, i requires 0 <= i < |prs| => PRLink(prs[i], i + 1))
  }

  /** The PR field of an issue line: an en dash when there is no PR, else the links joined by spaces. */
  function PRField(prs: seq<string>): string {
    if prs == [] then "–" else Join(PRLinks(prs), " ")
  }

  lemma {:induction false} JoinStartsWith(parts: seq<string>, sep: string)
    requires parts != [] && parts[0] != []
    ensures Join(parts, sep) != [] && Join(parts, sep)[0] == parts[0][0]
  {
  }

  /** The en dash appears exactly when there are no PRs: a link list starts with `<`. */
  lemma PRFieldDash(prs: seq<string>)
    ensures PRField(prs) == "–" <==> prs == []
  {
    if prs != [] {
      JoinStartsWith(PRLinks(prs), " ");
      assert PRLinks(prs)[0][0] == '<';
    }
  }

  /** The PR-link loop shared by every issue line. */
  method FormatPRs(prs: seq<string>) returns (pr: string)
    ensures pr == PRField(prs)
  {
    pr := "–";
    if |prs| > 0 {
      var links: seq<string> := [];
      for i := 0 to |prs|
        invariant links == PRLinks(prs[..i])
      {
        links := links + [PRLink(prs[i], i + 1)];
      }
      assert prs[..|prs|] == prs;
      pr := Join(links, " ");
    }
  }

  /** The daily report's issue line (its format string, with the PR field already rendered). */
  function ReportLine(url: string, it: IssueItem, pr: string): string {
    "<" + url + "/browse/" + it.key + "|*" + it.key + "*> — " + Truncated(Escape(it.summary), 200)
    + "\nStatus: *" + it.status + "* | PR: " + pr
  }

  /** The slash command's bulleted issue line, with its own summary limit. */
  function ListLine(url: string, it: IssueItem, limit: nat, pr: string): string {
    "• <" + url + "/browse/" + it.key + "|*" + it.key + "*> — " + Truncated(Escape(it.summary), limit)
    + "\n   *Status:* " + it.status + "  |  *PR:* " + pr
  }
}
