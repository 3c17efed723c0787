/** `map_agent_to_os` of log_parser.py: the operating-system label of a
    user-agent is the longest `;`-field of its first parenthesised comment that
    holds one of the configured tokens once lowercased. */
module LongestField {
  import opened Text

  /** `any(t in field.lower() for t in tokens)`: the field is lowercased, the
      tokens are taken as written. */
  predicate Matches(field: string, tokens: seq<string>) {
    ContainsAny(Lower(field), tokens)
  }

  /** The label the loop holds after visiting `fields` in order, starting from
      `''`: a matching field replaces it only when its stripped text is strictly
      longer, as `max([os, field.strip()], key=len)` keeps the first of equals. */
  function Longest(fields: seq<string>, tokens: seq<string>): string {
    if fields == [] then ""
    else
      var best := Longest(fields[..|fields| - 1], tokens);
      var field := fields[|fields| - 1];
      if Matches(field, tokens) && |Strip(field)| > |best| then Strip(field) else best
  }

  /** The label of `agent`: `''` when it has no parenthesised comment. */
  function AgentOs(agent: string, tokens: seq<string>): string {
    match FirstParen(agent)
    case None => ""
    case Some(comment) => Longest(Split(comment, ';'), tokens)
  }

  /** `map_agent_to_os(agent, pattern)`. */
  method MapAgentToOs(agent: string, tokens: seq<string>) returns (os: string)
    ensures os == AgentOs(agent, tokens)
  {
    os := "";
    var osInfo := FirstParen(agent);
    if osInfo.Some? {
      var fields := Split(osInfo.value, ';');
      for i := 0 to |fields|
        invariant os == Longest(fields[..i], tokens)
      {
        var field := fields[i];
        if ContainsAny(Lower(field), tokens) {
          var stripped := Strip(field);
          if |stripped| > |os| {
            os := stripped;
          }
        }
        assert fields[..i + 1][..i] == fields[..i];
      }
      assert fields[..|fields|] == fields;
    }
  }

  /** No matching field is longer, once stripped, than the label. */
  lemma {:induction false} LongestIsMaximal(fields: seq<string>, tokens: seq<string>)
    ensures forall i :: 0 <= i < |fields| && Matches(fields[i], tokens) ==>
              |Strip(fields[i])| <= |Longest(fields, tokens)|
  {
    if fields != [] {
      var n := |fields| - 1;
      var init := fields[..n];
      LongestIsMaximal(init, tokens);
      forall i | 0 <= i < |fields| && Matches(fields[i], tokens)
        ensures |Strip(fields[i])| <= |Longest(fields, tokens)|
      {
        if i < n {
          assert init[i] == fields[i];
        }
      }
    }
  }

  /** A non-empty label is the stripped text of a matching field, and of the
      first matching field that long: no earlier matching field is as long. */
  lemma {:induction false} LongestIsFirstOfLongest(fields: seq<string>, tokens: seq<string>)
    ensures var r := Longest(fields, tokens);
      r != [] ==> exists i :: 0 <= i < |fields| && Matches(fields[i], tokens) && Strip(fields[i]) == r
                     && forall k :: 0 <= k < i && Matches(fields[k], tokens) ==> |Strip(fields[k])| < |r|
  {
    if fields != [] {
      var init := fields[..|fields| - 1];
      var n := |fields| - 1;
      var r := Longest(fields, tokens);
      LongestIsFirstOfLongest(init, tokens);
      LongestIsMaximal(init, tokens);
      assert forall i :: 0 <= i < |init| ==> init[i] == fields[i];
      if r != Longest(init, tokens) {
        assert Matches(fields[n], tokens) && Strip(fields[n]) == r;
        assert forall k :: 0 <= k < n && Matches(fields[k], tokens) ==> |Strip(fields[k])| < |r|;
      } else if r != [] {
        var i :| 0 <= i < |init| && Matches(init[i], tokens) && Strip(init[i]) == r
                 && forall k :: 0 <= k < i && Matches(init[k], tokens) ==> |Strip(init[k])| < |r|;
        assert Matches(fields[i], tokens) && Strip(fields[i]) == r;
      }
    }
  }

  /** What the label of an agent is: `''` without a parenthesised comment, or
      without a matching field in it; otherwise the longest stripped matching
      field of the first comment, the earliest one among equally long ones. */
  lemma AgentOsSpec(agent: string, tokens: seq<string>)
    ensures FirstParen(agent).None? ==> AgentOs(agent, tokens) == ""
    ensures FirstParen(agent).Some? ==>
      var fields := Split(FirstParen(agent).value, ';');
      var r := AgentOs(agent, tokens);
      && (forall i :: 0 <= i < |fields| && Matches(fields[i], tokens) ==> |Strip(fields[i])| <= |r|)
      && ((forall i :: 0 <= i < |fields| ==> !Matches(fields[i], tokens)) ==> r == "")
      && (r != [] ==> exists i :: 0 <= i < |fields| && Matches(fields[i], tokens) && Strip(fields[i]) == r
                          && forall k :: 0 <= k < i && Matches(fields[k], tokens) ==> |Strip(fields[k])| < |r|)
  {
    if FirstParen(agent).Some? {
      var fields := Split(FirstParen(agent).value, ';');
      LongestIsMaximal(fields, tokens);
      LongestIsFirstOfLongest(fields, tokens);
    }
  }

  /** The label of an agent whose first comment is made of `fields`: the label of
      those fields, whatever text surrounds the comment. */
  lemma {:induction false} AgentOsOfComment(pre: string, fields: seq<string>, post: string, tokens: seq<string>)
    requires '(' !in pre && |fields| >= 1
    requires forall i :: 0 <= i < |fields| ==> ';' !in fields[i]
    requires ')' !in Join(fields, ';') && '\n' !in Join(fields, ';')
    ensures AgentOs(pre + "(" + Join(fields, ';') + ")" + post, tokens) == Longest(fields, tokens)
  {
    FirstParenOf(pre, Join(fields, ';'), post);
    SplitJoin(fields, ';');
  }

  lemma WindowsFieldLabel()
    ensures Longest(["Windows NT 10.0", " Win64", " x64"], ["windows"]) == "Windows NT 10.0"
  {
    var fields := ["Windows NT 10.0", " Win64", " x64"];
    var tokens := ["windows"];
    assert Lower(fields[0])[..7] == "windows";
    assert "windows" <= Lower(fields[0]);
    assert Contains(Lower(fields[0]), tokens[0]);
    assert Matches(fields[0], tokens);
    ContainsIff(Lower(fields[1]), "windows");
    ContainsIff(Lower(fields[2]), "windows");
    assert !Matches(fields[1], tokens) && !Matches(fields[2], tokens);
    StripUnpadded(fields[0]);
    assert fields[..2][..1] == fields[..1] && fields[..1][..0] == [];
    assert Longest(fields[..1], tokens) == "Windows NT 10.0";
    assert Longest(fields[..2], tokens) == "Windows NT 10.0";
    assert fields[..3] == fields;
  }

  /** `Mozilla/5.0 (Windows NT 10.0; Win64; x64)` with the token `windows`
      is labelled `Windows NT 10.0`, the one field that holds the token. */
  lemma WindowsExample()
    ensures AgentOs("Mozilla/5.0 " + "(" + ("Windows NT 10.0" + ";" + " Win64" + ";" + " x64") + ")",
                    ["windows"]) == "Windows NT 10.0"
  {
    var fields := ["Windows NT 10.0", " Win64", " x64"];
    var comment := "Windows NT 10.0" + ";" + " Win64" + ";" + " x64";
    assert Join(fields, ';') == comment;
    var agent := "Mozilla/5.0 " + "(" + comment + ")";
    assert agent == "Mozilla/5.0 " + "(" + comment + ")" + "";
    AgentOsOfComment("Mozilla/5.0 ", fields, "", ["windows"]);
    WindowsFieldLabel();
  }
}
