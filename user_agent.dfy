/** The user-agent heuristic that flags likely automated clients. */
module UserAgent {

  /** The `user-agent` request header, which a client may omit. */
  datatype Header = Absent | Present(value: string)

  /** The agent string the filter looks at: a missing header reads as empty. */
  function AgentOf(header: Header): (agent: string)
    ensures header.Absent? ==> agent == ""
    ensures header.Present? ==> agent == header.value
  {
    match header
    case Absent => ""
    case Present(v) => v
  }

  /** `sub` occurs in `s` starting at position `i`. */
  predicate OccursAt(s: string, sub: string, i: int) {
    0 <= i && i + |sub| <= |s| && s[i..i + |sub|] == sub
  }

  /** Substring search, as a string's `includes`: true exactly when `sub`
      occurs in `s` at some position. */
  function Contains(s: string, sub: string): (r: bool)
    ensures r <==> exists i :: OccursAt(s, sub, i)
    decreases |s|
  {
    if |s| < |sub| then false
    else if s[..|sub|] == sub then
      assert OccursAt(s, sub, 0);
      true
    else
      var r := Contains(s[1..], sub);
      assert forall i :: OccursAt(s[1..], sub, i) ==> OccursAt(s, sub, i + 1);
      assert forall i :: OccursAt(s, sub, i) ==> i >= 1 && OccursAt(s[1..], sub, i - 1);
      r
  }

  /** An agent is suspicious when it mentions "bot" (case-sensitively), is
      empty, or is shorter than ten characters. */
  predicate IsSuspicious(agent: string): (r: bool)
    ensures |agent| < 10 ==> r
    ensures Contains(agent, "bot") ==> r
    ensures !r ==> |agent| >= 10 && forall i :: !OccursAt(agent, "bot", i)
  {
    Contains(agent, "bot") || agent == "" || |agent| < 10
  }

  /** The pattern cannot occur where its first character does not. */
  lemma ContainsNeedsFirst(s: string, sub: string)
    requires |sub| > 0 && sub[0] !in s
    ensures !Contains(s, sub)
  {
  }

  /** The test for the empty agent adds nothing: an empty agent is already
      shorter than ten characters, so suspicion is "short or mentions bot". */
  lemma SuspiciousIff(agent: string)
    ensures agent == "" ==> |agent| < 10
    ensures IsSuspicious(agent) <==> |agent| < 10 || exists i :: OccursAt(agent, "bot", i)
  {
  }

  /** A request without the header is always suspicious. */
  lemma AbsentIsSuspicious()
    ensures IsSuspicious(AgentOf(Absent))
  {
  }

  /** The empty agent, a five-character one and one that mentions "bot" are
      flagged. */
  lemma FlaggedSamples()
    ensures IsSuspicious("")
    ensures IsSuspicious("short")
    ensures IsSuspicious("some-bot-agent")
  {
    assert OccursAt("some-bot-agent", "bot", 5);
  }

  /** A browser agent is let through. */
  lemma BrowserPasses()
    ensures !IsSuspicious("Mozilla/5.0 Firefox")
  {
    ContainsNeedsFirst("Mozilla/5.0 Firefox", "bot");
  }

  /** The match is case-sensitive: an agent that mentions "Bot" only with a
      capital letter is let through. */
  lemma CapitalBotPasses()
    ensures !IsSuspicious("Mozilla/5.0 BingBot")
  {
    ContainsNeedsFirst("Mozilla/5.0 BingBot", "bot");
  }
}
