/** The heuristic that decides whether a request comes from a script executor or
    from a browser, from its `User-Agent` and `Referer` headers. It is access
    gating by convention, not authentication: any client may send any header. */
module ClientGate {
  import opened JsText

  /** The words of the executor patterns `/synapse/i` … `/executor/i`, in order. */
  const ExecutorWords: seq<string> :=
    ["synapse", "krnl", "script-ware", "sentinel", "oxygen", "fluxus",
     "electron", "jjsploit", "exploit", "injector", "executor"]

  /** The words of the browser patterns `/chrome/i` … `/version/i`, in order. */
  const BrowserWords: seq<string> :=
    ["chrome", "firefox", "safari", "edge", "opera", "mozilla", "webkit", "gecko", "version"]

  /** An unrecognised agent shorter than this is let through even with a referer. */
  const ShortAgentLength := 50

  /** `words.some(w => /w/i.test(agent))`. With lower-case words, a
      case-insensitive test of `agent` is a plain search in its lower-case form. */
  predicate SomeMatches(words: seq<string>, agent: string) {
    exists k :: 0 <= k < |words| && Contains(Lower(agent), words[k])
  }

  /** The `isExecutor` decision: an executor word admits the request; otherwise
      a browser word refuses it; otherwise it is admitted when there is no
      referer or the agent string is short. */
  function IsExecutor(agent: string, referer: string): (allowed: bool)
    ensures !allowed ==> !SomeMatches(ExecutorWords, agent)
    ensures allowed ==> SomeMatches(ExecutorWords, agent) || referer == "" || |agent| < ShortAgentLength
  {
    SomeMatches(ExecutorWords, agent)
    || (!SomeMatches(BrowserWords, agent) && (referer == "" || |agent| < ShortAgentLength))
  }

  /** Every pattern word is already lower case, so searching the lower-cased agent
      for it is the same as the case-insensitive regular expression. */
  lemma PatternWordsAreLowercase()
    ensures forall k :: 0 <= k < |ExecutorWords| ==> Lower(ExecutorWords[k]) == ExecutorWords[k]
    ensures forall k :: 0 <= k < |BrowserWords| ==> Lower(BrowserWords[k]) == BrowserWords[k]
  {
    forall k | 0 <= k < |ExecutorWords|
      ensures Lower(ExecutorWords[k]) == ExecutorWords[k]
    {
      LowerFixesLowercase(ExecutorWords[k]);
    }
    forall k | 0 <= k < |BrowserWords|
      ensures Lower(BrowserWords[k]) == BrowserWords[k]
    {
      LowerFixesLowercase(BrowserWords[k]);
    }
  }

  /** `word` matches the agent case-insensitively at position `i`: each
      character of the agent there, lower-cased, is the word's character. */
  predicate WindowMatches(agent: string, word: string, i: int) {
    0 <= i && i + |word| <= |agent| && forall j :: 0 <= j < |word| ==> LowerChar(agent[i + j]) == word[j]
  }

  /** A pattern list matches exactly when one of its words occurs somewhere in
      the agent, ignoring the case of the agent's letters: the search in the
      lower-cased agent is the case-insensitive test. */
  lemma SomeMatchesIffCaseInsensitive(words: seq<string>, agent: string)
    ensures SomeMatches(words, agent) <==> exists k, i :: 0 <= k < |words| && WindowMatches(agent, words[k], i)
  {
    var lower := Lower(agent);
    forall k, i | 0 <= k < |words|
      ensures OccursAt(lower, words[k], i) <==> WindowMatches(agent, words[k], i)
    {
      if 0 <= i && i + |words[k]| <= |agent| {
        var window := lower[i..i + |words[k]|];
        assert forall j :: 0 <= j < |words[k]| ==> window[j] == LowerChar(agent[i + j]);
      }
    }
    forall k | 0 <= k < |words|
      ensures Contains(lower, words[k]) <==> exists i :: OccursAt(lower, words[k], i)
    {
      ContainsIffOccurs(lower, words[k]);
    }
  }

  /** An executor word anywhere in the agent, in any case, admits the request,
      whatever the referer and whatever browser words the agent also holds. */
  lemma ExecutorWordAdmits(agent: string, referer: string, word: string)
    requires word in ExecutorWords && Contains(Lower(agent), word)
    ensures IsExecutor(agent, referer)
  {
  }

  /** A browser word without any executor word refuses the request, whatever the referer. */
  lemma BrowserWordRefuses(agent: string, referer: string, word: string)
    requires word in BrowserWords && Contains(Lower(agent), word)
    requires forall e :: e in ExecutorWords ==> !Contains(Lower(agent), e)
    ensures !IsExecutor(agent, referer)
  {
  }

  /** An agent with neither kind of word is admitted exactly when the referer is
      empty or the agent is shorter than 50 characters. */
  lemma UnrecognisedAgentRule(agent: string, referer: string)
    requires !SomeMatches(ExecutorWords, agent) && !SomeMatches(BrowserWords, agent)
    ensures IsExecutor(agent, referer) <==> (referer == "" || |agent| < ShortAgentLength)
  {
  }

  /** The decision does not depend on the case of the agent string. */
  lemma IsExecutorIgnoresCase(agent1: string, agent2: string, referer: string)
    requires Lower(agent1) == Lower(agent2)
    ensures IsExecutor(agent1, referer) == IsExecutor(agent2, referer)
  {
  }
}
