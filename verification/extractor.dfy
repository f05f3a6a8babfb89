/** `Extract`: the entry point that turns a file and a member pattern into a
    snippet. The pattern parser, the syntax-trie builder and the trie matcher
    are not part of this model; they appear as the functions of a `Frontend`,
    and so does the whole-file extraction of the base class. */
module Extractor {
  import opened Wrappers
  import opened Text
  import opened Cleanup
  import opened Snippets

  /** A parsed member pattern: the chunks the trie is matched against and the
      extraction mode its prefix selects. */
  datatype Rule<Chunk> = Rule(chunks: seq<Chunk>, mode: ExtractionMode)

  /** The collaborators `Extract` calls, each either succeeding or failing
      with the error it raises:
      `wholeFile` is the base class's extraction for an empty pattern,
      `parse` turns a pattern into a rule, `loadTrie` reads and parses a file
      and builds its matching trie, and `matchRule` returns the line arrays
      of the matched declarations, or `None` when nothing matches. */
  datatype Frontend<!Chunk, !Trie> = Frontend(
    wholeFile: (string, Option<string>) -> Result<string, SnippetError>,
    parse: string -> Result<Rule<Chunk>, SnippetError>,
    loadTrie: string -> Result<Trie, SnippetError>,
    matchRule: (Trie, seq<Chunk>) -> Option<seq<seq<string>>>)

  /** The extractor's state: the lazily built matching trie, kept for every
      later call once built. */
  datatype State<Trie> = State(trie: Option<Trie>)

  /** `string.IsNullOrWhiteSpace` of the member pattern; `None` is `null`. */
  predicate IsBlankPattern(pattern: Option<string>) {
    pattern.None? || IsBlank(pattern.value)
  }

  /** The error raised when the trie has no match for the rule. */
  function NotFound(filePath: string, pattern: string): SnippetError {
    SnippetExtraction("Cannot find member", filePath + " " + pattern)
  }

  /** The trie `Extract` consults: the cached one, or a freshly loaded one. */
  function LoadedTrie<Chunk, Trie>(fe: Frontend<Chunk, Trie>, st: State<Trie>, filePath: string): (r: Result<Trie, SnippetError>)
    ensures st.trie.Some? ==> r == Success(st.trie.value)
  {
    if st.trie.Some? then Success(st.trie.value) else fe.loadTrie(filePath)
  }

  /** One call of `Extract`: the result (a snippet text or the error raised)
      and the extractor's state afterwards. */
  function Extract<Chunk, Trie>(fe: Frontend<Chunk, Trie>, st: State<Trie>, filePath: string,
                                pattern: Option<string>, nl: string)
    : (r: (Result<string, SnippetError>, State<Trie>))
    ensures st.trie.Some? ==> r.1 == st
    ensures r.1.trie.None? ==> r.1 == st
    ensures IsBlankPattern(pattern) ==> r == (fe.wholeFile(filePath, pattern), st)
  {
    if IsBlankPattern(pattern) then (fe.wholeFile(filePath, pattern), st)
    else
      match fe.parse(pattern.value)
      case Failure(e) => (Failure(e), st)
      case Success(rule) =>
        match LoadedTrie(fe, st, filePath)
        case Failure(e) => (Failure(e), st)
        case Success(trie) =>
          var cached := State(Some(trie));
          match fe.matchRule(trie, rule.chunks)
          case None => (Failure(NotFound(filePath, pattern.value)), cached)
          case Some(nodes) => (BuildSnippet(nodes, rule.mode, nl), cached)
  }

  /** For a non-blank pattern the call fails exactly when the pattern does not
      parse, the trie cannot be loaded, nothing matches, or the match is
      empty; otherwise it yields the snippet of the matched declarations in
      the parsed mode. */
  lemma ExtractOutcome<Chunk, Trie>(fe: Frontend<Chunk, Trie>, st: State<Trie>, filePath: string,
                                    pattern: string, nl: string)
    requires !IsBlank(pattern)
    ensures var r := Extract(fe, st, filePath, Some(pattern), nl).0;
      && (fe.parse(pattern).Failure? ==> r == Failure(fe.parse(pattern).error))
      && (fe.parse(pattern).Success? && LoadedTrie(fe, st, filePath).Failure? ==> r == Failure(LoadedTrie(fe, st, filePath).error))
      && (fe.parse(pattern).Success? && LoadedTrie(fe, st, filePath).Success? ==>
            var rule := fe.parse(pattern).value;
            var found := fe.matchRule(LoadedTrie(fe, st, filePath).value, rule.chunks);
            && (found.None? ==> r == Failure(NotFound(filePath, pattern)))
            && (found.Some? && |found.value| == 0 ==> r == Failure(EmptyNodeList))
            && (found.Some? && |found.value| > 0 ==> r.Success? && r.value == Join(NodeTexts(found.value, rule.mode, nl), nl + nl)))
  {
  }

  /** The trie is built at most once: after a call that reached the matching
      step, the state holds the trie it matched against, and a state that
      holds a trie never changes. */
  lemma ExtractCachesTrie<Chunk, Trie>(fe: Frontend<Chunk, Trie>, st: State<Trie>, filePath: string,
                                       pattern: string, nl: string)
    requires !IsBlank(pattern) && fe.parse(pattern).Success?
    ensures var (_, st') := Extract(fe, st, filePath, Some(pattern), nl);
      && (LoadedTrie(fe, st, filePath).Success? ==> st'.trie == Some(LoadedTrie(fe, st, filePath).value))
      && (LoadedTrie(fe, st, filePath).Failure? ==> st' == st && st.trie.None?)
  {
  }

  /** Repeating a call changes nothing: the second call returns what the
      first returned and leaves the state as the first left it. */
  lemma ExtractIsStable<Chunk, Trie>(fe: Frontend<Chunk, Trie>, st: State<Trie>, filePath: string,
                                     pattern: Option<string>, nl: string)
    ensures var (r1, st1) := Extract(fe, st, filePath, pattern, nl);
      Extract(fe, st1, filePath, pattern, nl) == (r1, st1)
  {
    if !IsBlankPattern(pattern) && fe.parse(pattern.value).Success? {
      ExtractCachesTrie(fe, st, filePath, pattern.value, nl);
    }
  }

  /** Once a trie is cached, a non-blank pattern is answered from it alone:
      neither the file path nor the loader changes whether the call succeeds
      or what snippet it returns. */
  lemma CachedTrieIgnoresFile<Chunk, Trie>(fe: Frontend<Chunk, Trie>, fe': Frontend<Chunk, Trie>,
                                           st: State<Trie>, file1: string, file2: string,
                                           pattern: string, nl: string)
    requires st.trie.Some? && !IsBlank(pattern)
    requires fe'.parse == fe.parse && fe'.matchRule == fe.matchRule
    ensures var r1 := Extract(fe, st, file1, Some(pattern), nl).0;
      var r2 := Extract(fe', st, file2, Some(pattern), nl).0;
      (r1.Success? <==> r2.Success?) && (r1.Success? ==> r1 == r2)
  {
  }
}
