/** `BuildSnippet`: the matched declarations cleaned up one by one, in order,
    and joined with one blank line between consecutive ones. */
module Snippets {
  import opened Wrappers
  import opened Text
  import opened Cleanup

  /** The failures an extraction can end in. */
  datatype SnippetError =
    /** A `SnippetExtractionException` with its message and detail text. */
    | SnippetExtraction(message: string, detail: string)
    /** The `ArgumentException` of `Ensure.That(nodes).HasItems()`. */
    | EmptyNodeList

  /** The text each matched declaration contributes, in match order. */
  function NodeTexts(nodes: seq<seq<string>>, mode: ExtractionMode, nl: string): (r: seq<string>)
    ensures |r| == |nodes|
  {
    seq(|nodes|, k requires 0 <= k < |nodes| => SnippetText(nodes[k], mode, nl))
  }

  /** The snippet for the matched declarations: an empty list is refused,
      otherwise the per-declaration texts separated by two line breaks. */
  function BuildSnippet(nodes: seq<seq<string>>, mode: ExtractionMode, nl: string): (r: Result<string, SnippetError>)
    ensures r.Failure? <==> |nodes| == 0
    ensures r.Failure? ==> r.error == EmptyNodeList
    ensures |nodes| == 1 ==> r == Success(SnippetText(nodes[0], mode, nl))
  {
    if |nodes| == 0 then Failure(EmptyNodeList)
    else Success(Join(NodeTexts(nodes, mode, nl), nl + nl))
  }

  /** Per-declaration texts of a concatenated match list. */
  lemma NodeTextsConcat(a: seq<seq<string>>, b: seq<seq<string>>, mode: ExtractionMode, nl: string)
    ensures NodeTexts(a + b, mode, nl) == NodeTexts(a, mode, nl) + NodeTexts(b, mode, nl)
  {
    var l, r := NodeTexts(a + b, mode, nl), NodeTexts(a, mode, nl) + NodeTexts(b, mode, nl);
    forall k | 0 <= k < |l|
      ensures l[k] == r[k]
    {
      if k < |a| {
        assert (a + b)[k] == a[k];
      } else {
        assert (a + b)[k] == b[k - |a|];
      }
    }
  }

  /** Splitting the match list anywhere splits the snippet at exactly one
      blank line: each declaration is cleaned independently of the others,
      and there is no separator before the first or after the last. */
  lemma BuildSnippetConcat(a: seq<seq<string>>, b: seq<seq<string>>, mode: ExtractionMode, nl: string)
    requires |a| > 0 && |b| > 0
    ensures BuildSnippet(a + b, mode, nl).value
         == BuildSnippet(a, mode, nl).value + nl + nl + BuildSnippet(b, mode, nl).value
  {
    NodeTextsConcat(a, b, mode, nl);
    JoinConcat(NodeTexts(a, mode, nl), NodeTexts(b, mode, nl), nl + nl);
  }
}
