/** `WriteAndCleanupSnippet` and `BuildSnippet` as the source writes them:
    loops over a mutable line array and a growing output string, each proved
    to write exactly the text of the functional model in `Cleanup`. */
module Writer {
  import opened Wrappers
  import opened Text
  import opened Cleanup
  import opened Snippets

  /** The scan for the first `{` and the edit of its line, with the source's
      defensive guards kept. */
  method SkipHeaderLines(lines: seq<string>) returns (ls: seq<string>, startPos: nat)
    ensures (ls, startPos) == SkipHeader(lines)
  {
    ls := lines;
    startPos := 0;
    while startPos < |ls| && !HasOpen(ls[startPos])
      invariant startPos <= |ls|
      invariant First(ls, HasOpen, startPos) == First(ls, HasOpen, 0)
    {
      startPos := startPos + 1;
    }
    if startPos < |ls| {
      var openingBracketPos := IndexOf(ls[startPos], '{');
      IndexOfIsFirst(ls[startPos], '{');
      if openingBracketPos >= 0 {
        if |ls[startPos]| > openingBracketPos {
          ls := ls[startPos := ls[startPos][openingBracketPos + 1..]];
        }
        if IsBlank(ls[startPos]) && |ls| > 1 + startPos {
          startPos := startPos + 1;
        }
      }
    }
  }

  /** The scan for the last `}` and the edit of its line, with the source's
      defensive guards kept (the last one, a bound check on the line
      count, always holds). */
  method SkipFooterLines(lines: seq<string>) returns (ls: seq<string>, endPos: int)
    ensures (ls, endPos) == SkipFooter(lines)
  {
    ls := lines;
    endPos := -1 + |ls|;
    while 0 <= endPos && !HasClose(ls[endPos])
      invariant -1 <= endPos < |ls|
      invariant Last(ls, HasClose, endPos) == Last(ls, HasClose, |ls| - 1)
    {
      endPos := endPos - 1;
    }
    if 0 <= endPos {
      var closingBracketPos := IndexOf(ls[endPos], '}');
      IndexOfIsFirst(ls[endPos], '}');
      if closingBracketPos >= 0 {
        if |ls[endPos]| > closingBracketPos {
          ls := ls[endPos := TrimEnd(ls[endPos][..closingBracketPos])];
        }
      }
      if IsBlank(ls[endPos]) && |ls| > -1 + endPos {
        endPos := endPos - 1;
      }
    }
  }

  /** Full and block-structure-only selection: skip blank lines at both ends. */
  method SelectTrimmedLines(lines: seq<string>) returns (startPos: nat, endPos: int)
    ensures Selection(lines, startPos, endPos) == SelectTrimmed(lines)
  {
    startPos := 0;
    while startPos < |lines| && IsBlank(lines[startPos])
      invariant startPos <= |lines|
      invariant First(lines, NotBlank, startPos) == First(lines, NotBlank, 0)
    {
      startPos := startPos + 1;
    }
    endPos := -1 + |lines|;
    while 0 <= endPos && IsBlank(lines[endPos])
      invariant -1 <= endPos < |lines|
      invariant Last(lines, NotBlank, endPos) == Last(lines, NotBlank, |lines| - 1)
    {
      endPos := endPos - 1;
    }
  }

  /** The indentation loop; `None` stands for the source's `int.MaxValue`. */
  method LeftPadding(ls: seq<string>, startPos: nat, endPos: int) returns (leftPadding: Option<nat>)
    requires startPos <= |ls| && endPos < |ls|
    ensures leftPadding == Padding(ls, startPos, endPos)
  {
    leftPadding := None;
    var i := startPos;
    while i <= endPos
      invariant startPos <= i <= |ls| && (i == startPos || i <= endPos + 1)
      invariant leftPadding == Padding(ls, startPos, i - 1)
    {
      if !IsBlank(ls[i]) {
        leftPadding := Some(MinWidth(LeadingWhitespace(ls[i]), leftPadding));
      }
      i := i + 1;
    }
  }

  /** One pass of the writing loop on one selected line: the text appended
      (nothing for a line no longer than the padding) and whether the loop
      stops there (block-structure-only mode, on a line holding `{`). */
  method WriteLine(source: string, leftPadding: Option<nat>, mode: ExtractionMode, nl: string)
    returns (line: string, stop: bool)
    ensures line == Join(EmitLine(source, leftPadding, mode), nl)
    ensures stop == Stops(source, leftPadding, mode)
  {
    line := "";
    stop := false;
    if leftPadding.Some? && |source| > leftPadding.value {
      line := source[leftPadding.value..];
      if mode == BlockStructureOnly {
        var openingBracketPos := IndexOf(line, '{');
        IndexOfIsFirst(line, '{');
        if openingBracketPos >= 0 {
          assert CutAfterOpen(line) == line[..1 + openingBracketPos];
          if |line| > openingBracketPos {
            line := line[..1 + openingBracketPos];
          }
          JoinThree(line, Ellipsis, "}", nl);
          line := line + nl + Ellipsis + nl + "}";
          stop := true;
        }
      }
    }
  }

  /** Emitting line `i` moves its lines from what remains to be written to
      what has been written. */
  lemma EmitAppend(written: seq<string>, ls: seq<string>, i: nat, end: int, pad: Option<nat>, mode: ExtractionMode)
    requires i <= end < |ls|
    ensures written + Emit(ls, i, end, pad, mode)
         == (written + EmitLine(ls[i], pad, mode))
            + (if Stops(ls[i], pad, mode) then [] else Emit(ls, i + 1, end, pad, mode))
  {
    var piece := EmitLine(ls[i], pad, mode);
    if Stops(ls[i], pad, mode) {
      assert written + piece == (written + piece) + [];
    } else {
      assert written + (piece + Emit(ls, i + 1, end, pad, mode))
          == (written + piece) + Emit(ls, i + 1, end, pad, mode);
    }
  }

  /** The writing loop: a line break before every selected line but the
      first, then the line itself; block-structure-only mode ends the loop
      early by moving `endPos` to the current line. */
  method WriteLines(ls: seq<string>, startPos: nat, end: int, leftPadding: Option<nat>, mode: ExtractionMode, nl: string)
    returns (text: string)
    requires end < |ls|
    ensures text == Join(Emit(ls, startPos, end, leftPadding, mode), nl)
  {
    text := "";
    var endPos := end;
    var firstLine := true;
    ghost var written: seq<string> := [];
    var i := startPos;
    while i <= endPos
      invariant startPos <= i && (i > startPos ==> i <= endPos + 1)
      invariant firstLine <==> i == startPos
      invariant i == startPos <==> written == []
      invariant text == Join(written, nl)
      invariant || (endPos == end && written + Emit(ls, i, end, leftPadding, mode) == Emit(ls, startPos, end, leftPadding, mode))
                || (endPos == i - 1 && written == Emit(ls, startPos, end, leftPadding, mode))
      decreases endPos + 1 - i
    {
      if !firstLine {
        text := text + nl;
      }
      var line, stop := WriteLine(ls[i], leftPadding, mode, nl);
      ghost var piece := EmitLine(ls[i], leftPadding, mode);
      JoinAppend(written, piece, nl);
      EmitAppend(written, ls, i, end, leftPadding, mode);
      written := written + piece;
      text := text + line;
      if stop {
        endPos := i;
      }
      firstLine := false;
      i := i + 1;
    }
    if endPos == end {
      assert Emit(ls, i, end, leftPadding, mode) == [];
      assert written + [] == written;
    }
  }

  /** Writes the cleaned-up lines of one declaration, separated by `nl`. */
  method WriteAndCleanupSnippet(lines: seq<string>, mode: ExtractionMode, nl: string) returns (text: string)
    ensures text == SnippetText(lines, mode, nl)
  {
    text := "";
    if 0 >= |lines| {
      return;
    }
    var ls := lines;
    var startPos, endPos;
    if mode == ContentOnly {
      var edited;
      edited, startPos := SkipHeaderLines(lines);
      ls, endPos := SkipFooterLines(edited);
    } else {
      startPos, endPos := SelectTrimmedLines(lines);
    }
    var leftPadding := LeftPadding(ls, startPos, endPos);
    text := WriteLines(ls, startPos, endPos, leftPadding, mode, nl);
  }

  /** One pass of the `BuildSnippet` loop: after the first declaration two
      line breaks, then the next declaration's text, extend the joined texts
      of the declarations before it to those of one more. */
  lemma BuildStep(texts: seq<string>, k: nat, nl: string, before: string, after: string)
    requires k < |texts|
    requires before == Join(texts[..k], nl + nl)
    requires after == (if k == 0 then before else before + nl + nl) + texts[k]
    ensures after == Join(texts[..k + 1], nl + nl)
  {
    assert texts[..k + 1] == texts[..k] + [texts[k]];
    JoinSnoc(texts[..k], texts[k], nl + nl);
    if k == 0 {
      assert "" + texts[k] == texts[k];
    } else {
      assert before + nl + nl == before + (nl + nl);
    }
  }

  /** `BuildSnippet` on a non-empty match list: the texts of the matched
      declarations joined with two line breaks. */
  method BuildSnippetText(nodes: seq<seq<string>>, mode: ExtractionMode, nl: string)
    returns (r: Result<string, SnippetError>)
    ensures r == BuildSnippet(nodes, mode, nl)
  {
    if |nodes| == 0 {
      return Failure(EmptyNodeList);
    }
    var text := JoinSnippets(nodes, mode, nl, NodeTexts(nodes, mode, nl));
    return Success(text);
  }

  /** The loop of `BuildSnippet`: two line breaks before every declaration
      but the first, then that declaration's cleaned-up text. The texts are
      named up front so that the loop speaks of them, not of how each one is
      computed. */
  method JoinSnippets(nodes: seq<seq<string>>, mode: ExtractionMode, nl: string, ghost texts: seq<string>)
    returns (text: string)
    requires |texts| == |nodes|
    requires forall k {:trigger SnippetText(nodes[k], mode, nl)} :: 0 <= k < |nodes| ==> texts[k] == SnippetText(nodes[k], mode, nl)
    ensures text == Join(texts, nl + nl)
  {
    text := "";
    var firstSnippet := true;
    var k := 0;
    while k < |nodes|
      invariant 0 <= k <= |nodes|
      invariant firstSnippet <==> k == 0
      invariant text == Join(texts[..k], nl + nl)
    {
      ghost var before := text;
      if !firstSnippet {
        text := text + nl;
        text := text + nl;
      }
      var part := WriteAndCleanupSnippet(nodes[k], mode, nl);
      text := text + part;
      BuildStep(texts, k, nl, before, text);
      firstSnippet := false;
      k := k + 1;
    }
    assert texts[..k] == texts;
  }
}
