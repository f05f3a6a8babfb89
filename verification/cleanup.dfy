/** The clean-up applied to the text of one matched declaration
    (`WriteAndCleanupSnippet`), as pure functions over the line array:
    choosing the first and last line to keep, the shared indentation to strip,
    and the lines each extraction mode emits. */
module Cleanup {
  import opened Wrappers
  import opened Text

  /** How much of a matched declaration is kept: everything, the body between
      the outer braces (pattern prefix `-`), or the signature with an elided
      body (pattern prefix `=`). */
  datatype ExtractionMode = Full | ContentOnly | BlockStructureOnly

  /** The line array after the mode's in-place edits, with the first (`start`)
      and last (`end`) line to emit; `start > end` selects nothing. */
  datatype Selection = Selection(lines: seq<string>, start: nat, end: int)
  {
    predicate Valid() {
      start <= |lines| && -1 <= end < |lines|
    }
  }

  /** The line that closes a block-structure-only snippet's elided body. */
  const Ellipsis: string := "    // ..."

  predicate HasOpen(s: string) { '{' in s }

  predicate HasClose(s: string) { '}' in s }

  /** The first index at or after `i` whose line satisfies `p`, or `|lines|`:
      a forward scan that steps over lines until one satisfies `p` or the
      array runs out. */
  function First(lines: seq<string>, p: string -> bool, i: nat): (r: nat)
    requires i <= |lines|
    ensures i <= r <= |lines|
    ensures r < |lines| ==> p(lines[r])
    decreases |lines| - i
  {
    if i == |lines| || p(lines[i]) then i else First(lines, p, i + 1)
  }

  /** No line before the one `First` finds satisfies `p`. */
  lemma {:induction false} FirstIsFirst(lines: seq<string>, p: string -> bool, i: nat)
    requires i <= |lines|
    ensures forall k :: i <= k < First(lines, p, i) ==> !p(lines[k])
    decreases |lines| - i
  {
    if i < |lines| && !p(lines[i]) {
      FirstIsFirst(lines, p, i + 1);
    }
  }

  /** The last index at or before `j` whose line satisfies `p`, or -1:
      a backward scan that steps over lines until one satisfies `p` or it
      passes the first line. */
  function Last(lines: seq<string>, p: string -> bool, j: int): (r: int)
    requires -1 <= j < |lines|
    ensures -1 <= r <= j
    ensures 0 <= r ==> p(lines[r])
    decreases j + 1
  {
    if j < 0 || p(lines[j]) then j else Last(lines, p, j - 1)
  }

  /** No line after the one `Last` finds satisfies `p`. */
  lemma {:induction false} LastIsLast(lines: seq<string>, p: string -> bool, j: int)
    requires -1 <= j < |lines|
    ensures forall k :: Last(lines, p, j) < k <= j ==> !p(lines[k])
    decreases j + 1
  {
    if 0 <= j && !p(lines[j]) {
      LastIsLast(lines, p, j - 1);
    }
  }

  /** Full and block-structure-only modes keep the lines from the first to
      the last one that is not whitespace only, unedited. */
  function SelectTrimmed(lines: seq<string>): (r: Selection)
    ensures r.Valid() && r.lines == lines
  {
    Selection(lines, First(lines, NotBlank, 0), Last(lines, NotBlank, |lines| - 1))
  }

  /** The text after the first `{` of a line that holds one. */
  function AfterOpen(line: string): (r: string)
    requires HasOpen(line)
  {
    line[IndexOf(line, '{') + 1..]
  }

  /** The text before the first `}` of a line that holds one, right-trimmed. */
  function BeforeClose(line: string): (r: string)
    requires HasClose(line)
  {
    IndexOfIsFirst(line, '}');
    TrimEnd(line[..IndexOf(line, '}')])
  }

  /** Content-only mode, the header: the first line holding `{` loses
      everything up to and including that brace, and the selection starts
      after it when only whitespace remains there and it is not the last line.
      Without any `{` the selection starts past the last line. */
  function SkipHeader(lines: seq<string>): (r: (seq<string>, nat))
    ensures |r.0| == |lines| && r.1 <= |lines|
  {
    var a := First(lines, HasOpen, 0);
    if a == |lines| then (lines, a)
    else
      var edited := lines[a := AfterOpen(lines[a])];
      (edited, if IsBlank(edited[a]) && |lines| > 1 + a then a + 1 else a)
  }

  /** Content-only mode, the footer: the last line holding `}` (in the array
      the header step already edited) loses everything from its first `}` on
      and is right-trimmed, and the selection ends before it when that leaves
      it blank. Without any `}` the selection ends before the first line. */
  function SkipFooter(lines: seq<string>): (r: (seq<string>, int))
    ensures |r.0| == |lines| && -1 <= r.1 < |lines|
  {
    var b := Last(lines, HasClose, |lines| - 1);
    if b < 0 then (lines, b)
    else
      var edited := lines[b := BeforeClose(lines[b])];
      (edited, if IsBlank(edited[b]) then b - 1 else b)
  }

  /** Content-only selection: the header step, then the footer step on its result. */
  function SelectContent(lines: seq<string>): (r: Selection)
    ensures r.Valid() && |r.lines| == |lines|
  {
    var (edited, start) := SkipHeader(lines);
    var (trimmed, end) := SkipFooter(edited);
    Selection(trimmed, start, end)
  }

  /** The selection of a mode, before indentation is removed. */
  function Select(lines: seq<string>, mode: ExtractionMode): (r: Selection)
    ensures r.Valid() && |r.lines| == |lines|
  {
    if mode == ContentOnly then SelectContent(lines) else SelectTrimmed(lines)
  }

  /** Smaller of a width and an optional width; `None` plays the role of the
      source's `int.MaxValue` starting value. */
  function MinWidth(w: nat, pad: Option<nat>): nat {
    match pad
    case None => w
    case Some(p) => if p < w then p else w
  }

  /** The indentation shared by the non-blank lines in `[start, j]`, or `None`
      when there is no such line (the source's `leftPadding` after the loop
      has run up to `j`). */
  function Padding(lines: seq<string>, start: nat, j: int): (r: Option<nat>)
    requires j < |lines|
    decreases j + 1
  {
    if j < start then None
    else
      var rest := Padding(lines, start, j - 1);
      if IsBlank(lines[j]) then rest else Some(MinWidth(LeadingWhitespace(lines[j]), rest))
  }

  /** A line with the shared indentation removed: lines no longer than the
      padding (blank ones) become empty. */
  function Dedent(line: string, pad: Option<nat>): string {
    match pad
    case None => ""
    case Some(p) => if |line| > p then line[p..] else ""
  }

  /** A line cut just after its first `{`. */
  function CutAfterOpen(line: string): (r: string)
    requires HasOpen(line)
  {
    line[..IndexOf(line, '{') + 1]
  }

  /** Whether the writing loop stops at this line: block-structure-only mode
      on a line that still holds `{` after de-indentation. */
  predicate Stops(line: string, pad: Option<nat>, mode: ExtractionMode) {
    mode == BlockStructureOnly && HasOpen(Dedent(line, pad))
  }

  /** What one selected line contributes: itself de-indented, or, where the
      loop stops, the line cut after its first `{` followed by the ellipsis
      and a closing brace. */
  function EmitLine(line: string, pad: Option<nat>, mode: ExtractionMode): (r: seq<string>)
    ensures 0 < |r|
  {
    var d := Dedent(line, pad);
    if Stops(line, pad, mode) then [CutAfterOpen(d), Ellipsis, "}"] else [d]
  }

  /** The lines emitted for `[i, end]`, up to and including the line where
      the loop stops. */
  function Emit(lines: seq<string>, i: nat, end: int, pad: Option<nat>, mode: ExtractionMode): seq<string>
    requires end < |lines|
    decreases end + 1 - i
  {
    if end < i then []
    else if Stops(lines[i], pad, mode) then EmitLine(lines[i], pad, mode)
    else EmitLine(lines[i], pad, mode) + Emit(lines, i + 1, end, pad, mode)
  }

  /** The lines `WriteAndCleanupSnippet` writes for one declaration; an empty
      line array writes nothing. */
  function CleanLines(lines: seq<string>, mode: ExtractionMode): (r: seq<string>)
    ensures |lines| == 0 ==> r == []
  {
    if |lines| == 0 then []
    else
      var sel := Select(lines, mode);
      Emit(sel.lines, sel.start, sel.end, Padding(sel.lines, sel.start, sel.end), mode)
  }

  /** The text written for one declaration. */
  function SnippetText(lines: seq<string>, mode: ExtractionMode, nl: string): string {
    Join(CleanLines(lines, mode), nl)
  }
}
