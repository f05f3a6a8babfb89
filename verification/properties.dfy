/** What the clean-up guarantees, mode by mode: which lines are kept, how
    much indentation is removed, and where block-structure-only and
    content-only output is cut. */
module Properties {
  import opened Wrappers
  import opened Text
  import opened Cleanup

  /** The lines `[from, to)` with the padding removed, in order. */
  function Dedented(lines: seq<string>, from: nat, to: nat, pad: Option<nat>): seq<string>
    requires from <= to <= |lines|
  {
    seq(to - from, k requires 0 <= k < to - from => Dedent(lines[from + k], pad))
  }

  /** `[s, e]` is the range from the first to the last line that is not
      whitespace only. */
  predicate IsTrimmedRange(lines: seq<string>, s: nat, e: nat) {
    && s <= e < |lines|
    && NotBlank(lines[s]) && NotBlank(lines[e])
    && (forall k :: 0 <= k < s ==> IsBlank(lines[k]))
    && (forall k :: e < k < |lines| ==> IsBlank(lines[k]))
  }

  /** `pad` is the smallest indentation of a non-blank line in `[s, e]`, or
      `None` when every line there is blank. */
  predicate IsLeftPadding(lines: seq<string>, s: nat, e: int, pad: Option<nat>)
    requires e < |lines|
  {
    && (pad.None? <==> forall k :: s <= k <= e ==> IsBlank(lines[k]))
    && (pad.Some? ==> forall k :: s <= k <= e && NotBlank(lines[k]) ==> pad.value <= LeadingWhitespace(lines[k]))
    && (pad.Some? ==> exists k :: s <= k <= e && NotBlank(lines[k]) && pad.value == LeadingWhitespace(lines[k]))
  }

  // ---------------------------------------------------------------------
  // Indentation
  // ---------------------------------------------------------------------

  /** A line that is not whitespace only has a non-whitespace character just
      after its indentation. */
  lemma NotBlankIndent(line: string)
    requires NotBlank(line)
    ensures LeadingWhitespace(line) < |line|
    ensures !IsWhiteSpace(line[LeadingWhitespace(line)])
  {
    LeadingWhitespaceSpec(line);
  }

  /** Dropping part of the indentation shortens the indentation by as much. */
  lemma {:induction false} IndentShift(s: string, p: nat)
    requires p <= LeadingWhitespace(s)
    ensures LeadingWhitespace(s[p..]) == LeadingWhitespace(s) - p
    decreases p
  {
    if p > 0 {
      IndentShift(s[1..], p - 1);
      assert s[1..][p - 1..] == s[p..];
    }
  }

  /** Dropping `p` characters of a line indented by at least `p` keeps the
      rest of its indentation: relative indentation is preserved. */
  lemma DedentKeepsRelativeIndent(line: string, p: nat)
    requires NotBlank(line) && p <= LeadingWhitespace(line)
    ensures p < |line| && Dedent(line, Some(p)) == line[p..]
    ensures LeadingWhitespace(line[p..]) == LeadingWhitespace(line) - p
    ensures NotBlank(line[p..])
  {
    NotBlankIndent(line);
    IndentShift(line, p);
    var w := LeadingWhitespace(line);
    assert line[p..][w - p] == line[w];
  }

  /** `leftPadding` is the minimum indentation over the non-blank lines of the
      range, and it is absent exactly when every line there is blank. */
  lemma {:induction false} PaddingIsMinimum(lines: seq<string>, start: nat, j: int)
    requires j < |lines|
    ensures IsLeftPadding(lines, start, j, Padding(lines, start, j))
    decreases j + 1
  {
    if start <= j {
      PaddingIsMinimum(lines, start, j - 1);
    }
  }

  /** Every non-blank line of the range loses exactly the padding; one of them
      is left flush with the margin. */
  lemma PaddingDedent(lines: seq<string>, start: nat, end: int)
    requires end < |lines|
    ensures var pad := Padding(lines, start, end);
      forall k :: start <= k <= end && NotBlank(lines[k]) ==>
        && pad.Some? && pad.value < |lines[k]|
        && Dedent(lines[k], pad) == lines[k][pad.value..]
        && NotBlank(Dedent(lines[k], pad))
        && LeadingWhitespace(Dedent(lines[k], pad)) == LeadingWhitespace(lines[k]) - pad.value
    ensures var pad := Padding(lines, start, end);
      pad.Some? ==> exists k :: start <= k <= end && NotBlank(lines[k]) && LeadingWhitespace(Dedent(lines[k], pad)) == 0
  {
    var pad := Padding(lines, start, end);
    PaddingIsMinimum(lines, start, end);
    forall k | start <= k <= end && NotBlank(lines[k])
      ensures pad.Some? && pad.value < |lines[k]|
      ensures Dedent(lines[k], pad) == lines[k][pad.value..]
      ensures NotBlank(Dedent(lines[k], pad))
      ensures LeadingWhitespace(Dedent(lines[k], pad)) == LeadingWhitespace(lines[k]) - pad.value
    {
      DedentKeepsRelativeIndent(lines[k], pad.value);
    }
  }

  /** A blank line never holds `{`, and removing the padding (which is only
      whitespace on a non-blank line) neither adds nor removes one. */
  lemma StopsIffOpen(line: string, pad: Option<nat>)
    requires NotBlank(line) ==> pad.Some? && pad.value <= LeadingWhitespace(line)
    ensures Stops(line, pad, BlockStructureOnly) <==> HasOpen(line)
  {
    var d := Dedent(line, pad);
    if IsBlank(line) {
      assert !HasOpen(line);
      assert !HasOpen(d) by {
        if pad.Some? && |line| > pad.value {
          assert forall k :: 0 <= k < |d| ==> d[k] == line[pad.value + k];
        }
      }
    } else {
      DedentKeepsRelativeIndent(line, pad.value);
      LeadingWhitespaceSpec(line);
      if HasOpen(line) {
        var k :| 0 <= k < |line| && line[k] == '{';
        assert k >= pad.value;
        assert d[k - pad.value] == '{';
      }
      if HasOpen(d) {
        var k :| 0 <= k < |d| && d[k] == '{';
        assert line[pad.value + k] == '{';
      }
    }
  }

  // ---------------------------------------------------------------------
  // The writing loop
  // ---------------------------------------------------------------------

  /** A line where the loop does not stop is written de-indented and the
      loop goes on. */
  lemma EmitGoesOn(lines: seq<string>, i: nat, end: int, pad: Option<nat>, mode: ExtractionMode)
    requires i <= end < |lines| && !Stops(lines[i], pad, mode)
    ensures Emit(lines, i, end, pad, mode) == [Dedent(lines[i], pad)] + Emit(lines, i + 1, end, pad, mode)
  {
  }

  /** A line where the loop stops is written cut, followed by the ellipsis
      and the closing brace, and nothing comes after it. */
  lemma EmitEndsAt(lines: seq<string>, i: nat, end: int, pad: Option<nat>, mode: ExtractionMode)
    requires i <= end < |lines| && Stops(lines[i], pad, mode)
    ensures Emit(lines, i, end, pad, mode) == [CutAfterOpen(Dedent(lines[i], pad)), Ellipsis, "}"]
  {
  }

  lemma DedentedCons(lines: seq<string>, i: nat, j: nat, pad: Option<nat>)
    requires i < j <= |lines|
    ensures Dedented(lines, i, j, pad) == [Dedent(lines[i], pad)] + Dedented(lines, i + 1, j, pad)
  {
  }

  /** Where the loop never stops, every line of the range is written,
      de-indented, in order. */
  lemma {:induction false} EmitWithoutStop(lines: seq<string>, i: nat, end: int, pad: Option<nat>, mode: ExtractionMode)
    requires i <= end + 1 && end < |lines|
    requires forall k :: i <= k <= end ==> !Stops(lines[k], pad, mode)
    ensures Emit(lines, i, end, pad, mode) == Dedented(lines, i, end + 1, pad)
    decreases end + 1 - i
  {
    if i <= end {
      EmitWithoutStop(lines, i + 1, end, pad, mode);
      EmitGoesOn(lines, i, end, pad, mode);
      DedentedCons(lines, i, end + 1, pad);
    }
  }

  /** The loop stops at the first line where it can, after writing the
      preceding lines de-indented and the stopping line's cut, ellipsis and
      closing brace. */
  lemma EmitStopsAt(lines: seq<string>, i: nat, j: nat, end: int, pad: Option<nat>, mode: ExtractionMode)
    requires i <= j <= end < |lines|
    requires forall k :: i <= k < j ==> !Stops(lines[k], pad, mode)
    requires Stops(lines[j], pad, mode)
    ensures Emit(lines, i, end, pad, mode)
         == Dedented(lines, i, j, pad) + [CutAfterOpen(Dedent(lines[j], pad)), Ellipsis, "}"]
  {
    EmitPrefix(lines, i, j, end, pad, mode);
    EmitEndsAt(lines, j, end, pad, mode);
  }

  /** Lines where the loop does not stop are written de-indented, in front
      of whatever the loop writes from the next line on. */
  lemma {:induction false} EmitPrefix(lines: seq<string>, i: nat, j: nat, end: int, pad: Option<nat>, mode: ExtractionMode)
    requires i <= j <= end + 1 && end < |lines|
    requires forall k :: i <= k < j ==> !Stops(lines[k], pad, mode)
    ensures Emit(lines, i, end, pad, mode) == Dedented(lines, i, j, pad) + Emit(lines, j, end, pad, mode)
    decreases j - i
  {
    if i < j {
      EmitPrefix(lines, i + 1, j, end, pad, mode);
      EmitBeforeStop(lines, i, j, end, pad, mode, Emit(lines, j, end, pad, mode));
    } else {
      NothingBefore(lines, i, pad, Emit(lines, j, end, pad, mode));
    }
  }

  /** A line where the loop does not stop adds its de-indented self in front
      of what the loop writes from the next line on. */
  lemma EmitBeforeStop(lines: seq<string>, i: nat, j: nat, end: int, pad: Option<nat>, mode: ExtractionMode, rest: seq<string>)
    requires i < j <= end + 1 && end < |lines| && !Stops(lines[i], pad, mode)
    requires Emit(lines, i + 1, end, pad, mode) == Dedented(lines, i + 1, j, pad) + rest
    ensures Emit(lines, i, end, pad, mode) == Dedented(lines, i, j, pad) + rest
  {
    var head, d := [Dedent(lines[i], pad)], Dedented(lines, i + 1, j, pad);
    assert Emit(lines, i, end, pad, mode) == head + (d + rest) by {
      EmitGoesOn(lines, i, end, pad, mode);
    }
    assert Dedented(lines, i, j, pad) == head + d by {
      DedentedCons(lines, i, j, pad);
    }
    assert head + (d + rest) == (head + d) + rest;
  }

  lemma NothingBefore(lines: seq<string>, i: nat, pad: Option<nat>, rest: seq<string>)
    requires i <= |lines|
    ensures Dedented(lines, i, i, pad) + rest == rest
  {
    assert Dedented(lines, i, i, pad) == [];
  }

  // ---------------------------------------------------------------------
  // Selection
  // ---------------------------------------------------------------------

  /** A line satisfying `p` with none before it is the one `First` finds. */
  lemma FirstIs(lines: seq<string>, p: string -> bool, i: nat, r: nat)
    requires i <= r < |lines| && p(lines[r])
    requires forall k :: i <= k < r ==> !p(lines[k])
    ensures First(lines, p, i) == r
  {
    FirstIsFirst(lines, p, i);
  }

  /** A line satisfying `p` with none after it is the one `Last` finds. */
  lemma LastIs(lines: seq<string>, p: string -> bool, j: int, r: nat)
    requires r <= j < |lines| && p(lines[r])
    requires forall k :: r < k <= j ==> !p(lines[k])
    ensures Last(lines, p, j) == r
  {
    LastIsLast(lines, p, j);
  }

  /** Full and block-structure-only selection keeps exactly the range from
      the first to the last non-blank line, and selects nothing when every
      line is blank. */
  lemma TrimmedSelectionBounds(lines: seq<string>)
    ensures var sel := SelectTrimmed(lines);
      && ((exists k :: 0 <= k < |lines| && NotBlank(lines[k])) ==> sel.start <= sel.end && IsTrimmedRange(lines, sel.start, sel.end))
      && ((forall k :: 0 <= k < |lines| ==> IsBlank(lines[k])) ==> sel.start == |lines| && sel.end == -1)
  {
    FirstIsFirst(lines, NotBlank, 0);
    LastIsLast(lines, NotBlank, |lines| - 1);
  }

  /** The smallest indentation is unique. */
  lemma LeftPaddingUnique(lines: seq<string>, s: nat, e: int, p: Option<nat>, q: Option<nat>)
    requires e < |lines|
    requires IsLeftPadding(lines, s, e, p) && IsLeftPadding(lines, s, e, q)
    ensures p == q
  {
    if p.Some? && q.Some? {
      var k :| s <= k <= e && NotBlank(lines[k]) && p.value == LeadingWhitespace(lines[k]);
      var l :| s <= l <= e && NotBlank(lines[l]) && q.value == LeadingWhitespace(lines[l]);
    }
  }

  /** The selection of full and block-structure-only mode, in terms of the
      trimmed range: its padding is the smallest indentation there. */
  lemma TrimmedSelection(lines: seq<string>, s: nat, e: nat, m: nat)
    requires IsTrimmedRange(lines, s, e) && IsLeftPadding(lines, s, e, Some(m))
    ensures SelectTrimmed(lines) == Selection(lines, s, e)
    ensures Padding(lines, s, e) == Some(m)
  {
    FirstIsFirst(lines, NotBlank, 0);
    LastIsLast(lines, NotBlank, |lines| - 1);
    PaddingIsMinimum(lines, s, e);
    LeftPaddingUnique(lines, s, e, Padding(lines, s, e), Some(m));
  }

  /** Searching a suffix that starts before the first `c` finds the same
      `c`, shifted by the length of the dropped prefix. */
  lemma {:induction false} IndexOfAfter(line: string, p: nat, c: char)
    requires p <= |line| && c !in line[..p]
    ensures IndexOf(line[p..], c) == (if IndexOf(line, c) < 0 then -1 else IndexOf(line, c) - p)
    ensures 0 <= IndexOf(line, c) ==> p <= IndexOf(line, c)
    decreases p
  {
    if p > 0 {
      assert line[0] in line[..p];
      assert line[1..][..p - 1] == line[1..p];
      IndexOfAfter(line[1..], p - 1, c);
      assert line[1..][p - 1..] == line[p..];
    }
  }

  /** A whitespace-only text right-trims to nothing. */
  lemma TrimEndBlank(s: string)
    requires IsBlank(s)
    ensures TrimEnd(s) == ""
  {
    TrimEndSpec(s);
  }

  /** Any part of the indentation is whitespace only. */
  lemma IndentIsBlank(line: string, m: nat)
    requires m <= LeadingWhitespace(line)
    ensures IsBlank(line[..m])
  {
    LeadingWhitespaceSpec(line);
    assert forall k :: 0 <= k < m ==> line[..m][k] == line[k];
  }

  /** A whitespace-only text holds no character that is not whitespace. */
  lemma BlankHasNo(s: string, c: char)
    requires IsBlank(s) && !IsWhiteSpace(c)
    ensures c !in s
  {
  }

  /** A blank line stays blank when de-indented. */
  lemma DedentBlank(line: string, pad: Option<nat>)
    requires IsBlank(line)
    ensures IsBlank(Dedent(line, pad))
  {
    if pad.Some? && |line| > pad.value {
      assert forall k :: 0 <= k < |line| - pad.value ==> line[pad.value..][k] == line[pad.value + k];
    }
  }

  // ---------------------------------------------------------------------
  // The three modes
  // ---------------------------------------------------------------------

  /** Where every line is blank, full and block-structure-only mode write nothing. */
  lemma AllBlankWritesNothing(lines: seq<string>, mode: ExtractionMode)
    requires mode != ContentOnly
    requires forall k :: 0 <= k < |lines| ==> IsBlank(lines[k])
    ensures CleanLines(lines, mode) == []
  {
    TrimmedSelectionBounds(lines);
  }

  /** Full mode writes the trimmed range, every line with the smallest
      indentation removed. */
  lemma FullModeLines(lines: seq<string>, s: nat, e: nat, m: nat)
    requires IsTrimmedRange(lines, s, e) && IsLeftPadding(lines, s, e, Some(m))
    ensures CleanLines(lines, Full) == Dedented(lines, s, e + 1, Some(m))
    ensures |CleanLines(lines, Full)| == e - s + 1
  {
    CleanTrimmed(lines, Full, s, e, m);
    EmitWithoutStop(lines, s, e, Some(m), Full);
  }

  /** De-indenting by no more than the indentation of the non-blank lines
      keeps exactly those lines non-blank. */
  lemma DedentedKeepsBlankness(lines: seq<string>, s: nat, e: nat, m: nat)
    requires s <= e < |lines|
    requires forall k :: s <= k <= e && NotBlank(lines[k]) ==> m <= LeadingWhitespace(lines[k])
    ensures var out := Dedented(lines, s, e + 1, Some(m));
      forall k :: 0 <= k < |out| ==> (NotBlank(out[k]) <==> NotBlank(lines[s + k]))
  {
    var out := Dedented(lines, s, e + 1, Some(m));
    forall k | 0 <= k < |out|
      ensures NotBlank(out[k]) <==> NotBlank(lines[s + k])
    {
      if IsBlank(lines[s + k]) {
        DedentBlank(lines[s + k], Some(m));
      } else {
        DedentKeepsRelativeIndent(lines[s + k], m);
      }
    }
  }

  /** Full-mode output starts and ends with a non-blank line, and its
      smallest indentation is zero. */
  lemma FullModeOutputIsTrimmed(lines: seq<string>, s: nat, e: nat, m: nat)
    requires IsTrimmedRange(lines, s, e) && IsLeftPadding(lines, s, e, Some(m))
    ensures var out := Dedented(lines, s, e + 1, Some(m));
      IsTrimmedRange(out, 0, |out| - 1) && IsLeftPadding(out, 0, |out| - 1, Some(0))
  {
    var out := Dedented(lines, s, e + 1, Some(m));
    DedentedKeepsBlankness(lines, s, e, m);
    assert IsTrimmedRange(out, 0, |out| - 1);
    var k0 :| s <= k0 <= e && NotBlank(lines[k0]) && m == LeadingWhitespace(lines[k0]);
    FlushLine(lines, s, e, m, k0);
  }

  /** The line whose indentation is the padding ends up flush with the margin. */
  lemma FlushLine(lines: seq<string>, s: nat, e: nat, m: nat, k0: nat)
    requires s <= k0 <= e < |lines| && NotBlank(lines[k0]) && m == LeadingWhitespace(lines[k0])
    ensures var out := Dedented(lines, s, e + 1, Some(m));
      NotBlank(out[k0 - s]) && LeadingWhitespace(out[k0 - s]) == 0
  {
    DedentKeepsRelativeIndent(lines[k0], m);
  }

  /** Removing no indentation leaves every line as it is. */
  lemma DedentNothing(lines: seq<string>)
    ensures Dedented(lines, 0, |lines|, Some(0)) == lines
  {
    forall k | 0 <= k < |lines|
      ensures Dedent(lines[k], Some(0)) == lines[k]
    {
      assert |lines[k]| == 0 || lines[k][0..] == lines[k];
    }
  }

  /** Full-mode output is already clean: cleaning it again changes nothing. */
  lemma FullModeIsIdempotent(lines: seq<string>)
    ensures CleanLines(CleanLines(lines, Full), Full) == CleanLines(lines, Full)
  {
    if forall k :: 0 <= k < |lines| ==> IsBlank(lines[k]) {
      AllBlankWritesNothing(lines, Full);
    } else {
      TrimmedSelectionBounds(lines);
      var sel := SelectTrimmed(lines);
      var s: nat, e: nat := sel.start, sel.end;
      PaddingIsMinimum(lines, s, e);
      var m := Padding(lines, s, e).value;
      CleanTwice(lines, s, e, m);
    }
  }

  /** Cleaning the lines of a trimmed range with padding `m` once more
      leaves them as they are. */
  lemma CleanTwice(lines: seq<string>, s: nat, e: nat, m: nat)
    requires IsTrimmedRange(lines, s, e) && IsLeftPadding(lines, s, e, Some(m))
    ensures CleanLines(CleanLines(lines, Full), Full) == CleanLines(lines, Full)
  {
    var out := Dedented(lines, s, e + 1, Some(m));
    assert CleanLines(lines, Full) == out by {
      FullModeLines(lines, s, e, m);
    }
    FullModeOutputIsTrimmed(lines, s, e, m);
    CleanFlush(out);
  }

  /** Lines already trimmed and flush with the margin are written as they are. */
  lemma CleanFlush(out: seq<string>)
    requires |out| > 0
    requires IsTrimmedRange(out, 0, |out| - 1) && IsLeftPadding(out, 0, |out| - 1, Some(0))
    ensures CleanLines(out, Full) == out
  {
    FullModeLines(out, 0, |out| - 1, 0);
    DedentNothing(out);
  }

  /** The first `{` of a line lies past any part of its indentation, and
      removing that part shifts it left by as much. */
  lemma OpenAfterIndent(line: string, m: nat)
    requires HasOpen(line) && m <= LeadingWhitespace(line)
    ensures m <= IndexOf(line, '{') && IndexOf(line[m..], '{') == IndexOf(line, '{') - m
  {
    IndexOfIsFirst(line, '{');
    IndentIsBlank(line, m);
    BlankHasNo(line[..m], '{');
    IndexOfAfter(line, m, '{');
  }

  /** A line holding `{`, de-indented and cut after its first `{`, is the
      text between the padding and that brace. */
  lemma CutDedented(line: string, m: nat)
    requires HasOpen(line) && m <= LeadingWhitespace(line)
    ensures NotBlank(line)
    ensures m <= IndexOf(line, '{')
    ensures HasOpen(Dedent(line, Some(m)))
    ensures CutAfterOpen(Dedent(line, Some(m))) == line[m..IndexOf(line, '{') + 1]
  {
    IndexOfIsFirst(line, '{');
    var c := IndexOf(line, '{');
    OpenAfterIndent(line, m);
    assert NotBlank(line) by {
      assert line[c] == '{';
    }
    var d := line[m..];
    assert Dedent(line, Some(m)) == d;
    CutAt(d, c - m);
    assert d[..c - m + 1] == line[m..c + 1];
  }

  /** A line whose first `{` is at `k` holds one and is cut just after `k`. */
  lemma CutAt(d: string, k: nat)
    requires k < |d| && IndexOf(d, '{') == k
    ensures HasOpen(d) && CutAfterOpen(d) == d[..k + 1]
  {
    assert d[k] == '{';
  }

  /** Full and block-structure-only mode write the loop's lines over the
      trimmed range, with its smallest indentation as padding. */
  lemma CleanTrimmed(lines: seq<string>, mode: ExtractionMode, s: nat, e: nat, m: nat)
    requires mode != ContentOnly
    requires IsTrimmedRange(lines, s, e) && IsLeftPadding(lines, s, e, Some(m))
    ensures CleanLines(lines, mode) == Emit(lines, s, e, Some(m), mode)
  {
    TrimmedSelection(lines, s, e, m);
  }

  /** Under the smallest indentation as padding, the loop stops at no line of
      the trimmed range before `j` when none of them holds `{`. */
  lemma NoStopBefore(lines: seq<string>, s: nat, e: nat, m: nat, j: nat)
    requires s <= j <= e + 1 && e < |lines|
    requires forall k :: s <= k <= e && NotBlank(lines[k]) ==> m <= LeadingWhitespace(lines[k])
    requires forall k :: s <= k < j ==> !HasOpen(lines[k])
    ensures forall k :: s <= k < j ==> !Stops(lines[k], Some(m), BlockStructureOnly)
  {
    forall k | s <= k < j
      ensures !Stops(lines[k], Some(m), BlockStructureOnly)
    {
      StopsIffOpen(lines[k], Some(m));
    }
  }

  /** Block-structure-only mode writes the trimmed range de-indented up to the
      first line holding `{`, which it cuts just after that brace and follows
      with the ellipsis and a closing brace. */
  lemma BlockStructureOnlyCut(lines: seq<string>, s: nat, e: nat, m: nat, j: nat)
    requires IsTrimmedRange(lines, s, e) && IsLeftPadding(lines, s, e, Some(m))
    requires s <= j <= e && HasOpen(lines[j])
    requires forall k :: s <= k < j ==> !HasOpen(lines[k])
    ensures m <= IndexOf(lines[j], '{')
    ensures CleanLines(lines, BlockStructureOnly)
         == Dedented(lines, s, j, Some(m)) + [lines[j][m..IndexOf(lines[j], '{') + 1], Ellipsis, "}"]
  {
    var line := lines[j];
    assert NotBlank(line) by {
      IndexOfIsFirst(line, '{');
      assert line[IndexOf(line, '{')] == '{';
    }
    CutDedented(line, m);
    CleanTrimmed(lines, BlockStructureOnly, s, e, m);
    EmitCutAt(lines, s, e, m, j);
  }

  /** Block-structure-only mode de-indents by the padding of the whole
      trimmed range, lines after the first `{` included, although it never
      writes them. So no written line of the declaration need be flush with
      the margin: here a `#if` at the margin inside the body keeps the
      signature and its `{` indented, while the added `}` is not. */
  lemma BlockStructureOnlyPaddingSpansBody(lines: seq<string>)
    requires lines == ["    void F()", "    {", "#if X", "    }"]
    ensures CleanLines(lines, BlockStructureOnly) == [lines[0], lines[1], Ellipsis, "}"]
    ensures LeadingWhitespace(lines[0]) == 4 && LeadingWhitespace(lines[1]) == 4
  {
    ExampleRange(lines);
    ExampleOpen(lines);
    StopsAtSecondLine(lines);
  }

  /** Block-structure-only output of four trimmed lines at padding 0 whose
      first `{` ends the second line. */
  lemma StopsAtSecondLine(lines: seq<string>)
    requires |lines| == 4 && IsTrimmedRange(lines, 0, 3) && IsLeftPadding(lines, 0, 3, Some(0))
    requires HasOpen(lines[1]) && !HasOpen(lines[0]) && IndexOf(lines[1], '{') == |lines[1]| - 1
    ensures CleanLines(lines, BlockStructureOnly) == [lines[0], lines[1], Ellipsis, "}"]
  {
    assert CleanLines(lines, BlockStructureOnly) == Emit(lines, 0, 3, Some(0), BlockStructureOnly) by {
      CleanTrimmed(lines, BlockStructureOnly, 0, 3, 0);
    }
    EmitSecondLine(lines);
  }

  /** The writing loop at padding 0 writes the first line as it is and stops
      at the second, which ends in its first `{`. */
  lemma EmitSecondLine(lines: seq<string>)
    requires |lines| == 4 && HasOpen(lines[1]) && !HasOpen(lines[0]) && IndexOf(lines[1], '{') == |lines[1]| - 1
    ensures Emit(lines, 0, 3, Some(0), BlockStructureOnly) == [lines[0], lines[1], Ellipsis, "}"]
  {
    DedentZero(lines[0]);
    DedentZero(lines[1]);
    EmitGoesOn(lines, 0, 3, Some(0), BlockStructureOnly);
    EmitEndsAt(lines, 1, 3, Some(0), BlockStructureOnly);
    CutAt(lines[1], |lines[1]| - 1);
    assert lines[1][..|lines[1]|] == lines[1];
  }

  /** A padding of 0 leaves a line as it is. */
  lemma DedentZero(line: string)
    ensures Dedent(line, Some(0)) == line
  {
    assert |line| == 0 || line[0..] == line;
  }

  /** The example's trimmed range is all four lines, padded by the `#if`. */
  lemma ExampleRange(lines: seq<string>)
    requires lines == ["    void F()", "    {", "#if X", "    }"]
    ensures IsTrimmedRange(lines, 0, 3) && IsLeftPadding(lines, 0, 3, Some(0))
    ensures LeadingWhitespace(lines[0]) == 4 && LeadingWhitespace(lines[1]) == 4
  {
    IndentedLine(lines[0]);
    IndentedLine(lines[1]);
    IndentedLine(lines[3]);
    MarginLine(lines[2]);
    FlushInside(lines, 2);
  }

  /** The example's indented lines start with four spaces. */
  lemma IndentedLine(line: string)
    requires line == "    void F()" || line == "    {" || line == "    }"
    ensures LeadingWhitespace(line) == 4 && NotBlank(line)
  {
    IndentedBy(line, 4);
  }

  /** The example's `#if` line is at the margin. */
  lemma MarginLine(line: string)
    requires line == "#if X"
    ensures LeadingWhitespace(line) == 0 && NotBlank(line)
  {
    IndentedBy(line, 0);
  }

  /** Lines whose first and last are not blank form their own trimmed
      range, and a non-blank line at the margin makes the padding 0. */
  lemma FlushInside(lines: seq<string>, k0: nat)
    requires k0 < |lines| && NotBlank(lines[k0]) && LeadingWhitespace(lines[k0]) == 0
    requires NotBlank(lines[0]) && NotBlank(lines[|lines| - 1])
    ensures IsTrimmedRange(lines, 0, |lines| - 1) && IsLeftPadding(lines, 0, |lines| - 1, Some(0))
  {
  }

  /** The example's first `{` is on its second line, after four spaces. */
  lemma ExampleOpen(lines: seq<string>)
    requires lines == ["    void F()", "    {", "#if X", "    }"]
    ensures HasOpen(lines[1]) && !HasOpen(lines[0]) && IndexOf(lines[1], '{') == |lines[1]| - 1
  {
    assert lines[1][4] == '{';
    IndexOfIsFirst(lines[1], '{');
  }

  /** A line made of `n` whitespace characters and then a non-whitespace one
      is indented by `n` and is not blank. */
  lemma IndentedBy(s: string, n: nat)
    requires n < |s| && (forall i :: 0 <= i < n ==> IsWhiteSpace(s[i])) && !IsWhiteSpace(s[n])
    ensures LeadingWhitespace(s) == n && NotBlank(s)
  {
    LeadingWhitespaceSpec(s);
  }

  /** Under a padding no wider than any non-blank line's indentation, the
      loop stops at the first line holding `{`. */
  lemma EmitCutAt(lines: seq<string>, s: nat, e: nat, m: nat, j: nat)
    requires s <= j <= e < |lines|
    requires forall k :: s <= k <= e && NotBlank(lines[k]) ==> m <= LeadingWhitespace(lines[k])
    requires forall k :: s <= k < j ==> !HasOpen(lines[k])
    requires Stops(lines[j], Some(m), BlockStructureOnly)
    ensures Emit(lines, s, e, Some(m), BlockStructureOnly)
         == Dedented(lines, s, j, Some(m)) + [CutAfterOpen(Dedent(lines[j], Some(m))), Ellipsis, "}"]
  {
    NoStopBefore(lines, s, e, m, j);
    EmitStopsAt(lines, s, j, e, Some(m), BlockStructureOnly);
  }

  /** Without a `{` in the trimmed range, block-structure-only mode writes
      what full mode writes. */
  lemma BlockStructureOnlyWithoutOpen(lines: seq<string>, s: nat, e: nat, m: nat)
    requires IsTrimmedRange(lines, s, e) && IsLeftPadding(lines, s, e, Some(m))
    requires forall k :: s <= k <= e ==> !HasOpen(lines[k])
    ensures CleanLines(lines, BlockStructureOnly) == CleanLines(lines, Full)
  {
    CleanTrimmed(lines, BlockStructureOnly, s, e, m);
    NoStopBefore(lines, s, e, m, e + 1);
    EmitWithoutStop(lines, s, e, Some(m), BlockStructureOnly);
    FullModeLines(lines, s, e, m);
  }

  /** Content-only mode on a declaration without any `{` writes nothing. */
  lemma ContentOnlyWithoutOpen(lines: seq<string>)
    requires forall k :: 0 <= k < |lines| ==> !HasOpen(lines[k])
    ensures CleanLines(lines, ContentOnly) == []
  {
    FirstIsFirst(lines, HasOpen, 0);
  }

  /** The first `{` of the declaration is on line `a` and its last `}` on
      line `b`. */
  predicate BracesAt(lines: seq<string>, a: nat, b: nat) {
    && a < |lines| && b < |lines|
    && HasOpen(lines[a]) && (forall k :: 0 <= k < a ==> !HasOpen(lines[k]))
    && HasClose(lines[b]) && (forall k :: b < k < |lines| ==> !HasClose(lines[k]))
  }

  /** The lines once content-only mode has cut line `a` after its first `{`
      and line `b` before its first `}` (right-trimmed). */
  function Body(lines: seq<string>, a: nat, b: nat): (r: seq<string>)
    requires BracesAt(lines, a, b) && a < b
    ensures |r| == |lines|
  {
    lines[a := AfterOpen(lines[a])][b := BeforeClose(lines[b])]
  }

  /** The first line content-only mode keeps: line `a`, unless nothing but
      whitespace follows its `{`. */
  function BodyStart(lines: seq<string>, a: nat, b: nat): nat
    requires BracesAt(lines, a, b) && a < b
  {
    if IsBlank(AfterOpen(lines[a])) then a + 1 else a
  }

  /** The last line content-only mode keeps: line `b`, unless nothing but
      whitespace precedes its `}`. */
  function BodyEnd(lines: seq<string>, a: nat, b: nat): int
    requires BracesAt(lines, a, b) && a < b
  {
    if IsBlank(BeforeClose(lines[b])) then b - 1 else b
  }

  /** The header step of content-only mode when line `a` holds the first `{`. */
  lemma ContentHeader(lines: seq<string>, a: nat)
    requires a < |lines| && HasOpen(lines[a]) && forall k :: 0 <= k < a ==> !HasOpen(lines[k])
    ensures SkipHeader(lines)
         == (lines[a := AfterOpen(lines[a])], if IsBlank(AfterOpen(lines[a])) && a + 1 < |lines| then a + 1 else a)
  {
    FirstIs(lines, HasOpen, 0, a);
  }

  /** The footer step of content-only mode when line `b` holds the last `}`. */
  lemma ContentFooter(lines: seq<string>, b: nat)
    requires b < |lines| && HasClose(lines[b]) && forall k :: b < k < |lines| ==> !HasClose(lines[k])
    ensures SkipFooter(lines)
         == (lines[b := BeforeClose(lines[b])], if IsBlank(BeforeClose(lines[b])) then b - 1 else b)
  {
    LastIs(lines, HasClose, |lines| - 1, b);
  }

  /** The content-only selection when the first `{` is on an earlier line
      than the last `}`. */
  lemma ContentSelection(lines: seq<string>, a: nat, b: nat)
    requires BracesAt(lines, a, b) && a < b
    ensures SelectContent(lines) == Selection(Body(lines, a, b), BodyStart(lines, a, b), BodyEnd(lines, a, b))
  {
    var edited := lines[a := AfterOpen(lines[a])];
    ContentHeader(lines, a);
    assert edited[b] == lines[b];
    ContentFooter(edited, b);
  }

  /** What a declaration's lines become once the selection of its mode is known. */
  lemma CleanSelected(lines: seq<string>, mode: ExtractionMode, sel: Selection)
    requires |lines| > 0 && Select(lines, mode) == sel
    ensures sel.Valid()
    ensures CleanLines(lines, mode) == Emit(sel.lines, sel.start, sel.end, Padding(sel.lines, sel.start, sel.end), mode)
  {
  }

  /** A selection that starts after it ends writes nothing. */
  lemma CleanSelectedNothing(lines: seq<string>, mode: ExtractionMode, sel: Selection)
    requires Select(lines, mode) == sel && sel.end < sel.start
    ensures CleanLines(lines, mode) == []
  {
  }

  /** Outside block-structure-only mode every line is written de-indented. */
  lemma NeverStops(lines: seq<string>, i: nat, end: int, pad: Option<nat>, mode: ExtractionMode)
    requires i <= end + 1 && end < |lines| && mode != BlockStructureOnly
    ensures Emit(lines, i, end, pad, mode) == Dedented(lines, i, end + 1, pad)
  {
    EmitWithoutStop(lines, i, end, pad, mode);
  }

  /** Content-only mode on a declaration whose first `{` is on line `a` and
      whose last `}` is on a later line `b`: everything up to that `{` and
      from the first `}` of line `b` on is dropped, so are those two lines
      when nothing else is left on them, and what remains is de-indented by
      its own smallest indentation (every line is written empty when all of
      it is blank). `body` is the declaration with both cut lines edited,
      and `s` and `e` are its first and last written line. */
  lemma ContentOnlyLines(lines: seq<string>, a: nat, b: nat, body: seq<string>, s: nat, e: int, pad: Option<nat>)
    requires BracesAt(lines, a, b) && a < b
    requires body == Body(lines, a, b) && s == BodyStart(lines, a, b) && e == BodyEnd(lines, a, b)
    requires IsLeftPadding(body, s, e, pad)
    ensures CleanLines(lines, ContentOnly) == Dedented(body, s, e + 1, pad)
  {
    ContentSelection(lines, a, b);
    PaddingIs(body, s, e, pad);
    ContentCleanAs(lines, body, s, e, pad);
  }

  /** Content-only mode writes its selection de-indented, because it never
      stops early. */
  lemma ContentCleanAs(lines: seq<string>, body: seq<string>, s: nat, e: int, pad: Option<nat>)
    requires |lines| > 0 && SelectContent(lines) == Selection(body, s, e)
    requires s <= e + 1 && e < |body| && Padding(body, s, e) == pad
    ensures CleanLines(lines, ContentOnly) == Dedented(body, s, e + 1, pad)
  {
    assert CleanLines(lines, ContentOnly) == Emit(body, s, e, pad, ContentOnly) by {
      CleanSelected(lines, ContentOnly, Selection(body, s, e));
    }
    NeverStops(body, s, e, pad, ContentOnly);
  }

  /** `Padding` is the one value meeting `IsLeftPadding`. */
  lemma PaddingIs(lines: seq<string>, s: nat, e: int, pad: Option<nat>)
    requires e < |lines| && IsLeftPadding(lines, s, e, pad)
    ensures Padding(lines, s, e) == pad
  {
    PaddingIsMinimum(lines, s, e);
    LeftPaddingUnique(lines, s, e, Padding(lines, s, e), pad);
  }

  /** Content-only mode on a declaration whose first `{` ends a line, after
      only whitespace, and whose last `}` starts the next one, after only
      whitespace, writes nothing. */
  lemma ContentOnlyEmptyBody(lines: seq<string>, a: nat)
    requires BracesAt(lines, a, a + 1)
    requires IsBlank(AfterOpen(lines[a])) && IsBlank(BeforeClose(lines[a + 1]))
    ensures CleanLines(lines, ContentOnly) == []
  {
    ContentSelection(lines, a, a + 1);
    CleanSelectedNothing(lines, ContentOnly, SelectContent(lines));
  }

  /** Content-only mode on a declaration whose first `{` is followed, on the
      same line and after only whitespace, by its last `}` (a body `{ }`)
      writes nothing. */
  lemma ContentOnlyEmptyBraces(lines: seq<string>, a: nat)
    requires BracesAt(lines, a, a)
    requires IndexOf(lines[a], '{') < IndexOf(lines[a], '}')
    requires IsBlank(lines[a][IndexOf(lines[a], '{') + 1..IndexOf(lines[a], '}')])
    ensures CleanLines(lines, ContentOnly) == []
  {
    EmptyBracesSelection(lines, a);
    CleanSelectedNothing(lines, ContentOnly, SelectContent(lines));
  }

  /** On a body `{ }` the footer step ends the selection before the line
      the header step starts it at. */
  lemma EmptyBracesSelection(lines: seq<string>, a: nat)
    requires BracesAt(lines, a, a)
    requires IndexOf(lines[a], '{') < IndexOf(lines[a], '}')
    requires IsBlank(lines[a][IndexOf(lines[a], '{') + 1..IndexOf(lines[a], '}')])
    ensures SelectContent(lines).end < SelectContent(lines).start
  {
    BeforeCloseAfterOpen(lines[a]);
    ContentHeader(lines, a);
    EmptyBracesFooter(lines, a);
  }

  /** The footer step on a header-edited line `{ }` empties that line and
      ends the selection just before it. */
  lemma EmptyBracesFooter(lines: seq<string>, a: nat)
    requires BracesAt(lines, a, a)
    requires HasClose(AfterOpen(lines[a])) && BeforeClose(AfterOpen(lines[a])) == ""
    ensures SkipFooter(lines[a := AfterOpen(lines[a])]).1 == a - 1
  {
    var edited := lines[a := AfterOpen(lines[a])];
    forall k | a < k < |edited|
      ensures !HasClose(edited[k])
    {
      assert edited[k] == lines[k];
    }
    FooterEmptied(edited, a);
  }

  /** When only whitespace precedes the first `}` of the last line holding
      one, the footer step ends the selection just before that line. */
  lemma FooterEmptied(lines: seq<string>, b: nat)
    requires b < |lines| && HasClose(lines[b]) && forall k :: b < k < |lines| ==> !HasClose(lines[k])
    requires BeforeClose(lines[b]) == ""
    ensures SkipFooter(lines).1 == b - 1
  {
    ContentFooter(lines, b);
  }

  /** On a line `{ }`, the text after the `{` still holds the `}`, and the
      text before that `}` right-trims to nothing. */
  lemma BeforeCloseAfterOpen(line: string)
    requires HasOpen(line) && IndexOf(line, '{') < IndexOf(line, '}')
    requires IsBlank(line[IndexOf(line, '{') + 1..IndexOf(line, '}')])
    ensures HasClose(AfterOpen(line)) && BeforeClose(AfterOpen(line)) == ""
  {
    IndexOfIsFirst(line, '{');
    var o, c := IndexOf(line, '{'), IndexOf(line, '}');
    CloseAfterOpen(line, o, c);
    TrimEndBlank(line[o + 1..c]);
  }

  /** The first `}` of a line, when it comes after the first `{`, is also
      the first `}` of the text after that `{`, so the footer edit of that
      text keeps what lies between the two braces. */
  lemma CloseAfterOpen(line: string, o: nat, c: nat)
    requires o == IndexOf(line, '{') && c == IndexOf(line, '}') && o < c
    ensures HasClose(AfterOpen(line)) && BeforeClose(AfterOpen(line)) == TrimEnd(line[o + 1..c])
  {
    var after := line[o + 1..];
    CloseInSuffix(line, o + 1, c);
    BeforeCloseAt(after, c - (o + 1));
    SliceOfSuffix(line, o + 1, c);
  }

  /** The first `c - p` characters after position `p` are those from `p` to `c`. */
  lemma SliceOfSuffix(line: string, p: nat, c: nat)
    requires p <= c <= |line|
    ensures line[p..][..c - p] == line[p..c]
  {
  }

  /** The footer edit of a text whose first `}` is at `k`. */
  lemma BeforeCloseAt(s: string, k: nat)
    requires IndexOf(s, '}') == k
    ensures HasClose(s) && BeforeClose(s) == TrimEnd(s[..k])
  {
    assert s[k] == '}';
  }

  /** Dropping a prefix that ends before the first `}` of a line moves that
      `}` left by the length of the prefix. */
  lemma CloseInSuffix(line: string, p: nat, c: nat)
    requires c == IndexOf(line, '}') && p <= c
    ensures IndexOf(line[p..], '}') == c - p
  {
    assert '}' !in line[..p] by {
      IndexOfIsFirst(line, '}');
      assert line[..p] == line[..c][..p];
    }
    IndexOfAfter(line, p, '}');
  }
}
