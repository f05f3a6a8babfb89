/** The string primitives the clean-up engine is written with: .NET's
    `Char.IsWhiteSpace`, `string.IsNullOrWhiteSpace`, `IndexOf`, `TrimEnd`,
    `TakeWhile(Char.IsWhiteSpace).Count()`, and line joining with a separator. */
module Text {

  /** `Char.IsWhiteSpace`: the Unicode space separators plus the line and
      paragraph separators and the control characters U+0009-U+000D and U+0085. */
  predicate IsWhiteSpace(c: char) {
    || c == ' '
    || ('\t' <= c <= '\r')
    || c == '\U{85}'
    || c == '\U{A0}'
    || c == '\U{1680}'
    || ('\U{2000}' <= c <= '\U{200A}')
    || c == '\U{2028}'
    || c == '\U{2029}'
    || c == '\U{202F}'
    || c == '\U{205F}'
    || c == '\U{3000}'
  }

  /** `string.IsNullOrWhiteSpace`, equivalently `s.Trim().Length == 0`. */
  predicate IsBlank(s: string) {
    forall i :: 0 <= i < |s| ==> IsWhiteSpace(s[i])
  }

  predicate NotBlank(s: string) {
    !IsBlank(s)
  }

  /** `s.TakeWhile(Char.IsWhiteSpace).Count()`: the width of the indentation. */
  function LeadingWhitespace(s: string): (r: nat)
    ensures r <= |s|
  {
    if |s| == 0 || !IsWhiteSpace(s[0]) then 0
    else 1 + LeadingWhitespace(s[1..])
  }

  /** The indentation is the longest whitespace-only prefix. */
  lemma {:induction false} LeadingWhitespaceSpec(s: string)
    ensures forall i :: 0 <= i < LeadingWhitespace(s) ==> IsWhiteSpace(s[i])
    ensures LeadingWhitespace(s) < |s| ==> !IsWhiteSpace(s[LeadingWhitespace(s)])
    decreases |s|
  {
    if |s| > 0 && IsWhiteSpace(s[0]) {
      LeadingWhitespaceSpec(s[1..]);
    }
  }

  /** `s.IndexOf(c)`: the position of the first `c`, or -1. */
  function IndexOf(s: string, c: char): (r: int)
    ensures -1 <= r < |s|
    ensures 0 <= r ==> s[r] == c
  {
    if |s| == 0 then -1
    else if s[0] == c then 0
    else
      var k := IndexOf(s[1..], c);
      if k < 0 then -1 else k + 1
  }

  /** `IndexOf` finds the first occurrence, and fails only when there is none. */
  lemma {:induction false} IndexOfIsFirst(s: string, c: char)
    ensures IndexOf(s, c) < 0 <==> c !in s
    ensures 0 <= IndexOf(s, c) ==> c !in s[..IndexOf(s, c)]
    decreases |s|
  {
    if |s| > 0 && s[0] != c {
      IndexOfIsFirst(s[1..], c);
      var k := IndexOf(s[1..], c);
      if 0 <= k {
        assert s[..k + 1] == [s[0]] + s[1..][..k];
      }
    }
  }

  /** `s.TrimEnd()`: `s` without its trailing whitespace. */
  function TrimEnd(s: string): (r: string)
    ensures |r| <= |s|
  {
    if |s| == 0 || !IsWhiteSpace(s[|s| - 1]) then s
    else TrimEnd(s[..|s| - 1])
  }

  /** `TrimEnd` removes exactly the trailing whitespace: what it keeps is a
      prefix that is empty or ends in a non-whitespace character, and what
      it drops is whitespace. */
  lemma {:induction false} TrimEndSpec(s: string)
    ensures TrimEnd(s) == s[..|TrimEnd(s)|]
    ensures IsBlank(s[|TrimEnd(s)|..])
    ensures |TrimEnd(s)| == 0 || !IsWhiteSpace(TrimEnd(s)[|TrimEnd(s)| - 1])
    decreases |s|
  {
    if |s| > 0 && IsWhiteSpace(s[|s| - 1]) {
      var r := TrimEnd(s[..|s| - 1]);
      TrimEndSpec(s[..|s| - 1]);
      assert s[|r|..] == s[..|s| - 1][|r|..] + [s[|s| - 1]];
    }
  }

  /** Lines joined by `sep`, which is what a StringBuilder holds after a
      loop that appends `sep` before every line but the first. */
  function Join(parts: seq<string>, sep: string): string {
    if |parts| == 0 then ""
    else if |parts| == 1 then parts[0]
    else Join(parts[..|parts| - 1], sep) + sep + parts[|parts| - 1]
  }

  /** Appending one more line adds exactly one separator, and none before the first. */
  lemma JoinSnoc(parts: seq<string>, x: string, sep: string)
    ensures Join(parts + [x], sep) == if |parts| == 0 then x else Join(parts, sep) + sep + x
  {
    assert (parts + [x])[..|parts|] == parts;
  }

  /** Three lines joined: a separator between each pair. */
  lemma JoinThree(a: string, b: string, c: string, sep: string)
    ensures Join([a, b, c], sep) == a + sep + b + sep + c
  {
    assert [a, b, c][..2] == [a, b];
    assert [a, b][..1] == [a];
    assert Join([a, b], sep) == a + sep + b;
    assert Join([a, b, c], sep) == Join([a, b], sep) + sep + c;
  }

  /** Appending a non-empty group of lines to what is already written adds
      one separator, unless nothing was written yet. */
  lemma JoinAppend(written: seq<string>, piece: seq<string>, sep: string)
    requires |piece| > 0
    ensures Join(written + piece, sep) == (if |written| == 0 then "" else Join(written, sep) + sep) + Join(piece, sep)
  {
    if |written| == 0 {
      assert written + piece == piece;
    } else {
      JoinConcat(written, piece, sep);
    }
  }

  /** Joining two non-empty groups puts exactly one separator between them. */
  lemma {:induction false} JoinConcat(a: seq<string>, b: seq<string>, sep: string)
    requires |a| > 0 && |b| > 0
    ensures Join(a + b, sep) == Join(a, sep) + sep + Join(b, sep)
    decreases |b|
  {
    if |b| == 1 {
      JoinSnoc(a, b[0], sep);
      assert a + b == a + [b[0]];
    } else {
      var b' := b[..|b| - 1];
      var x := b[|b| - 1];
      assert b == b' + [x];
      assert a + b == (a + b') + [x];
      JoinSnoc(a + b', x, sep);
      JoinConcat(a, b', sep);
      JoinSnoc(b', x, sep);
    }
  }
}
