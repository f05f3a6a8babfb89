# Projbook C# snippet clean-up, modelled in Dafny

Projbook builds documentation pages from code snippets. Its C# snippet
extractor takes a source file and a member pattern such as `Options.Method`,
`-Options` or `=Options.Event.add`. It finds the matching declarations and
returns their text, cleaned up for display. This project models the core
of that extractor: `CSharpSnippetExtractor.WriteAndCleanupSnippet`,
`BuildSnippet` and the `Extract` dispatch. It then proves what the
clean-up guarantees in each extraction mode.

- **Full** (no prefix): drops leading and trailing whitespace-only lines,
  then removes the indentation the remaining lines share.
- **Content only** (`-` prefix): drops everything up to and including the
  first `{`, and everything from the first `}` of the last line holding
  one. The two cut lines are dropped as well when only whitespace remains
  on them. The rest is de-indented.
- **Block structure only** (`=` prefix): writes the trimmed, de-indented
  lines up to the first line that holds a `{`. That line is cut just after
  the brace and followed by a `    // ...` line and a `}` line. The
  indentation removed is the smallest over the whole trimmed range,
  including the lines after the first `{` that are never written, so no
  written line of the declaration need end up flush with the margin
  (`Properties.BlockStructureOnlyPaddingSpansBody`).

The project is laid out as follows.

- `wrappers.dfy`: `Option` and `Result`.
- `text.dfy`: the .NET string primitives the code uses.
  - `Char.IsWhiteSpace` and `string.IsNullOrWhiteSpace`.
  - `IndexOf` and `TrimEnd`.
  - The leading-whitespace count.
  - Joining lines with a separator.
- `cleanup.dfy`: the clean-up as pure functions over the line array.
  - Line selection per mode, including the in-place edits of content-only
    mode, which are modelled as sequence updates.
  - The `leftPadding` minimum. The source's `int.MaxValue` start value is
    `None`.
  - The writing loop: `Emit` yields the list of lines written. The text is
    those lines joined with the newline string `nl`.
- `writer.dfy`: `WriteAndCleanupSnippet` and `BuildSnippet` written as the
  source writes them. They are loops over a line array and a growing
  output string, with the source's defensive guards kept. Each method is
  proved to produce exactly the text of the functional model.
- `properties.dfy`: what the functional model guarantees, stated against
  independent characterisations.
  - `IsTrimmedRange`: the first and last non-blank line.
  - `IsLeftPadding`: the smallest indentation of the non-blank lines.
  - `Dedented`: every line of a range with a fixed padding removed.
- `snippets.dfy`: `BuildSnippet` as a function, and its concatenation law.
- `extractor.dfy`: `Extract` over an abstract `Frontend`.
  - The `Frontend` holds the whole-file extraction of the base class, the
    pattern parser, the trie loader and the trie matcher.
  - The extractor's lazily built trie is explicit state.

All source paths below are in
`src/Projbook.Core/Projbook/Core/Snippet/CSharp/CSharpSnippetExtractor.cs`,
abbreviated `X.cs` in the prose. The table uses full paths.

## Model

| member | source | states |
|---|---|---|
| Text.LeadingWhitespaceSpec | src/Projbook.Core/Projbook/Core/Snippet/CSharp/CSharpSnippetExtractor.cs:201 | The counted indentation is all whitespace, and the character after it (if any) is not. |
| Text.IndexOfIsFirst | src/Projbook.Core/Projbook/Core/Snippet/CSharp/CSharpSnippetExtractor.cs:142-143 | `IndexOf` is -1 exactly when the character is absent, and otherwise no earlier position holds it. |
| Text.TrimEndSpec | src/Projbook.Core/Projbook/Core/Snippet/CSharp/CSharpSnippetExtractor.cs:178 | `TrimEnd` keeps a prefix that is empty or ends in a non-whitespace character, and drops only whitespace. |
| Text.JoinConcat | src/Projbook.Core/Projbook/Core/Snippet/CSharp/CSharpSnippetExtractor.cs:206-213 | Joining two non-empty groups of lines puts exactly one separator between them. |
| Cleanup.FirstIsFirst | src/Projbook.Core/Projbook/Core/Snippet/CSharp/CSharpSnippetExtractor.cs:137 | The forward scan stops at the first line with the property; no line before it has it. |
| Cleanup.LastIsLast | src/Projbook.Core/Projbook/Core/Snippet/CSharp/CSharpSnippetExtractor.cs:168 | The backward scan stops at the last line with the property; no line after it has it. |
| Cleanup.CleanLines | src/Projbook.Core/Projbook/Core/Snippet/CSharp/CSharpSnippetExtractor.cs:127-131 | An empty line array writes nothing. |
| Writer.SkipHeaderLines | src/Projbook.Core/Projbook/Core/Snippet/CSharp/CSharpSnippetExtractor.cs:134-158 | The content-only header loop and edit, with its guards, compute the model's `SkipHeader`. |
| Writer.SkipFooterLines | src/Projbook.Core/Projbook/Core/Snippet/CSharp/CSharpSnippetExtractor.cs:165-187 | The content-only footer loop and edit, with its guards, compute the model's `SkipFooter`. |
| Writer.SelectTrimmedLines | src/Projbook.Core/Projbook/Core/Snippet/CSharp/CSharpSnippetExtractor.cs:159-191 | The two blank-skipping loops compute the model's trimmed selection. |
| Writer.LeftPadding | src/Projbook.Core/Projbook/Core/Snippet/CSharp/CSharpSnippetExtractor.cs:193-203 | The padding loop computes `Padding` over the selected range. |
| Writer.WriteLine | src/Projbook.Core/Projbook/Core/Snippet/CSharp/CSharpSnippetExtractor.cs:215-243 | One loop pass appends the joined lines of `EmitLine` and stops exactly where `Stops` holds. |
| Writer.WriteLines | src/Projbook.Core/Projbook/Core/Snippet/CSharp/CSharpSnippetExtractor.cs:205-247 | The writing loop, with its early exit, produces the emitted lines joined by `nl`. |
| Writer.WriteAndCleanupSnippet | src/Projbook.Core/Projbook/Core/Snippet/CSharp/CSharpSnippetExtractor.cs:121-248 | The whole method writes exactly the model's cleaned lines of the declaration, joined by `nl`. |
| Writer.JoinSnippets | src/Projbook.Core/Projbook/Core/Snippet/CSharp/CSharpSnippetExtractor.cs:90-108 | The per-node loop writes the per-node texts joined by two line breaks. |
| Writer.BuildSnippetText | src/Projbook.Core/Projbook/Core/Snippet/CSharp/CSharpSnippetExtractor.cs:84-112 | The method (check, then loop) returns exactly `BuildSnippet`. |
| Snippets.BuildSnippet | src/Projbook.Core/Projbook/Core/Snippet/CSharp/CSharpSnippetExtractor.cs:84-112 | Fails exactly on an empty node list, with the empty-list error; a single node yields that node's cleaned text. |
| Snippets.BuildSnippetConcat | src/Projbook.Core/Projbook/Core/Snippet/CSharp/CSharpSnippetExtractor.cs:90-108 | Splitting the node list splits the snippet at exactly one blank line: nodes are cleaned independently, in order, with no separator before the first or after the last. |
| Properties.TrimmedSelectionBounds | src/Projbook.Core/Projbook/Core/Snippet/CSharp/CSharpSnippetExtractor.cs:159-190 | In full and block-structure-only mode the selection is exactly the first-to-last non-blank range, and it is empty when every line is blank. |
| Properties.PaddingIsMinimum | src/Projbook.Core/Projbook/Core/Snippet/CSharp/CSharpSnippetExtractor.cs:193-203 | `leftPadding` is the minimum indentation over the non-blank selected lines, is reached by one of them, and is absent exactly when all are blank. |
| Properties.LeftPaddingUnique | src/Projbook.Core/Projbook/Core/Snippet/CSharp/CSharpSnippetExtractor.cs:193-203 | That minimum is unique, so `PaddingIsMinimum` characterises `leftPadding` completely. |
| Properties.PaddingDedent | src/Projbook.Core/Projbook/Core/Snippet/CSharp/CSharpSnippetExtractor.cs:193-218 | Every non-blank selected line loses exactly `leftPadding` characters, stays non-blank and keeps its relative indentation; one of them ends up flush with the margin. |
| Properties.StopsIffOpen | src/Projbook.Core/Projbook/Core/Snippet/CSharp/CSharpSnippetExtractor.cs:216-236 | Under the selection's padding, block-structure-only mode stops at a line exactly when the original line holds `{`. |
| Properties.AllBlankWritesNothing | src/Projbook.Core/Projbook/Core/Snippet/CSharp/CSharpSnippetExtractor.cs:159-207 | Full and block-structure-only mode write nothing for an all-blank declaration. |
| Properties.FullModeLines | src/Projbook.Core/Projbook/Core/Snippet/CSharp/CSharpSnippetExtractor.cs:205-247 | Full mode writes every line of the trimmed range, in order, with the smallest indentation removed: `endPos - startPos + 1` lines. |
| Properties.FullModeOutputIsTrimmed | src/Projbook.Core/Projbook/Core/Snippet/CSharp/CSharpSnippetExtractor.cs:159-218 | Full-mode output starts and ends with a non-blank line and has smallest indentation zero. |
| Properties.FullModeIsIdempotent | src/Projbook.Core/Projbook/Core/Snippet/CSharp/CSharpSnippetExtractor.cs:121-248 | Cleaning full-mode output again in full mode changes nothing. |
| Properties.BlockStructureOnlyCut | src/Projbook.Core/Projbook/Core/Snippet/CSharp/CSharpSnippetExtractor.cs:224-238 | Block-structure-only mode writes the de-indented lines before the first line holding `{`. It then writes that line from the padding to just after its first `{` (which lies past the padding), then `    // ...` and `}`, and nothing after. |
| Properties.BlockStructureOnlyWithoutOpen | src/Projbook.Core/Projbook/Core/Snippet/CSharp/CSharpSnippetExtractor.cs:224-238 | Without a `{` in the trimmed range, block-structure-only mode writes what full mode writes. |
| Properties.BlockStructureOnlyPaddingSpansBody | src/Projbook.Core/Projbook/Core/Snippet/CSharp/CSharpSnippetExtractor.cs:193-238 | Block-structure-only mode takes its padding over the whole trimmed range, lines after the first `{` included: for `    void F()`, `    {`, `#if X`, `    }` it writes the first two lines still indented by four, then the ellipsis and `}`. |
| Properties.ContentHeader | src/Projbook.Core/Projbook/Core/Snippet/CSharp/CSharpSnippetExtractor.cs:135-158 | The header step cuts the first line holding `{` after that brace, and starts after it when only whitespace remains and it is not the last line. |
| Properties.ContentFooter | src/Projbook.Core/Projbook/Core/Snippet/CSharp/CSharpSnippetExtractor.cs:165-187 | The footer step cuts the last line holding `}` before its first `}`, right-trims it, and ends before it when nothing else remains. |
| Properties.ContentSelection | src/Projbook.Core/Projbook/Core/Snippet/CSharp/CSharpSnippetExtractor.cs:133-187 | With the first `{` on an earlier line than the last `}`, the content-only selection is the body between them with both cut lines edited. |
| Properties.ContentOnlyLines | src/Projbook.Core/Projbook/Core/Snippet/CSharp/CSharpSnippetExtractor.cs:133-218 | Content-only mode writes that body, in order, de-indented by its own smallest indentation. |
| Properties.ContentOnlyWithoutOpen | src/Projbook.Core/Projbook/Core/Snippet/CSharp/CSharpSnippetExtractor.cs:135-158 | Content-only mode writes nothing for a declaration without any `{`. |
| Properties.ContentOnlyEmptyBody | src/Projbook.Core/Projbook/Core/Snippet/CSharp/CSharpSnippetExtractor.cs:148-185 | Content-only mode writes nothing for a body with `{` ending one line and `}` starting the next. |
| Properties.ContentOnlyEmptyBraces | src/Projbook.Core/Projbook/Core/Snippet/CSharp/CSharpSnippetExtractor.cs:148-185 | Content-only mode writes nothing for a body `{ }` on one line. |
| Properties.CloseAfterOpen | src/Projbook.Core/Projbook/Core/Snippet/CSharp/CSharpSnippetExtractor.cs:142-178 | On one line, the footer edit of the text the header edit left keeps exactly what lies between the first `{` and the first `}`, right-trimmed. |
| Extractor.Extract | src/Projbook.Core/Projbook/Core/Snippet/CSharp/CSharpSnippetExtractor.cs:38-76 | A blank pattern returns the whole-file result and leaves the state alone. A state holding a trie never changes. |
| Extractor.ExtractOutcome | src/Projbook.Core/Projbook/Core/Snippet/CSharp/CSharpSnippetExtractor.cs:46-75 | A non-blank pattern fails with the parse error, the load error, or "Cannot find member" with file path and pattern, or on an empty match. Otherwise it yields the joined per-node snippets in the parsed mode. |
| Extractor.ExtractCachesTrie | src/Projbook.Core/Projbook/Core/Snippet/CSharp/CSharpSnippetExtractor.cs:50-65 | After a successful load the state holds the loaded trie; a failed load leaves the empty state as it was. |
| Extractor.ExtractIsStable | src/Projbook.Core/Projbook/Core/Snippet/CSharp/CSharpSnippetExtractor.cs:50-68 | Repeating a call returns the same result and leaves the same state. |
| Extractor.CachedTrieIgnoresFile | src/Projbook.Core/Projbook/Core/Snippet/CSharp/CSharpSnippetExtractor.cs:50-68 | Once a trie is cached, the file path and the loader no longer affect whether a call succeeds or what it returns. |

## Left out

- Roslyn (`CSharpSyntaxTree.ParseText`, `node.GetText().Lines`, X.cs:53-61 and :103) is a foreign library. The model takes each matched declaration as its array of lines.
- `CSharpMatchingRule.Parse`, `CSharpSyntaxWalkerMatchingBuilder` and `CSharpSyntaxMatchingNode.Match` are not part of this model. They are the `parse`, `loadTrie` and `matchRule` functions of `Extractor.Frontend`. Their failures, exceptions in C#, are `Failure` values. The mode prefix (`-`, `=`) is read by the parser, so it arrives as part of the parsed rule.
- `DefaultSnippetExtractor.Extract` and `LoadFile` are not part of this model. The whole-file result is `Frontend.wholeFile`, and file loading is folded into `loadTrie`.
- `SnippetExtractorFactory.cs` and `Projbook.Target/Projbook.cs` (file-system checks, csproj loading, MSBuild task plumbing) are I/O and are not modelled.
- `Environment.NewLine` is the parameter `nl`. `StringBuilder.AppendLine()` appends `nl`.
- The `int.MaxValue` start of `leftPadding` is `None`. A line is written only when it is longer than the padding, so under `None` every selected line is written empty. `Dedent` models this.
- Writer.WriteAndCleanupSnippet: the `Ensure.That(...).IsNotNull()` checks (X.cs:124-125) are not modelled, because Dafny sequences are never null.
- Snippets.BuildSnippet: the null check on `nodes` (X.cs:87) is not modelled, for the same reason. The `HasItems` check (X.cs:88) is the `EmptyNodeList` failure.
- The guards at X.cs:143, :146, :174, :177, :182 and :229 always hold. The methods in `Writer` keep them. The functions in `Cleanup` leave them out, and the equivalence proofs show nothing is lost.
- Properties.ContentOnlyLines: covers a declaration whose first `{` is on an earlier line than its last `}`. When both are on one line, only the empty `{ }` body has a dedicated lemma (`ContentOnlyEmptyBraces`). Two further cases have no dedicated lemma: the last `}` on a line before the first `{`, and a `{` with no `}` at all. Every case is still covered by `Cleanup.CleanLines`, which `Writer.WriteAndCleanupSnippet` is proved to implement.
- Without any `{`, content-only mode selects nothing, because `startPos` runs past the last line (`Properties.ContentOnlyWithoutOpen`).
- The footer step of content-only mode works on the array the header step has already edited. It cuts at the first `}` of the last line that holds one. The model does the same (`Cleanup.SelectContent`).
- Extractor.ExtractIsStable: `wholeFile`, `parse`, `loadTrie` and `matchRule` are treated as pure. The file is assumed not to change between calls, and matching is assumed not to alter the trie. In C#, a failed load leaves `syntaxTrie` null, so the next call loads again (X.cs:50-53) and may succeed if the file has changed; the blank-pattern branch depends on `base.Extract` in the same way.
- The cached trie ignores the file path of later calls. The model keeps this behaviour (`Extractor.CachedTrieIgnoresFile`). The extractor factory creates a new extractor for every extraction rule (`SnippetExtractorFactory.cs`, lines 39-56), so this only matters to a caller that reuses one extractor across files.
