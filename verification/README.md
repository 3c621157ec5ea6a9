# docs-agent: the documentation tool, the workflow step and the ingestion script, in Dafny

This project models the three pieces of original logic in the docs-agent
Mastra application.

- **The documentation tool** is `fetchAndQueryDocumentation`, which `docsTool`
  forwards to. It fetches a page and turns its HTML into plain text with five
  global regular-expression replacements and a `trim`. It then splits the text
  into lines and returns the trimmed lines that include the query, ignoring
  case, together with the page URL as `sourceUrl`. A failed or unsuccessful
  fetch becomes an error that names the URL.
- **The workflow step** `documentation-query-step` prompts the documentation
  agent with the URL and the query. It then reads the answer out of the agent's
  first tool result. The answer is taken only when that result comes from
  `docsTool` and is present; otherwise the step returns no snippets and the
  step's own URL.
- **The ingestion script** embeds the chunk texts and creates the index
  `embeddings` with dimension 1024. It classifies an error from `createIndex`
  as "already exists" or unexpected, and never rethrows it. It then upserts the
  vectors twice: once with per-chunk metadata (version `"1.0"`, the chunk's
  score as `confidenceScore`) and once without.

Modules, one per file:

- `Wrappers` (wrappers.dfy): `Option`.
- `Text` (text.dfy): the ECMAScript string operations the code relies on.
  - `\s` is the full ECMAScript WhiteSpace and LineTerminator set, which is
    also what `trim` removes.
  - `\w` is the ASCII word characters.
  - `toLowerCase` folds ASCII letters only.
  - `includes` and `trim` are modelled as in ECMAScript.
  - `split` is modelled for a one-character separator, which is the only use
    in the code. `join` is not used by the code. It is defined only to prove
    that splitting loses nothing: the two are inverse to each other.
- `HtmlText` (html_text.dfy): the normaliser.
  - A global replace is a left-to-right scan. Where the pattern matches, the
    match becomes the one-character replacement and the scan resumes after it;
    elsewhere one character is copied.
  - Each pattern is a function giving the length of its match at the start of
    a string. Each pass is its own function, with the property it establishes.
- `DocsTool` (docs_tool.dfy): the line filter, as a loop and as a function. It
  is proved equal to an independent description: the kept lines' indices.
  `FetchAndQuery` models the whole tool.
- `DocsStep` (docs_step.dfy): the step's prompt and its `execute` after the
  agent has replied. The reply is an input.
- `Ingestion` (ingestion.dfy): the embedding inputs, the metadata, the error
  classification and the sequence of store calls. The embedding service is a
  function parameter, and the error `createIndex` throws, if any, is an input.

The model follows the code. Four of its behaviours are worth knowing:

- **A block tag does not always start a line.** Pass 5 (`\s\s+` to a space)
  also matches a space followed by a line break. So `Foo </p>Bar` ends as the
  single line `Foo Bar` (`HtmlText.ClosingTagAfterSpaceJoinsLines`), whereas
  `<p>Hello Foo</p><div>Bar</div>` becomes the two lines `Hello Foo` and `Bar`
  (`HtmlText.ParagraphAndDivBecomeTwoLines`).
- **Some tags are not block tags.** `<pre>`, `<link>` and `<track>` start like
  block names, but pass 2 requires a word boundary after the name. Pass 3
  turns them into a space (`HtmlText.NonBlockNamesAreNotBlockTags`,
  `HtmlText.NonBlockTagBecomesSpace`).
- **An unexpected `createIndex` error does not stop ingestion.** It is logged,
  and the script proceeds to the upserts all the same.
- **A missing `docUrl` is not rejected.** The tool itself never checks for it;
  input validation belongs to the schema library.

## Model

| member | source | states |
|---|---|---|
| Text.Trim | src/mastra/tools/index.ts:47 | the trimmed text is no longer than the input and neither starts nor ends with whitespace |
| Text.TrimIsMiddleSlice | src/mastra/tools/index.ts:47 | the trim is the contiguous slice after the leading whitespace, and every character cut off on either side is whitespace |
| Text.TrimIdempotent | src/mastra/tools/index.ts:54 | trimming an already trimmed line changes nothing |
| Text.Lower | src/mastra/tools/index.ts:51-55 | lower-casing keeps the length, folds each character on its own, and leaves no capital letter |
| Text.LowerOfUpper | src/mastra/tools/index.ts:51-55 | folding the upper-case form of a text gives the same lower-case form as folding the text |
| Text.Split | src/mastra/tools/index.ts:49 | a split has at least one piece, no piece contains the separator, and the first piece is a prefix of the text ended by a separator or by the end |
| Text.JoinSplit | src/mastra/tools/index.ts:49 | joining the pieces of a split with the separator gives back the text |
| Text.SplitJoin | src/mastra/tools/index.ts:49 | splitting the join of separator-free pieces gives back the pieces |
| Text.SplitPieceIsSlice | src/mastra/tools/index.ts:49 | every piece of a split is a contiguous slice of the text, bounded on each side by a separator or the end of the text, and only the first piece starts at index 0 |
| HtmlText.ReplaceAll | src/mastra/tools/index.ts:42-46 | a global replace never lengthens the text, keeps it non-empty, and introduces no character other than the pattern's replacement |
| HtmlText.ReplaceAllKeepsPlainText | src/mastra/tools/index.ts:42-46 | where the pattern matches nowhere, a global replace returns the text unchanged |
| HtmlText.ReplaceAllReplacesMatch | src/mastra/tools/index.ts:42-46 | a match at the start becomes the pattern's one replacement character, and the scan continues on the rest |
| HtmlText.ReplaceAllConcat | src/mastra/tools/index.ts:42-46 | when no match in the first part reaches into the second, the replace of the whole is the replace of the first part followed by that of the second |
| HtmlText.ClosingTagLen | src/mastra/tools/index.ts:42 | a closing block-tag match is exactly `</`, a block name and `>`, so it holds no line break and no other `<` |
| HtmlText.ClosingTagMatches | src/mastra/tools/index.ts:42 | conversely, `</`, any block name and `>` is matched whole, whatever follows |
| HtmlText.OpeningTagLen | src/mastra/tools/index.ts:43 | an opening block-tag match is `<`, a block name, a non-word character, and everything up to the first `>` after the name |
| HtmlText.OpeningTagMatches | src/mastra/tools/index.ts:43 | conversely, `<`, a block name, attributes that do not continue the name and hold no `>`, then `>`, is matched whole |
| HtmlText.AnyTagLen | src/mastra/tools/index.ts:44 | a tag match is exactly `<`, one or more characters other than `>`, and the first `>` after them |
| HtmlText.AnyTagMatches | src/mastra/tools/index.ts:44 | conversely, `<`, one or more characters other than `>`, then `>`, is matched whole |
| HtmlText.BlankLineRunLen | src/mastra/tools/index.ts:45 | a blank-line match is exactly the maximal whitespace run at the start, and there is one exactly when the text starts with a line break |
| HtmlText.SpaceRunLen | src/mastra/tools/index.ts:46 | a space-run match is exactly the maximal whitespace run at the start, and there is one exactly when the text starts with two whitespace characters |
| HtmlText.TagPassLeavesNoMatch | src/mastra/tools/index.ts:42-43 | after a block-tag pass its own pattern matches nowhere in the result, including a tag that replacing an inner one would have put together |
| HtmlText.BreakClosingBlockTags | src/mastra/tools/index.ts:42 | pass 1 leaves no closing block tag, never lengthens the text, adds only line breaks, and leaves text without `<` unchanged |
| HtmlText.ClosingTagBecomesBreak | src/mastra/tools/index.ts:42 | in pass 1 a closing block tag becomes one line break, and the text before and after it is treated as if on its own |
| HtmlText.BreakOpeningBlockTags | src/mastra/tools/index.ts:43 | pass 2 leaves no opening block or line-break tag, never lengthens the text, adds only line breaks, and leaves text without `<` unchanged |
| HtmlText.OpeningTagBecomesBreak | src/mastra/tools/index.ts:43 | in pass 2 an opening block tag after text without `<` becomes one line break, that text is kept, and the text after the tag is treated as if on its own |
| HtmlText.StripTagsLeavesNoTags | src/mastra/tools/index.ts:44 | after pass 3 no `<` that is not directly followed by `>` has a `>` anywhere after it |
| HtmlText.NoTagsIffTagFree | src/mastra/tools/index.ts:44 | that condition holds exactly when the text holds no `<`, one or more non-`>` characters, `>` |
| HtmlText.StripTags | src/mastra/tools/index.ts:44 | pass 3 leaves no tag, adds only spaces, and leaves text without `<` unchanged |
| HtmlText.TagBecomesSpace | src/mastra/tools/index.ts:44 | in pass 3 a tag after text without `<` becomes one space, that text is kept, and the text after the tag is treated as if on its own |
| HtmlText.WhitespacePassKeepsNoTags | src/mastra/tools/index.ts:45-46 | the whitespace passes cannot create a tag in a tag-free text |
| HtmlText.CollapseBlankLinesLeavesNoSpaceAfterBreak | src/mastra/tools/index.ts:45 | after pass 4 no line break is followed by whitespace |
| HtmlText.CollapseBlankLines | src/mastra/tools/index.ts:45 | pass 4 leaves no whitespace after a line break, keeps a tag-free text tag-free, and leaves text already in that shape unchanged |
| HtmlText.BlankLinesBecomeOneBreak | src/mastra/tools/index.ts:45 | in pass 4 a line break and the whitespace after it become one line break, and the text on either side is treated as if on its own |
| HtmlText.CollapseSpacesLeavesNoDoubleSpace | src/mastra/tools/index.ts:46 | after pass 5 no two whitespace characters are adjacent |
| HtmlText.CollapseSpaces | src/mastra/tools/index.ts:46 | pass 5 leaves no two adjacent whitespace characters, keeps a tag-free text tag-free, and leaves text already in that shape unchanged |
| HtmlText.SpaceRunBecomesOneSpace | src/mastra/tools/index.ts:46 | in pass 5 any run of two or more whitespace characters, line breaks included, becomes one space, and the text on either side is treated as if on its own |
| HtmlText.TrimKeepsShape | src/mastra/tools/index.ts:47 | trimming creates neither a tag nor a pair of adjacent whitespace characters |
| HtmlText.Normalise | src/mastra/tools/index.ts:42-47 | the normalised text holds no tag, no two adjacent whitespace characters, and no whitespace at either end; plain text with none of these comes through unchanged |
| HtmlText.ClosingTagAfterSpaceJoinsLines | src/mastra/tools/index.ts:42-47 | plain text, a space, a closing block tag and plain text normalise to one line: the two texts joined by a space |
| HtmlText.ParagraphAndDivBecomeTwoLines | src/mastra/tools/index.ts:42-47 | a paragraph and a division of plain text normalise to their two texts on two lines |
| HtmlText.NonBlockNamesAreNotBlockTags | src/mastra/tools/index.ts:42-43 | `pre`, `link` and `track` start like block names, yet neither block-tag pattern matches a tag with one of those names, whatever follows |
| HtmlText.NonBlockTagBecomesSpace | src/mastra/tools/index.ts:42-47 | a `pre`, `link` or `track` tag between plain texts normalises to one space, so the two texts stay on one line |
| HtmlText.CleanTextLineTrimmed | src/mastra/tools/index.ts:47-54 | in text without double whitespace or whitespace at its ends, every line is its own trim and, unless the text is empty, not empty |
| HtmlText.NormalisedLinesAreClean | src/mastra/tools/index.ts:42-49 | every line of the normalised page is free of tags and double whitespace, is its own trim, and is non-empty unless the page text is empty |
| DocsTool.MatchingLines | src/mastra/tools/index.ts:50-58 | the filter returns one trimmed line for each line it keeps, so never more lines than it is given |
| DocsTool.KeptLineIsSnippet | src/mastra/tools/index.ts:54-56 | a line that passes the test, trimmed, is non-empty, its own trim, and in lower case includes the lower-case query |
| DocsTool.KeptIndices | src/mastra/tools/index.ts:53-55 | the kept indices are exactly the indices of the lines that pass the test, in increasing order |
| DocsTool.MatchingLinesAreKeptLines | src/mastra/tools/index.ts:49-58 | the snippets are the trimmed kept lines, one per kept index, in the original order and nothing else |
| DocsTool.MatchingLinesAreSnippets | src/mastra/tools/index.ts:51-56 | every returned line is non-empty, its own trim, and in lower case includes the lower-case query |
| DocsTool.FilterLines | src/mastra/tools/index.ts:50-58 | the loop returns the filtered lines, each of them a snippet for the query |
| DocsTool.FilterIdempotent | src/mastra/tools/index.ts:53-58 | filtering the snippets again with the same query returns them unchanged |
| DocsTool.EmptyQueryKeepsNonBlankLines | src/mastra/tools/index.ts:51-55 | with an empty query a line is kept exactly when its trim is non-empty |
| DocsTool.PageMatchIsPageLine | src/mastra/tools/index.ts:49-56 | each snippet of a page is the page line it was taken from, which holds no tag, no double whitespace and no line break |
| DocsTool.FindSnippets | src/mastra/tools/index.ts:42-58 | the snippets of a page are exactly its kept lines, untouched by the per-line trim, in page order; each is a snippet for the query and a single line without tags or double whitespace |
| DocsTool.ParagraphAndDivSnippets | src/mastra/tools/index.ts:42-58 | on a page holding a paragraph and a division of plain text, the snippets are those of the two texts that include the query, paragraph first |
| DocsTool.HelloFooSnippets | src/mastra/tools/index.ts:42-58 | the page `<p>Hello Foo</p><div>Bar</div>` searched for `foo` yields the single snippet `Hello Foo` |
| DocsTool.FetchAndQuery | src/mastra/tools/index.ts:34-76 | the tool fails, naming the URL, exactly when the fetch threw or was not ok; on success the source is the URL itself, and the snippets are exactly the page lines that include the query, in page order, each holding no tag or line break |
| DocsStep.Prompt | src/mastra/workflows/index.ts:36 | the prompt contains the URL and the query verbatim |
| DocsStep.FromToolOutput | src/mastra/workflows/index.ts:44-51 | the answer's snippets are the tool's, or none when missing; its URL is the tool's unless missing or empty, else the step's URL |
| DocsStep.Execute | src/mastra/workflows/index.ts:41-64 | with no tool result the answer is the fallback; with a first result from `docsTool` that is present it is taken from that result; otherwise it is the fallback; the URL is never empty unless the step's is |
| DocsStep.NoToolCallGivesFallback | src/mastra/workflows/index.ts:41-64 | with no tool results, absent or empty, the answer is no snippets and the step's URL |
| DocsStep.OnlyFirstToolResultMatters | src/mastra/workflows/index.ts:41-42 | neither the agent's text nor any tool result after the first changes the answer |
| DocsStep.StepForwardsDocsTool | src/mastra/workflows/index.ts:44-51 | when the agent's first call runs the documentation tool on the step's URL and query, the answer has that URL and the tool's snippets, none when it failed, each a snippet for the query |
| Ingestion.EmbeddingInputs | src/mastra/index.ts:54 | the embedding inputs are the chunk texts, one per chunk, in chunk order |
| Ingestion.MetadataFor | src/mastra/index.ts:84-101 | one metadata entry per chunk, in chunk order, copying text, id, source, category, language and author, with the score as confidence and version "1.0" |
| Ingestion.MetadataMatchesEmbeddingInputs | src/mastra/index.ts:81-101 | the i-th metadata entry carries the text of the i-th embedding input |
| Ingestion.ClassifyCreateIndex | src/mastra/index.ts:64-77 | no error means created; an error is "already exists" exactly when its message is present, non-empty and in lower case includes "already exists", "already created" or "exists" |
| Ingestion.AlreadyExistsTestReduces | src/mastra/index.ts:73 | the test holds exactly when the lower-case message includes "exists" or "already created" |
| Ingestion.ClassificationIgnoresCase | src/mastra/index.ts:73 | two messages with the same lower-case form are classified alike, so writing a message in upper or lower case does not change its classification |
| Ingestion.MissingMessageIsUnexpected | src/mastra/index.ts:73-76 | an error without a message, or with an empty one, is unexpected |
| Ingestion.Ingest | src/mastra/index.ts:52-107 | the script embeds the chunk texts, asks for index "embeddings" of dimension 1024, then upserts the vectors to it twice, with the chunk metadata and then without |
| Ingestion.UpsertsDoNotDependOnCreateIndex | src/mastra/index.ts:64-107 | the upserts are the same whatever `createIndex` threw: no outcome stops the script |

## Left out

- The network: `fetch` and `response.text()` become the `Fetched` value. `Unreachable` stands for any throw before the body is read. The status code only appears in the error message.
- The wording of the error messages: a failure is `Failure(url)`, carrying the URL the messages name.
- Logging (`console.log`, `console.warn`, `console.error`) has no effect on any result.
- Text.Lower: folds ASCII letters only. JavaScript `toLowerCase` folds all of Unicode, so the line filter is modelled for ASCII case differences only. The regular expressions' `i` flag never folds a non-ASCII character to an ASCII one, so the tag passes are exact.
- Strings are sequences of Unicode scalar values, not of UTF-16 code units. `[^>]` and `\s` can take both halves of a surrogate pair inside a match, but every match starts at `<`, at a line break or at whitespace, and ends at `>` or just before a non-space. So no match starts or ends inside a surrogate pair, and each pass treats a pair as the one character it encodes.
- The schema validation of inputs and outputs, and the Mastra workflow engine: steps, workflows, runs and the never-committed `docsWorkflow`.
- The agent and the model's choice of tool: the agent's reply is an input of `DocsStep.Execute`.
- A documentation tool that throws inside the agent is modelled as a tool result without a result object (`DocsStep.AsToolOutput`). How the agent reports such a failure is library behaviour.
- Chunking (`MDocument`), `embedMany`, and the vector store's `createIndex` and `upsert` are library calls. The embedding service is a function parameter. The store calls are recorded as requests; their effect on the store is not modelled.
- The `createdAt` timestamp in the metadata reads the clock.
- A throw from `embedMany` or `upsert` ends the ingestion script, and a throw from `docsAgent.generate` ends the workflow step. Ingestion.Ingest and DocsStep.Execute model only the runs where these calls return.
- Ingestion.ClassifyCreateIndex: the thrown value is an error object whose message is absent or a string. A thrown `null` or `undefined` would make the `catch` block itself throw. A non-string message would make `toLowerCase` throw.
- The vector query tool is library configuration.
- Ingestion.Ingest: src/mastra/index.ts:3-4 imports `myWorkflow` and `ragAgent`, which the workflow and agent modules do not export (they export only `docsWorkflow` and `docsAgent`). Linked as an ES module, the script would fail before its body runs. The model takes the script's body as if the module loaded.
- The earlier draft under mastra/ duplicates the application and has no logic of its own.
