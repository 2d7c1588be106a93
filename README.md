# Feature file splitter, modelled in Dafny

This project models the core of `webdriverio-cucumber-parallel-execution`, the
`featureFileSplitter` in `src/featureFileSplitter.js`. It takes a directory of
Gherkin `.feature` files and splits every feature into single-scenario
sub-features so that they can run in parallel. Each sub-feature holds the
feature's Background children plus exactly one Scenario, or one Scenario
Outline. A Scenario Outline is either kept intact or, when
`splitScenarioOutLineMultipleExamples` is set, split into one sub-feature per
data row. The sub-features that satisfy the tag expression are written back as
Gherkin text, one numbered output file each. The scenario tags of every
sub-feature are its own tags followed by the feature's tags, so the
inheritance of feature tags survives the split.

Modules, in the order of the program:

- `Gherkin` (`gherkin.dfy`): the parsed document tree as datatypes. These are
  the tags, rows, steps and their arguments, example blocks, feature children
  and the feature itself.
- `Seqs` (`seqs.dfy`): `Flatten`, `Lengths` and `Sum` over sequences of
  sequences, with their indexing lemmas. It also holds `Select`, the
  order-keeping `filter` that the Background selection and the tag filter
  both use, and the positions it keeps.
- `LiteralAnd` (`literal_and.dfy`): splitting a tag expression on ` and `,
  `trim`, and the "every required tag is present" check. This check decides
  which example-block tags an intact outline keeps, and it is also what
  `exampleMatchesFilter` computes.
- `Splitter` (`splitter.dfy`): `getFeatureTemplate`, plus `splitFeature` as
  specification functions. It also holds the method `SplitFeature`, which
  builds the result by pushes in nested loops, as the source does.
- `SplitterProperties` (`split_properties.dfy`): how many sub-features each
  child yields, in which order they come, their shape and their tags.
- `TagFilter` (`filter.dfy`): `filterFeaturesByTag`, with the tag-expression
  evaluator passed in as a predicate over tag names.
- `Serializer` (`serializer.dfy`): `writeFeature` as a function and as a method
  that accumulates the string in loops. The `None` result stands for the
  `undefined` the source returns when writing throws.
- `SerializerProperties` (`serializer_properties.dfy`): a second, line-based
  definition of the text, proved equal to the first. It also proves when
  writing fails and a worked example.
- `Orchestrator` (`compile.dfy`): `compile`, covering the option checks, the
  file list, loading, and the per-document loop with its counters `i`,
  `fileSequence` and `scenariosWithTagFound`. It also covers output-file naming
  and the "No Feature File found" notice. `CompileSpec` is the whole run as a
  function, and the method `Compile` is proved equal to it.
- `OrchestratorProperties` (`compile_properties.dfy`): what `compile` promises
  about the files it writes, and the naming defect described under Findings.

The file system, `glob`, the Gherkin parser and the tag-expression library are
parameters of `compile`:

- `globbed` is the list of paths the glob returns.
- `load` gives each path's parsed document, or `None` when reading or parsing
  fails.
- `parsed` is the evaluator of the tag expression, or `None` when the
  expression does not parse.
- Each `fs.writeFileSync` becomes a `FileWrite` recorded in the `Outcome`. It
  holds the output directory, the input path the name is built from, the
  counter `i` and the text written. Its `Path()` is
  `<tmpSpecDirectory>/<base><i>.feature`, where the base is the input's last
  path segment with its first `.feature` replaced by `_`.

Three behaviours of the code are worth stating, because a reader of the doc
comments might expect otherwise:

- The scenario's inherited tag line is written too. A feature tagged `@smoke`
  with one untagged scenario gives `@smoke`, `Feature: N`, `@smoke`,
  `Scenario: Login` (`SerializerProperties.SmokeFeatureWritten`).
- The no-match notice is printed also when the tag expression is empty
  (`OrchestratorProperties.CompileWritesSurvivors`).
- A file that fails to read or parse aborts the whole run: `readFiles` and
  `parseGherkinFiles` swallow the error and return `undefined`, and
  `asts.forEach` then throws (`Orchestrator.LoadAll`, `Failure.LoadFailed`).

## Model

| member | source | states |
|---|---|---|
| Splitter.Backgrounds | src/featureFileSplitter.js:122 | `filter` keeps order and multiplicity. The result is the children at a strictly increasing list of positions, and a position is on that list iff its child is a Background. A child is in the result iff it is a Background child of the input. |
| Splitter.GetFeatureTemplate | src/featureFileSplitter.js:119-127 | The template keeps the feature's tags, keyword and name. Its children are the feature's Background children, in order and with their multiplicity, at exactly the Background positions. |
| Splitter.SplitChild | src/featureFileSplitter.js:162-252 | What one child yields (partners: `SplitterProperties.SplitChildCount`, `SplitterProperties.SplitChildShape`, `Splitter.PushChild`). |
| Splitter.SplitChildren | src/featureFileSplitter.js:137-259 | The concatenation of what the children yield, in child order (partners: `Splitter.SplitFeature`, `SplitterProperties.SplitCardinality`, `SplitterProperties.SplitOrder`). |
| Splitter.SplitFeature | src/featureFileSplitter.js:137-259 | The nested push loops build exactly `SplitChildren`. That is the concatenation, in child order, of what each child yields: nothing for a Background or an outline without examples, and one sub-feature per scenario, per intact outline, or per row of a split outline. |
| Splitter.PushTaggedRows | src/featureFileSplitter.js:172-191 | CASE 1 appends one sub-feature per row, blocks in order and then rows in order, to what was there before. Each carries the block's own tags (`TaggedRows`). |
| Splitter.PushUntaggedRows | src/featureFileSplitter.js:195-213 | CASE 2 appends one sub-feature per row of the flattened rows. Each is built on block 0 and carries no block tags (`UntaggedRows`). |
| Splitter.MergeExampleTags | src/featureFileSplitter.js:217-240 | CASE 3 gives the outline's tags, then the feature tags, then the tags of every block that passes the literal `and` check, in block order. |
| SplitterProperties.SplitChildCount | src/featureFileSplitter.js:163-252 | A child yields 0 sub-features if it is a Background or an outline with missing or empty examples. A Scenario or an intact outline yields 1. A split outline yields its total row count. |
| SplitterProperties.SplitCardinality | src/featureFileSplitter.js:158-255 | The split's length is the sum of the children's expected counts. |
| Splitter.PushChild | src/featureFileSplitter.js:162-252 | One pass of the per-child loop appends exactly what `SplitChild` yields for that child to the sub-features built so far, and the built ones stay in front. |
| SplitterProperties.SplitOrder | src/featureFileSplitter.js:160-253 | The j-th sub-feature of child i sits right after everything the earlier children yielded (document order). |
| SplitterProperties.AllRowsAt | src/featureFileSplitter.js:195 | `flatMap` keeps order: row r of block b is flattened row number (rows of blocks before b) + r. |
| SplitterProperties.TaggedRowAt | src/featureFileSplitter.js:174-191 | In tagged mode, the sub-feature at that flattened position holds one copy of block b with exactly row r. Its tags are the scenario tags, the feature tags and block b's tags. An untagged block adds none. |
| SplitterProperties.UntaggedRowAt | src/featureFileSplitter.js:197-213 | In untagged mode, the sub-feature for row r of block b holds a copy of block 0 with exactly that row. It carries only the scenario and feature tags. |
| SplitterProperties.IntactOutlineWithEmptyExpression | src/featureFileSplitter.js:222-243 | With an empty expression, no block's tags are merged. The single sub-feature's tags are the outline's, then the feature's. |
| SplitterProperties.IntactOutlineWithAndExpression | src/featureFileSplitter.js:228-239 | For `@a and @b and ...`, block b's tags are merged iff every named tag is among the outline's and block b's own tag names. |
| SplitterProperties.RowScenarioBuiltFrom | src/featureFileSplitter.js:176-189 | A per-row copy of an outline has the outline's kind, name and steps. It has one block with one of the outline's rows, and its tags begin with the outline's and the feature's tags. |
| SplitterProperties.SplitChildShape | src/featureFileSplitter.js:163-252 | Every sub-feature of a child is the template plus one scenario built from that child (`BuiltFrom`). |
| SplitterProperties.ScenarioShape | src/featureFileSplitter.js:247-251 | The same, for a plain Scenario. |
| SplitterProperties.TaggedRowsShape | src/featureFileSplitter.js:174-191 | The same, for every sub-feature of CASE 1. |
| SplitterProperties.UntaggedRowsShape | src/featureFileSplitter.js:197-213 | The same, for every sub-feature of CASE 2. |
| SplitterProperties.IntactOutlineShape | src/featureFileSplitter.js:218-243 | The same, for CASE 3. The outline keeps all of its blocks. |
| SplitterProperties.SplitShape | src/featureFileSplitter.js:160-253 | Every sub-feature of the split comes from some non-Background child and has that child's shape. |
| SplitterProperties.SubFeatureOfFeature | src/featureFileSplitter.js:160-253 | Each sub-feature keeps the feature's tags and name. Its children are the feature's Backgrounds in order, then one scenario that has a `tags` field. That scenario holds every feature tag and every tag of the child it came from (tag inheritance). |
| LiteralAnd.SplitOn | src/featureFileSplitter.js:233 | `split` always yields at least one piece. |
| LiteralAnd.JoinSplitOn | src/featureFileSplitter.js:233 | Splitting loses nothing: joining the pieces with the separator gives back the input. |
| LiteralAnd.TrimStart | src/featureFileSplitter.js:233 | The result is a suffix of the input, every removed character is white space, and the result does not start with white space. |
| LiteralAnd.TrimEnd | src/featureFileSplitter.js:233 | The result is a prefix of the input, every removed character is white space, and the result does not end with white space. |
| LiteralAnd.RequiredTags | src/featureFileSplitter.js:233 | One token per piece of the split, and no token starts or ends with white space. The tokens themselves are pinned down by `LiteralAnd.AndExpressionRequiresEveryTag`. |
| LiteralAnd.MergeCheck | src/featureFileSplitter.js:228-235 | The `requiredTags.every(...)` test of CASE 3: every required token is among the outline's and the block's tag names (partners: `LiteralAnd.AndExpressionRequiresEveryTag`, `LiteralAnd.EmptyExpressionMergesNothing`). |
| LiteralAnd.ExampleMatchesFilter | src/featureFileSplitter.js:352-366 | False for an empty expression, and otherwise the same every-required-tag test (partner: `LiteralAnd.ExampleMatchesFilterIsMergeCheck`). |
| LiteralAnd.EmptyExpressionMergesNothing | src/featureFileSplitter.js:233-235 | The empty expression requires the one token `""`, which no tag name equals. So the merge check and `exampleMatchesFilter` are both false. |
| LiteralAnd.ExampleMatchesFilterIsMergeCheck | src/featureFileSplitter.js:352-366 | `exampleMatchesFilter` is false for an empty expression and otherwise equals the merge check. With well-formed tag names the two agree on every expression. |
| LiteralAnd.SplitJoinedTags | src/featureFileSplitter.js:233 | Tag names without white space, joined by ` and `, split back into exactly those names. |
| LiteralAnd.AndExpressionRequiresEveryTag | src/featureFileSplitter.js:229-235 | For `@a and @b and ...` the required tokens are exactly those names. The check holds iff every one of them is among the combined tag names. |
| TagFilter.FilterFeaturesByTag | src/featureFileSplitter.js:334-340 | `features.filter` as `Seqs.Select` with the keep test of line 337 (partners: `TagFilter.FilterIsSubsequence`, `TagFilter.FilterSnoc`). |
| TagFilter.FilterIsSubsequence | src/featureFileSplitter.js:334-340 | The result is an order-preserving subsequence of the input. A sub-feature is kept iff some child with a `tags` field satisfies the expression, in both directions. |
| TagFilter.FilterIdempotent | src/featureFileSplitter.js:334-340 | Filtering the filtered list again changes nothing. |
| TagFilter.FilterAcceptAll | src/featureFileSplitter.js:334-340 | An evaluator that accepts every tag list keeps every sub-feature that has a tagged child. |
| TagFilter.FilterAcceptAllAfterSplit | src/featureFileSplitter.js:52-54 | With such an evaluator, filtering a split changes nothing, because every sub-feature's scenario has a `tags` field. |
| Serializer.WriteFeature | src/featureFileSplitter.js:267-322 | The loop-built string is `Render`: the feature's tag lines, then `Feature: <name>` (always the word `Feature`, not the keyword), then every child. It is `None` exactly when some child throws. |
| Serializer.Render | src/featureFileSplitter.js:267-322 | The text `writeFeature` returns, or `None` for the `undefined` it returns after a throw (partners: `SerializerProperties.RenderAsLines`, `SerializerProperties.RenderFailsOnlyOnEmptyExamples`, `Serializer.WriteFeature`). |
| Serializer.WriteChildren | src/featureFileSplitter.js:280-316 | It succeeds iff every child is writable, and then yields the children's texts in order. |
| Serializer.WriteTags | src/featureFileSplitter.js:273-277 | One line per tag name. |
| Serializer.WriteChild | src/featureFileSplitter.js:281-315 | For a writable child: its tag lines if it has a `tags` field, its title line, its steps, and its examples section. |
| Serializer.WriteSteps | src/featureFileSplitter.js:287-306 | Each step's line followed by its DataTable rows or DocString, in order. |
| Serializer.WriteExamples | src/featureFileSplitter.js:308-315 | `Examples:`, the header row of the first block, then its body rows. |
| Serializer.WriteRows | src/featureFileSplitter.js:312-314 | One `\|c1\|c2\|...\|` line per row, in order. |
| Serializer.WriteDataTable | src/featureFileSplitter.js:290-298 | The cell-by-cell loop gives the same lines as `WriteRows`. |
| Serializer.AllWritableAt | src/featureFileSplitter.js:280-316 | All children can be written iff each one can. |
| SerializerProperties.TagLinesAsLines | src/featureFileSplitter.js:273-277 | The tag text is the tag names, each ended by `\n`. |
| SerializerProperties.RowLinesAsLines | src/featureFileSplitter.js:312-314 | The row text is the rows' `\|...\|` strings, each ended by `\n`. |
| SerializerProperties.StepAsLines | src/featureFileSplitter.js:287-305 | A step's text is the reference line list: the step line, then one line per table row, or the delimiter, the content and the delimiter again. |
| SerializerProperties.StepsAsLines | src/featureFileSplitter.js:287-306 | The same for a list of steps. |
| SerializerProperties.ExamplesAsLines | src/featureFileSplitter.js:308-315 | The examples text is the line list `Examples:`, header, body rows. |
| SerializerProperties.ChildAsLines | src/featureFileSplitter.js:281-315 | A child's text equals its reference line list. |
| SerializerProperties.ChildrenAsLines | src/featureFileSplitter.js:280-316 | The same for all children, in order. |
| SerializerProperties.RenderAsLines | src/featureFileSplitter.js:267-318 | When no child throws, `writeFeature` yields exactly the reference lines, each ended by `\n`. |
| SerializerProperties.RenderFailsOnlyOnEmptyExamples | src/featureFileSplitter.js:308-321 | Writing fails iff some child is an outline whose `examples` is present and empty. |
| SerializerProperties.RenderSucceedsOnSplit | src/featureFileSplitter.js:308-311 | Every sub-feature the splitter builds can be written. |
| SerializerProperties.OnlyFirstBlockWritten | src/featureFileSplitter.js:309-315 | Any blocks after the first, and every block's tags, leave the written text unchanged. |
| SerializerProperties.RowOutlineEndsWithItsRow | src/featureFileSplitter.js:308-315 | A per-row outline's lines end with `Examples:`, its header and its one data row. |
| SerializerProperties.SmokeFeatureSplit | src/featureFileSplitter.js:247-251 | A feature tagged `@smoke` with one untagged scenario splits into one sub-feature, whose scenario carries `@smoke`. |
| SerializerProperties.SmokeFeatureText | src/featureFileSplitter.js:273-286 | That sub-feature is written as `@smoke`, `Feature: N`, `@smoke`, `Scenario: Login`. |
| SerializerProperties.SmokeScenarioText | src/featureFileSplitter.js:281-286 | Its scenario is written as its tag line and its title line. |
| SerializerProperties.SmokeFeatureWritten | src/featureFileSplitter.js:247-286 | Split and written, that feature gives exactly that four-line text. |
| Orchestrator.NatToString | src/featureFileSplitter.js:62 | The counter's text: at least one character, all digits, and two or more for counters from 10 (partner: `Orchestrator.NatToStringIsDecimal`). |
| Orchestrator.NatToStringIsDecimal | src/featureFileSplitter.js:62 | The text is the decimal numeral that `parentFileName + i` appends: its digits denote the counter, and it starts with `0` only for 0. |
| Orchestrator.NatToStringInjective | src/featureFileSplitter.js:62 | Different counters give different texts. |
| Orchestrator.LastSegmentIsSuffix | src/featureFileSplitter.js:59-60 | The last `/`-segment is a suffix of the path. |
| Orchestrator.LastSegmentHasNoSlash | src/featureFileSplitter.js:59-60 | The last segment contains no `/`. |
| Orchestrator.LastSegmentIsLongest | src/featureFileSplitter.js:59-60 | The last segment is the whole path or is preceded by `/`. |
| Orchestrator.LastSegment | src/featureFileSplitter.js:59-60 | The last element of `split("/")` (partners: `Orchestrator.LastSegmentIsSuffix`, `Orchestrator.LastSegmentHasNoSlash`, `Orchestrator.LastSegmentIsLongest`). |
| Orchestrator.ReplaceFirst | src/featureFileSplitter.js:61 | `replace` with a string pattern (partners: `Orchestrator.ReplaceFirstAt`, `Orchestrator.ReplaceFirstAbsent`). |
| Orchestrator.ReplaceFirstAt | src/featureFileSplitter.js:61 | Only the leftmost occurrence of the pattern is replaced. The text before it and after it is kept. |
| Orchestrator.ReplaceFirstAbsent | src/featureFileSplitter.js:61 | A string without an occurrence of the pattern comes back unchanged. |
| Orchestrator.OutputName | src/featureFileSplitter.js:59-62 | `<base><i>.feature`, with the base built from the input path (partners: `OrchestratorProperties.OutputNameOfFeatureFile`, `OrchestratorProperties.OutputNamesDistinct`). |
| OrchestratorProperties.CompileSingleFile | src/featureFileSplitter.js:34-64 | With `ff` set, only `<source>/<ff>.feature` is read, and the j-th file written is named after it with counter j + 1. For an `ff` without `.` or `/` that is `<tmp>/<ff>_<j+1>.feature`. |
| OrchestratorProperties.SingleSourcePaths | src/featureFileSplitter.js:59-64 | Numbered files that all come from `<dir>/<stem>.feature` are named after it with their counter, and for a plain stem are `<tmp>/<stem>_<j+1>.feature`. |
| Orchestrator.WriteAll | src/featureFileSplitter.js:58-65 | A batch writes at most one file per text, and one per text when none fails. |
| Orchestrator.Run | src/featureFileSplitter.js:45-68 | `fileSequence` never exceeds the number of documents seen. |
| Orchestrator.RunStopsAtFailure | src/featureFileSplitter.js:48-75 | Once an error is thrown, later documents change nothing (the `try` is left). |
| Orchestrator.Compile | src/featureFileSplitter.js:22-76 | The method, with its per-document loop, is exactly `CompileSpec`. That covers the directory checks, the load failure, the plan run, and the notice: it is printed iff the run did not fail and nothing survived. |
| Orchestrator.CompileDocuments | src/featureFileSplitter.js:48-68 | The `forEach` over the parsed documents, left at the first thrown error, ends in exactly the state `Run` gives for the whole plan. The writes are the concatenation of the per-document batches, the counters advance per document, and the documents after a failure change nothing. |
| Orchestrator.CompileDocument | src/featureFileSplitter.js:50-67 | One document's step: nothing without a feature, and a failure when the expression does not parse. Otherwise its survivors are written, numbered from `i`, and `i`, `fileSequence` and `scenariosWithTagFound` advance. |
| Orchestrator.Process | src/featureFileSplitter.js:50-57 | What one document yields before writing: nothing without a feature, a failure for an unparsable expression, else the texts of its survivors (partner: `OrchestratorProperties.ProcessWithMatches`). |
| Orchestrator.DocStep | src/featureFileSplitter.js:50-67 | One pass of `asts.forEach` on the counters and the writes (partners: `Orchestrator.CompileDocument`, `OrchestratorProperties.DocStepNumbering`, `OrchestratorProperties.DocStepWrites`). |
| Orchestrator.CompileSpec | src/featureFileSplitter.js:22-76 | The whole run (partners: `Orchestrator.Compile`, `OrchestratorProperties.CompileWritesSurvivors`, `OrchestratorProperties.CompileNumbering`, `OrchestratorProperties.CompileOutputsDistinct`). |
| Orchestrator.LoadAll | src/featureFileSplitter.js:84-111 | It succeeds iff every path loads, and then yields the documents in order. |
| Orchestrator.WriteBatch | src/featureFileSplitter.js:58-65 | The inner `forEach` gives `WriteAll` of the rendered survivors. It stops at the first text that cannot be written. |
| Orchestrator.WriteAllStopsAtFailure | src/featureFileSplitter.js:58-65 | After a failed write, later texts change nothing. |
| OrchestratorProperties.ReplaceExtension | src/featureFileSplitter.js:61 | `<stem>.feature` with `.feature` replaced by `_` is `<stem>_`. |
| OrchestratorProperties.LastSegmentOfFeatureFile | src/featureFileSplitter.js:59-60 | The last segment of `<dir>/<stem>.feature` is `<stem>.feature`. |
| OrchestratorProperties.LastSegmentAfterSlash | src/featureFileSplitter.js:59-60 | Whatever precedes the last `/`, the last segment is the slash-free text after it. |
| OrchestratorProperties.OutputNameOfFeatureFile | src/featureFileSplitter.js:59-62 | The k-th output of `<dir>/<stem>.feature` is named `<stem>_<k>.feature`. |
| OrchestratorProperties.PlainStemBase | src/featureFileSplitter.js:61 | The base of `<dir>/<stem>.feature` is `<stem>_`. |
| OrchestratorProperties.LastSegmentEndsWith | src/featureFileSplitter.js:59-60 | A slash-free ending of the path stays at the end of the last segment. |
| OrchestratorProperties.ReplaceFirstOfEnding | src/featureFileSplitter.js:61 | Replacing the first occurrence of a pattern that the string ends with leaves either the string's last character or the replacement's at the end. |
| OrchestratorProperties.FeatureFileUndigited | src/featureFileSplitter.js:35-39 | Every path ending in `.feature`, which is each path the glob or `ff` gives, has a base that does not end in a digit: it ends in `_` or in `e`. `src/a.feature.feature` is one such path. |
| OrchestratorProperties.DigitEndingBasesCollide | src/featureFileSplitter.js:59-62 | The base condition is needed: named after `src/a1` with counter 1 and after `src/a` with counter 11, both files are `a11.feature`. |
| OrchestratorProperties.DigitRunAfterBase | src/featureFileSplitter.js:61-62 | After a base that does not end in a digit, the trailing digit run is exactly the counter's digits. |
| OrchestratorProperties.OutputNamesDistinct | src/featureFileSplitter.js:59-62 | Two output names whose bases do not end in a digit are equal only if their counters are. |
| OrchestratorProperties.WriteAllEntries | src/featureFileSplitter.js:58-65 | The j-th file of a batch is in the output directory, named after the document's path with counter `i + j`, and holds the j-th text. |
| OrchestratorProperties.WriteAllSucceeds | src/featureFileSplitter.js:58-65 | A batch whose texts all exist does not fail. |
| OrchestratorProperties.BatchContents | src/featureFileSplitter.js:58-65 | Such a batch writes every text in order, each file named after the document's path. |
| OrchestratorProperties.DocStepNumbering | src/featureFileSplitter.js:58-66 | One document keeps `i` equal to the number of files written plus 1. The j-th file carries counter j + 1. |
| OrchestratorProperties.RunNumbering | src/featureFileSplitter.js:45-68 | `i` starts at 1 and is never reset: across all documents, the j-th file written has counter j + 1 and is named after an input path. |
| OrchestratorProperties.NumberedPathsDistinct | src/featureFileSplitter.js:59-64 | Numbered files whose inputs' bases do not end in a digit have pairwise different paths. The j-th has path `<tmp>/<base><j+1>.feature`. |
| OrchestratorProperties.DifferentCounters | src/featureFileSplitter.js:59-64 | Two files in one directory with different counters, named after inputs whose bases do not end in a digit, have different paths. |
| OrchestratorProperties.RunSucceeds | src/featureFileSplitter.js:48-68 | A run never fails when every expression parses and every text exists. |
| OrchestratorProperties.DocStepWrites | src/featureFileSplitter.js:50-67 | One writable document appends exactly its texts, named after its path, and sets `scenariosWithTagFound` iff it had any. |
| OrchestratorProperties.RunWritesPlan | src/featureFileSplitter.js:48-68 | Such a run writes every planned text in order. `scenariosWithTagFound` holds iff there was any. |
| OrchestratorProperties.ByPositionSources | src/featureFileSplitter.js:58-66 | Naming by position, each file is named after the document whose text it holds. |
| OrchestratorProperties.RunWritesNothing | src/featureFileSplitter.js:48-68 | When nothing is to be written, nothing is. The run fails iff some document's expression does not parse, and then with that error. |
| OrchestratorProperties.NamingsAgree | src/featureFileSplitter.js:59-66 | When every document has a feature, `filePaths[fileSequence]` is the current document's path, and `fileSequence` counts all documents. |
| OrchestratorProperties.FilterSubset | src/featureFileSplitter.js:334 | Every kept sub-feature was in the input. |
| OrchestratorProperties.SurvivorsRender | src/featureFileSplitter.js:54-64 | Every surviving sub-feature can be written. |
| OrchestratorProperties.ProcessWithMatches | src/featureFileSplitter.js:50-64 | With an expression that parses, a document asks for exactly its survivors' texts, and all of them exist. |
| OrchestratorProperties.PlanWritable | src/featureFileSplitter.js:48-68 | With an expression that parses, no document of the run can fail. |
| OrchestratorProperties.PlanTexts | src/featureFileSplitter.js:48-68 | The planned texts are the texts of all survivors, document by document. |
| OrchestratorProperties.PlanSources | src/featureFileSplitter.js:48-68 | Each planned text is paired with its own document's path. |
| OrchestratorProperties.CompileNumbering | src/featureFileSplitter.js:45-65 | Every output of `compile` is in the output directory, numbered by its position from 1, and named after an input path. |
| OrchestratorProperties.CompileOutputsDistinct | src/featureFileSplitter.js:34-64 | No two outputs of `compile` share a path. The only assumption is what the glob `*.feature` returns: paths ending in `.feature`. `<source>/<ff>.feature` always ends that way. |
| OrchestratorProperties.CompileWritesSurvivors | src/featureFileSplitter.js:22-72 | With readable files and an expression that parses, `compile` completes and writes one file per surviving sub-feature, with its text, in order. The notice is printed iff nothing survived, the empty expression included. |
| OrchestratorProperties.CompileWithUnparsableExpression | src/featureFileSplitter.js:54-75 | An expression that does not parse writes nothing. The run fails iff some document has a feature, and otherwise the notice is printed. |
| OrchestratorProperties.OutputNamedAfterItsSource | src/featureFileSplitter.js:59-66 | Naming by position, every file is named after the document it came from. When every document has a feature, the code as written gives the same outcome. |
| OrchestratorProperties.SmokeSurvives | src/featureFileSplitter.js:52-54 | The smoke feature leaves exactly one survivor. |
| OrchestratorProperties.FeaturelessFirstRun | src/featureFileSplitter.js:48-66 | For a featureless document followed by one with texts, `fileSequence` names every file after the first path, and naming by position uses the second. |
| OrchestratorProperties.MisnamedAfterFeaturelessFile | src/featureFileSplitter.js:59-66 | As written, when file a has no feature and file b has one, every output is named after a, as `<tmp>/<base of a><j+1>.feature`. Naming by position uses b. |
| OrchestratorProperties.SourcedPaths | src/featureFileSplitter.js:59-64 | Numbered files that all come from one path a are `<tmp>/<base of a><j+1>.feature`. |
| OrchestratorProperties.MisnamedExample | src/featureFileSplitter.js:59-66 | For `src/a.feature` without a feature and `src/b.feature` with one scenario, the code writes `out/a_1.feature`. Naming by position writes `out/b_1.feature`. |
| OrchestratorProperties.ExampleOutputPath | src/featureFileSplitter.js:59-64 | The first output of `src/<stem>.feature` is `out/<stem>_1.feature`. |
| OrchestratorProperties.FeaturelessOutputPath | src/featureFileSplitter.js:59-64 | The first output named after `src/a.feature` is `out/a_1.feature`. |
| OrchestratorProperties.SmokeOutputPath | src/featureFileSplitter.js:59-64 | The first output named after `src/b.feature` is `out/b_1.feature`. |

## Left out

- The tag expression is split on the literal ` and ` instead of the regular
  expression `\s+and\s+`. The two agree when the words are separated by single
  spaces. `trim` removes only ASCII space, tab, CR and LF.
- The Gherkin parser and the `@cucumber/tag-expressions` library are not
  modelled. The parser is the parameter `load`, and the parsed expression is
  the predicate `parsed`/`matches` over tag names.
- `fs`, `glob`, `path.resolve`, `console` and `chalk` are I/O and are left
  out. A write is recorded as a `FileWrite`, and the notice as a boolean.
  Error messages and warnings such as "Missing examples for Scenario Outline"
  are not modelled.
- `readFiles` and `parseGherkinFiles` are collapsed into `load`. A failure of
  either makes `asts.forEach` throw, modelled as `LoadFailed`.
- The `try`/`catch` blocks: every error that reaches `compile` ends the run.
  This is modelled by the `Failure` values, and the files already written stay
  written. `filterFeaturesByTag` catches the parse error of a tag expression,
  which is modelled (`InvalidTagExpression`). The other errors these
  functions catch are not: see the next line.
- An `Examples:` block always has a header row and a body in the model
  (`Gherkin.Examples`). In the source a block without a table has `tableHeader`
  and `tableBody` undefined. What happens then depends on the case, and none
  of it is represented:
  - CASE 1 (tagged split): `splitFeature` throws at `tableBody.forEach` (line
    175) when it reaches that block and returns `undefined`. The `.length`
    at line 55 then throws and ends the run before anything of that document
    is written.
  - CASE 2 (untagged split): `splitFeature` does not throw. The `flatMap` at
    line 195 keeps `undefined` as a row, and its sub-feature is built with
    that row. `writeFeature` throws at `tableRow.cells` (line 313), or at
    `tableHeader.cells` (line 311) for every row when block 0 has no table,
    and returns `undefined`. Writing that ends the run, after the files of the
    earlier rows are written.
  - CASE 3 (intact outline): only block 0's table is read (lines 309-314). When
    block 0 has a table, the outline is written normally and the run goes on.
    When it has none, `writeFeature` throws at line 311 and returns
    `undefined`, and writing that ends the run.
- Writing `undefined` is modelled as a write that fails and ends the run, as
  `fs.writeFileSync` does on Node 14 and later. Earlier versions wrote the
  text `undefined` instead. No sub-feature the splitter builds reaches this
  case (`SerializerProperties.RenderSucceedsOnSplit`).
- `_.cloneDeep` is not modelled. Dafny datatypes are immutable values, so every
  sub-feature is an independent copy by construction.
- Descriptions, comments, source locations, `lang` and the `type` fields
  beyond the Background/Scenario/ScenarioOutline distinction are not part of
  the tree. `writeFeature` does not read them.
- `Serializer.WriteFeature`: a feature node's `tags` is always present in a
  parsed tree, so the `if (feature.tags)` guard is not modelled.
- `Splitter.MergeExampleTags`: the `requiredTags.every(...)` check is evaluated
  through the predicate `MergeCheck`, not through an inner loop.
- `Orchestrator.Run` is defined over a per-document plan (each document's
  result, computed first). The writes of one document do not depend on other
  documents, so the order of effects is the same.
- `performSetup.js` is not part of this model.

## Findings

| source | as written | input that shows it | evidently intended | confidence | as-written member | corrected member |
|---|---|---|---|---|---|---|
| src/featureFileSplitter.js:59-66 | Output files are named after `filePaths[fileSequence]`. `fileSequence` advances only for documents that have a feature, so once a document without a feature has been seen, later files are named after an earlier input. | `src/a.feature` parses to a document without a feature. `src/b.feature` holds a feature with one scenario. Output directory `out`, empty tag expression. The one file written is `out/a_1.feature`. | Each output file is named after the input it came from (`out/b_1.feature`). | not executed | `OrchestratorProperties.MisnamedExample` (general form `OrchestratorProperties.MisnamedAfterFeaturelessFile`, with `Naming.BySequence`) | `OrchestratorProperties.OutputNamedAfterItsSource` (with `Naming.ByPosition`) |
