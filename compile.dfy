/** `compile`: split every parsed feature file, keep the sub-features that
    match the tag expression, and write each to its own numbered file.

    The file system, `glob`, the Gherkin parser and the tag-expression parser
    are parameters: `globbed` is the list of `.feature` files the glob finds
    in the source directory, `load` gives for each path the parsed document
    or `None` when reading or parsing fails, and `parsed` is the evaluator of the tag
    expression or `None` when it does not parse. Writing a file is recorded
    as a `FileWrite` in the outcome. */
module Orchestrator {
  import opened Gherkin
  import opened Splitter
  import opened TagFilter
  import opened Serializer

  const FEATURE_EXTENSION := ".feature"
  /** What `.replace(".feature", "_")` puts in place of the extension. */
  const NAME_SEPARATOR := "_"

  /** The options `compile` reads. An absent or empty directory or tag
      expression is the empty string, so `tagExpression || ""` is the
      identity here. */
  datatype Options = Options(sourceSpecDirectory: string, tmpSpecDirectory: string, tagExpression: string,
                             ff: Option<string>, splitExamples: bool)

  /** A parsed file: `ast.feature` may be absent. */
  datatype GherkinDocument = GherkinDocument(feature: Option<Feature>)

  /** Why `compile` stopped; the error is logged and nothing after it happens. */
  datatype Failure =
    | MissingSourceDirectory   // "Features paths are not defined"
    | MissingOutputDirectory   // "Output dir path is not defined"
    | LoadFailed               // a file could not be read or parsed
    | InvalidTagExpression     // the tag expression does not parse
    | WriteFailed              // `writeFeature` returned `undefined`

  /** One `fs.writeFileSync`: the output directory, the input path the file
      is named after, the counter `i` and the text written. */
  datatype FileWrite = FileWrite(directory: string, source: string, counter: nat, text: string)
  {
    /** The path written: `${options.tmpSpecDirectory}/${fileName}`. */
    function Path(): string
    {
      OutputPath(directory, source, counter)
    }
  }

  /** The files written, in order, whether the "No Feature File found"
      notice is printed, and the failure that stopped the run, if any. */
  datatype Outcome = Outcome(writes: seq<FileWrite>, noMatchNotice: bool, failure: Option<Failure>)

  /** Which input path an output file is named after: `BySequence` is the
      source as written (`filePaths[fileSequence]`, where `fileSequence`
      counts only the files that have a feature); `ByPosition` names it
      after the file it came from. */
  datatype Naming = BySequence | ByPosition

  // ---------------------------------------------------------------------
  // Output file names

  function DigitChar(d: nat): char
    requires d < 10
  {
    ('0' as int + d) as char
  }

  /** The decimal digits of `n`, as `parentFileName + i` writes them. */
  function NatToString(n: nat): (s: string)
    ensures |s| >= 1
    ensures forall i :: 0 <= i < |s| ==> '0' <= s[i] <= '9'
    ensures n >= 10 ==> |s| >= 2
  {
    if n < 10 then [DigitChar(n)] else NatToString(n / 10) + [DigitChar(n % 10)]
  }

  /** The number a string of decimal digits denotes, most significant digit first. */
  function DecimalValue(s: string): nat
    requires forall i :: 0 <= i < |s| ==> '0' <= s[i] <= '9'
  {
    if s == [] then 0 else DecimalValue(s[..|s| - 1]) * 10 + (s[|s| - 1] as int - '0' as int)
  }

  /** `NatToString(n)` is the decimal numeral of `n` that JavaScript's
      number-to-string conversion gives: its digits denote `n`, and it has no
      leading zero unless `n` is zero. */
  lemma {:induction false} NatToStringIsDecimal(n: nat)
    ensures DecimalValue(NatToString(n)) == n
    ensures NatToString(n)[0] == '0' <==> n == 0
    decreases n
  {
    if n >= 10 {
      var s := NatToString(n / 10);
      var t := s + [DigitChar(n % 10)];
      NatToStringIsDecimal(n / 10);
      assert t[..|t| - 1] == s;
      assert t[0] == s[0];
    }
  }

  /** Different counters give different digit strings. */
  lemma {:induction false} NatToStringInjective(m: nat, n: nat)
    requires NatToString(m) == NatToString(n)
    ensures m == n
    decreases m
  {
    if m >= 10 && n >= 10 {
      var sm, sn := NatToString(m), NatToString(n);
      assert sm[|sm| - 1] == DigitChar(m % 10) && sn[|sn| - 1] == DigitChar(n % 10);
      assert sm[..|sm| - 1] == NatToString(m / 10);
      assert sn[..|sn| - 1] == NatToString(n / 10);
      NatToStringInjective(m / 10, n / 10);
    }
  }

  /** `path.split("/")[last]` */
  function LastSegment(path: string): string
  {
    if path == [] then ""
    else if path[|path| - 1] == '/' then ""
    else LastSegment(path[..|path| - 1]) + [path[|path| - 1]]
  }

  /** The last segment is a suffix of the path. */
  lemma {:induction false} LastSegmentIsSuffix(path: string)
    ensures |LastSegment(path)| <= |path|
    ensures path[|path| - |LastSegment(path)|..] == LastSegment(path)
    decreases |path|
  {
    if path != [] && path[|path| - 1] != '/' {
      var n := |path| - 1;
      LastSegmentIsSuffix(path[..n]);
      var name0 := LastSegment(path[..n]);
      assert path[n - |name0|..] == path[..n][n - |name0|..] + [path[n]];
    }
  }

  /** The last segment holds no `/`. */
  lemma {:induction false} LastSegmentHasNoSlash(path: string)
    ensures '/' !in LastSegment(path)
    decreases |path|
  {
    if path != [] && path[|path| - 1] != '/' {
      LastSegmentHasNoSlash(path[..|path| - 1]);
    }
  }

  /** The last segment is the longest such suffix: it is the whole path or
      is preceded by a `/`. */
  lemma {:induction false} LastSegmentIsLongest(path: string)
    ensures |LastSegment(path)| < |path| ==> path[|path| - |LastSegment(path)| - 1] == '/'
    decreases |path|
  {
    if path != [] && path[|path| - 1] != '/' {
      var n := |path| - 1;
      LastSegmentIsLongest(path[..n]);
      var name0 := LastSegment(path[..n]);
      if |name0| < n {
        assert path[..n][n - |name0| - 1] == path[n - |name0| - 1];
      }
    }
  }

  predicate OccursAt(s: string, pattern: string, i: nat)
  {
    i + |pattern| <= |s| && s[i..i + |pattern|] == pattern
  }

  /** `s.replace(pattern, replacement)` with a string pattern: only the
      leftmost occurrence is replaced. */
  function ReplaceFirst(s: string, pattern: string, replacement: string): string
    requires |pattern| > 0
    decreases |s|
  {
    if |s| < |pattern| then s
    else if s[..|pattern|] == pattern then replacement + s[|pattern|..]
    else [s[0]] + ReplaceFirst(s[1..], pattern, replacement)
  }

  /** At the leftmost occurrence of the pattern, that occurrence and only it
      is replaced. */
  lemma {:induction false} ReplaceFirstAt(s: string, pattern: string, replacement: string, i: nat)
    requires |pattern| > 0 && OccursAt(s, pattern, i)
    requires forall i' :: 0 <= i' < i ==> !OccursAt(s, pattern, i')
    ensures ReplaceFirst(s, pattern, replacement) == s[..i] + replacement + s[i + |pattern|..]
    decreases i
  {
    if i == 0 {
      assert s[..|pattern|] == pattern;
    } else {
      NoEarlierInTail(s, pattern, i);
      OccursShift(s, pattern, i - 1);
      ReplaceFirstAt(s[1..], pattern, replacement, i - 1);
      ReplaceFirstSkips(s, pattern, replacement);
      ConsSplit(s, replacement, i, |pattern|);
    }
  }

  /** Without an occurrence at the front, `ReplaceFirst` keeps the first character. */
  lemma ReplaceFirstSkips(s: string, pattern: string, replacement: string)
    requires |pattern| > 0 && |s| > |pattern| && !OccursAt(s, pattern, 0)
    ensures ReplaceFirst(s, pattern, replacement) == [s[0]] + ReplaceFirst(s[1..], pattern, replacement)
  {
  }

  lemma ConsSplit(s: string, replacement: string, i: nat, n: nat)
    requires 0 < i && i + n <= |s|
    ensures [s[0]] + (s[1..][..i - 1] + replacement + s[1..][i - 1 + n..]) == s[..i] + replacement + s[i + n..]
  {
    assert [s[0]] + s[1..][..i - 1] == s[..i];
    assert s[1..][i - 1 + n..] == s[i + n..];
  }

  lemma NoEarlierInTail(s: string, pattern: string, i: nat)
    requires 0 < i <= |s| && forall i' :: 0 <= i' < i ==> !OccursAt(s, pattern, i')
    ensures forall i' :: 0 <= i' < i - 1 ==> !OccursAt(s[1..], pattern, i')
  {
    forall i' | 0 <= i' < i - 1 ensures !OccursAt(s[1..], pattern, i') {
      OccursShift(s, pattern, i');
    }
  }

  /** An occurrence in the tail is an occurrence one place later in the string. */
  lemma OccursShift(s: string, pattern: string, i: nat)
    requires |s| > 0
    ensures OccursAt(s[1..], pattern, i) == OccursAt(s, pattern, i + 1)
  {
    if i + 1 + |pattern| <= |s| {
      assert s[1..][i..i + |pattern|] == s[i + 1..i + 1 + |pattern|];
    }
  }

  /** Without an occurrence of the pattern the string is unchanged. */
  lemma {:induction false} ReplaceFirstAbsent(s: string, pattern: string, replacement: string)
    requires |pattern| > 0
    requires forall i: nat :: !OccursAt(s, pattern, i)
    ensures ReplaceFirst(s, pattern, replacement) == s
    decreases |s|
  {
    if |s| >= |pattern| {
      assert !OccursAt(s, pattern, 0);
      var t := s[1..];
      forall i: nat ensures !OccursAt(t, pattern, i) {
        OccursShift(s, pattern, i);
      }
      ReplaceFirstAbsent(t, pattern, replacement);
      assert [s[0]] + t == s;
    }
  }

  /** The name the k-th output file gets when named after `path`. */
  function OutputName(path: string, k: nat): string
  {
    ReplaceFirst(LastSegment(path), FEATURE_EXTENSION, NAME_SEPARATOR) + NatToString(k) + FEATURE_EXTENSION
  }

  /** `${options.tmpSpecDirectory}/${fileName}` */
  function OutputPath(directory: string, path: string, k: nat): string
  {
    directory + "/" + OutputName(path, k)
  }

  // ---------------------------------------------------------------------
  // The run, as a function

  /** `glob.sync(...)` when no single file is named, else only `<source>/<ff>.feature`. */
  function FilePaths(opts: Options, globbed: seq<string>): seq<string>
  {
    if opts.ff.None? then globbed else [opts.sourceSpecDirectory + "/" + opts.ff.value + FEATURE_EXTENSION]
  }

  /** The files written for one document's surviving sub-features, numbered
      from `counter`; `failed` when a sub-feature cannot be written, after
      which nothing more is written. */
  datatype Batch = Batch(writes: seq<FileWrite>, failed: bool)

  /** `writeFeature` of each sub-feature, in order. */
  function Rendered(kept: seq<Feature>): seq<Option<string>>
  {
    seq(|kept|, j requires 0 <= j < |kept| => Render(kept[j]))
  }

  function WriteAll(texts: seq<Option<string>>, directory: string, path: string, counter: nat): (b: Batch)
    ensures |b.writes| <= |texts|
    ensures !b.failed ==> |b.writes| == |texts|
  {
    if texts == [] then Batch([], false)
    else
      var b := WriteAll(texts[..|texts| - 1], directory, path, counter);
      if b.failed then b
      else
        match texts[|texts| - 1]
        case None => Batch(b.writes, true)
        case Some(text) => Batch(b.writes + [FileWrite(directory, path, counter + |b.writes|, text)], false)
  }

  /** The variables of `compile` after some documents: the files written,
      `i`, `fileSequence`, `scenariosWithTagFound`, and the failure, if one
      ended the run. */
  datatype Progress = Progress(writes: seq<FileWrite>, counter: nat, fileSequence: nat, found: bool,
                               failure: Option<Failure>)

  /** What one parsed document contributes: the sub-features of its feature
      that pass the filter; nothing for a document without a feature. */
  function Surviving(ast: GherkinDocument, opts: Options, matches: seq<string> -> bool): seq<Feature>
  {
    if ast.feature.None? then []
    else FilterFeaturesByTag(Split(ast.feature.value, opts.splitExamples, opts.tagExpression), matches)
  }

  /** What one document yields before anything is written: it has no
      feature, or the tag expression does not parse, or the `writeFeature`
      text of each surviving sub-feature, in order. */
  datatype DocResult = NoFeature | Unparsable | Rendering(texts: seq<Option<string>>)

  function Process(ast: GherkinDocument, opts: Options, parsed: Option<seq<string> -> bool>): DocResult
  {
    if ast.feature.None? then NoFeature
    else if parsed.None? then Unparsable
    else Rendering(Rendered(Surviving(ast, opts, parsed.value)))
  }

  /** The result of every document, in order. */
  function Plan(asts: seq<GherkinDocument>, opts: Options, parsed: Option<seq<string> -> bool>): seq<DocResult>
  {
    seq(|asts|, d requires 0 <= d < |asts| => Process(asts[d], opts, parsed))
  }

  /** One document of `asts.forEach(ast => ...)`, its output named after
      `path` and written in `directory`. */
  function DocStep(p: Progress, r: DocResult, path: string, directory: string): Progress
  {
    if p.failure.Some? || r.NoFeature? then p
    else if r.Unparsable? then p.(failure := Some(InvalidTagExpression))
    else
      var b := WriteAll(r.texts, directory, path, p.counter);
      Progress(p.writes + b.writes, p.counter + |b.writes|, p.fileSequence + 1, p.found || |r.texts| > 0,
               if b.failed then Some(WriteFailed) else None)
  }

  /** The state after the first `k` documents. */
  function Run(plan: seq<DocResult>, paths: seq<string>, k: nat, directory: string, naming: Naming): (p: Progress)
    requires k <= |plan| == |paths|
    ensures p.fileSequence <= k
  {
    if k == 0 then Progress([], 1, 0, false, None)
    else
      var before := Run(plan, paths, k - 1, directory, naming);
      var path := if naming == BySequence then paths[before.fileSequence] else paths[k - 1];
      DocStep(before, plan[k - 1], path, directory)
  }

  predicate AllLoadable(paths: seq<string>, load: string -> Option<GherkinDocument>)
  {
    forall i :: 0 <= i < |paths| ==> load(paths[i]).Some?
  }

  function Asts(paths: seq<string>, load: string -> Option<GherkinDocument>): seq<GherkinDocument>
    requires AllLoadable(paths, load)
  {
    seq(|paths|, i requires 0 <= i < |paths| => load(paths[i]).value)
  }

  /** The whole of `compile(options)`. */
  function CompileSpec(opts: Options, globbed: seq<string>, load: string -> Option<GherkinDocument>,
                       parsed: Option<seq<string> -> bool>, naming: Naming): Outcome
  {
    if opts.sourceSpecDirectory == "" then Outcome([], false, Some(MissingSourceDirectory))
    else if opts.tmpSpecDirectory == "" then Outcome([], false, Some(MissingOutputDirectory))
    else
      var paths := FilePaths(opts, globbed);
      if !AllLoadable(paths, load) then Outcome([], false, Some(LoadFailed))
      else
        var asts := Asts(paths, load);
        var p := Run(Plan(asts, opts, parsed), paths, |asts|, opts.tmpSpecDirectory, naming);
        Outcome(p.writes, p.failure.None? && !p.found, p.failure)
  }

  /** One more document: the step `asts.forEach` takes for it. */
  lemma RunStep(plan: seq<DocResult>, paths: seq<string>, k: nat, directory: string, naming: Naming)
    requires k < |plan| == |paths|
    ensures var before := Run(plan, paths, k, directory, naming);
            Run(plan, paths, k + 1, directory, naming)
            == DocStep(before, plan[k], if naming == BySequence then paths[before.fileSequence] else paths[k], directory)
  {
  }

  /** Once a failure is recorded, later documents change nothing. */
  lemma {:induction false} RunStopsAtFailure(plan: seq<DocResult>, paths: seq<string>, k: nat, m: nat,
                                             directory: string, naming: Naming)
    requires k <= m <= |plan| == |paths|
    requires Run(plan, paths, k, directory, naming).failure.Some?
    ensures Run(plan, paths, m, directory, naming) == Run(plan, paths, k, directory, naming)
    decreases m - k
  {
    if k < m {
      RunStopsAtFailure(plan, paths, k + 1, m, directory, naming);
    }
  }

  // ---------------------------------------------------------------------
  // The run, as the source performs it

  /** `compile(options)`: the option checks, then reading and parsing every
      file, then the loop over the documents and, inside it, the loop over
      the surviving sub-features. */
  method Compile(opts: Options, globbed: seq<string>, load: string -> Option<GherkinDocument>,
                 parsed: Option<seq<string> -> bool>, naming: Naming) returns (outcome: Outcome)
    ensures outcome == CompileSpec(opts, globbed, load, parsed, naming)
  {
    if opts.sourceSpecDirectory == "" {
      return Outcome([], false, Some(MissingSourceDirectory));
    }
    if opts.tmpSpecDirectory == "" {
      return Outcome([], false, Some(MissingOutputDirectory));
    }
    var filePaths := FilePaths(opts, globbed);
    var ok, asts := LoadAll(filePaths, load);
    if !ok {
      return Outcome([], false, Some(LoadFailed));
    }
    var progress := CompileDocuments(asts, filePaths, opts, parsed, naming);
    outcome := Outcome(progress.writes, progress.failure.None? && !progress.found, progress.failure);
  }

  /** `asts.forEach(ast => ...)`, left at the first error thrown. */
  method CompileDocuments(asts: seq<GherkinDocument>, filePaths: seq<string>, opts: Options,
                          parsed: Option<seq<string> -> bool>, naming: Naming) returns (progress: Progress)
    requires |asts| == |filePaths|
    ensures progress == Run(Plan(asts, opts, parsed), filePaths, |asts|, opts.tmpSpecDirectory, naming)
  {
    ghost var plan := Plan(asts, opts, parsed);
    progress := Progress([], 1, 0, false, None);
    var k := 0;
    while k < |asts| && progress.failure.None?
      invariant 0 <= k <= |asts|
      invariant progress == Run(plan, filePaths, k, opts.tmpSpecDirectory, naming)
    {
      var path := if naming == BySequence then filePaths[progress.fileSequence] else filePaths[k];
      progress := CompileDocument(progress, asts[k], path, opts, parsed);
      RunStep(plan, filePaths, k, opts.tmpSpecDirectory, naming);
      k := k + 1;
    }
    if k < |asts| {
      // the error thrown leaves `asts.forEach`: the remaining documents change nothing
      RunStopsAtFailure(plan, filePaths, k, |asts|, opts.tmpSpecDirectory, naming);
    }
  }

  /** The body of `asts.forEach(ast => ...)` for one document: the variables
      `i`, `fileSequence` and `scenariosWithTagFound` travel in `progress`. */
  method CompileDocument(progress: Progress, ast: GherkinDocument, path: string, opts: Options,
                         parsed: Option<seq<string> -> bool>) returns (next: Progress)
    requires progress.failure.None?
    ensures next == DocStep(progress, Process(ast, opts, parsed), path, opts.tmpSpecDirectory)
  {
    next := progress;
    if ast.feature.Some? {
      var feature := ast.feature.value;
      var featureTemplate := GetFeatureTemplate(feature);
      var features := SplitFeature(feature.children, featureTemplate, opts.splitExamples, opts.tagExpression);
      if parsed.None? {
        // `filterFeaturesByTag` returns `undefined`; reading its length throws
        return progress.(failure := Some(InvalidTagExpression));
      }
      var filteredFeatures := FilterFeaturesByTag(features, parsed.value);
      var scenariosWithTagFound := progress.found;
      if |filteredFeatures| > 0 {
        scenariosWithTagFound := true;
      }
      var batch, failed := WriteBatch(filteredFeatures, opts.tmpSpecDirectory, path, progress.counter);
      var failure := if failed then Some(WriteFailed) else None;
      next := Progress(progress.writes + batch, progress.counter + |batch|, progress.fileSequence + 1,
                       scenariosWithTagFound, failure);
      DocumentWritten(progress, ast, opts, parsed.value, path, filteredFeatures, batch, failed);
    }
  }

  /** The step of a document with a feature, once its survivors are written. */
  lemma DocumentWritten(progress: Progress, ast: GherkinDocument, opts: Options, matches: seq<string> -> bool,
                        path: string, filtered: seq<Feature>, batch: seq<FileWrite>, failed: bool)
    requires progress.failure.None? && ast.feature.Some?
    requires filtered == FilterFeaturesByTag(SplitChildren(ast.feature.value.children, GetFeatureTemplate(ast.feature.value),
                                                           opts.splitExamples, opts.tagExpression), matches)
    requires Batch(batch, failed) == WriteAll(Rendered(filtered), opts.tmpSpecDirectory, path, progress.counter)
    ensures DocStep(progress, Process(ast, opts, Some(matches)), path, opts.tmpSpecDirectory)
            == Progress(progress.writes + batch, progress.counter + |batch|, progress.fileSequence + 1,
                        progress.found || |filtered| > 0, if failed then Some(WriteFailed) else None)
  {
    assert Process(ast, opts, Some(matches)) == Rendering(Rendered(filtered));
  }

  /** `readFiles` then `parseGherkinFiles`: one failure fails them all. */
  method LoadAll(filePaths: seq<string>, load: string -> Option<GherkinDocument>)
    returns (ok: bool, asts: seq<GherkinDocument>)
    ensures ok == AllLoadable(filePaths, load)
    ensures ok ==> asts == Asts(filePaths, load)
  {
    asts := [];
    var n := 0;
    while n < |filePaths|
      invariant 0 <= n <= |filePaths|
      invariant |asts| == n
      invariant forall j :: 0 <= j < n ==> load(filePaths[j]).Some? && asts[j] == load(filePaths[j]).value
    {
      var document := load(filePaths[n]);
      if document.None? {
        return false, asts;
      }
      asts := asts + [document.value];
      n := n + 1;
    }
    ok := true;
  }

  /** `filteredFeatures.forEach(splitFeature => ...)`: name the file after
      `path` and the counter, advance the counter, write the text. */
  method WriteBatch(filteredFeatures: seq<Feature>, directory: string, path: string, counter: nat)
    returns (writes: seq<FileWrite>, failed: bool)
    ensures Batch(writes, failed) == WriteAll(Rendered(filteredFeatures), directory, path, counter)
  {
    ghost var texts := Rendered(filteredFeatures);
    writes := [];
    var i := counter;
    var w := 0;
    while w < |filteredFeatures|
      invariant 0 <= w <= |filteredFeatures|
      invariant WriteAll(texts[..w], directory, path, counter) == Batch(writes, false)
      invariant i == counter + |writes|
    {
      var splitFeature := filteredFeatures[w];
      // the file is named `OutputName(path, i)`
      var fileCounter := i;
      i := i + 1;
      var text := WriteFeature(splitFeature);
      assert text == texts[w];
      WriteAllSnoc(texts, directory, path, counter, w);
      if text.None? {
        // `fs.writeFileSync` refuses `undefined` data and throws (Node 14 and later)
        WriteAllStopsAtFailure(texts, directory, path, counter, w + 1);
        return writes, true;
      }
      writes := writes + [FileWrite(directory, path, fileCounter, text.value)];
      w := w + 1;
    }
    assert texts[..w] == texts;
    failed := false;
  }

  /** One more text after a batch that has not failed. */
  lemma WriteAllSnoc(texts: seq<Option<string>>, directory: string, path: string, counter: nat, w: nat)
    requires w < |texts|
    requires !WriteAll(texts[..w], directory, path, counter).failed
    ensures var b := WriteAll(texts[..w], directory, path, counter);
            WriteAll(texts[..w + 1], directory, path, counter)
            == match texts[w]
               case None => Batch(b.writes, true)
               case Some(text) => Batch(b.writes + [FileWrite(directory, path, counter + |b.writes|, text)], false)
  {
    assert texts[..w + 1][..w] == texts[..w];
  }

  lemma {:induction false} WriteAllStopsAtFailure(texts: seq<Option<string>>, directory: string, path: string,
                                                  counter: nat, w: nat)
    requires w <= |texts|
    requires WriteAll(texts[..w], directory, path, counter).failed
    ensures WriteAll(texts, directory, path, counter) == WriteAll(texts[..w], directory, path, counter)
    decreases |texts| - w
  {
    if w < |texts| {
      assert texts[..w + 1][..w] == texts[..w];
      WriteAllStopsAtFailure(texts, directory, path, counter, w + 1);
    } else {
      assert texts[..w] == texts;
    }
  }
}
