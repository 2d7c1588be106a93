/** What `compile` promises about the files it writes: how they are named
    and numbered, which sub-features they hold, when the no-match notice is
    printed, and the naming defect of `fileSequence`. */
module OrchestratorProperties {
  import opened Orchestrator
  import opened Gherkin
  import opened Seqs
  import opened Splitter
  import opened TagFilter
  import opened Serializer
  import opened SerializerProperties

  // ---------------------------------------------------------------------
  // File names

  /** A name with no `.` and no `/` in it, like the stem of `login.feature`. */
  predicate PlainStem(stem: string)
  {
    forall i :: 0 <= i < |stem| ==> stem[i] != '.' && stem[i] != '/'
  }

  lemma {:induction false} ReplaceExtension(stem: string)
    requires PlainStem(stem)
    ensures ReplaceFirst(stem + FEATURE_EXTENSION, FEATURE_EXTENSION, NAME_SEPARATOR) == stem + NAME_SEPARATOR
    decreases |stem|
  {
    var s := stem + FEATURE_EXTENSION;
    if stem == [] {
      assert s == FEATURE_EXTENSION;
    } else {
      assert s[..|FEATURE_EXTENSION|][0] == stem[0] != FEATURE_EXTENSION[0];
      assert s[1..] == stem[1..] + FEATURE_EXTENSION;
      ReplaceExtension(stem[1..]);
      assert [stem[0]] + stem[1..] == stem;
    }
  }

  lemma LastSegmentOfFeatureFile(directory: string, stem: string)
    requires PlainStem(stem)
    ensures LastSegment(directory + "/" + stem + FEATURE_EXTENSION) == stem + FEATURE_EXTENSION
  {
    var tail := stem + FEATURE_EXTENSION;
    assert directory + "/" + stem + FEATURE_EXTENSION == directory + "/" + tail;
    LastSegmentAfterSlash(directory, tail);
  }

  /** Whatever precedes the last `/`, the last segment is what follows it. */
  lemma {:induction false} LastSegmentAfterSlash(prefix: string, tail: string)
    requires forall i :: 0 <= i < |tail| ==> tail[i] != '/'
    ensures LastSegment(prefix + "/" + tail) == tail
    decreases |tail|
  {
    var path := prefix + "/" + tail;
    if tail == [] {
      assert path[|path| - 1] == '/';
    } else {
      var n := |tail| - 1;
      assert path[..|path| - 1] == prefix + "/" + tail[..n];
      LastSegmentAfterSlash(prefix, tail[..n]);
      assert path[|path| - 1] == tail[n];
      assert tail == tail[..n] + [tail[n]];
    }
  }

  /** The k-th output file of `<dir>/<stem>.feature` is `<stem>_<k>.feature`. */
  lemma OutputNameOfFeatureFile(directory: string, stem: string, k: nat)
    requires PlainStem(stem)
    ensures OutputName(directory + "/" + stem + FEATURE_EXTENSION, k) == stem + "_" + NatToString(k) + ".feature"
  {
    LastSegmentOfFeatureFile(directory, stem);
    ReplaceExtension(stem);
  }

  /** The part of an output name before its counter: the input's last
      segment with its first `.feature` replaced by `_`. */
  function BaseName(path: string): string
  {
    ReplaceFirst(LastSegment(path), FEATURE_EXTENSION, NAME_SEPARATOR)
  }

  predicate IsDigit(c: char)
  {
    '0' <= c <= '9'
  }

  /** The base does not end in a digit, so the counter is the whole digit
      run the name ends with. */
  predicate UndigitedBase(path: string)
  {
    var base := BaseName(path);
    base == [] || !IsDigit(base[|base| - 1])
  }

  /** A path ending in `.feature`, as every match of the glob `*.feature` in the source directory does. */
  predicate FeatureFile(path: string)
  {
    |path| >= |FEATURE_EXTENSION| && path[|path| - |FEATURE_EXTENSION|..] == FEATURE_EXTENSION
  }

  lemma PlainStemBase(directory: string, stem: string)
    requires PlainStem(stem)
    ensures BaseName(directory + "/" + stem + FEATURE_EXTENSION) == stem + NAME_SEPARATOR
  {
    LastSegmentOfFeatureFile(directory, stem);
    ReplaceExtension(stem);
  }

  /** A slash-free ending stays at the end of the last segment. */
  lemma {:induction false} LastSegmentEndsWith(prefix: string, tail: string)
    requires forall i :: 0 <= i < |tail| ==> tail[i] != '/'
    ensures LastSegment(prefix + tail) == LastSegment(prefix) + tail
    decreases |tail|
  {
    if tail == [] {
      assert prefix + tail == prefix;
    } else {
      var n := |tail| - 1;
      assert (prefix + tail)[..|prefix + tail| - 1] == prefix + tail[..n];
      LastSegmentEndsWith(prefix, tail[..n]);
      assert tail == tail[..n] + [tail[n]];
    }
  }

  /** Replacing the first occurrence of a pattern the string ends with leaves
      the string's own last character or the replacement's at the end. */
  lemma {:induction false} ReplaceFirstOfEnding(s: string, pattern: string, replacement: string)
    requires |pattern| > 0 && |replacement| > 0
    requires |s| >= |pattern| && s[|s| - |pattern|..] == pattern
    ensures var r := ReplaceFirst(s, pattern, replacement);
            |r| > 0 && (r[|r| - 1] == s[|s| - 1] || r[|r| - 1] == replacement[|replacement| - 1])
    decreases |s|
  {
    if |s| == |pattern| {
      assert s[..|pattern|] == s[|s| - |pattern|..];
    } else if s[..|pattern|] != pattern {
      assert s[1..][|s| - 1 - |pattern|..] == s[|s| - |pattern|..];
      ReplaceFirstOfEnding(s[1..], pattern, replacement);
    }
  }

  /** Every path ending in `.feature` has a base ending in `_` (the first
      `.feature` is the last) or in `e` (an earlier one was replaced). */
  lemma FeatureFileUndigited(path: string)
    requires FeatureFile(path)
    ensures UndigitedBase(path)
    ensures BaseName(path) != [] && BaseName(path)[|BaseName(path)| - 1] in "_e"
  {
    var n := |path| - |FEATURE_EXTENSION|;
    assert path == path[..n] + FEATURE_EXTENSION;
    LastSegmentEndsWith(path[..n], FEATURE_EXTENSION);
    var segment := LastSegment(path);
    assert segment[|segment| - |FEATURE_EXTENSION|..] == FEATURE_EXTENSION;
    assert segment[|segment| - 1] == 'e';
    ReplaceFirstOfEnding(segment, FEATURE_EXTENSION, NAME_SEPARATOR);
    var base := BaseName(path);
    assert base == ReplaceFirst(segment, FEATURE_EXTENSION, NAME_SEPARATOR);
    assert base[|base| - 1] in "_e";
  }

  /** The number of decimal digits the string ends with. */
  function DigitRun(x: string): nat
  {
    if x == [] || !IsDigit(x[|x| - 1]) then 0 else 1 + DigitRun(x[..|x| - 1])
  }

  lemma {:induction false} DigitRunAfterBase(base: string, digits: string)
    requires base == [] || !IsDigit(base[|base| - 1])
    requires forall i :: 0 <= i < |digits| ==> IsDigit(digits[i])
    ensures DigitRun(base + digits) == |digits|
    decreases |digits|
  {
    if digits == [] {
      assert base + digits == base;
    } else {
      var n := |digits| - 1;
      assert (base + digits)[..|base + digits| - 1] == base + digits[..n];
      DigitRunAfterBase(base, digits[..n]);
    }
  }

  /** Without `UndigitedBase` the counter cannot be told apart from the base:
      the first file named after `src/a1` and the eleventh named after
      `src/a` would both be `a11.feature`. No path ending in `.feature` is
      like these. */
  lemma DigitEndingBasesCollide()
    ensures OutputName("src/a1", 1) == OutputName("src/a", 11)
    ensures !UndigitedBase("src/a1")
  {
    assert "src" + "/" + "a1" == "src/a1" && "src" + "/" + "a" == "src/a";
    LastSegmentAfterSlash("src", "a1");
    LastSegmentAfterSlash("src", "a");
    assert BaseName("src/a1") == "a1" && BaseName("src/a") == "a";
    assert NatToString(1) == "1" && NatToString(11) == "11";
    assert "a1" + "1" == "a" + "11" == "a11";
  }

  /** Two output names that end in different counters differ, whatever the
      paths they are named after, as long as neither base ends in a digit. */
  lemma OutputNamesDistinct(path1: string, path2: string, k1: nat, k2: nat)
    requires UndigitedBase(path1) && UndigitedBase(path2)
    requires OutputName(path1, k1) == OutputName(path2, k2)
    ensures k1 == k2
  {
    var b1, b2 := BaseName(path1), BaseName(path2);
    var s1, s2 := NatToString(k1), NatToString(k2);
    OutputNameParts(path1, k1);
    OutputNameParts(path2, k2);
    SameBeforeExtension(b1 + s1, b2 + s2);
    CounterDigits(k1);
    CounterDigits(k2);
    CounterText(b1, s1);
    CounterText(b2, s2);
    assert s1 == s2;
    NatToStringInjective(k1, k2);
  }

  lemma OutputNameParts(path: string, k: nat)
    ensures OutputName(path, k) == (BaseName(path) + NatToString(k)) + FEATURE_EXTENSION
  {
  }

  lemma SameBeforeExtension(x1: string, x2: string)
    requires x1 + FEATURE_EXTENSION == x2 + FEATURE_EXTENSION
    ensures x1 == x2
  {
    assert x1 == (x1 + FEATURE_EXTENSION)[..|x1|];
    assert x2 == (x2 + FEATURE_EXTENSION)[..|x2|];
  }

  /** After a base not ending in a digit, the counter's text is the name's
      trailing digit run. */
  lemma CounterDigits(k: nat)
    ensures forall i :: 0 <= i < |NatToString(k)| ==> IsDigit(NatToString(k)[i])
  {
  }

  lemma CounterText(base: string, digits: string)
    requires base == [] || !IsDigit(base[|base| - 1])
    requires forall i :: 0 <= i < |digits| ==> IsDigit(digits[i])
    ensures DigitRun(base + digits) == |digits|
    ensures digits == (base + digits)[|base + digits| - DigitRun(base + digits)..]
  {
    DigitRunAfterBase(base, digits);
    assert (base + digits)[|base|..] == digits;
  }

  // ---------------------------------------------------------------------
  // Batches of writes

  /** `n` copies of `path`. */
  function Copies(path: string, n: nat): seq<string>
  {
    seq(n, _ => path)
  }

  /** The text of each file written, in order. */
  function Contents(writes: seq<FileWrite>): seq<Option<string>>
  {
    seq(|writes|, j requires 0 <= j < |writes| => Some(writes[j].text))
  }

  /** The input path each file written is named after, in order. */
  function Sources(writes: seq<FileWrite>): seq<string>
  {
    seq(|writes|, j requires 0 <= j < |writes| => writes[j].source)
  }

  lemma WritesAppend(a: seq<FileWrite>, b: seq<FileWrite>)
    ensures Contents(a + b) == Contents(a) + Contents(b)
    ensures Sources(a + b) == Sources(a) + Sources(b)
  {
  }

  /** The j-th file of a batch is named after `path` with counter
      `counter + j` and holds the j-th text. */
  lemma {:induction false} WriteAllEntries(texts: seq<Option<string>>, directory: string, path: string, counter: nat)
    ensures var b := WriteAll(texts, directory, path, counter);
            forall j :: 0 <= j < |b.writes| ==>
              && b.writes[j].directory == directory && b.writes[j].source == path && b.writes[j].counter == counter + j
              && texts[j] == Some(b.writes[j].text)
    decreases |texts|
  {
    if texts != [] {
      var n := |texts| - 1;
      var b0 := WriteAll(texts[..n], directory, path, counter);
      WriteAllEntries(texts[..n], directory, path, counter);
      var b := WriteAll(texts, directory, path, counter);
      forall j | 0 <= j < |b.writes|
        ensures && b.writes[j].directory == directory && b.writes[j].source == path && b.writes[j].counter == counter + j
                && texts[j] == Some(b.writes[j].text)
      {
        if j < |b0.writes| {
          assert b.writes[j] == b0.writes[j];
          assert texts[..n][j] == texts[j];
        }
      }
    }
  }

  /** Every text exists. */
  predicate AllSome(texts: seq<Option<string>>)
  {
    forall j :: 0 <= j < |texts| ==> texts[j].Some?
  }

  /** A batch whose texts all exist does not fail. */
  lemma {:induction false} WriteAllSucceeds(texts: seq<Option<string>>, directory: string, path: string, counter: nat)
    requires AllSome(texts)
    ensures !WriteAll(texts, directory, path, counter).failed
    decreases |texts|
  {
    if texts != [] {
      var n := |texts| - 1;
      assert forall j :: 0 <= j < n ==> texts[..n][j] == texts[j];
      WriteAllSucceeds(texts[..n], directory, path, counter);
    }
  }

  /** A batch whose texts all exist writes every text, in order, each file
      named after `path`. */
  lemma BatchContents(texts: seq<Option<string>>, directory: string, path: string, counter: nat)
    requires AllSome(texts)
    ensures var b := WriteAll(texts, directory, path, counter);
            && !b.failed
            && Contents(b.writes) == texts
            && Sources(b.writes) == Copies(path, |texts|)
  {
    WriteAllSucceeds(texts, directory, path, counter);
    WriteAllEntries(texts, directory, path, counter);
  }

  // ---------------------------------------------------------------------
  // The run, over any plan

  /** No document's tag expression fails to parse, and every text to be
      written exists. */
  predicate Writable(plan: seq<DocResult>)
  {
    forall d :: 0 <= d < |plan| ==> !plan[d].Unparsable? && AllSome(DocTexts(plan[d]))
  }

  /** The texts a document's result asks to be written. */
  function DocTexts(r: DocResult): seq<Option<string>>
  {
    if r.Rendering? then r.texts else []
  }

  /** The texts of the first `k` documents, in order. */
  function PlannedTexts(plan: seq<DocResult>, k: nat): seq<Option<string>>
    requires k <= |plan|
  {
    if k == 0 then [] else PlannedTexts(plan, k - 1) + DocTexts(plan[k - 1])
  }

  /** For each of those texts, the path of its document. */
  function PlannedSources(plan: seq<DocResult>, paths: seq<string>, k: nat): seq<string>
    requires k <= |plan| == |paths|
  {
    if k == 0 then [] else PlannedSources(plan, paths, k - 1) + Copies(paths[k - 1], |DocTexts(plan[k - 1])|)
  }

  /** The files are written in `directory`, the j-th one with counter
      j + 1, each named after one of `paths`. */
  predicate Numbered(writes: seq<FileWrite>, directory: string, paths: seq<string>)
  {
    forall j :: 0 <= j < |writes| ==>
      writes[j].directory == directory && writes[j].counter == j + 1 && writes[j].source in paths
  }

  /** One document keeps the numbering going, whatever happens to it. */
  lemma DocStepNumbering(before: Progress, r: DocResult, path: string, directory: string, paths: seq<string>)
    requires before.counter == |before.writes| + 1
    requires Numbered(before.writes, directory, paths) && path in paths
    ensures var p := DocStep(before, r, path, directory);
            p.counter == |p.writes| + 1 && Numbered(p.writes, directory, paths)
  {
    if before.failure.None? && r.Rendering? {
      var b := WriteAll(r.texts, directory, path, before.counter);
      WriteAllEntries(r.texts, directory, path, before.counter);
      var writes := before.writes + b.writes;
      forall j | 0 <= j < |writes|
        ensures writes[j].directory == directory && writes[j].counter == j + 1 && writes[j].source in paths
      {
        if j >= |before.writes| {
          assert writes[j] == b.writes[j - |before.writes|];
        }
      }
    }
  }

  /** The counter starts at 1 and is never reset: the j-th file written
      carries the number j + 1 and is named after one of the input paths. */
  lemma {:induction false} RunNumbering(plan: seq<DocResult>, paths: seq<string>, k: nat, directory: string,
                                        naming: Naming)
    requires k <= |plan| == |paths|
    ensures var p := Run(plan, paths, k, directory, naming);
            p.counter == |p.writes| + 1 && Numbered(p.writes, directory, paths)
  {
    if k > 0 {
      var before := Run(plan, paths, k - 1, directory, naming);
      RunNumbering(plan, paths, k - 1, directory, naming);
      var path := if naming == BySequence then paths[before.fileSequence] else paths[k - 1];
      DocStepNumbering(before, plan[k - 1], path, directory, paths);
    }
  }

  /** Numbered files whose inputs' bases do not end in a digit have
      pairwise different paths, `<directory>/<base><j+1>.feature` for the j-th. */
  lemma NumberedPathsDistinct(writes: seq<FileWrite>, directory: string, paths: seq<string>)
    requires Numbered(writes, directory, paths)
    requires forall path :: path in paths ==> UndigitedBase(path)
    ensures forall j :: 0 <= j < |writes| ==> writes[j].Path() == OutputPath(directory, writes[j].source, j + 1)
    ensures forall j, j' :: 0 <= j < j' < |writes| ==> writes[j].Path() != writes[j'].Path()
  {
    forall j, j' | 0 <= j < j' < |writes| ensures writes[j].Path() != writes[j'].Path() {
      DifferentCounters(writes[j], writes[j'], directory);
    }
  }

  /** Two files in the same directory with different counters, both named
      after inputs whose bases do not end in a digit, have different paths. */
  lemma DifferentCounters(w: FileWrite, w': FileWrite, directory: string)
    requires w.directory == directory && w'.directory == directory && w.counter != w'.counter
    requires UndigitedBase(w.source) && UndigitedBase(w'.source)
    ensures w.Path() != w'.Path()
  {
    if w.Path() == w'.Path() {
      var prefix := directory + "/";
      assert OutputName(w.source, w.counter) == w.Path()[|prefix|..];
      assert OutputName(w'.source, w'.counter) == w'.Path()[|prefix|..];
      OutputNamesDistinct(w.source, w'.source, w.counter, w'.counter);
    }
  }

  /** A writable plan never fails. */
  lemma {:induction false} RunSucceeds(plan: seq<DocResult>, paths: seq<string>, k: nat, directory: string,
                                       naming: Naming)
    requires k <= |plan| == |paths|
    requires Writable(plan)
    ensures Run(plan, paths, k, directory, naming).failure.None?
  {
    if k > 0 {
      var before := Run(plan, paths, k - 1, directory, naming);
      RunSucceeds(plan, paths, k - 1, directory, naming);
      var path := if naming == BySequence then paths[before.fileSequence] else paths[k - 1];
      if plan[k - 1].Rendering? {
        WriteAllSucceeds(plan[k - 1].texts, directory, path, before.counter);
      }
    }
  }

  /** One writable document appends its texts, each file named after `path`. */
  lemma DocStepWrites(before: Progress, r: DocResult, path: string, directory: string)
    requires before.failure.None? && !r.Unparsable? && AllSome(DocTexts(r))
    ensures var p := DocStep(before, r, path, directory);
            && p.failure.None?
            && Contents(p.writes) == Contents(before.writes) + DocTexts(r)
            && Sources(p.writes) == Sources(before.writes) + Copies(path, |DocTexts(r)|)
            && p.found == (before.found || |DocTexts(r)| > 0)
  {
    if r.Rendering? {
      var b := WriteAll(r.texts, directory, path, before.counter);
      BatchContents(r.texts, directory, path, before.counter);
      WritesAppend(before.writes, b.writes);
    } else {
      assert Copies(path, 0) == [];
    }
  }

  /** A writable plan is written in full: the run never fails, the files
      hold the planned texts in order, and `scenariosWithTagFound` says
      whether there was any text to write. */
  lemma {:induction false} RunWritesPlan(plan: seq<DocResult>, paths: seq<string>, k: nat, directory: string,
                                         naming: Naming)
    requires k <= |plan| == |paths|
    requires Writable(plan)
    ensures var p := Run(plan, paths, k, directory, naming);
            && p.failure.None?
            && Contents(p.writes) == PlannedTexts(plan, k)
            && (p.found <==> |PlannedTexts(plan, k)| > 0)
  {
    if k > 0 {
      var before := Run(plan, paths, k - 1, directory, naming);
      RunWritesPlan(plan, paths, k - 1, directory, naming);
      var path := if naming == BySequence then paths[before.fileSequence] else paths[k - 1];
      DocStepWrites(before, plan[k - 1], path, directory);
    }
  }

  /** Naming by position, each file is named after the document whose
      text it holds. */
  lemma {:induction false} ByPositionSources(plan: seq<DocResult>, paths: seq<string>, k: nat, directory: string)
    requires k <= |plan| == |paths|
    requires Writable(plan)
    ensures Sources(Run(plan, paths, k, directory, ByPosition).writes) == PlannedSources(plan, paths, k)
  {
    if k > 0 {
      var before := Run(plan, paths, k - 1, directory, ByPosition);
      ByPositionSources(plan, paths, k - 1, directory);
      RunSucceeds(plan, paths, k - 1, directory, ByPosition);
      DocStepWrites(before, plan[k - 1], paths[k - 1], directory);
    }
  }

  /** With a plan in which nothing is to be written, nothing is, and the
      run fails exactly when some document's tag expression does not parse. */
  lemma {:induction false} RunWritesNothing(plan: seq<DocResult>, paths: seq<string>, k: nat, directory: string,
                                            naming: Naming)
    requires k <= |plan| == |paths|
    requires forall d :: 0 <= d < |plan| ==> !plan[d].Rendering?
    ensures var p := Run(plan, paths, k, directory, naming);
            && p.writes == [] && !p.found
            && (p.failure.Some? <==> exists d :: 0 <= d < k && plan[d].Unparsable?)
            && (p.failure.None? || p.failure == Some(InvalidTagExpression))
  {
    if k > 0 {
      RunWritesNothing(plan, paths, k - 1, directory, naming);
    }
  }

  /** Naming by `fileSequence` and naming by position agree when every
      document has a feature. */
  lemma {:induction false} NamingsAgree(plan: seq<DocResult>, paths: seq<string>, k: nat, directory: string)
    requires k <= |plan| == |paths|
    requires forall d :: 0 <= d < |plan| ==> !plan[d].NoFeature?
    ensures Run(plan, paths, k, directory, BySequence) == Run(plan, paths, k, directory, ByPosition)
    ensures var p := Run(plan, paths, k, directory, BySequence);
            p.failure.None? ==> p.fileSequence == k
  {
    if k > 0 {
      NamingsAgree(plan, paths, k - 1, directory);
    }
  }

  // ---------------------------------------------------------------------
  // The plan of a run

  /** The surviving sub-features of each document. */
  function SurvivorLists(asts: seq<GherkinDocument>, opts: Options, matches: seq<string> -> bool)
    : seq<seq<Feature>>
  {
    seq(|asts|, d requires 0 <= d < |asts| => Surviving(asts[d], opts, matches))
  }

  /** All surviving sub-features, document by document, in order. */
  function AllSurviving(asts: seq<GherkinDocument>, opts: Options, matches: seq<string> -> bool): seq<Feature>
  {
    Flatten(SurvivorLists(asts, opts, matches))
  }

  /** For every surviving sub-feature, in the same order, the path of the
      document it comes from. */
  function SurvivorSources(asts: seq<GherkinDocument>, paths: seq<string>, opts: Options,
                           matches: seq<string> -> bool): seq<string>
    requires |asts| == |paths|
  {
    Flatten(seq(|asts|, d requires 0 <= d < |asts| => Copies(paths[d], |Surviving(asts[d], opts, matches)|)))
  }

  lemma RenderedAppend(a: seq<Feature>, b: seq<Feature>)
    ensures Rendered(a + b) == Rendered(a) + Rendered(b)
  {
  }

  lemma {:induction false} FilterSubset(features: seq<Feature>, matches: seq<string> -> bool, x: Feature)
    requires x in FilterFeaturesByTag(features, matches)
    ensures x in features
    decreases |features|
  {
    var n := |features| - 1;
    if x in FilterFeaturesByTag(features[..n], matches) {
      FilterSubset(features[..n], matches, x);
      assert features[..n] <= features;
    } else {
      assert x == features[n];
    }
  }

  /** Every surviving sub-feature can be written. */
  lemma SurvivorsRender(ast: GherkinDocument, opts: Options, matches: seq<string> -> bool)
    ensures AllSome(Rendered(Surviving(ast, opts, matches)))
  {
    var kept := Surviving(ast, opts, matches);
    forall j | 0 <= j < |kept| ensures Render(kept[j]).Some? {
      FilterSubset(Split(ast.feature.value, opts.splitExamples, opts.tagExpression), matches, kept[j]);
      RenderSucceedsOnSplit(ast.feature.value, opts.splitExamples, opts.tagExpression, kept[j]);
    }
  }

  /** With a tag expression that parses, a document asks for the text of
      each of its survivors, and all of them exist. */
  lemma ProcessWithMatches(ast: GherkinDocument, opts: Options, matches: seq<string> -> bool)
    ensures var r := Process(ast, opts, Some(matches));
            && !r.Unparsable?
            && DocTexts(r) == Rendered(Surviving(ast, opts, matches))
            && AllSome(DocTexts(r))
  {
    if ast.feature.Some? {
      SurvivorsRender(ast, opts, matches);
    }
  }

  /** With a tag expression that parses, the plan is writable. */
  lemma PlanWritable(asts: seq<GherkinDocument>, opts: Options, matches: seq<string> -> bool)
    ensures Writable(Plan(asts, opts, Some(matches)))
  {
    var plan := Plan(asts, opts, Some(matches));
    forall d | 0 <= d < |plan| ensures !plan[d].Unparsable? && AllSome(DocTexts(plan[d])) {
      ProcessWithMatches(asts[d], opts, matches);
    }
  }

  lemma {:induction false} PlannedTextsOf(plan: seq<DocResult>, kept: seq<seq<Feature>>, k: nat)
    requires k <= |plan| == |kept|
    requires forall d :: 0 <= d < |plan| ==> DocTexts(plan[d]) == Rendered(kept[d])
    ensures PlannedTexts(plan, k) == Rendered(Flatten(kept[..k]))
  {
    if k > 0 {
      PlannedTextsOf(plan, kept, k - 1);
      FlattenSnoc(kept, k - 1);
      RenderedAppend(Flatten(kept[..k - 1]), kept[k - 1]);
    }
  }

  lemma {:induction false} PlannedSourcesOf(plan: seq<DocResult>, paths: seq<string>, xss: seq<seq<string>>, k: nat)
    requires k <= |plan| == |paths| == |xss|
    requires forall d :: 0 <= d < |plan| ==> xss[d] == Copies(paths[d], |DocTexts(plan[d])|)
    ensures PlannedSources(plan, paths, k) == Flatten(xss[..k])
  {
    if k > 0 {
      PlannedSourcesOf(plan, paths, xss, k - 1);
      FlattenSnoc(xss, k - 1);
    }
  }

  /** The plan lists the text of every surviving sub-feature, in order. */
  lemma PlanTexts(asts: seq<GherkinDocument>, opts: Options, matches: seq<string> -> bool)
    ensures PlannedTexts(Plan(asts, opts, Some(matches)), |asts|) == Rendered(AllSurviving(asts, opts, matches))
  {
    var plan, kept := Plan(asts, opts, Some(matches)), SurvivorLists(asts, opts, matches);
    forall d | 0 <= d < |plan| ensures DocTexts(plan[d]) == Rendered(kept[d]) {
      ProcessWithMatches(asts[d], opts, matches);
    }
    PlannedTextsOf(plan, kept, |asts|);
    assert kept[..|asts|] == kept;
  }

  /** The plan pairs each survivor's text with its document's path. */
  lemma PlanSources(asts: seq<GherkinDocument>, paths: seq<string>, opts: Options, matches: seq<string> -> bool)
    requires |asts| == |paths|
    ensures PlannedSources(Plan(asts, opts, Some(matches)), paths, |asts|) == SurvivorSources(asts, paths, opts, matches)
  {
    var plan := Plan(asts, opts, Some(matches));
    var xss := seq(|asts|, d requires 0 <= d < |asts| => Copies(paths[d], |Surviving(asts[d], opts, matches)|));
    forall d | 0 <= d < |plan| ensures xss[d] == Copies(paths[d], |DocTexts(plan[d])|) {
      ProcessWithMatches(asts[d], opts, matches);
    }
    PlannedSourcesOf(plan, paths, xss, |asts|);
    assert xss[..|asts|] == xss;
  }

  // ---------------------------------------------------------------------
  // The whole of compile

  /** Every output file is `<tmp>/<base>_<j+1>.feature`: numbered by its
      position and named after one of the input paths. */
  lemma CompileNumbering(opts: Options, globbed: seq<string>, load: string -> Option<GherkinDocument>,
                         parsed: Option<seq<string> -> bool>, naming: Naming)
    ensures var o := CompileSpec(opts, globbed, load, parsed, naming);
            Numbered(o.writes, opts.tmpSpecDirectory, FilePaths(opts, globbed))
  {
    var paths := FilePaths(opts, globbed);
    if opts.sourceSpecDirectory != "" && opts.tmpSpecDirectory != "" && AllLoadable(paths, load) {
      var asts := Asts(paths, load);
      RunNumbering(Plan(asts, opts, parsed), paths, |asts|, opts.tmpSpecDirectory, naming);
    }
  }

  /** With `ff` set, only `<source>/<ff>.feature` is read, and the j-th file
      written is named after it with counter j + 1; for a plain `ff` that is
      `<tmp>/<ff>_<j+1>.feature`. */
  lemma CompileSingleFile(opts: Options, globbed: seq<string>, load: string -> Option<GherkinDocument>,
                          parsed: Option<seq<string> -> bool>, naming: Naming, stem: string)
    requires opts.ff == Some(stem)
    ensures var o := CompileSpec(opts, globbed, load, parsed, naming);
            var path := opts.sourceSpecDirectory + "/" + stem + FEATURE_EXTENSION;
            forall j :: 0 <= j < |o.writes| ==>
              o.writes[j].source == path && o.writes[j].Path() == OutputPath(opts.tmpSpecDirectory, path, j + 1)
    ensures var o := CompileSpec(opts, globbed, load, parsed, naming);
            PlainStem(stem) ==>
              forall j :: 0 <= j < |o.writes| ==>
                o.writes[j].Path() == opts.tmpSpecDirectory + "/" + stem + "_" + NatToString(j + 1) + ".feature"
  {
    var o := CompileSpec(opts, globbed, load, parsed, naming);
    var path := opts.sourceSpecDirectory + "/" + stem + FEATURE_EXTENSION;
    assert FilePaths(opts, globbed) == [path];
    CompileNumbering(opts, globbed, load, parsed, naming);
    SingleSourcePaths(o.writes, opts.tmpSpecDirectory, opts.sourceSpecDirectory, stem);
  }

  /** Numbered files that all come from `<dir>/<stem>.feature`. */
  lemma SingleSourcePaths(writes: seq<FileWrite>, directory: string, dir: string, stem: string)
    requires Numbered(writes, directory, [dir + "/" + stem + FEATURE_EXTENSION])
    ensures forall j :: 0 <= j < |writes| ==>
              writes[j].source == dir + "/" + stem + FEATURE_EXTENSION
              && writes[j].Path() == OutputPath(directory, dir + "/" + stem + FEATURE_EXTENSION, j + 1)
    ensures PlainStem(stem) ==>
              forall j :: 0 <= j < |writes| ==>
                writes[j].Path() == directory + "/" + stem + "_" + NatToString(j + 1) + ".feature"
  {
    if PlainStem(stem) {
      forall j | 0 <= j < |writes|
        ensures writes[j].Path() == directory + "/" + stem + "_" + NatToString(j + 1) + ".feature"
      {
        OutputNameOfFeatureFile(dir, stem, j + 1);
      }
    }
  }

  /** No two output files share a path: every input path ends in
      `.feature`, either because the glob `*.feature` matched it in the source directory or
      because it is `<dir>/<ff>.feature`. */
  lemma CompileOutputsDistinct(opts: Options, globbed: seq<string>, load: string -> Option<GherkinDocument>,
                               parsed: Option<seq<string> -> bool>, naming: Naming)
    requires opts.ff.None? ==> forall path :: path in globbed ==> FeatureFile(path)
    ensures var o := CompileSpec(opts, globbed, load, parsed, naming);
            forall j, j' :: 0 <= j < j' < |o.writes| ==> o.writes[j].Path() != o.writes[j'].Path()
  {
    var o := CompileSpec(opts, globbed, load, parsed, naming);
    forall path | path in FilePaths(opts, globbed) ensures UndigitedBase(path) {
      if opts.ff.Some? {
        var named := opts.sourceSpecDirectory + "/" + opts.ff.value;
        assert path == named + FEATURE_EXTENSION;
        assert path[|named|..] == FEATURE_EXTENSION;
      }
      FeatureFileUndigited(path);
    }
    CompileNumbering(opts, globbed, load, parsed, naming);
    NumberedPathsDistinct(o.writes, opts.tmpSpecDirectory, FilePaths(opts, globbed));
  }

  /** With readable files and a tag expression that parses, `compile`
      completes, writes one file per surviving sub-feature holding its text,
      in order, and prints the notice exactly when no document has a
      survivor (whatever the expression, the empty one included). */
  lemma CompileWritesSurvivors(opts: Options, globbed: seq<string>, load: string -> Option<GherkinDocument>,
                               matches: seq<string> -> bool, naming: Naming)
    requires opts.sourceSpecDirectory != "" && opts.tmpSpecDirectory != ""
    requires AllLoadable(FilePaths(opts, globbed), load)
    ensures var o := CompileSpec(opts, globbed, load, Some(matches), naming);
            var asts := Asts(FilePaths(opts, globbed), load);
            && o.failure.None?
            && Contents(o.writes) == Rendered(AllSurviving(asts, opts, matches))
            && (o.noMatchNotice <==> AllSurviving(asts, opts, matches) == [])
  {
    var paths := FilePaths(opts, globbed);
    var asts := Asts(paths, load);
    PlanWritable(asts, opts, matches);
    PlanTexts(asts, opts, matches);
    RunWritesPlan(Plan(asts, opts, Some(matches)), paths, |asts|, opts.tmpSpecDirectory, naming);
  }

  /** A tag expression that does not parse writes nothing, and fails the
      run exactly when some document has a feature; otherwise the notice is
      printed. */
  lemma CompileWithUnparsableExpression(opts: Options, globbed: seq<string>, load: string -> Option<GherkinDocument>,
                                        naming: Naming)
    requires opts.sourceSpecDirectory != "" && opts.tmpSpecDirectory != ""
    requires AllLoadable(FilePaths(opts, globbed), load)
    ensures var o := CompileSpec(opts, globbed, load, None, naming);
            var asts := Asts(FilePaths(opts, globbed), load);
            && o.writes == []
            && (o.failure == Some(InvalidTagExpression) <==> exists d :: 0 <= d < |asts| && asts[d].feature.Some?)
            && (o.failure.None? ==> o.noMatchNotice)
  {
    var paths := FilePaths(opts, globbed);
    var asts := Asts(paths, load);
    var plan := Plan(asts, opts, None);
    assert forall d :: 0 <= d < |plan| ==> (plan[d].Unparsable? <==> asts[d].feature.Some?) && !plan[d].Rendering?;
    RunWritesNothing(plan, paths, |asts|, opts.tmpSpecDirectory, naming);
  }

  /** Naming by position, every file is named after the document whose
      sub-feature it holds; and when every document has a feature, this is
      what `compile` as written does too. */
  lemma OutputNamedAfterItsSource(opts: Options, globbed: seq<string>, load: string -> Option<GherkinDocument>,
                                  matches: seq<string> -> bool)
    requires opts.sourceSpecDirectory != "" && opts.tmpSpecDirectory != ""
    requires AllLoadable(FilePaths(opts, globbed), load)
    ensures var o := CompileSpec(opts, globbed, load, Some(matches), ByPosition);
            var paths := FilePaths(opts, globbed);
            var asts := Asts(paths, load);
            Sources(o.writes) == SurvivorSources(asts, paths, opts, matches)
    ensures var asts := Asts(FilePaths(opts, globbed), load);
            (forall d :: 0 <= d < |asts| ==> asts[d].feature.Some?) ==>
              CompileSpec(opts, globbed, load, Some(matches), BySequence)
              == CompileSpec(opts, globbed, load, Some(matches), ByPosition)
  {
    var paths := FilePaths(opts, globbed);
    var asts := Asts(paths, load);
    var plan := Plan(asts, opts, Some(matches));
    PlanWritable(asts, opts, matches);
    PlanSources(asts, paths, opts, matches);
    ByPositionSources(plan, paths, |asts|, opts.tmpSpecDirectory);
    if forall d :: 0 <= d < |asts| ==> asts[d].feature.Some? {
      assert forall d :: 0 <= d < |plan| ==> !plan[d].NoFeature?;
      NamingsAgree(plan, paths, |asts|, opts.tmpSpecDirectory);
    }
  }

  // ---------------------------------------------------------------------
  // The file-sequence index, on two files

  /** An input file that parses to a document without a feature. */
  const FEATURELESS_PATH := "src/a.feature"
  /** An input file holding the smoke feature. */
  const SMOKE_PATH := "src/b.feature"
  const EXAMPLE_OPTIONS := Options("src", "out", "", None, false)

  function SmokeFeature(): Feature
  {
    Feature([Tag("@smoke")], "Feature", "N", [Scenario(None, "Scenario", "Login", [])])
  }

  /** The text written for the smoke feature's only sub-feature. */
  function SmokeText(): string
  {
    "@smoke\n" + "Feature: N\n" + "@smoke\n" + "Scenario: Login\n"
  }

  /** What reading and parsing gives for the two example files. */
  function ExampleLoad(path: string): Option<GherkinDocument>
  {
    if path == FEATURELESS_PATH then Some(GherkinDocument(None)) else Some(GherkinDocument(Some(SmokeFeature())))
  }

  /** The evaluator of an empty tag expression: it accepts every list of names. */
  function AcceptAll(names: seq<string>): bool
  {
    true
  }

  /** The smoke feature has one surviving sub-feature. */
  lemma SmokeSurvives()
    ensures |Surviving(GherkinDocument(Some(SmokeFeature())), EXAMPLE_OPTIONS, AcceptAll)| == 1
  {
    SmokeFeatureWritten();
    FilterAcceptAllAfterSplit(SmokeFeature(), false, "", AcceptAll);
  }

  /** A plan whose first document has no feature: by `fileSequence` every
      file is named after the first path, by position after the second. */
  lemma FeaturelessFirstRun(plan: seq<DocResult>, a: string, b: string, directory: string)
    requires |plan| == 2 && plan[0].NoFeature? && plan[1].Rendering? && AllSome(plan[1].texts)
    ensures Sources(Run(plan, [a, b], 2, directory, BySequence).writes) == Copies(a, |plan[1].texts|)
    ensures Sources(Run(plan, [a, b], 2, directory, ByPosition).writes) == Copies(b, |plan[1].texts|)
  {
    var start := Progress([], 1, 0, false, None);
    assert Run(plan, [a, b], 1, directory, BySequence) == start;
    assert Run(plan, [a, b], 1, directory, ByPosition) == start;
    DocStepWrites(start, plan[1], a, directory);
    DocStepWrites(start, plan[1], b, directory);
  }

  /** When the first of two input files has no feature, `compile` as written
      names every file of the second after the first: `fileSequence` has not
      moved past it. Named by position, each is named after the second. */
  lemma MisnamedAfterFeaturelessFile(opts: Options, a: string, b: string, load: string -> Option<GherkinDocument>,
                                     matches: seq<string> -> bool)
    requires opts.sourceSpecDirectory != "" && opts.tmpSpecDirectory != "" && opts.ff.None?
    requires load(a) == Some(GherkinDocument(None))
    requires load(b).Some? && load(b).value.feature.Some?
    ensures var n := |Surviving(load(b).value, opts, matches)|;
            && Sources(CompileSpec(opts, [a, b], load, Some(matches), BySequence).writes) == Copies(a, n)
            && Sources(CompileSpec(opts, [a, b], load, Some(matches), ByPosition).writes) == Copies(b, n)
    ensures var o := CompileSpec(opts, [a, b], load, Some(matches), BySequence);
            forall j :: 0 <= j < |o.writes| ==> o.writes[j].Path() == OutputPath(opts.tmpSpecDirectory, a, j + 1)
    ensures var o := CompileSpec(opts, [a, b], load, Some(matches), ByPosition);
            forall j :: 0 <= j < |o.writes| ==> o.writes[j].Path() == OutputPath(opts.tmpSpecDirectory, b, j + 1)
  {
    var paths := [a, b];
    assert FilePaths(opts, paths) == paths;
    assert AllLoadable(paths, load);
    var asts := Asts(paths, load);
    var plan := Plan(asts, opts, Some(matches));
    assert plan[0] == NoFeature;
    ProcessWithMatches(asts[1], opts, matches);
    FeaturelessFirstRun(plan, a, b, opts.tmpSpecDirectory);
    var bySequence := CompileSpec(opts, paths, load, Some(matches), BySequence);
    var byPosition := CompileSpec(opts, paths, load, Some(matches), ByPosition);
    CompileNumbering(opts, paths, load, Some(matches), BySequence);
    CompileNumbering(opts, paths, load, Some(matches), ByPosition);
    SourcedPaths(bySequence.writes, opts.tmpSpecDirectory, paths, a);
    SourcedPaths(byPosition.writes, opts.tmpSpecDirectory, paths, b);
  }

  /** Numbered files all named after `a` have the paths `<directory>/<base of a>_<j+1>.feature`. */
  lemma SourcedPaths(writes: seq<FileWrite>, directory: string, paths: seq<string>, a: string)
    requires Numbered(writes, directory, paths) && Sources(writes) == Copies(a, |writes|)
    ensures forall j :: 0 <= j < |writes| ==> writes[j].Path() == OutputPath(directory, a, j + 1)
  {
    forall j | 0 <= j < |writes| ensures writes[j].Path() == OutputPath(directory, a, j + 1) {
      assert Sources(writes)[j] == writes[j].source;
    }
  }

  /** `src/a.feature` has no feature and `src/b.feature` holds the smoke
      feature: the one file `compile` writes is `out/a_1.feature`, where
      naming by position gives `out/b_1.feature`. */
  lemma MisnamedExample()
    ensures var o := CompileSpec(EXAMPLE_OPTIONS, [FEATURELESS_PATH, SMOKE_PATH], ExampleLoad, Some(AcceptAll), BySequence);
            |o.writes| == 1 && o.writes[0].Path() == "out/a_1.feature"
    ensures var o := CompileSpec(EXAMPLE_OPTIONS, [FEATURELESS_PATH, SMOKE_PATH], ExampleLoad, Some(AcceptAll), ByPosition);
            |o.writes| == 1 && o.writes[0].Path() == "out/b_1.feature"
  {
    assert ExampleLoad(FEATURELESS_PATH) == Some(GherkinDocument(None));
    assert ExampleLoad(SMOKE_PATH) == Some(GherkinDocument(Some(SmokeFeature())));
    MisnamedAfterFeaturelessFile(EXAMPLE_OPTIONS, FEATURELESS_PATH, SMOKE_PATH, ExampleLoad, AcceptAll);
    SmokeSurvives();
    FeaturelessOutputPath();
    SmokeOutputPath();
  }

  /** The first output file named after either input. */
  lemma FeaturelessOutputPath()
    ensures OutputPath("out", FEATURELESS_PATH, 1) == "out/a_1.feature"
  {
    ExampleOutputPath("a");
    assert "src/" + "a" + ".feature" == FEATURELESS_PATH;
    assert "out/" + "a" + "_1.feature" == "out/a_1.feature";
  }

  lemma SmokeOutputPath()
    ensures OutputPath("out", SMOKE_PATH, 1) == "out/b_1.feature"
  {
    ExampleOutputPath("b");
    assert "src/" + "b" + ".feature" == SMOKE_PATH;
    assert "out/" + "b" + "_1.feature" == "out/b_1.feature";
  }

  lemma ExampleOutputPath(stem: string)
    requires PlainStem(stem)
    ensures OutputPath("out", "src/" + stem + ".feature", 1) == "out/" + stem + "_1.feature"
  {
    assert NatToString(1) == "1";
    assert "src/" + stem + ".feature" == "src" + "/" + stem + FEATURE_EXTENSION;
    OutputNameOfFeatureFile("src", stem, 1);
    assert "out" + "/" + (stem + "_" + "1" + ".feature") == "out/" + stem + "_1.feature";
  }
}
