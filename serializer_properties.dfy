/** What the serializer promises about the text it produces.

    An independent reference definition states the output as a list of
    lines, each terminated by the line delimiter: the feature's tag names,
    the `Feature:` line, then for each child its tag names, its title, its
    steps with their arguments and, for an outline, the first block's table.
    `Render` is proved to agree with it. */
module SerializerProperties {
  import opened Gherkin
  import opened Seqs
  import opened Splitter
  import opened SplitterProperties
  import opened Serializer

  /** Every line followed by the line delimiter. */
  function Unlines(lines: seq<string>): string
  {
    if lines == [] then "" else Unlines(lines[..|lines| - 1]) + lines[|lines| - 1] + LINE_DELIMITER
  }

  function RowTexts(rows: seq<TableRow>): seq<string>
  {
    seq(|rows|, i requires 0 <= i < |rows| => RowText(rows[i]))
  }

  /** A DataTable gives one line per row, a DocString its content between
      two delimiter lines, any other argument nothing. */
  function ArgumentLines(argument: Option<StepArgument>): seq<string>
  {
    match argument
    case None => []
    case Some(DataTable(rows)) => RowTexts(rows)
    case Some(DocString(content)) => [DOC_STRING_DELIMITER, content, DOC_STRING_DELIMITER]
    case Some(OtherArgument(_)) => []
  }

  function StepLines(step: Step): seq<string>
  {
    [step.keyword + step.text] + ArgumentLines(step.argument)
  }

  function StepsLines(steps: seq<Step>): seq<string>
  {
    Flatten(seq(|steps|, i requires 0 <= i < |steps| => StepLines(steps[i])))
  }

  /** Only the first block is written, and never its tags. */
  function ExamplesLines(examples: seq<Examples>): seq<string>
    requires |examples| > 0
  {
    ["Examples:", RowText(examples[0].tableHeader)] + RowTexts(examples[0].tableBody)
  }

  function ChildLines(c: Child): seq<string>
  {
    (if HasTagsField(c) then Names(c.tags.value) else [])
    + [c.keyword + ": " + c.name]
    + StepsLines(c.steps)
    + (if c.ScenarioOutline? && c.examples.Some? && |c.examples.value| > 0 then ExamplesLines(c.examples.value) else [])
  }

  function ChildrenLines(children: seq<Child>): seq<string>
  {
    Flatten(seq(|children|, i requires 0 <= i < |children| => ChildLines(children[i])))
  }

  /** The feature's keyword is not written: the line always says `Feature`. */
  function FeatureLines(feature: Feature): seq<string>
  {
    Names(feature.tags) + [FEATURE_TYPE + ": " + feature.name] + ChildrenLines(feature.children)
  }

  lemma {:induction false} UnlinesAppend(a: seq<string>, b: seq<string>)
    ensures Unlines(a + b) == Unlines(a) + Unlines(b)
    decreases |b|
  {
    if b == [] {
      assert a + b == a;
    } else {
      var n := |b| - 1;
      UnlinesAppend(a, b[..n]);
      assert (a + b)[..|a + b| - 1] == a + b[..n];
      assert (a + b)[|a + b| - 1] == b[n];
      var u, v, w := Unlines(a), Unlines(b[..n]), b[n] + LINE_DELIMITER;
      assert Unlines(a + b) == Unlines(a + b[..n]) + b[n] + LINE_DELIMITER;
      assert Unlines(a + b) == u + v + w;
      assert Unlines(b) == v + w;
      assert u + v + w == u + (v + w);
    }
  }

  lemma UnlinesSingle(line: string)
    ensures Unlines([line]) == line + LINE_DELIMITER
  {
    assert [line][..0] == [];
  }

  lemma {:induction false} TagLinesAsLines(tags: seq<Tag>)
    ensures TagLines(tags) == Unlines(Names(tags))
    decreases |tags|
  {
    if tags != [] {
      var n := |tags| - 1;
      TagLinesAsLines(tags[..n]);
      assert Names(tags) == Names(tags[..n]) + [tags[n].name];
      UnlinesAppend(Names(tags[..n]), [tags[n].name]);
      UnlinesSingle(tags[n].name);
    }
  }

  lemma {:induction false} RowLinesAsLines(rows: seq<TableRow>)
    ensures RowLines(rows) == Unlines(RowTexts(rows))
    decreases |rows|
  {
    if rows != [] {
      var n := |rows| - 1;
      RowLinesAsLines(rows[..n]);
      assert RowTexts(rows) == RowTexts(rows[..n]) + [RowText(rows[n])];
      UnlinesAppend(RowTexts(rows[..n]), [RowText(rows[n])]);
      UnlinesSingle(RowText(rows[n]));
    }
  }

  lemma StepAsLines(step: Step)
    ensures StepText(step) == Unlines(StepLines(step))
  {
    var head := step.keyword + step.text;
    UnlinesAppend([head], ArgumentLines(step.argument));
    UnlinesSingle(head);
    match step.argument
    case None =>
    case Some(DataTable(rows)) =>
      RowLinesAsLines(rows);
    case Some(DocString(content)) =>
      var lines := [DOC_STRING_DELIMITER, content, DOC_STRING_DELIMITER];
      assert lines[..2][..1] == [DOC_STRING_DELIMITER];
      assert lines[..2] == [DOC_STRING_DELIMITER, content];
      UnlinesSingle(DOC_STRING_DELIMITER);
    case Some(OtherArgument(_)) =>
  }

  lemma {:induction false} StepsAsLines(steps: seq<Step>)
    ensures StepsText(steps) == Unlines(StepsLines(steps))
    decreases |steps|
  {
    if steps != [] {
      var n := |steps| - 1;
      var pieces := seq(|steps|, i requires 0 <= i < |steps| => StepLines(steps[i]));
      var init := seq(n, i requires 0 <= i < n => StepLines(steps[..n][i]));
      assert pieces[..n] == init;
      FlattenSnoc(pieces, n);
      assert pieces[..n + 1] == pieces;
      StepsAsLines(steps[..n]);
      StepAsLines(steps[n]);
      UnlinesAppend(Flatten(init), StepLines(steps[n]));
    }
  }

  lemma ExamplesAsLines(examples: seq<Examples>)
    requires |examples| > 0
    ensures ExamplesText(examples) == Unlines(ExamplesLines(examples))
  {
    var header := RowText(examples[0].tableHeader);
    var body := RowTexts(examples[0].tableBody);
    UnlinesAppend(["Examples:", header], body);
    UnlinesAppend(["Examples:"], [header]);
    assert ["Examples:"] + [header] == ["Examples:", header];
    UnlinesSingle("Examples:");
    UnlinesSingle(header);
    RowLinesAsLines(examples[0].tableBody);
  }

  lemma ChildAsLines(c: Child)
    ensures ChildText(c) == Unlines(ChildLines(c))
  {
    var tags := if HasTagsField(c) then Names(c.tags.value) else [];
    var title := [c.keyword + ": " + c.name];
    var steps := StepsLines(c.steps);
    var examples := if c.ScenarioOutline? && c.examples.Some? && |c.examples.value| > 0
                    then ExamplesLines(c.examples.value) else [];
    UnlinesAppend(tags + title + steps, examples);
    UnlinesAppend(tags + title, steps);
    UnlinesAppend(tags, title);
    UnlinesSingle(c.keyword + ": " + c.name);
    if HasTagsField(c) {
      TagLinesAsLines(c.tags.value);
    }
    StepsAsLines(c.steps);
    if c.ScenarioOutline? && c.examples.Some? && |c.examples.value| > 0 {
      ExamplesAsLines(c.examples.value);
    }
  }

  lemma {:induction false} ChildrenAsLines(children: seq<Child>)
    ensures ChildrenText(children) == Unlines(ChildrenLines(children))
    decreases |children|
  {
    if children != [] {
      var n := |children| - 1;
      var pieces := seq(|children|, i requires 0 <= i < |children| => ChildLines(children[i]));
      var init := seq(n, i requires 0 <= i < n => ChildLines(children[..n][i]));
      assert pieces[..n] == init;
      FlattenSnoc(pieces, n);
      assert pieces[..n + 1] == pieces;
      ChildrenAsLines(children[..n]);
      ChildAsLines(children[n]);
      UnlinesAppend(Flatten(init), ChildLines(children[n]));
    }
  }

  /** `writeFeature` produces exactly the reference lines, each ended by
      `\n`, whenever no child throws. */
  lemma RenderAsLines(feature: Feature)
    ensures AllWritable(feature.children) ==> Render(feature) == Some(Unlines(FeatureLines(feature)))
  {
    var line := FEATURE_TYPE + ": " + feature.name;
    UnlinesAppend(Names(feature.tags) + [line], ChildrenLines(feature.children));
    UnlinesAppend(Names(feature.tags), [line]);
    UnlinesSingle(line);
    TagLinesAsLines(feature.tags);
    ChildrenAsLines(feature.children);
  }

  /** Rendering fails exactly when some child is an outline whose `examples`
      is present but empty. */
  lemma RenderFailsOnlyOnEmptyExamples(feature: Feature)
    ensures Render(feature).None? <==>
            exists i :: 0 <= i < |feature.children| && feature.children[i].ScenarioOutline?
                        && feature.children[i].examples.Some? && |feature.children[i].examples.value| == 0
  {
    AllWritableAt(feature.children);
  }

  /** Every sub-feature the splitter builds can be written: its Background
      children never throw, and its scenario, if an outline, has a
      non-empty `examples`. */
  lemma RenderSucceedsOnSplit(feature: Feature, splitExamples: bool, tagExpression: string, x: Feature)
    requires x in Split(feature, splitExamples, tagExpression)
    ensures Render(x).Some?
  {
    var template := GetFeatureTemplate(feature);
    SplitShape(feature.children, template, splitExamples, tagExpression, x);
    var i :| 0 <= i < |feature.children| && BuiltFrom(x, feature.children[i], template, splitExamples);
    var s := x.children[|template.children|];
    assert x.children == template.children + [s];
    forall j | 0 <= j < |x.children| ensures Writable(x.children[j]) {
      if j < |template.children| {
        assert x.children[j] == template.children[j];
      }
    }
    AllWritableAt(x.children);
  }

  /** The first block's header and body rows are all an outline contributes
      to the text: later blocks and every block's tags are not written. */
  lemma OnlyFirstBlockWritten(c: Child, block: Examples, others: seq<Examples>)
    requires c.ScenarioOutline? && c.examples.Some? && |c.examples.value| > 0
    requires block.tableHeader == c.examples.value[0].tableHeader
    requires block.tableBody == c.examples.value[0].tableBody
    ensures ChildLines(c.(examples := Some([block] + others))) == ChildLines(c)
    ensures ChildText(c.(examples := Some([block] + others))) == ChildText(c)
  {
    var c' := c.(examples := Some([block] + others));
    assert ExamplesLines([block] + others) == ExamplesLines(c.examples.value);
    ChildAsLines(c);
    ChildAsLines(c');
  }

  /** A per-row outline, as the splitter builds it, ends its text with the
      `Examples:` line, its block's header and its one data row. */
  lemma RowOutlineEndsWithItsRow(c: Child)
    requires c.ScenarioOutline? && c.examples.Some? && |c.examples.value| == 1
    requires |c.examples.value[0].tableBody| == 1
    ensures var lines := ChildLines(c);
            && |lines| >= 3
            && lines[|lines| - 3..] == ["Examples:", RowText(c.examples.value[0].tableHeader),
                                       RowText(c.examples.value[0].tableBody[0])]
  {
    var block := c.examples.value[0];
    assert ExamplesLines(c.examples.value) == ["Examples:", RowText(block.tableHeader), RowText(block.tableBody[0])];
  }

  /** A feature tagged `@smoke` with one untagged scenario splits into a single
      sub-feature whose scenario inherits the tag (it comes before the
      feature's own tags). */
  lemma SmokeFeatureSplit()
    ensures Split(Feature([Tag("@smoke")], "Feature", "N", [Scenario(None, "Scenario", "Login", [])]), false, "")
            == [Feature([Tag("@smoke")], "Feature", "N", [Scenario(Some([Tag("@smoke")]), "Scenario", "Login", [])])]
  {
    var feature := Feature([Tag("@smoke")], "Feature", "N", [Scenario(None, "Scenario", "Login", [])]);
    var template := GetFeatureTemplate(feature);
    assert Backgrounds(feature.children) == [];
    var scenario := Scenario(Some([Tag("@smoke")]), "Scenario", "Login", []);
    var x := Emit(template, scenario);
    assert template.children == [] && template.tags == [Tag("@smoke")];
    assert TagsOr(None) + template.tags == [Tag("@smoke")];
    assert SplitChild(feature.children[0], template, false, "") == [x];
    var perChild := PerChild(feature.children, template, false, "");
    assert perChild == [[x]];
    assert perChild[..0] == [];
    FlattenSnoc(perChild, 0);
    assert perChild[..1] == perChild;
    assert Split(feature, false, "") == [] + [x];
    assert x == Feature([Tag("@smoke")], "Feature", "N", [scenario]);
  }

  /** That sub-feature is written as four lines: the feature tag, `Feature: N`,
      the inherited scenario tag and the scenario title. */
  lemma SmokeFeatureText()
    ensures Render(Feature([Tag("@smoke")], "Feature", "N", [Scenario(Some([Tag("@smoke")]), "Scenario", "Login", [])]))
            == Some("@smoke\n" + "Feature: N\n" + "@smoke\n" + "Scenario: Login\n")
  {
    var tags := [Tag("@smoke")];
    var x := Feature(tags, "Feature", "N", [Scenario(Some(tags), "Scenario", "Login", [])]);
    SmokeScenarioText();
    SmokeTagLine();
    assert FeatureLine(x) == "Feature: N\n";
    var a, b, c, d := "@smoke\n", "Feature: N\n", "@smoke\n", "Scenario: Login\n";
    assert Render(x) == Some(a + b + (c + d));
    assert a + b + (c + d) == a + b + c + d;
  }

  lemma SmokeTagLine()
    ensures TagLines([Tag("@smoke")]) == "@smoke\n"
  {
    assert [Tag("@smoke")][..0] == [];
  }

  /** The scenario of that sub-feature is written as its tag line and its title. */
  lemma SmokeScenarioText()
    ensures var children := [Scenario(Some([Tag("@smoke")]), "Scenario", "Login", [])];
            AllWritable(children) && ChildrenText(children) == "@smoke\n" + "Scenario: Login\n"
  {
    var scenario := Scenario(Some([Tag("@smoke")]), "Scenario", "Login", []);
    var children := [scenario];
    assert children[..0] == [];
    SmokeTagLine();
    assert TitleLine(scenario) == "Scenario: Login\n";
    assert ChildText(scenario) == "@smoke\n" + "Scenario: Login\n";
  }

  /** Split, then written: the inherited scenario tag shows as its own line
      under the `Feature:` line. */
  lemma SmokeFeatureWritten()
    ensures var subs := Split(Feature([Tag("@smoke")], "Feature", "N", [Scenario(None, "Scenario", "Login", [])]), false, "");
            |subs| == 1 && Render(subs[0]) == Some("@smoke\n" + "Feature: N\n" + "@smoke\n" + "Scenario: Login\n")
  {
    SmokeFeatureSplit();
    SmokeFeatureText();
  }
}
