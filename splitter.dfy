/** Template extraction and splitting: one feature becomes an ordered list of
    single-scenario sub-features with merged tags.

    The functions here define what `splitFeature` produces, child by child,
    block by block and row by row; the method `SplitFeature` builds the same
    list the way the source does, by pushing onto an array inside nested
    loops, and is proved to agree with them. */
module Splitter {
  import opened Gherkin
  import opened Seqs
  import opened LiteralAnd

  predicate IsBackground(c: Child)
  {
    c.Background?
  }

  /** The Background children, in document order and with their
      multiplicity (`filter(type === "Background")`): the children at the
      increasing positions `idx`, which are exactly the positions of the
      Background children. */
  function Backgrounds(children: seq<Child>): (r: seq<Child>)
    ensures var idx := Positions(children, IsBackground);
            && |idx| == |r|
            && (forall j :: 0 <= j < |idx| ==> idx[j] < |children| && r[j] == children[idx[j]])
            && Increasing(idx)
            && (forall i :: 0 <= i < |children| ==> (i in idx <==> children[i].Background?))
    ensures forall i :: 0 <= i < |r| ==> r[i].Background?
    ensures forall c :: c in r <==> c in children && c.Background?
  {
    SelectIsSubsequence(children, IsBackground);
    SelectMembers(children, IsBackground);
    Select(children, IsBackground)
  }

  /** `getFeatureTemplate`: the feature with only its Background children. */
  function GetFeatureTemplate(feature: Feature): (template: Feature)
    ensures template.tags == feature.tags && template.name == feature.name && template.keyword == feature.keyword
    ensures var idx := Positions(feature.children, IsBackground);
            && |idx| == |template.children|
            && (forall j :: 0 <= j < |idx| ==> idx[j] < |feature.children| && template.children[j] == feature.children[idx[j]])
            && Increasing(idx)
            && (forall i :: 0 <= i < |feature.children| ==> (i in idx <==> feature.children[i].Background?))
    ensures forall c :: c in template.children <==> c in feature.children && c.Background?
  {
    feature.(children := Backgrounds(feature.children))
  }

  /** One sub-feature: a copy of the template with `scenario` pushed as its last child. */
  function Emit(template: Feature, scenario: Child): Feature
  {
    template.(children := template.children + [scenario])
  }

  /** `scenario.examples.some(ex => ex.tags && ex.tags.length > 0)` */
  predicate HasTaggedExamples(examples: seq<Examples>)
  {
    exists b :: 0 <= b < |examples| && examples[b].tags.Some? && |examples[b].tags.value| > 0
  }

  /** A per-row copy of an outline: its tags become scenario tags, feature
      tags and `exampleTags`; its examples become one copy of `block` holding
      only `row`. */
  function RowScenario(outline: Child, featureTags: seq<Tag>, block: Examples, row: TableRow,
                       exampleTags: seq<Tag>): Child
    requires outline.ScenarioOutline?
  {
    outline.(tags := Some(TagsOr(outline.tags) + featureTags + exampleTags),
             examples := Some([block.(tableBody := [row])]))
  }

  /** Tagged mode, one block: a sub-feature per row carrying the block's own tags. */
  function TaggedBlock(outline: Child, template: Feature, block: Examples): seq<Feature>
    requires outline.ScenarioOutline?
  {
    seq(|block.tableBody|, r requires 0 <= r < |block.tableBody| =>
      Emit(template, RowScenario(outline, template.tags, block, block.tableBody[r], TagsOr(block.tags))))
  }

  function TaggedBlocks(outline: Child, template: Feature, examples: seq<Examples>): seq<seq<Feature>>
    requires outline.ScenarioOutline?
  {
    seq(|examples|, b requires 0 <= b < |examples| => TaggedBlock(outline, template, examples[b]))
  }

  function TaggedRows(outline: Child, template: Feature, examples: seq<Examples>): seq<Feature>
    requires outline.ScenarioOutline?
  {
    Flatten(TaggedBlocks(outline, template, examples))
  }

  function Bodies(examples: seq<Examples>): seq<seq<TableRow>>
  {
    seq(|examples|, b requires 0 <= b < |examples| => examples[b].tableBody)
  }

  /** `scenario.examples.flatMap(example => example.tableBody)` */
  function AllRows(examples: seq<Examples>): seq<TableRow>
  {
    Flatten(Bodies(examples))
  }

  /** Untagged mode: a sub-feature per row of the flattened rows, every one
      built on a copy of block 0 and carrying no example tags. */
  function UntaggedRows(outline: Child, template: Feature, examples: seq<Examples>): seq<Feature>
    requires outline.ScenarioOutline? && |examples| > 0
  {
    var rows := AllRows(examples);
    seq(|rows|, k requires 0 <= k < |rows| =>
      Emit(template, RowScenario(outline, template.tags, examples[0], rows[k], [])))
  }

  /** The block tags merged into an intact outline: each block's tags, in
      order, for the blocks that pass the literal `and` check. */
  function MergedPieces(scenarioTags: Option<seq<Tag>>, examples: seq<Examples>, tagExpression: string)
    : seq<seq<Tag>>
  {
    seq(|examples|, b requires 0 <= b < |examples| =>
      if MergeCheck(scenarioTags, examples[b], tagExpression) then TagsOr(examples[b].tags) else [])
  }

  function MergedExampleTags(scenarioTags: Option<seq<Tag>>, examples: seq<Examples>, tagExpression: string)
    : seq<Tag>
  {
    Flatten(MergedPieces(scenarioTags, examples, tagExpression))
  }

  /** What one child of the feature contributes to `splitFeature`'s result. */
  function SplitChild(c: Child, template: Feature, splitExamples: bool, tagExpression: string): seq<Feature>
  {
    match c
    case Background(_, _, _) => []
    case Scenario(tags, keyword, name, steps) =>
      [Emit(template, Scenario(Some(TagsOr(tags) + template.tags), keyword, name, steps))]
    case ScenarioOutline(tags, _, _, _, examples) =>
      if examples.None? || |examples.value| == 0 then []
      else if splitExamples then
        if HasTaggedExamples(examples.value) then TaggedRows(c, template, examples.value)
        else UntaggedRows(c, template, examples.value)
      else
        [Emit(template, c.(tags := Some(TagsOr(tags) + template.tags
                                        + MergedExampleTags(tags, examples.value, tagExpression))))]
  }

  function PerChild(scenarios: seq<Child>, template: Feature, splitExamples: bool, tagExpression: string)
    : seq<seq<Feature>>
  {
    seq(|scenarios|, i requires 0 <= i < |scenarios| => SplitChild(scenarios[i], template, splitExamples, tagExpression))
  }

  /** `splitFeature(scenarios, featureTemplate, splitScenarioOutLineMultipleExamples, tagExpression)` */
  function SplitChildren(scenarios: seq<Child>, template: Feature, splitExamples: bool, tagExpression: string)
    : seq<Feature>
  {
    Flatten(PerChild(scenarios, template, splitExamples, tagExpression))
  }

  /** The whole split of one parsed feature, as `compile` calls it. */
  function Split(feature: Feature, splitExamples: bool, tagExpression: string): seq<Feature>
  {
    SplitChildren(feature.children, GetFeatureTemplate(feature), splitExamples, tagExpression)
  }

  /** `splitFeature`, building its result by pushes inside nested loops. */
  method SplitFeature(scenarios: seq<Child>, template: Feature, splitExamples: bool, tagExpression: string)
    returns (features: seq<Feature>)
    ensures features == SplitChildren(scenarios, template, splitExamples, tagExpression)
  {
    ghost var perChild := PerChild(scenarios, template, splitExamples, tagExpression);
    features := [];
    var k := 0;
    while k < |scenarios|
      invariant 0 <= k <= |scenarios|
      invariant features == Flatten(perChild[..k])
    {
      features := PushChild(features, scenarios[k], template, splitExamples, tagExpression);
      FlattenSnoc(perChild, k);
      k := k + 1;
    }
    assert perChild[..k] == perChild;
  }

  /** The body of `forEach(scenario => ...)`: push what one child yields. */
  method PushChild(features0: seq<Feature>, scenario: Child, template: Feature, splitExamples: bool,
                   tagExpression: string) returns (features: seq<Feature>)
    ensures features == features0 + SplitChild(scenario, template, splitExamples, tagExpression)
  {
    features := features0;
    if scenario.ScenarioOutline? {
      if scenario.examples.None? || |scenario.examples.value| == 0 {
        // "Missing examples for Scenario Outline": nothing is pushed
      } else if splitExamples {
        var examples := scenario.examples.value;
        if HasTaggedExamples(examples) {
          features := PushTaggedRows(features, scenario, template, examples);
        } else {
          features := PushUntaggedRows(features, scenario, template, examples);
        }
      } else {
        var tags := MergeExampleTags(scenario, template.tags, scenario.examples.value, tagExpression);
        var updatedScenario := scenario.(tags := Some(tags));
        features := features + [template.(children := template.children + [updatedScenario])];
      }
    } else if scenario.Scenario? {
      var updatedScenario := Scenario(Some(TagsOr(scenario.tags) + template.tags), scenario.keyword,
                                      scenario.name, scenario.steps);
      features := features + [template.(children := template.children + [updatedScenario])];
    }
  }

  /** CASE 1 of `splitFeature`: for every block and every row, push a
      sub-feature whose outline holds that row and the block's tags. */
  method PushTaggedRows(features0: seq<Feature>, scenario: Child, template: Feature, examples: seq<Examples>)
    returns (features: seq<Feature>)
    requires scenario.ScenarioOutline?
    ensures features == features0 + TaggedRows(scenario, template, examples)
  {
    ghost var blocks := TaggedBlocks(scenario, template, examples);
    features := features0;
    var b := 0;
    while b < |examples|
      invariant 0 <= b <= |examples|
      invariant features == features0 + Flatten(blocks[..b])
    {
      var example := examples[b];
      ghost var before := features;
      var r := 0;
      while r < |example.tableBody|
        invariant 0 <= r <= |example.tableBody|
        invariant features == before + blocks[b][..r]
      {
        var row := example.tableBody[r];
        var updatedScenario := scenario.(examples := Some([example.(tableBody := [row])]));
        updatedScenario := updatedScenario.(tags := Some(TagsOr(scenario.tags) + template.tags + TagsOr(example.tags)));
        features := features + [template.(children := template.children + [updatedScenario])];
        assert blocks[b][..r + 1] == blocks[b][..r] + [blocks[b][r]];
        r := r + 1;
      }
      assert blocks[b][..r] == blocks[b];
      FlattenSnoc(blocks, b);
      b := b + 1;
    }
    assert blocks[..b] == blocks;
  }

  /** CASE 2 of `splitFeature`: for every row of the flattened rows, push a
      sub-feature whose outline holds a copy of block 0 with only that row. */
  method PushUntaggedRows(features0: seq<Feature>, scenario: Child, template: Feature, examples: seq<Examples>)
    returns (features: seq<Feature>)
    requires scenario.ScenarioOutline? && |examples| > 0
    ensures features == features0 + UntaggedRows(scenario, template, examples)
  {
    ghost var expected := UntaggedRows(scenario, template, examples);
    var allRows := AllRows(examples);
    features := features0;
    var r := 0;
    while r < |allRows|
      invariant 0 <= r <= |allRows|
      invariant features == features0 + expected[..r]
    {
      var row := allRows[r];
      var updatedScenario := scenario.(examples := Some([examples[0].(tableBody := [row])]));
      updatedScenario := updatedScenario.(tags := Some(TagsOr(scenario.tags) + template.tags));
      features := features + [template.(children := template.children + [updatedScenario])];
      assert TagsOr(scenario.tags) + template.tags + [] == TagsOr(scenario.tags) + template.tags;
      assert expected[..r + 1] == expected[..r] + [expected[r]];
      r := r + 1;
    }
    assert expected[..r] == expected;
  }

  /** CASE 3 of `splitFeature`: the intact outline's tags, reassigned block by
      block whenever the block passes the literal `and` check. */
  method MergeExampleTags(scenario: Child, featureTags: seq<Tag>, examples: seq<Examples>, tagExpression: string)
    returns (tags: seq<Tag>)
    requires scenario.ScenarioOutline?
    ensures tags == TagsOr(scenario.tags) + featureTags + MergedExampleTags(scenario.tags, examples, tagExpression)
  {
    tags := TagsOr(scenario.tags) + featureTags;
    ghost var head := tags;
    var b := 0;
    while b < |examples|
      invariant 0 <= b <= |examples|
      invariant tags == head + MergedExampleTags(scenario.tags, examples[..b], tagExpression)
    {
      var example := examples[b];
      // `combinedTags`, `requiredTags` and `requiredTags.every(...)`: the
      // literal `and` check of the block against the outline's tags
      var matches := MergeCheck(scenario.tags, example, tagExpression);
      ghost var before := tags;
      if matches {
        tags := tags + TagsOr(example.tags);
      }
      MergedStep(scenario.tags, examples, tagExpression, b, head, before, tags);
      b := b + 1;
    }
    assert examples[..b] == examples;
  }

  /** One pass of the loop over the blocks extends the prefix invariant. */
  lemma MergedStep(scenarioTags: Option<seq<Tag>>, examples: seq<Examples>, tagExpression: string, b: nat,
                   head: seq<Tag>, before: seq<Tag>, after: seq<Tag>)
    requires b < |examples|
    requires before == head + MergedExampleTags(scenarioTags, examples[..b], tagExpression)
    requires after == before + (if MergeCheck(scenarioTags, examples[b], tagExpression) then TagsOr(examples[b].tags) else [])
    ensures after == head + MergedExampleTags(scenarioTags, examples[..b + 1], tagExpression)
  {
    MergedSnoc(scenarioTags, examples, tagExpression, b);
  }

  lemma MergedSnoc(scenarioTags: Option<seq<Tag>>, examples: seq<Examples>, tagExpression: string, b: nat)
    requires b < |examples|
    ensures MergedExampleTags(scenarioTags, examples[..b + 1], tagExpression)
            == MergedExampleTags(scenarioTags, examples[..b], tagExpression)
               + (if MergeCheck(scenarioTags, examples[b], tagExpression) then TagsOr(examples[b].tags) else [])
  {
    var pieces := MergedPieces(scenarioTags, examples[..b + 1], tagExpression);
    var prefix := MergedPieces(scenarioTags, examples[..b], tagExpression);
    forall k | 0 <= k < b ensures pieces[k] == prefix[k] {
      assert examples[..b + 1][k] == examples[..b][k];
    }
    assert pieces[..b] == prefix;
    FlattenSnoc(pieces, b);
    assert pieces[..b + 1] == pieces;
  }
}
