/** What splitting promises: how many sub-features each child yields, in
    which order they come, what shape each has, and which tags it carries. */
module SplitterProperties {
  import opened Gherkin
  import opened Seqs
  import opened LiteralAnd
  import opened Splitter

  /** The number of data rows of all blocks, counted from the front. */
  function TotalRows(examples: seq<Examples>): nat
  {
    if examples == [] then 0 else |examples[0].tableBody| + TotalRows(examples[1..])
  }

  /** How many sub-features a child yields: none for a Background or for an
      outline whose `examples` is missing or empty, one for a plain Scenario
      or an intact outline, and one per data row for a split outline. */
  function ExpectedCount(c: Child, splitExamples: bool): nat
  {
    match c
    case Background(_, _, _) => 0
    case Scenario(_, _, _, _) => 1
    case ScenarioOutline(_, _, _, _, examples) =>
      if examples.None? || |examples.value| == 0 then 0
      else if splitExamples then TotalRows(examples.value)
      else 1
  }

  function ExpectedCounts(children: seq<Child>, splitExamples: bool): (ns: seq<nat>)
    ensures |ns| == |children|
  {
    seq(|children|, i requires 0 <= i < |children| => ExpectedCount(children[i], splitExamples))
  }

  lemma {:induction false} BodiesTotal(examples: seq<Examples>)
    ensures Sum(Lengths(Bodies(examples))) == TotalRows(examples)
    decreases |examples|
  {
    if examples != [] {
      assert Lengths(Bodies(examples)) == [|examples[0].tableBody|] + Lengths(Bodies(examples[1..]));
      BodiesTotal(examples[1..]);
    }
  }

  lemma TaggedBlocksLengths(outline: Child, template: Feature, examples: seq<Examples>)
    requires outline.ScenarioOutline?
    ensures Lengths(TaggedBlocks(outline, template, examples)) == Lengths(Bodies(examples))
  {
  }

  /** Cardinality of one child. */
  lemma SplitChildCount(c: Child, template: Feature, splitExamples: bool, tagExpression: string)
    ensures |SplitChild(c, template, splitExamples, tagExpression)| == ExpectedCount(c, splitExamples)
  {
    if c.ScenarioOutline? && c.examples.Some? && |c.examples.value| > 0 && splitExamples {
      var examples := c.examples.value;
      BodiesTotal(examples);
      FlattenLength(Bodies(examples));
      if HasTaggedExamples(examples) {
        FlattenLength(TaggedBlocks(c, template, examples));
        TaggedBlocksLengths(c, template, examples);
      }
    }
  }

  /** Cardinality: the split yields exactly the sum of the children's
      expected counts (1 per plain Scenario, the total row count per split
      outline, 0 per Background or outline without examples). */
  lemma SplitCardinality(scenarios: seq<Child>, template: Feature, splitExamples: bool, tagExpression: string)
    ensures |SplitChildren(scenarios, template, splitExamples, tagExpression)|
            == Sum(ExpectedCounts(scenarios, splitExamples))
  {
    var perChild := PerChild(scenarios, template, splitExamples, tagExpression);
    FlattenLength(perChild);
    forall i | 0 <= i < |scenarios|
      ensures Lengths(perChild)[i] == ExpectedCounts(scenarios, splitExamples)[i]
    {
      SplitChildCount(scenarios[i], template, splitExamples, tagExpression);
    }
    assert Lengths(perChild) == ExpectedCounts(scenarios, splitExamples);
  }

  /** Document order of children: the `j`-th sub-feature of child `i` comes
      right after everything the children before `i` yielded. */
  lemma SplitOrder(scenarios: seq<Child>, template: Feature, splitExamples: bool, tagExpression: string,
                   i: nat, j: nat)
    requires i < |scenarios| && j < |SplitChild(scenarios[i], template, splitExamples, tagExpression)|
    ensures var before := |SplitChildren(scenarios[..i], template, splitExamples, tagExpression)|;
            before + j < |SplitChildren(scenarios, template, splitExamples, tagExpression)| &&
            SplitChildren(scenarios, template, splitExamples, tagExpression)[before + j]
            == SplitChild(scenarios[i], template, splitExamples, tagExpression)[j]
  {
    SplitChildrenPrefix(scenarios, template, splitExamples, tagExpression, i);
    PerChildAt(scenarios, template, splitExamples, tagExpression, i);
    FlattenOrder(PerChild(scenarios, template, splitExamples, tagExpression),
                 SplitChildren(scenarios, template, splitExamples, tagExpression),
                 SplitChildren(scenarios[..i], template, splitExamples, tagExpression),
                 SplitChild(scenarios[i], template, splitExamples, tagExpression), i, j);
  }

  lemma SplitChildrenPrefix(scenarios: seq<Child>, template: Feature, splitExamples: bool, tagExpression: string,
                            i: nat)
    requires i <= |scenarios|
    ensures SplitChildren(scenarios[..i], template, splitExamples, tagExpression)
            == Flatten(PerChild(scenarios, template, splitExamples, tagExpression)[..i])
  {
    PerChildPrefix(scenarios, template, splitExamples, tagExpression, i);
  }

  lemma PerChildAt(scenarios: seq<Child>, template: Feature, splitExamples: bool, tagExpression: string, i: nat)
    requires i < |scenarios|
    ensures PerChild(scenarios, template, splitExamples, tagExpression)[i]
            == SplitChild(scenarios[i], template, splitExamples, tagExpression)
  {
  }

  lemma PerChildPrefix(scenarios: seq<Child>, template: Feature, splitExamples: bool, tagExpression: string, i: nat)
    requires i <= |scenarios|
    ensures PerChild(scenarios, template, splitExamples, tagExpression)[..i]
            == PerChild(scenarios[..i], template, splitExamples, tagExpression)
  {
    var whole := PerChild(scenarios, template, splitExamples, tagExpression);
    var prefix := PerChild(scenarios[..i], template, splitExamples, tagExpression);
    forall k | 0 <= k < i ensures whole[k] == prefix[k] {
      assert scenarios[..i][k] == scenarios[k];
    }
  }

  /** Row `r` of block `b` is row number `|AllRows(examples[..b])| + r` of the
      flattened rows: blocks in order, then rows in order. */
  lemma AllRowsAt(examples: seq<Examples>, b: nat, r: nat)
    requires b < |examples| && r < |examples[b].tableBody|
    ensures |AllRows(examples[..b])| + r < |AllRows(examples)|
    ensures AllRows(examples)[|AllRows(examples[..b])| + r] == examples[b].tableBody[r]
  {
    assert Bodies(examples)[..b] == Bodies(examples[..b]);
    FlattenAt(Bodies(examples), b, r);
  }

  /** Tagged-mode row coupling: in document order of blocks then rows, the
      sub-feature for row `r` of block `b` holds one copy of block `b` with
      exactly that row, and its tags are the scenario tags, the feature tags
      and exactly block `b`'s own tags; a block without tags adds none. */
  lemma TaggedRowAt(outline: Child, template: Feature, examples: seq<Examples>, b: nat, r: nat)
    requires outline.ScenarioOutline? && b < |examples| && r < |examples[b].tableBody|
    ensures var k := |AllRows(examples[..b])| + r;
            k < |TaggedRows(outline, template, examples)| &&
            TaggedRows(outline, template, examples)[k]
            == Emit(template, RowScenario(outline, template.tags, examples[b], examples[b].tableBody[r],
                                          TagsOr(examples[b].tags)))
    ensures TagsOr(examples[b].tags) == [] ==>
            RowScenario(outline, template.tags, examples[b], examples[b].tableBody[r], TagsOr(examples[b].tags)).tags
            == Some(TagsOr(outline.tags) + template.tags)
  {
    var blocks := TaggedBlocks(outline, template, examples);
    assert blocks[..b] == TaggedBlocks(outline, template, examples[..b]);
    FlattenLength(blocks[..b]);
    FlattenLength(Bodies(examples[..b]));
    TaggedBlocksLengths(outline, template, examples[..b]);
    FlattenAt(blocks, b, r);
    assert TagsOr(outline.tags) + template.tags + [] == TagsOr(outline.tags) + template.tags;
  }

  /** Untagged mode: row `r` of block `b` becomes a sub-feature whose single
      block is a copy of block 0 (block 0's header and tags) holding that row,
      and whose tags are only the scenario and feature tags. */
  lemma UntaggedRowAt(outline: Child, template: Feature, examples: seq<Examples>, b: nat, r: nat)
    requires outline.ScenarioOutline? && b < |examples| && r < |examples[b].tableBody|
    ensures var k := |AllRows(examples[..b])| + r;
            k < |UntaggedRows(outline, template, examples)| &&
            UntaggedRows(outline, template, examples)[k]
            == Emit(template, outline.(tags := Some(TagsOr(outline.tags) + template.tags),
                                      examples := Some([examples[0].(tableBody := [examples[b].tableBody[r]])])))
  {
    AllRowsAt(examples, b, r);
    assert TagsOr(outline.tags) + template.tags + [] == TagsOr(outline.tags) + template.tags;
  }

  /** The intact outline with an empty expression: no block passes the merge
      check, so its tags are exactly the scenario tags then the feature tags. */
  lemma IntactOutlineWithEmptyExpression(outline: Child, template: Feature)
    requires outline.ScenarioOutline? && outline.examples.Some? && |outline.examples.value| > 0
    requires NamedTags(outline.tags)
    requires forall b :: 0 <= b < |outline.examples.value| ==> NamedTags(outline.examples.value[b].tags)
    ensures SplitChild(outline, template, false, "")
            == [Emit(template, outline.(tags := Some(TagsOr(outline.tags) + template.tags)))]
  {
    var examples := outline.examples.value;
    var pieces := MergedPieces(outline.tags, examples, "");
    forall b | 0 <= b < |examples| ensures pieces[b] == [] {
      EmptyExpressionMergesNothing(outline.tags, examples[b]);
    }
    FlattenEmpty(pieces);
    assert TagsOr(outline.tags) + template.tags + [] == TagsOr(outline.tags) + template.tags;
  }

  /** The intact outline with an expression `@a and @b and ...`: block `b`'s
      tags are appended iff every one of those names is among the scenario's
      and the block's tag names (feature tags do not count). */
  lemma IntactOutlineWithAndExpression(outline: Child, names: seq<string>, b: nat)
    requires outline.ScenarioOutline? && outline.examples.Some? && b < |outline.examples.value|
    requires |names| >= 1 && forall i :: 0 <= i < |names| ==> Unspaced(names[i])
    ensures var example := outline.examples.value[b];
            MergedPieces(outline.tags, outline.examples.value, Join(names, AND_SEPARATOR))[b]
            == if forall i :: 0 <= i < |names| ==> names[i] in CombinedNames(outline.tags, example)
               then TagsOr(example.tags) else []
  {
    AndExpressionRequiresEveryTag(names, outline.tags, outline.examples.value[b]);
  }

  /** The sub-feature `x` was built from child `c`: it is the template plus one
      scenario of `c`'s kind, name and steps, whose tags start with `c`'s own
      tags followed by the feature tags; an outline's sub-feature keeps all of
      its blocks when not splitting, and holds exactly one block with exactly
      one of the outline's rows when splitting. */
  ghost predicate BuiltFrom(x: Feature, c: Child, template: Feature, splitExamples: bool)
  {
    && !c.Background?
    && |x.children| == |template.children| + 1
    && var s := x.children[|template.children|];
    && x == Emit(template, s)
    && !s.Background? && s.Scenario? == c.Scenario?
    && s.keyword == c.keyword && s.name == c.name && s.steps == c.steps
    && s.tags.Some?
    && |TagsOr(c.tags)| + |template.tags| <= |s.tags.value|
    && s.tags.value[..|TagsOr(c.tags)| + |template.tags|] == TagsOr(c.tags) + template.tags
    && (s.ScenarioOutline? ==>
          && c.examples.Some? && |c.examples.value| > 0 && s.examples.Some?
          && (splitExamples ==>
                && |s.examples.value| == 1 && |s.examples.value[0].tableBody| == 1
                && s.examples.value[0].tableBody[0] in AllRows(c.examples.value))
          && (!splitExamples ==> s.examples == c.examples))
  }

  lemma RowScenarioBuiltFrom(outline: Child, template: Feature, block: Examples, row: TableRow, extra: seq<Tag>)
    requires outline.ScenarioOutline? && outline.examples.Some? && |outline.examples.value| > 0
    requires row in AllRows(outline.examples.value)
    ensures BuiltFrom(Emit(template, RowScenario(outline, template.tags, block, row, extra)), outline, template, true)
  {
    var s := RowScenario(outline, template.tags, block, row, extra);
    assert (TagsOr(outline.tags) + template.tags + extra)[..|TagsOr(outline.tags)| + |template.tags|]
           == TagsOr(outline.tags) + template.tags;
    assert Emit(template, s).children[|template.children|] == s;
  }

  /** Shape of the sub-features of one child. */
  lemma SplitChildShape(c: Child, template: Feature, splitExamples: bool, tagExpression: string, x: Feature)
    requires x in SplitChild(c, template, splitExamples, tagExpression)
    ensures BuiltFrom(x, c, template, splitExamples)
  {
    match c
    case Scenario(tags, keyword, name, steps) =>
      ScenarioShape(c, template, splitExamples, tagExpression, x);
    case ScenarioOutline(tags, _, _, _, examples) =>
      var exs := examples.value;
      if splitExamples {
        if HasTaggedExamples(exs) {
          TaggedRowsShape(c, template, x);
        } else {
          UntaggedRowsShape(c, template, x);
        }
      } else {
        IntactOutlineShape(c, template, tagExpression, x);
      }
  }

  lemma ScenarioShape(c: Child, template: Feature, splitExamples: bool, tagExpression: string, x: Feature)
    requires c.Scenario?
    requires x in SplitChild(c, template, splitExamples, tagExpression)
    ensures BuiltFrom(x, c, template, splitExamples)
  {
    var s := Scenario(Some(TagsOr(c.tags) + template.tags), c.keyword, c.name, c.steps);
    assert (TagsOr(c.tags) + template.tags)[..|TagsOr(c.tags)| + |template.tags|] == TagsOr(c.tags) + template.tags;
    assert x == Emit(template, s) && x.children[|template.children|] == s;
  }

  lemma TaggedRowsShape(c: Child, template: Feature, x: Feature)
    requires c.ScenarioOutline? && c.examples.Some? && |c.examples.value| > 0
    requires x in TaggedRows(c, template, c.examples.value)
    ensures BuiltFrom(x, c, template, true)
  {
    var exs := c.examples.value;
    var blocks := TaggedBlocks(c, template, exs);
    FlattenMember(blocks, x);
    var b :| 0 <= b < |blocks| && x in blocks[b];
    var r :| 0 <= r < |exs[b].tableBody| && x == blocks[b][r];
    MemberFlatten(Bodies(exs), b, exs[b].tableBody[r]);
    RowScenarioBuiltFrom(c, template, exs[b], exs[b].tableBody[r], TagsOr(exs[b].tags));
  }

  lemma UntaggedRowsShape(c: Child, template: Feature, x: Feature)
    requires c.ScenarioOutline? && c.examples.Some? && |c.examples.value| > 0
    requires x in UntaggedRows(c, template, c.examples.value)
    ensures BuiltFrom(x, c, template, true)
  {
    var exs := c.examples.value;
    var rows := AllRows(exs);
    var k :| 0 <= k < |rows| && x == UntaggedRows(c, template, exs)[k];
    RowScenarioBuiltFrom(c, template, exs[0], rows[k], []);
  }

  lemma IntactOutlineShape(c: Child, template: Feature, tagExpression: string, x: Feature)
    requires c.ScenarioOutline? && c.examples.Some? && |c.examples.value| > 0
    requires x in SplitChild(c, template, false, tagExpression)
    ensures BuiltFrom(x, c, template, false)
  {
    var all := TagsOr(c.tags) + template.tags + MergedExampleTags(c.tags, c.examples.value, tagExpression);
    var s := c.(tags := Some(all));
    assert all[..|TagsOr(c.tags)| + |template.tags|] == TagsOr(c.tags) + template.tags;
    assert x == Emit(template, s) && x.children[|template.children|] == s;
  }

  /** Every sub-feature of the split comes from one non-Background child and
      has that child's shape. */
  lemma SplitShape(scenarios: seq<Child>, template: Feature, splitExamples: bool, tagExpression: string,
                   x: Feature)
    requires x in SplitChildren(scenarios, template, splitExamples, tagExpression)
    ensures exists i :: 0 <= i < |scenarios| && BuiltFrom(x, scenarios[i], template, splitExamples)
  {
    var perChild := PerChild(scenarios, template, splitExamples, tagExpression);
    FlattenMember(perChild, x);
    var i :| 0 <= i < |perChild| && x in perChild[i];
    SplitChildShape(scenarios[i], template, splitExamples, tagExpression, x);
  }

  /** Sub-features of a whole feature: each keeps the feature's tags and
      name, its children are the feature's Background children in order and
      then exactly one scenario, and that scenario's tags contain every
      feature tag and, first, every tag of the child it came from (tag
      inheritance). */
  lemma SubFeatureOfFeature(feature: Feature, splitExamples: bool, tagExpression: string, x: Feature)
    requires x in Split(feature, splitExamples, tagExpression)
    ensures x.tags == feature.tags && x.name == feature.name
    ensures |x.children| >= 1
    ensures x.children[..|x.children| - 1] == Backgrounds(feature.children)
    ensures var s := x.children[|x.children| - 1];
            && HasTagsField(s)
            && (forall t :: t in feature.tags ==> t in s.tags.value)
            && exists i :: 0 <= i < |feature.children| && !feature.children[i].Background?
                          && s.name == feature.children[i].name
                          && (forall t :: t in TagsOr(feature.children[i].tags) ==> t in s.tags.value)
  {
    var template := GetFeatureTemplate(feature);
    SplitShape(feature.children, template, splitExamples, tagExpression, x);
    var i :| 0 <= i < |feature.children| && BuiltFrom(x, feature.children[i], template, splitExamples);
    var c := feature.children[i];
    var s := x.children[|x.children| - 1];
    assert x.children == template.children + [s];
    assert x.children[..|x.children| - 1] == template.children;
    PrefixMembers(s.tags.value, TagsOr(c.tags), template.tags);
  }
}
