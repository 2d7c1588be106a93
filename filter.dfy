/** `filterFeaturesByTag`: keep the sub-features some tagged child of which
    satisfies the tag expression.

    The expression is parsed and evaluated by an external library; here it is
    the predicate `matches` over a list of tag names, passed in. */
module TagFilter {
  import opened Gherkin
  import opened Seqs
  import Splitter
  import SplitterProperties

  /** `scenario.tags ? expressionNode.evaluate(scenario.tags.map(tag => tag.name)) : undefined` */
  predicate ChildMatches(c: Child, matches: seq<string> -> bool)
  {
    HasTagsField(c) && matches(Names(c.tags.value))
  }

  /** `feature.feature.children.some(...)` */
  predicate Keep(feature: Feature, matches: seq<string> -> bool)
  {
    exists i :: 0 <= i < |feature.children| && ChildMatches(feature.children[i], matches)
  }

  /** The test `features.filter(...)` applies to each sub-feature. */
  function KeepBy(matches: seq<string> -> bool): Feature -> bool
  {
    f => Keep(f, matches)
  }

  /** `features.filter(...)` */
  function FilterFeaturesByTag(features: seq<Feature>, matches: seq<string> -> bool): seq<Feature>
  {
    Select(features, KeepBy(matches))
  }

  /** The result is an order-preserving subsequence of the input, and the
      element at position `i` is kept iff it satisfies the predicate. */
  lemma FilterIsSubsequence(features: seq<Feature>, matches: seq<string> -> bool)
    ensures var kept, idx := FilterFeaturesByTag(features, matches), Positions(features, KeepBy(matches));
            && |idx| == |kept|
            && (forall j :: 0 <= j < |idx| ==> idx[j] < |features| && kept[j] == features[idx[j]])
            && (forall j, j' :: 0 <= j < j' < |idx| ==> idx[j] < idx[j'])
            && (forall i :: 0 <= i < |features| ==> (i in idx <==> Keep(features[i], matches)))
  {
    SelectIsSubsequence(features, KeepBy(matches));
  }

  lemma FilterSnoc(features: seq<Feature>, x: Feature, matches: seq<string> -> bool)
    ensures FilterFeaturesByTag(features + [x], matches)
            == FilterFeaturesByTag(features, matches) + (if Keep(x, matches) then [x] else [])
  {
    SelectSnoc(features, x, KeepBy(matches));
  }

  /** Filtering twice with the same predicate is filtering once. */
  lemma {:induction false} FilterIdempotent(features: seq<Feature>, matches: seq<string> -> bool)
    ensures FilterFeaturesByTag(FilterFeaturesByTag(features, matches), matches)
            == FilterFeaturesByTag(features, matches)
    decreases |features|
  {
    if features != [] {
      var init, last := features[..|features| - 1], features[|features| - 1];
      assert features == init + [last];
      FilterSnoc(init, last, matches);
      var once := FilterFeaturesByTag(init, matches);
      FilterIdempotent(init, matches);
      if Keep(last, matches) {
        assert FilterFeaturesByTag(features, matches) == once + [last];
        FilterSnoc(once, last, matches);
      } else {
        assert FilterFeaturesByTag(features, matches) == once;
      }
    }
  }

  /** Some child of the sub-feature carries a `tags` field. */
  predicate HasTaggedChild(feature: Feature)
  {
    exists i :: 0 <= i < |feature.children| && HasTagsField(feature.children[i])
  }

  lemma KeepAcceptAll(feature: Feature, matches: seq<string> -> bool)
    requires forall names :: matches(names)
    requires HasTaggedChild(feature)
    ensures Keep(feature, matches)
  {
    var i :| 0 <= i < |feature.children| && HasTagsField(feature.children[i]);
    assert matches(Names(feature.children[i].tags.value));
    assert ChildMatches(feature.children[i], matches);
  }

  /** A predicate that accepts every list of names (what an empty expression
      parses to) keeps every sub-feature that has a child with a `tags` field. */
  lemma {:induction false} FilterAcceptAll(features: seq<Feature>, matches: seq<string> -> bool)
    requires forall names :: matches(names)
    requires forall j :: 0 <= j < |features| ==> HasTaggedChild(features[j])
    ensures FilterFeaturesByTag(features, matches) == features
    decreases |features|
  {
    if features != [] {
      var init, last := features[..|features| - 1], features[|features| - 1];
      assert features == init + [last];
      assert forall j :: 0 <= j < |init| ==> init[j] == features[j];
      FilterAcceptAll(init, matches);
      KeepAcceptAll(last, matches);
      FilterSnoc(init, last, matches);
    }
  }

  /** Every sub-feature the splitter builds has a tagged scenario, so with an
      accept-all predicate filtering the split changes nothing. */
  lemma FilterAcceptAllAfterSplit(feature: Feature, splitExamples: bool, tagExpression: string,
                                  matches: seq<string> -> bool)
    requires forall names :: matches(names)
    ensures var subs := Splitter.Split(feature, splitExamples, tagExpression);
            FilterFeaturesByTag(subs, matches) == subs
  {
    var subs := Splitter.Split(feature, splitExamples, tagExpression);
    forall j | 0 <= j < |subs| ensures HasTaggedChild(subs[j]) {
      SplitterProperties.SubFeatureOfFeature(feature, splitExamples, tagExpression, subs[j]);
      assert HasTagsField(subs[j].children[|subs[j].children| - 1]);
    }
    FilterAcceptAll(subs, matches);
  }
}
