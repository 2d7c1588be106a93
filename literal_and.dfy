/** The narrow "every `and`-token is present" check that decides, for an
    outline kept intact, whether an example block's tags are merged into the
    outline's tags; and `exampleMatchesFilter`, the same check as a standalone
    predicate.

    The source splits the expression on the regular expression `\s+and\s+`;
    this model splits on the literal separator " and " and then trims every
    token, which agrees with the regular expression whenever the words of the
    expression are separated by single spaces. */
module LiteralAnd {
  import opened Gherkin

  const AND_SEPARATOR := " and "

  /** `s.split(sep)` for a non-empty string separator: the pieces between the
      leftmost non-overlapping occurrences of `sep`. An empty `s` gives `[""]`. */
  function SplitOn(s: string, sep: string): (parts: seq<string>)
    requires |sep| > 0
    ensures |parts| >= 1
    decreases |s|
  {
    if |s| < |sep| then [s]
    else if s[..|sep|] == sep then [""] + SplitOn(s[|sep|..], sep)
    else
      var rest := SplitOn(s[1..], sep);
      [[s[0]] + rest[0]] + rest[1..]
  }

  /** `parts.join(sep)` */
  function Join(parts: seq<string>, sep: string): string
    requires |parts| >= 1
  {
    if |parts| == 1 then parts[0] else parts[0] + sep + Join(parts[1..], sep)
  }

  /** Splitting loses nothing: joining the pieces gives back the input. */
  lemma {:induction false} JoinSplitOn(s: string, sep: string)
    requires |sep| > 0
    ensures Join(SplitOn(s, sep), sep) == s
    decreases |s|
  {
    if |s| < |sep| {
      assert SplitOn(s, sep) == [s];
    } else if s[..|sep|] == sep {
      var rest := SplitOn(s[|sep|..], sep);
      assert SplitOn(s, sep) == [""] + rest;
      JoinSplitOn(s[|sep|..], sep);
      assert ([""] + rest)[1..] == rest;
      assert Join([""] + rest, sep) == "" + sep + Join(rest, sep);
      assert s == sep + s[|sep|..];
    } else {
      var rest := SplitOn(s[1..], sep);
      var parts := [[s[0]] + rest[0]] + rest[1..];
      assert SplitOn(s, sep) == parts;
      JoinSplitOn(s[1..], sep);
      assert s == [s[0]] + s[1..];
      if |rest| > 1 {
        assert parts[1..] == rest[1..];
        assert Join(rest, sep) == rest[0] + sep + Join(rest[1..], sep);
        assert Join(parts, sep) == [s[0]] + rest[0] + sep + Join(rest[1..], sep);
      }
    }
  }

  /** The white-space characters `String.prototype.trim` removes, restricted to ASCII. */
  predicate IsWhitespace(c: char)
  {
    c == ' ' || c == '\t' || c == '\n' || c == '\r'
  }

  function TrimStart(s: string): (r: string)
    ensures |r| <= |s| && r == s[|s| - |r|..]
    ensures r == [] || !IsWhitespace(r[0])
    ensures forall i :: 0 <= i < |s| - |r| ==> IsWhitespace(s[i])
    decreases |s|
  {
    if s != [] && IsWhitespace(s[0]) then TrimStart(s[1..]) else s
  }

  function TrimEnd(s: string): (r: string)
    ensures |r| <= |s| && r == s[..|r|]
    ensures r == [] || !IsWhitespace(r[|r| - 1])
    ensures forall i :: |r| <= i < |s| ==> IsWhitespace(s[i])
    decreases |s|
  {
    if s != [] && IsWhitespace(s[|s| - 1]) then TrimEnd(s[..|s| - 1]) else s
  }

  /** `s.trim()` */
  function Trim(s: string): string
  {
    TrimEnd(TrimStart(s))
  }

  /** `tagExpression.split(/\s+and\s+/).map(t => t.trim())`, with the
      separator taken literally. */
  function RequiredTags(tagExpression: string): (required: seq<string>)
    ensures |required| == |SplitOn(tagExpression, AND_SEPARATOR)|
    ensures forall i :: 0 <= i < |required| ==>
              required[i] == [] || (!IsWhitespace(required[i][0]) && !IsWhitespace(required[i][|required[i]| - 1]))
  {
    var parts := SplitOn(tagExpression, AND_SEPARATOR);
    seq(|parts|, i requires 0 <= i < |parts| => Trim(parts[i]))
  }

  /** The scenario's tag names followed by the block's tag names; feature tags
      are not consulted. */
  function CombinedNames(scenarioTags: Option<seq<Tag>>, example: Examples): seq<string>
  {
    Names(TagsOr(scenarioTags)) + Names(TagsOr(example.tags))
  }

  /** `requiredTags.every(tag => combinedTags.includes(tag))` */
  predicate MergeCheck(scenarioTags: Option<seq<Tag>>, example: Examples, tagExpression: string)
  {
    var required := RequiredTags(tagExpression);
    forall i :: 0 <= i < |required| ==> required[i] in CombinedNames(scenarioTags, example)
  }

  /** `exampleMatchesFilter(example, scenarioTags, tagExpression)`: false for an
      empty expression, otherwise the same check against a set of names. */
  predicate ExampleMatchesFilter(example: Examples, scenarioTags: Option<seq<Tag>>, tagExpression: string)
  {
    if tagExpression == "" then false
    else
      var combinedTags := set n | n in Names(TagsOr(scenarioTags)) + Names(TagsOr(example.tags));
      var required := RequiredTags(tagExpression);
      forall i :: 0 <= i < |required| ==> required[i] in combinedTags
  }

  /** Gherkin tag names are never empty (they start with `@`). */
  predicate NamedTags(tags: Option<seq<Tag>>)
  {
    forall t :: t in TagsOr(tags) ==> t.name != ""
  }

  /** A tag name with no white space in it, as the Gherkin lexer produces. */
  predicate Unspaced(name: string)
  {
    forall i :: 0 <= i < |name| ==> !IsWhitespace(name[i])
  }

  /** With an empty expression the only token is "", which no tag name equals,
      so no block's tags are merged, and `exampleMatchesFilter` says false. */
  lemma EmptyExpressionMergesNothing(scenarioTags: Option<seq<Tag>>, example: Examples)
    requires NamedTags(scenarioTags) && NamedTags(example.tags)
    ensures RequiredTags("") == [""]
    ensures !MergeCheck(scenarioTags, example, "")
    ensures !ExampleMatchesFilter(example, scenarioTags, "")
  {
    assert SplitOn("", AND_SEPARATOR) == [""];
    assert Trim("") == "";
    assert RequiredTags("") == [""];
    var combined := CombinedNames(scenarioTags, example);
    NamesNonEmpty(TagsOr(scenarioTags));
    NamesNonEmpty(TagsOr(example.tags));
    assert RequiredTags("")[0] !in combined;
  }

  lemma NamesNonEmpty(tags: seq<Tag>)
    requires forall t :: t in tags ==> t.name != ""
    ensures "" !in Names(tags)
  {
    var names := Names(tags);
    forall i | 0 <= i < |names| ensures names[i] != "" {
      assert tags[i] in tags;
    }
  }

  /** `exampleMatchesFilter` is the merge check, refused outright for an empty
      expression; with well-formed tag names the two agree on every expression. */
  lemma ExampleMatchesFilterIsMergeCheck(example: Examples, scenarioTags: Option<seq<Tag>>, tagExpression: string)
    ensures ExampleMatchesFilter(example, scenarioTags, tagExpression)
            == (tagExpression != "" && MergeCheck(scenarioTags, example, tagExpression))
    ensures NamedTags(scenarioTags) && NamedTags(example.tags) ==>
            ExampleMatchesFilter(example, scenarioTags, tagExpression) == MergeCheck(scenarioTags, example, tagExpression)
  {
    if NamedTags(scenarioTags) && NamedTags(example.tags) && tagExpression == "" {
      EmptyExpressionMergesNothing(scenarioTags, example);
    }
  }

  lemma {:induction false} SplitUnspaced(t: string)
    requires Unspaced(t)
    ensures SplitOn(t, AND_SEPARATOR) == [t]
    decreases |t|
  {
    if |t| >= |AND_SEPARATOR| {
      assert t[..|AND_SEPARATOR|][0] != AND_SEPARATOR[0];
      SplitUnspaced(t[1..]);
      assert [t[0]] + t[1..] == t;
    }
  }

  lemma {:induction false} SplitUnspacedThenSeparator(t: string, rest: string)
    requires Unspaced(t)
    ensures SplitOn(t + AND_SEPARATOR + rest, AND_SEPARATOR) == [t] + SplitOn(rest, AND_SEPARATOR)
    decreases |t|
  {
    var s := t + AND_SEPARATOR + rest;
    if t == [] {
      assert s[..|AND_SEPARATOR|] == AND_SEPARATOR;
      assert s[|AND_SEPARATOR|..] == rest;
    } else {
      assert s[..|AND_SEPARATOR|][0] == t[0];
      assert s[1..] == t[1..] + AND_SEPARATOR + rest;
      SplitUnspacedThenSeparator(t[1..], rest);
      assert [t[0]] + t[1..] == t;
    }
  }

  lemma {:induction false} SplitJoinedTags(names: seq<string>)
    requires |names| >= 1
    requires forall i :: 0 <= i < |names| ==> Unspaced(names[i])
    ensures SplitOn(Join(names, AND_SEPARATOR), AND_SEPARATOR) == names
    decreases |names|
  {
    if |names| == 1 {
      SplitUnspaced(names[0]);
    } else {
      SplitJoinedTags(names[1..]);
      SplitUnspacedThenSeparator(names[0], Join(names[1..], AND_SEPARATOR));
      assert names == [names[0]] + names[1..];
    }
  }

  lemma TrimUnspaced(t: string)
    requires Unspaced(t)
    ensures Trim(t) == t
  {
    assert TrimStart(t) == t;
  }

  /** For an expression `@a and @b and ...` the merge check demands exactly
      those tag names: it holds iff every one of them is among the scenario's
      and the block's tag names. */
  lemma AndExpressionRequiresEveryTag(names: seq<string>, scenarioTags: Option<seq<Tag>>, example: Examples)
    requires |names| >= 1
    requires forall i :: 0 <= i < |names| ==> Unspaced(names[i])
    ensures RequiredTags(Join(names, AND_SEPARATOR)) == names
    ensures MergeCheck(scenarioTags, example, Join(names, AND_SEPARATOR))
            <==> forall i :: 0 <= i < |names| ==> names[i] in CombinedNames(scenarioTags, example)
  {
    SplitJoinedTags(names);
    forall i | 0 <= i < |names| ensures Trim(names[i]) == names[i] {
      TrimUnspaced(names[i]);
    }
  }
}
