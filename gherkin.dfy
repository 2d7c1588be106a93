/** The parsed Gherkin document tree that the splitter works on.

    The external parser builds this tree; here it is a value, so every
    sub-feature built from it is an independent copy by construction (the
    source deep-copies JavaScript objects for the same purpose). */
module Gherkin {

  datatype Option<+T> = None | Some(value: T)

  /** A tag such as `@smoke`. Only its name matters to splitting, filtering and writing. */
  datatype Tag = Tag(name: string)

  /** A table row: the values of its cells, in order. */
  datatype TableRow = TableRow(cells: seq<string>)

  /** The argument of a step, told apart by its `type` field in the source. */
  datatype StepArgument =
    | DataTable(rows: seq<TableRow>)
    | DocString(content: string)
    | OtherArgument(kind: string)

  datatype Step = Step(keyword: string, text: string, argument: Option<StepArgument>)

  /** One `Examples:` block of a scenario outline. `tags` is absent when the
      node carries no `tags` field at all. */
  datatype Examples = Examples(tags: Option<seq<Tag>>, tableHeader: TableRow, tableBody: seq<TableRow>)

  /** A child of a feature: the tagged union Background | Scenario | ScenarioOutline.
      A Background has no `tags` field; a Scenario has no `examples` field. */
  datatype Child =
    | Background(keyword: string, name: string, steps: seq<Step>)
    | Scenario(tags: Option<seq<Tag>>, keyword: string, name: string, steps: seq<Step>)
    | ScenarioOutline(tags: Option<seq<Tag>>, keyword: string, name: string, steps: seq<Step>,
                      examples: Option<seq<Examples>>)

  /** A feature. Its `keyword` is the language-dependent word the parser read;
      the node's type is always `Feature`. */
  datatype Feature = Feature(tags: seq<Tag>, keyword: string, name: string, children: seq<Child>)

  /** `tags || []`: the tags of a node, or none when the field is missing. */
  function TagsOr(tags: Option<seq<Tag>>): seq<Tag>
  {
    match tags
    case None => []
    case Some(t) => t
  }

  /** `tags.map(t => t.name)` */
  function Names(tags: seq<Tag>): seq<string>
  {
    seq(|tags|, i requires 0 <= i < |tags| => tags[i].name)
  }

  /** The child carries a `tags` field (a Background never does). */
  predicate HasTagsField(c: Child)
  {
    !c.Background? && c.tags.Some?
  }
}
