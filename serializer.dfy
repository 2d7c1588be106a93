/** `writeFeature`: the Gherkin text of one sub-feature.

    The functions state the text piece by piece in the order the source
    appends it; the method `WriteFeature` accumulates the string in nested
    loops, as the source does, and is proved to produce the same text. The
    source throws (and so returns `undefined`) when an outline's `examples`
    is present but empty; that is the `None` result here. */
module Serializer {
  import opened Gherkin

  const LINE_DELIMITER := "\n"
  /** The `type` of a feature node, written in place of its keyword. */
  const FEATURE_TYPE := "Feature"
  const DOC_STRING_DELIMITER := "\"\"\""

  /** `${tag.name}${LINE_DELIMITER}` */
  function TagLine(tag: Tag): string
  {
    tag.name + LINE_DELIMITER
  }

  /** One line per tag name. */
  function TagLines(tags: seq<Tag>): string
  {
    if tags == [] then "" else TagLines(tags[..|tags| - 1]) + TagLine(tags[|tags| - 1])
  }

  /** `cell.value + '|'` */
  function CellText(cell: string): string
  {
    cell + "|"
  }

  function CellsText(cells: seq<string>): string
  {
    if cells == [] then "" else CellsText(cells[..|cells| - 1]) + CellText(cells[|cells| - 1])
  }

  /** A table row as `|c1|c2|...|`. */
  function RowText(row: TableRow): string
  {
    "|" + CellsText(row.cells)
  }

  function RowLine(row: TableRow): string
  {
    RowText(row) + LINE_DELIMITER
  }

  /** One line per row. */
  function RowLines(rows: seq<TableRow>): string
  {
    if rows == [] then "" else RowLines(rows[..|rows| - 1]) + RowLine(rows[|rows| - 1])
  }

  /** A DocString: its content between two delimiter lines. */
  function DocStringText(content: string): string
  {
    DOC_STRING_DELIMITER + LINE_DELIMITER + content + LINE_DELIMITER + DOC_STRING_DELIMITER + LINE_DELIMITER
  }

  /** A DataTable's rows, or a DocString; any other argument adds nothing. */
  function ArgumentText(argument: Option<StepArgument>): string
  {
    match argument
    case None => ""
    case Some(DataTable(rows)) => RowLines(rows)
    case Some(DocString(content)) => DocStringText(content)
    case Some(OtherArgument(_)) => ""
  }

  /** `${step.keyword}${step.text}${LINE_DELIMITER}` */
  function StepLine(step: Step): string
  {
    step.keyword + step.text + LINE_DELIMITER
  }

  function StepText(step: Step): string
  {
    StepLine(step) + ArgumentText(step.argument)
  }

  function StepsText(steps: seq<Step>): string
  {
    if steps == [] then "" else StepsText(steps[..|steps| - 1]) + StepText(steps[|steps| - 1])
  }

  /** The child can be written: it is not an outline whose `examples` is
      present but empty (reading `examples[0].tableHeader` would throw). */
  predicate Writable(c: Child)
  {
    !(c.ScenarioOutline? && c.examples.Some? && |c.examples.value| == 0)
  }

  const EXAMPLES_LINE := "Examples:" + LINE_DELIMITER

  /** `Examples:`, then the header row and the body rows of the first block
      only; block tags are not written. */
  function ExamplesText(examples: seq<Examples>): string
    requires |examples| > 0
  {
    EXAMPLES_LINE + RowLine(examples[0].tableHeader) + RowLines(examples[0].tableBody)
  }

  function ChildTagLines(c: Child): string
  {
    if HasTagsField(c) then TagLines(c.tags.value) else ""
  }

  /** `${scenario.keyword}: ${scenario.name}${LINE_DELIMITER}` */
  function TitleLine(c: Child): string
  {
    c.keyword + ": " + c.name + LINE_DELIMITER
  }

  /** The examples section of an outline; a child that is not `Writable`
      never gets this far. */
  function ChildExamplesText(c: Child): string
  {
    if c.ScenarioOutline? && c.examples.Some? && |c.examples.value| > 0 then ExamplesText(c.examples.value)
    else ""
  }

  function ChildText(c: Child): string
  {
    ChildTagLines(c) + TitleLine(c) + StepsText(c.steps) + ChildExamplesText(c)
  }

  function ChildrenText(children: seq<Child>): string
  {
    if children == [] then ""
    else ChildrenText(children[..|children| - 1]) + ChildText(children[|children| - 1])
  }

  /** `${feature.type}: ${feature.name}${LINE_DELIMITER}` */
  function FeatureLine(feature: Feature): string
  {
    FEATURE_TYPE + ": " + feature.name + LINE_DELIMITER
  }

  /** `writeFeature(feature)`: `None` stands for the `undefined` the source
      returns when writing throws. */
  function Render(feature: Feature): Option<string>
  {
    if AllWritable(feature.children)
    then Some(TagLines(feature.tags) + FeatureLine(feature) + ChildrenText(feature.children))
    else None
  }

  /** The children are all writable. */
  predicate AllWritable(children: seq<Child>)
  {
    children == [] || (AllWritable(children[..|children| - 1]) && Writable(children[|children| - 1]))
  }

  lemma {:induction false} AllWritableAt(children: seq<Child>)
    ensures AllWritable(children) <==> forall i :: 0 <= i < |children| ==> Writable(children[i])
    decreases |children|
  {
    if children != [] {
      var n := |children| - 1;
      AllWritableAt(children[..n]);
      assert forall i :: 0 <= i < n ==> children[..n][i] == children[i];
    }
  }

  lemma ChildrenSnoc(children: seq<Child>, k: nat)
    requires k < |children|
    ensures ChildrenText(children[..k + 1]) == ChildrenText(children[..k]) + ChildText(children[k])
    ensures AllWritable(children[..k + 1]) <==> AllWritable(children[..k]) && Writable(children[k])
  {
    assert children[..k + 1][..k] == children[..k];
  }

  /** `writeFeature`: the tag lines, the `Feature:` line, then every child;
      `None` when a child throws. */
  method WriteFeature(feature: Feature) returns (result: Option<string>)
    ensures result == Render(feature)
  {
    var featureString := WriteTags(feature.tags);
    featureString := featureString + FeatureLine(feature);
    var ok, childrenText := WriteChildren(feature.children);
    if !ok {
      return None;
    }
    featureString := featureString + childrenText;
    result := Some(featureString);
  }

  /** `feature.children.forEach(scenario => ...)`, stopping at the first child
      that throws. */
  method WriteChildren(children: seq<Child>) returns (ok: bool, text: string)
    ensures ok <==> AllWritable(children)
    ensures ok ==> text == ChildrenText(children)
  {
    text := "";
    var k := 0;
    while k < |children|
      invariant 0 <= k <= |children|
      invariant AllWritable(children[..k])
      invariant text == ChildrenText(children[..k])
    {
      var scenario := children[k];
      if !Writable(scenario) {
        // `scenario.examples[0].tableHeader` throws; the error is swallowed
        AllWritableAt(children);
        return false, text;
      }
      var childText := WriteChild(scenario);
      ChildrenSnoc(children, k);
      text := text + childText;
      k := k + 1;
    }
    assert children[..k] == children;
    ok := true;
  }

  /** `tags.forEach(tag => { featureString += `${tag.name}${LINE_DELIMITER}` })` */
  method WriteTags(tags: seq<Tag>) returns (text: string)
    ensures text == TagLines(tags)
  {
    text := "";
    var t := 0;
    while t < |tags|
      invariant 0 <= t <= |tags|
      invariant text == TagLines(tags[..t])
    {
      text := text + TagLine(tags[t]);
      assert tags[..t + 1][..t] == tags[..t];
      t := t + 1;
    }
    assert tags[..t] == tags;
  }

  /** The body of `feature.children.forEach(scenario => ...)` for one child. */
  method WriteChild(scenario: Child) returns (text: string)
    requires Writable(scenario)
    ensures text == ChildText(scenario)
  {
    text := "";
    if HasTagsField(scenario) {
      text := WriteTags(scenario.tags.value);
    }
    text := text + TitleLine(scenario);
    var stepsText := WriteSteps(scenario.steps);
    text := text + stepsText;
    if scenario.ScenarioOutline? && scenario.examples.Some? {
      var examplesText := WriteExamples(scenario.examples.value);
      text := text + examplesText;
    }
  }

  /** `scenario.steps.forEach(step => ...)`: each step line, then its argument. */
  method WriteSteps(steps: seq<Step>) returns (text: string)
    ensures text == StepsText(steps)
  {
    text := "";
    var j := 0;
    while j < |steps|
      invariant 0 <= j <= |steps|
      invariant text == StepsText(steps[..j])
    {
      var step := steps[j];
      var argumentText := "";
      if step.argument.Some? {
        match step.argument.value
        case DataTable(rows) =>
          argumentText := WriteDataTable(rows);
        case DocString(content) =>
          argumentText := DocStringText(content);
        case OtherArgument(_) =>
      }
      ghost var previous := text;
      text := text + StepLine(step);
      text := text + argumentText;
      assert text == previous + StepText(step);
      assert steps[..j + 1][..j] == steps[..j];
      j := j + 1;
    }
    assert steps[..j] == steps;
  }

  /** `Examples:`, the header row of `examples[0]`, then its body rows. */
  method WriteExamples(examples: seq<Examples>) returns (text: string)
    requires |examples| > 0
    ensures text == ExamplesText(examples)
  {
    var example := examples[0];
    text := EXAMPLES_LINE;
    text := text + RowLine(example.tableHeader);
    var bodyText := WriteRows(example.tableBody);
    text := text + bodyText;
  }

  /** One line `|c1|c2|...|` per row. */
  method WriteRows(rows: seq<TableRow>) returns (text: string)
    ensures text == RowLines(rows)
  {
    text := "";
    var q := 0;
    while q < |rows|
      invariant 0 <= q <= |rows|
      invariant text == RowLines(rows[..q])
    {
      text := text + RowLine(rows[q]);
      assert rows[..q + 1][..q] == rows[..q];
      q := q + 1;
    }
    assert rows[..q] == rows;
  }

  /** `step.argument.rows.forEach(row => { cellData += cell.value + '|' ... })` */
  method WriteDataTable(rows: seq<TableRow>) returns (text: string)
    ensures text == RowLines(rows)
  {
    text := "";
    var q := 0;
    while q < |rows|
      invariant 0 <= q <= |rows|
      invariant text == RowLines(rows[..q])
    {
      var cells := rows[q].cells;
      var cellData := "|";
      var m := 0;
      while m < |cells|
        invariant 0 <= m <= |cells|
        invariant cellData == "|" + CellsText(cells[..m])
      {
        cellData := cellData + CellText(cells[m]);
        assert cells[..m + 1][..m] == cells[..m];
        m := m + 1;
      }
      assert cells[..m] == cells;
      text := text + cellData + LINE_DELIMITER;
      assert rows[..q + 1][..q] == rows[..q];
      q := q + 1;
    }
    assert rows[..q] == rows;
  }
}
