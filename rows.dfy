/**
  The text the local logger writes for a metric group (rlbench/logger.py):
  the header line, one row per `log` call (`_to_row`), and the whole CSV
  file, with the lemmas that read that text back into lines and fields.
 */
module Rows {
  import opened Wrappers
  import opened Text

  /** A value a caller may put in a record: Python's None or an integer. */
  datatype Value = NoneValue | IntValue(i: int)

  /** One record passed to `log`: metric name to value. */
  type Record = map<string, Value>

  /** `str(v)`: never contains a comma or a line break; integers read back. */
  function Render(v: Value): (r: string)
    ensures ',' !in r && '\n' !in r
    ensures v.IntValue? ==> ParseDecimal(r) == Some(v.i)
  {
    match v
    case NoneValue => "None"
    case IntValue(i) => IntToDecimal(i)
  }

  /** The text of one column of a row: the value's text, or "" when the record lacks it. */
  function Cell(d: Record, column: string): string
  {
    if column in d then Render(d[column]) else ""
  }

  function Cells(d: Record, columns: seq<string>): seq<string>
  {
    seq(|columns|, i requires 0 <= i < |columns| => Cell(d, columns[i]))
  }

  /** The header line: the step metric, a comma, then the metric names joined by commas. */
  function Header(stepMetric: string, columns: seq<string>): string
  {
    stepMetric + "," + Join(columns, ',')
  }

  /** The row `_to_row` builds once the step metric is known to be present. */
  function Row(d: Record, stepMetric: string, columns: seq<string>): string
    requires stepMetric in d
  {
    Render(d[stepMetric]) + "," + Join(Cells(d, columns), ',')
  }

  predicate AllHaveStep(records: seq<Record>, stepMetric: string)
  {
    forall k | 0 <= k < |records| :: stepMetric in records[k]
  }

  function RowsOf(records: seq<Record>, stepMetric: string, columns: seq<string>): seq<string>
    requires AllHaveStep(records, stepMetric)
  {
    seq(|records|, k requires 0 <= k < |records| => Row(records[k], stepMetric, columns))
  }

  /** A group file: the header, then "\n" and a row for every record written, in order. */
  function Csv(stepMetric: string, columns: seq<string>, records: seq<Record>): string
    requires AllHaveStep(records, stepMetric)
  {
    if |records| == 0 then Header(stepMetric, columns)
    else Csv(stepMetric, columns, records[..|records| - 1]) + "\n"
         + Row(records[|records| - 1], stepMetric, columns)
  }

  /** Appending a record to a file appends a line break and its row. */
  lemma CsvSnoc(stepMetric: string, columns: seq<string>, records: seq<Record>, d: Record)
    requires AllHaveStep(records, stepMetric) && stepMetric in d
    ensures AllHaveStep(records + [d], stepMetric)
    ensures Csv(stepMetric, columns, records + [d])
            == Csv(stepMetric, columns, records) + "\n" + Row(d, stepMetric, columns)
  {
    assert (records + [d])[..|records|] == records;
  }

  /** The keys of `d` that lie in `keys`, with their values. */
  function Project(d: Record, keys: set<string>): Record
  {
    map k | k in d && k in keys :: d[k]
  }

  /** Splitting the header at commas gives the step metric and then the metric names. */
  lemma HeaderFields(stepMetric: string, columns: seq<string>)
    requires |columns| >= 1
    requires ',' !in stepMetric
    requires forall i | 0 <= i < |columns| :: ',' !in columns[i]
    ensures Split(Header(stepMetric, columns), ',') == [stepMetric] + columns
  {
    JoinCons(stepMetric, columns, ',');
    SplitJoin([stepMetric] + columns, ',');
  }

  /** Splitting a row at commas gives the step value and then one field per column, in header order. */
  lemma RowFields(d: Record, stepMetric: string, columns: seq<string>)
    requires stepMetric in d
    requires |columns| >= 1
    ensures Split(Row(d, stepMetric, columns), ',') == [Render(d[stepMetric])] + Cells(d, columns)
  {
    var cells := Cells(d, columns);
    JoinCons(Render(d[stepMetric]), cells, ',');
    SplitJoin([Render(d[stepMetric])] + cells, ',');
  }

  /** A row depends only on the record's step metric and registered columns. */
  lemma RowIgnoresUnregistered(d: Record, stepMetric: string, columns: seq<string>)
    requires stepMetric in d
    ensures var kept := Project(d, {stepMetric} + set c | c in columns);
      stepMetric in kept && Row(d, stepMetric, columns) == Row(kept, stepMetric, columns)
  {
    var kept := Project(d, {stepMetric} + set c | c in columns);
    assert Cells(d, columns) == Cells(kept, columns);
  }

  lemma RowHasNoLineBreak(d: Record, stepMetric: string, columns: seq<string>)
    requires stepMetric in d
    ensures '\n' !in Row(d, stepMetric, columns)
  {
    JoinAvoids(Cells(d, columns), ',', '\n');
  }

  lemma HeaderIsOneLine(stepMetric: string, columns: seq<string>)
    requires '\n' !in stepMetric
    requires forall i | 0 <= i < |columns| :: '\n' !in columns[i]
    ensures Split(Header(stepMetric, columns), '\n') == [Header(stepMetric, columns)]
  {
    JoinAvoids(columns, ',', '\n');
    SplitNoSeparator(Header(stepMetric, columns), '\n');
  }

  lemma RowsOfSnoc(records: seq<Record>, stepMetric: string, columns: seq<string>)
    requires |records| > 0 && AllHaveStep(records, stepMetric)
    ensures AllHaveStep(records[..|records| - 1], stepMetric)
    ensures RowsOf(records, stepMetric, columns)
            == RowsOf(records[..|records| - 1], stepMetric, columns) + [Row(records[|records| - 1], stepMetric, columns)]
  {
    var init, last := records[..|records| - 1], records[|records| - 1];
    var whole, front := RowsOf(records, stepMetric, columns), RowsOf(init, stepMetric, columns);
    forall k | 0 <= k < |init|
      ensures whole[k] == front[k]
    {
      assert records[k] == init[k];
    }
    assert whole == front + [Row(last, stepMetric, columns)];
  }

  /**
    Reading a group file back: splitting it at line breaks gives the header
    and then the rows in the order they were logged, one line more than rows.
   */
  lemma {:induction false} CsvLines(stepMetric: string, columns: seq<string>, records: seq<Record>)
    requires AllHaveStep(records, stepMetric)
    requires '\n' !in stepMetric
    requires forall i | 0 <= i < |columns| :: '\n' !in columns[i]
    ensures Split(Csv(stepMetric, columns, records), '\n')
            == [Header(stepMetric, columns)] + RowsOf(records, stepMetric, columns)
    ensures |Split(Csv(stepMetric, columns, records), '\n')| == |records| + 1
  {
    if |records| == 0 {
      HeaderIsOneLine(stepMetric, columns);
    } else {
      var init, last := records[..|records| - 1], records[|records| - 1];
      var before, row := Csv(stepMetric, columns, init), Row(last, stepMetric, columns);
      CsvLines(stepMetric, columns, init);
      RowHasNoLineBreak(last, stepMetric, columns);
      SplitSnoc(before, row, '\n');
      assert Csv(stepMetric, columns, records) == before + ['\n'] + row;
      RowsOfSnoc(records, stepMetric, columns);
    }
  }
}
