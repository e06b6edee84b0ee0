/**
 The pure parts around the two asynchronous operations: splitting parsed CSV
 records into headers and rows (`getCsvSchema`), and reshaping a grouped
 GoodTables report into one annotated entry per row (`validateData`).

 The parser, the schema inference, the CSV re-serialisation and the remote
 validation call are library code or I/O; their results are the inputs here.
 */
module Validation {
  import opened Collections

  /** What `getCsvSchema` settles with: the parser's errors, or headers and rows. */
  datatype CsvOutcome<Rec, Err> = Rejected(errors: seq<Err>) | Parsed(headers: Option<Rec>, rows: seq<Rec>)

  /**
   The `complete` callback of `getCsvSchema`: any parser error rejects with
   the whole error list; otherwise the first record is the header and the
   rest are the rows (`_.first` of no records is `undefined`).
   */
  function SplitRecords<Rec, Err>(errors: seq<Err>, data: seq<Rec>): (r: CsvOutcome<Rec, Err>)
    ensures |errors| > 0 <==> r.Rejected?
    ensures r.Rejected? ==> r.errors == errors
    ensures r.Parsed? ==> (r.headers.None? <==> data == [])
    ensures r.Parsed? && r.headers.Some? ==> data == [r.headers.value] + r.rows
    ensures r.Parsed? && r.headers.None? ==> r.rows == []
  {
    if |errors| > 0 then Rejected(errors)
    else if data == [] then Parsed(None, [])
    else
      assert data == [data[0]] + data[1..];
      Parsed(Some(data[0]), data[1..])
  }

  /**
   What the utilities read of a GoodTables result: `getGroupedByRows()`, one
   group per row, seen through `_.values(item)` as that group's values in key
   order, and `getHeaders()`. What those values hold is the service's
   business; the model is generic in their type `F`.
   */
  datatype GroupedReport<F> = GroupedReport(groups: seq<seq<F>>, headers: seq<string>)

  /** The first value of a row's group with the shared header list attached by `_.extend`. */
  datatype AnnotatedRow<F> = AnnotatedRow(first: F, headers: seq<string>)

  /**
   The resolved value of `validateData`: `false` when the service produced no
   result, otherwise one entry per row. A group without values gives
   `_.values(item)[0] === undefined`, and `_.extend(undefined, …)` returns it
   unchanged, so that entry is `None`.
   */
  datatype ValidationOutcome<F> = NoReport | Rows(rows: seq<Option<AnnotatedRow<F>>>)

  function Annotate<F>(group: seq<F>, headers: seq<string>): Option<AnnotatedRow<F>> {
    if |group| == 0 then None else Some(AnnotatedRow(group[0], headers))
  }

  /** The `.then` callback of `validateData`. */
  function Reshape<F>(results: Option<GroupedReport<F>>): (r: ValidationOutcome<F>)
    ensures results.None? <==> r.NoReport?
    ensures results.Some? ==> |r.rows| == |results.value.groups|
    ensures results.Some? ==> forall i :: 0 <= i < |r.rows| ==>
      (r.rows[i].Some? <==> |results.value.groups[i]| > 0)
    ensures results.Some? ==> forall i :: 0 <= i < |r.rows| && r.rows[i].Some? ==>
      r.rows[i].value.first == results.value.groups[i][0] && r.rows[i].value.headers == results.value.headers
  {
    match results
    case None => NoReport
    case Some(report) =>
      Rows(seq(|report.groups|, i requires 0 <= i < |report.groups| => Annotate(report.groups[i], report.headers)))
  }

  /** The first value of every non-empty group, in row order. */
  function FirstValues<F>(groups: seq<seq<F>>): seq<F> {
    if groups == [] then []
    else (if |groups[0]| > 0 then [groups[0][0]] else []) + FirstValues(groups[1..])
  }

  /** The values kept in the reshaped report, in row order. */
  function KeptValues<F>(rows: seq<Option<AnnotatedRow<F>>>): seq<F> {
    if rows == [] then []
    else (if rows[0].Some? then [rows[0].value.first] else []) + KeptValues(rows[1..])
  }

  /**
   Reshaping keeps exactly the first value of each row's group
   (`_.values(item)[0]`), in row order, and loses none of the rows whose group
   is non-empty. Later values of a group are not carried over.
   */
  lemma {:induction false} ReshapeKeepsFirstValues<F>(report: GroupedReport<F>)
    ensures KeptValues(Reshape(Some(report)).rows) == FirstValues(report.groups)
    decreases |report.groups|
  {
    var rows := Reshape(Some(report)).rows;
    if report.groups != [] {
      var rest := GroupedReport(report.groups[1..], report.headers);
      ReshapeKeepsFirstValues(rest);
      assert Reshape(Some(rest)).rows == rows[1..];
    }
  }

  /** A report with no rows is an empty list, which is not the "no report" outcome. */
  lemma EmptyReportIsNotNoReport<F>(headers: seq<string>)
    ensures Reshape(Some(GroupedReport<F>.GroupedReport([], headers))) == Rows([])
    ensures Reshape(Some(GroupedReport<F>.GroupedReport([], headers))) != Reshape<F>(None)
  {
  }
}
