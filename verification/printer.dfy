/** The table builder (`cPrinter`): an immutable printer state threaded
    through `add`, the assembly of its `"|"`-separated lines in `fprint`,
    and `Fprint`'s dispatch between one record and a slice of records. */
module Printer {
  import opened Wrappers
  import opened Text
  import opened Configuration
  import opened Values
  import opened Columns

  /** `cols` is `None` while the Go slice is nil (no schema yet); `values`
      holds one buffer of cell texts per column, by column position. */
  datatype Printer = Printer(
    cols: Option<seq<Column>>,
    values: seq<seq<string>>,
    itemCount: nat,
    settings: Settings)

  /** The columns printed, none while there is no schema. */
  function Schema(p: Printer): seq<Column>
  {
    if p.cols.Some? then p.cols.value else []
  }

  /** One buffer per column, each holding one cell per record added; and
      nothing at all before the schema exists. */
  predicate Valid(p: Printer)
  {
    && |p.values| == |Schema(p)|
    && (forall j :: 0 <= j < |p.values| ==> |p.values[j]| == p.itemCount)
    && (p.cols.None? ==> p.itemCount == 0)
  }

  /** The printer `Fprint` starts with: no schema, the merged settings. */
  function NewPrinter(config: Option<Config>): (p: Printer)
    ensures Valid(p) && p.cols.None? && p.itemCount == 0
    ensures p.settings == MergeConfig(Defaults, config)
  {
    Printer(None, [], 0, MergeConfig(Defaults, config))
  }

  /** `rec` has every field the columns read. */
  predicate Conforms(rec: Record, cols: seq<Column>)
  {
    forall k :: 0 <= k < |cols| ==> HasField(rec, cols[k].fieldName)
  }

  /** The cell texts of one record under a schema, in column order. */
  function Cells(rec: Record, cols: seq<Column>, s: Settings, ff: FloatFormat): (cells: seq<string>)
    requires Conforms(rec, cols)
    ensures |cells| == |cols|
  {
    seq(|cols|, j requires 0 <= j < |cols| => ValueText(Lookup(rec, cols[j].fieldName), s, ff))
  }

  /** The outcome of `add`: the new state, and the error if it failed. */
  datatype Added = Added(printer: Printer, err: Option<Error>)

  /** Appends one cell per column for `rec`, then counts the record. */
  function AppendRecord(p: Printer, rec: Record, ff: FloatFormat): (q: Printer)
    requires Valid(p) && p.cols.Some? && Conforms(rec, p.cols.value)
    ensures Valid(q) && q.cols == p.cols && q.settings == p.settings
    ensures q.itemCount == p.itemCount + 1
    ensures forall j :: 0 <= j < |q.values| ==>
              q.values[j] == p.values[j] + [ValueText(Lookup(rec, p.cols.value[j].fieldName), p.settings, ff)]
  {
    var cells := Cells(rec, p.cols.value, p.settings, ff);
    p.(values := seq(|p.values|, j requires 0 <= j < |p.values| => p.values[j] + [cells[j]]),
       itemCount := p.itemCount + 1)
  }

  /** `add`. On the first call the schema is discovered from `rec`; the
      state is reset to an empty, non-nil schema before discovery, so a
      failed first call leaves no columns behind and later calls skip
      discovery. A failed call does not count the record. */
  function Add(p: Printer, rec: Record, ff: FloatFormat): (r: Added)
    requires Valid(p)
    requires p.cols.Some? ==> Conforms(rec, p.cols.value)
    ensures Valid(r.printer) && r.printer.cols.Some?
    ensures r.printer.settings == p.settings
    ensures r.err.Some? <==> p.cols.None? && FindColumns(rec).Failure?
    ensures r.err.Some? ==> r.err.value == FindColumns(rec).error
    ensures r.err.Some? ==> r.printer.cols == Some([]) && r.printer.itemCount == p.itemCount
    ensures p.cols.Some? ==> r.printer.cols == p.cols
    ensures p.cols.None? && r.err.None? ==> r.printer.cols == Some(FindColumns(rec).value)
    ensures r.err.None? ==> r.printer.itemCount == p.itemCount + 1
    ensures r.err.None? ==> Conforms(rec, Schema(r.printer))
    ensures r.err.None? ==> forall j :: 0 <= j < |Schema(r.printer)| ==>
              r.printer.values[j] ==
                (if p.cols.Some? then p.values[j] else []) +
                [ValueText(Lookup(rec, Schema(r.printer)[j].fieldName), p.settings, ff)]
  {
    if p.cols.None? then
      var q := Init(p);
      var found := FindColumns(rec);
      if found.Failure? then Added(q, Some(found.error))
      else Added(AppendRecord(InitColumns(q, found.value), rec, ff), None)
    else
      Added(AppendRecord(p, rec, ff), None)
  }

  /** `init`: an empty, non-nil schema and no buffers. */
  function Init(p: Printer): (q: Printer)
    ensures Valid(q) && q.cols == Some([]) && q.values == []
    ensures q.itemCount == p.itemCount && q.settings == p.settings
  {
    Printer(Some([]), [], p.itemCount, p.settings)
  }

  /** The schema `cols` installed with an empty buffer per column
      (`initColumn` for each). */
  function InitColumns(p: Printer, cols: seq<Column>): (q: Printer)
    requires p.itemCount == 0
    ensures Valid(q) && q.cols == Some(cols) && q.itemCount == 0 && q.settings == p.settings
    ensures forall j :: 0 <= j < |cols| ==> q.values[j] == []
  {
    p.(cols := Some(cols), values := seq(|cols|, _ => []))
  }

  /** A failed first `add` leaves an empty, non-nil schema: the next `add`
      discovers nothing, succeeds and counts a record with no cells. */
  lemma AddAfterFailedFirstAdd(config: Option<Config>, bad: Record, next: Record, ff: FloatFormat)
    ensures FindColumns(bad).Failure? ==>
              Add(NewPrinter(config), bad, ff).err == Some(FindColumns(bad).error)
    ensures FindColumns(bad).Failure? ==>
              var p := Add(NewPrinter(config), bad, ff).printer;
              && Add(p, next, ff).err.None?
              && Schema(Add(p, next, ff).printer) == []
              && Add(p, next, ff).printer.itemCount == 1
  {
  }

  /** The header labels of a schema, in column order. */
  function Titles(cols: seq<Column>): (ts: seq<string>)
    ensures |ts| == |cols|
  {
    seq(|cols|, j requires 0 <= j < |cols| => cols[j].title)
  }

  /** The cells of record `i`, one from each column's buffer. */
  function Row(p: Printer, i: nat): (cells: seq<string>)
    requires Valid(p) && i < p.itemCount
    ensures |cells| == |Schema(p)|
  {
    seq(|p.values|, j requires 0 <= j < |p.values| => p.values[j][i])
  }

  /** Concatenates the cells, adding `sep` after each one but the last. */
  method JoinCells(cells: seq<string>, sep: string) returns (r: string)
    ensures r == Join(cells, sep)
  {
    r := "";
    var i := 0;
    while i < |cells|
      invariant 0 <= i <= |cells|
      invariant r == Partial(cells, i, sep)
    {
      PartialStep(cells, i, sep);
      r := r + cells[i];
      if i != |cells| - 1 {
        r := r + sep;
      } else {
        assert cells[..i + 1] == cells;
      }
      i := i + 1;
    }
  }

  /** The lines `fprint` hands to the column aligner: the header, then one
      line per record added, cells separated by "|". When no cell contains
      "|", splitting a line on "|" gives its cells back. */
  method AssembleLines(p: Printer) returns (lines: seq<string>)
    requires Valid(p)
    ensures |lines| == p.itemCount + 1
    ensures lines[0] == Join(Titles(Schema(p)), "|")
    ensures forall i :: 0 <= i < p.itemCount ==> lines[i + 1] == Join(Row(p, i), "|")
    ensures |Schema(p)| > 0 && (forall j :: 0 <= j < |Schema(p)| ==> '|' !in Schema(p)[j].title) ==>
              Split(lines[0], '|') == Titles(Schema(p))
    ensures forall i :: (0 <= i < p.itemCount && |Schema(p)| > 0 &&
                         forall j :: 0 <= j < |Schema(p)| ==> '|' !in p.values[j][i]) ==>
              Split(lines[i + 1], '|') == Row(p, i)
  {
    var header := JoinCells(Titles(Schema(p)), "|");
    if |Schema(p)| > 0 && (forall j :: 0 <= j < |Schema(p)| ==> '|' !in Schema(p)[j].title) {
      SplitJoin(Titles(Schema(p)), '|');
    }
    lines := [header];
    var i := 0;
    while i < p.itemCount
      invariant 0 <= i <= p.itemCount
      invariant |lines| == i + 1 && lines[0] == header
      invariant forall k :: 0 <= k < i ==> lines[k + 1] == Join(Row(p, k), "|")
    {
      var line := JoinCells(Row(p, i), "|");
      lines := lines + [line];
      i := i + 1;
    }
    forall i | 0 <= i < p.itemCount && |Schema(p)| > 0 &&
               (forall j :: 0 <= j < |Schema(p)| ==> '|' !in p.values[j][i])
      ensures Split(lines[i + 1], '|') == Row(p, i)
    {
      SplitJoin(Row(p, i), '|');
    }
  }

  /** What `Fprint` is given: a slice or array of records, or one record. */
  datatype Input = Single(record: Record) | Many(records: seq<Record>)

  /** The records added, in order; one record is a one-element slice. */
  function Records(input: Input): seq<Record>
  {
    match input
    case Single(rec) => [rec]
    case Many(recs) => recs
  }

  /** The schema a table of these records gets: the first record's sorted
      columns, or none. */
  function TableSchema(recs: seq<Record>): seq<Column>
  {
    if |recs| > 0 && FindColumns(recs[0]).Success? then FindColumns(recs[0]).value else []
  }

  /** Every record has the fields the first record's schema reads; records
      of one Go struct type always do. */
  predicate Homogeneous(recs: seq<Record>)
  {
    forall i :: 0 <= i < |recs| ==> Conforms(recs[i], TableSchema(recs))
  }

  /** The loop state of `Fprint` (kept by `AddAll`) after adding `i` records: no schema before
      the first, afterwards the first record's schema, and for every record
      added so far its cells buffered under that schema. */
  ghost predicate FprintState(recs: seq<Record>, i: nat, p: Printer, settings: Settings, ff: FloatFormat)
    requires i <= |recs| && Homogeneous(recs)
  {
    && Valid(p) && p.settings == settings && p.itemCount == i
    && (i == 0 ==> p.cols.None?)
    && (i > 0 ==> FindColumns(recs[0]).Success? && p.cols == Some(TableSchema(recs)))
    && forall j, k :: 0 <= j < |TableSchema(recs)| && 0 <= k < i ==>
         p.values[j][k] == Cells(recs[k], TableSchema(recs), settings, ff)[j]
  }

  /** `Fprint`'s loop: adds each record in turn and stops at the first
      error. Only discovery on the first record can fail; otherwise the
      printer holds every record's cells under the first record's schema. */
  method AddAll(recs: seq<Record>, config: Option<Config>, ff: FloatFormat) returns (r: Result<Printer, Error>)
    requires Homogeneous(recs)
    ensures r.Failure? <==> |recs| > 0 && FindColumns(recs[0]).Failure?
    ensures r.Failure? ==> r.error == FindColumns(recs[0]).error
    ensures r.Success? ==> Valid(r.value) && r.value.itemCount == |recs|
    ensures r.Success? ==> Schema(r.value) == TableSchema(recs)
    ensures r.Success? ==> r.value.settings == MergeConfig(Defaults, config)
    ensures r.Success? ==> forall k :: 0 <= k < |recs| ==>
              Row(r.value, k) == Cells(recs[k], TableSchema(recs), MergeConfig(Defaults, config), ff)
  {
    ghost var settings := MergeConfig(Defaults, config);
    ghost var schema := TableSchema(recs);
    var p := NewPrinter(config);
    var i := 0;
    while i < |recs|
      invariant 0 <= i <= |recs|
      invariant FprintState(recs, i, p, settings, ff)
    {
      var added := Add(p, recs[i], ff);
      if added.err.Some? {
        return Failure(added.err.value);
      }
      var q := added.printer;
      if i == 0 {
        assert q.cols == Some(FindColumns(recs[0]).value);
      }
      assert Schema(q) == schema;
      forall j, k | 0 <= j < |schema| && 0 <= k < i + 1
        ensures q.values[j][k] == Cells(recs[k], schema, settings, ff)[j]
      {
        var cell := ValueText(Lookup(recs[i], schema[j].fieldName), settings, ff);
        var before := if p.cols.Some? then p.values[j] else [];
        assert q.values[j] == before + [cell];
        assert |before| == i;
        if k == i {
          assert Cells(recs[i], schema, settings, ff)[j] == cell;
        }
      }
      p := q;
      i := i + 1;
    }
    assert Schema(p) == schema;
    forall k | 0 <= k < |recs| ensures Row(p, k) == Cells(recs[k], schema, settings, ff) {
    }
    r := Success(p);
  }

  /** `Fprint` up to the column aligner: adds the records, stops at the
      first error, otherwise returns the header and one line per record. */
  method Fprint(input: Input, config: Option<Config>, ff: FloatFormat) returns (r: Result<seq<string>, Error>)
    requires Homogeneous(Records(input))
    ensures var recs := Records(input);
            r.Failure? <==> |recs| > 0 && FindColumns(recs[0]).Failure?
    ensures r.Failure? ==> r.error == FindColumns(Records(input)[0]).error
    ensures r.Failure? ==>
              exists i :: (FirstBadOrder(Records(input)[0].fields, i) &&
                           Message(r.error) == MessagePrefix + Records(input)[0].fields[i].name)
    ensures r.Success? ==> |r.value| == |Records(input)| + 1
    ensures r.Success? ==> r.value[0] == Join(Titles(TableSchema(Records(input))), "|")
    ensures r.Success? ==> forall i :: 0 <= i < |Records(input)| ==>
              r.value[i + 1] ==
                Join(Cells(Records(input)[i], TableSchema(Records(input)), MergeConfig(Defaults, config), ff), "|")
  {
    var recs := Records(input);
    var added := AddAll(recs, config, ff);
    if added.Failure? {
      return Failure(added.error);
    }
    var lines := AssembleLines(added.value);
    r := Success(lines);
  }
}
