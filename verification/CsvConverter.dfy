/** The conversion of a sorted delta log to rows: binary_to_csv_serializer.cpp.

    The text of a cell is an uninterpreted function of the structure, the field and the word.  A table of
    structures and fields, read from the description file, is a parameter. */
module CsvConverter {
  import opened Options
  import opened Records

  type Render = (nat, nat, int) -> string
  const NOT_AVAILABLE := "n/a"

  // ----- Columns -----

  /** One field of the description file: its coordinates and its full name. */
  datatype Entry = Entry(structId: nat, fieldId: nat, name: string)

  /** Where each field goes, and which structure each column belongs to. */
  datatype Columns = Columns(offset: map<(nat, nat), nat>, structOf: seq<nat>)

  /** The last position of a name among the requested headers. */
  function HeaderOffset(headers: seq<string>, name: string): (r: Option<nat>)
    ensures r.Some? ==> r.value < |headers| && headers[r.value] == name
    ensures r.None? <==> name !in headers
    ensures r.Some? ==> forall k | r.value < k < |headers| :: headers[k] != name
  {
    if headers == [] then None
    else
      var n := |headers| - 1;
      if headers[n] == name then Some(n) else HeaderOffset(headers[..n], name)
  }

  function AddEntry(c: Columns, headers: seq<string>, all: bool, e: Entry): Columns {
    if all then Columns(c.offset[Key(e) := |c.structOf|], c.structOf + [e.structId])
    else
      match HeaderOffset(headers, e.name)
      case Some(k) => if k < |c.structOf| then Columns(c.offset[Key(e) := k], c.structOf[k := e.structId]) else c
      case None => c
  }

  /** With no headers requested every field gets the next column; otherwise the column of its name, if any. */
  function BuildColumns(headers: seq<string>, entries: seq<Entry>): Columns {
    if entries == [] then Columns(map[], seq(|headers|, _ => 0))
    else AddEntry(BuildColumns(headers, entries[..|entries| - 1]), headers, headers == [], entries[|entries| - 1])
  }

  /** Every field has a column of its own, which knows its structure. */
  ghost predicate Separate(c: Columns) {
    && (forall k | k in c.offset :: c.offset[k] < |c.structOf| && c.structOf[c.offset[k]] == k.0)
    && forall j, k | j in c.offset && k in c.offset && c.offset[j] == c.offset[k] :: j == k
  }

  ghost predicate DistinctEntries(entries: seq<Entry>) {
    && (forall i, j | 0 <= i < j < |entries| :: Key(entries[i]) != Key(entries[j]))
    && forall i, j | 0 <= i < j < |entries| :: entries[i].name != entries[j].name
  }

  function Key(e: Entry): (nat, nat) { (e.structId, e.fieldId) }

  /** Entry `i` has the column of its turn, or the last column of its name if that was requested. */
  ghost predicate Placed(c: Columns, headers: seq<string>, e: Entry, i: nat) {
    if headers == [] then Key(e) in c.offset && c.offset[Key(e)] == i
    else (Key(e) in c.offset <==> e.name in headers) &&
         (Key(e) in c.offset ==>
            c.offset[Key(e)] < |headers| && headers[c.offset[Key(e)]] == e.name &&
            forall k | c.offset[Key(e)] < k < |headers| :: headers[k] != e.name)
  }

  ghost predicate FromEntries(c: Columns, entries: seq<Entry>) {
    forall k | k in c.offset :: exists i :: 0 <= i < |entries| && Key(entries[i]) == k
  }

  lemma {:induction false} EntriesArePlaced(headers: seq<string>, entries: seq<Entry>)
    requires DistinctEntries(entries)
    ensures var c := BuildColumns(headers, entries);
      && |c.structOf| == (if headers == [] then |entries| else |headers|)
      && (forall i | 0 <= i < |entries| :: Placed(c, headers, entries[i], i))
      && FromEntries(c, entries)
  {
    if entries != [] {
      var n := |entries| - 1;
      var front := entries[..n];
      EntriesArePlaced(headers, front);
      var c := BuildColumns(headers, front);
      assert forall i | 0 <= i < n :: Key(front[i]) == Key(entries[i]) != Key(entries[n]);
      assert Key(entries[n]) !in c.offset;
      AddIsPlaced(c, headers, entries[n], n);
      OthersArePlaced(c, headers, front, entries[n]);
      FromMoreEntries(c, headers, front, entries[n]);
      assert entries == front + [entries[n]];
    }
  }

  lemma AddIsPlaced(c: Columns, headers: seq<string>, e: Entry, n: nat)
    requires Key(e) !in c.offset && |c.structOf| == (if headers == [] then n else |headers|)
    ensures var d := AddEntry(c, headers, headers == [], e);
      Placed(d, headers, e, n) && |d.structOf| == (if headers == [] then n + 1 else |headers|)
  {
  }

  lemma AddKeepsPlaced(c: Columns, headers: seq<string>, e: Entry, other: Entry, i: nat)
    requires Placed(c, headers, other, i) && Key(other) != Key(e)
    ensures Placed(AddEntry(c, headers, headers == [], e), headers, other, i)
  {
  }

  lemma OthersArePlaced(c: Columns, headers: seq<string>, entries: seq<Entry>, e: Entry)
    requires forall i | 0 <= i < |entries| :: Placed(c, headers, entries[i], i) && Key(entries[i]) != Key(e)
    ensures forall i | 0 <= i < |entries| :: Placed(AddEntry(c, headers, headers == [], e), headers, entries[i], i)
  {
    forall i | 0 <= i < |entries| ensures Placed(AddEntry(c, headers, headers == [], e), headers, entries[i], i) {
      AddKeepsPlaced(c, headers, e, entries[i], i);
    }
  }

  lemma FromMoreEntries(c: Columns, headers: seq<string>, entries: seq<Entry>, e: Entry)
    requires FromEntries(c, entries)
    ensures FromEntries(AddEntry(c, headers, headers == [], e), entries + [e])
  {
    var more := entries + [e];
    forall k | k in c.offset ensures exists i :: 0 <= i < |more| && Key(more[i]) == k {
      var i :| 0 <= i < |entries| && Key(entries[i]) == k;
      assert Key(more[i]) == k;
    }
    assert Key(more[|entries|]) == Key(e);
  }

  lemma OthersElsewhere(headers: seq<string>, entries: seq<Entry>, e: Entry, c: Columns, d: Columns, k: (nat, nat))
    requires DistinctEntries(entries + [e]) && FromEntries(c, entries) && k in c.offset && Key(e) in d.offset
    requires forall i | 0 <= i < |entries| :: Placed(c, headers, entries[i], i)
    requires Placed(d, headers, e, |entries|)
    ensures k != Key(e) && c.offset[k] != d.offset[Key(e)]
  {
    var i :| 0 <= i < |entries| && Key(entries[i]) == k;
    var all := entries + [e];
    assert all[i] == entries[i] && all[|entries|] == e;
    assert Placed(c, headers, entries[i], i);
  }

  /** Fields with different names have columns of their own. */
  lemma {:induction false} ColumnsAreSeparate(headers: seq<string>, entries: seq<Entry>)
    requires DistinctEntries(entries)
    ensures Separate(BuildColumns(headers, entries))
  {
    if entries != [] {
      var n := |entries| - 1;
      var front, e := entries[..n], entries[n];
      ColumnsAreSeparate(headers, front);
      EntriesArePlaced(headers, front);
      EntriesArePlaced(headers, entries);
      assert entries == front + [e];
      var c, d := BuildColumns(headers, front), BuildColumns(headers, entries);
      forall k | k in c.offset && Key(e) in d.offset ensures k != Key(e) && c.offset[k] != d.offset[Key(e)] {
        OthersElsewhere(headers, front, e, c, d, k);
      }
      AddKeepsSeparate(c, headers, headers == [], e);
    }
  }

  lemma AddKeepsSeparate(c: Columns, headers: seq<string>, all: bool, e: Entry)
    requires Separate(c)
    requires var d := AddEntry(c, headers, all, e);
      Key(e) in d.offset ==> forall k | k in c.offset :: k != Key(e) && c.offset[k] != d.offset[Key(e)]
    ensures Separate(AddEntry(c, headers, all, e))
  {
  }

  // ----- The scan -----

  datatype Row = Row(cells: seq<string>, time: real)

  /** The variables of the loop: `flags` holds, per structure, whether a start and an end were seen at
      `time`; `strings` is `previous_string_values`. */
  datatype Scan = Scan(time: real, strings: seq<string>, flags: seq<(bool, bool)>, rows: seq<Row>)

  function NewScan(structs: nat, columns: nat): Scan {
    Scan(0.0, seq(columns, _ => NOT_AVAILABLE), seq(structs, _ => (false, false)), [])
  }

  /** A column whose structure was started and not ended at this time is broken. */
  predicate Broken(c: Columns, flags: seq<(bool, bool)>, column: nat)
    requires column < |c.structOf|
  {
    c.structOf[column] < |flags| && flags[c.structOf[column]].0 && !flags[c.structOf[column]].1
  }

  /** The row that is complete when the next time begins. */
  function EmitRow(c: Columns, s: Scan): Scan
    requires |s.strings| == |c.structOf|
  {
    var strings := seq(|s.strings|, k requires 0 <= k < |s.strings| =>
      if Broken(c, s.flags, k) then NOT_AVAILABLE else s.strings[k]);
    s.(strings := strings, rows := s.rows + [Row(strings, s.time)])
  }

  function NextTime(c: Columns, s: Scan, t: real): Scan
    requires |s.strings| == |c.structOf|
  {
    if t == s.time then s else EmitRow(c, s).(time := t, flags := seq(|s.flags|, _ => (false, false)))
  }

  function TakeRecord(c: Columns, render: Render, s: Scan, r: Rec): (s': Scan)
    requires |s.strings| == |c.structOf| && r.structId < |s.flags|
    ensures |s'.strings| == |s.strings| && |s'.flags| == |s.flags| && s'.time == s.time && s'.rows == s.rows
  {
    var f := s.flags[r.structId];
    var flagged := s.(flags := s.flags[r.structId := (f.0 || r.starting, f.1 || r.ending)]);
    var k := (r.structId, r.fieldId);
    if k !in c.offset || c.offset[k] >= |s.strings| then flagged
    else flagged.(strings := s.strings[c.offset[k] := render(r.structId, r.fieldId, r.data)])
  }

  function ScanAll(c: Columns, render: Render, structs: nat, records: seq<Rec>): (s: Scan)
    requires forall r | r in records :: r.structId < structs
    ensures |s.strings| == |c.structOf| && |s.flags| == structs
  {
    if records == [] then NewScan(structs, |c.structOf|)
    else
      var n := |records| - 1;
      TakeRecord(c, render, NextTime(c, ScanAll(c, render, structs, records[..n]), records[n].timestamp), records[n])
  }

  /** The rows of the file; the last one is written without looking at the flags. */
  function Convert(c: Columns, render: Render, structs: nat, records: seq<Rec>): seq<Row>
    requires forall r | r in records :: r.structId < structs
  {
    var s := ScanAll(c, render, structs, records);
    s.rows + [Row(s.strings, s.time)]
  }

  // ----- What the rows are -----

  function TimeAfter(records: seq<Rec>): real {
    if records == [] then 0.0 else records[|records| - 1].timestamp
  }

  predicate GoesTo(c: Columns, r: Rec, column: nat) {
    (r.structId, r.fieldId) in c.offset && c.offset[(r.structId, r.fieldId)] == column
  }

  /** One more than the position of the last record that goes to the column, or zero. */
  function LastFor(c: Columns, records: seq<Rec>, column: nat): (p: nat)
    ensures p <= |records| && (p > 0 ==> GoesTo(c, records[p - 1], column))
    ensures forall k | p <= k < |records| :: !GoesTo(c, records[k], column)
  {
    if records == [] then 0
    else
      var n := |records| - 1;
      if GoesTo(c, records[n], column) then n + 1 else LastFor(c, records[..n], column)
  }

  ghost predicate SortedByTime(records: seq<Rec>) {
    forall j, k | 0 <= j < k < |records| :: records[j].timestamp <= records[k].timestamp
  }

  /** Some record of one structure at one time carries the start mark, or the end mark. */
  ghost predicate Marked(records: seq<Rec>, t: real, id: nat, ending: bool) {
    exists r :: r in records && r.timestamp == t && r.structId == id && (if ending then r.ending else r.starting)
  }

  /** The structure was started and not ended at this time. */
  ghost predicate BrokenAt(records: seq<Rec>, t: real, id: nat) {
    Marked(records, t, id, false) && !Marked(records, t, id, true)
  }

  /** The structure was broken at some time from `from` on and before `upTo`, or at `upTo` itself. */
  ghost predicate BrokenSince(records: seq<Rec>, id: nat, from: real, upTo: real, inclusive: bool) {
    exists r :: r in records && from <= r.timestamp && (r.timestamp < upTo || (inclusive && r.timestamp == upTo)) &&
                BrokenAt(records, r.timestamp, id)
  }

  /** What the cell of a column shows after the records up to some time: the word of the last record that goes
      there, unless its structure was broken at the time of that record or later.  The last row of the file
      does not see whether a structure is broken at its own time. */
  ghost function Cell(c: Columns, render: Render, records: seq<Rec>, column: nat, lastRow: bool): string
    requires column < |c.structOf|
  {
    var p := LastFor(c, records, column);
    if p == 0 then NOT_AVAILABLE
    else
      var r := records[p - 1];
      if BrokenSince(records, c.structOf[column], r.timestamp, TimeAfter(records), !lastRow) then NOT_AVAILABLE
      else render(r.structId, r.fieldId, r.data)
  }

  ghost function RowOf(c: Columns, render: Render, records: seq<Rec>, lastRow: bool): Row {
    Row(seq(|c.structOf|, k requires 0 <= k < |c.structOf| => Cell(c, render, records, k, lastRow)), TimeAfter(records))
  }

  /** The rows before the last one: one wherever a new time begins. */
  ghost function Rows(c: Columns, render: Render, records: seq<Rec>): seq<Row> {
    if records == [] then []
    else
      var n := |records| - 1;
      var front := records[..n];
      if records[n].timestamp == TimeAfter(front) then Rows(c, render, front)
      else Rows(c, render, front) + [RowOf(c, render, front, false)]
  }

  ghost function AllRows(c: Columns, render: Render, records: seq<Rec>): seq<Row> {
    Rows(c, render, records) + [RowOf(c, render, records, true)]
  }

  /** The flags say what was seen at the current time. */
  ghost predicate FlagsTrack(flags: seq<(bool, bool)>, records: seq<Rec>) {
    forall id | 0 <= id < |flags| ::
      (flags[id].0 <==> Marked(records, TimeAfter(records), id, false)) &&
      (flags[id].1 <==> Marked(records, TimeAfter(records), id, true))
  }

  lemma MarkedStep(front: seq<Rec>, r: Rec, t: real, id: nat, ending: bool)
    ensures Marked(front + [r], t, id, ending) <==>
            Marked(front, t, id, ending) ||
            (r.timestamp == t && r.structId == id && (if ending then r.ending else r.starting))
  {
    if Marked(front, t, id, ending) {
      var q :| q in front && q.timestamp == t && q.structId == id && (if ending then q.ending else q.starting);
      assert q in front + [r];
    }
    assert r in front + [r];
  }

  lemma TimesUpTo(records: seq<Rec>)
    requires SortedByTime(records)
    ensures forall r | r in records :: r.timestamp <= TimeAfter(records)
  {
  }

  lemma FrontIsSorted(front: seq<Rec>, r: Rec)
    requires SortedByTime(front + [r])
    ensures SortedByTime(front) && (front != [] ==> TimeAfter(front) <= r.timestamp)
    ensures forall q | q in front :: q.timestamp <= TimeAfter(front)
  {
    var records := front + [r];
    assert forall j | 0 <= j < |front| :: records[j] == front[j];
    TimesUpTo(front);
    if front != [] { assert records[|front| - 1].timestamp <= records[|front|].timestamp; }
  }

  // ----- Cells, record by record -----

  /** A record of a later time does not change what was broken before. */
  lemma BrokenBefore(front: seq<Rec>, r: Rec, t: real, id: nat)
    requires t != r.timestamp
    ensures BrokenAt(front + [r], t, id) <==> BrokenAt(front, t, id)
  {
    MarkedStep(front, r, t, id, false);
    MarkedStep(front, r, t, id, true);
  }

  lemma BrokenSinceStep(front: seq<Rec>, r: Rec, id: nat, from: real)
    requires SortedByTime(front + [r]) && front != []
    ensures BrokenSince(front + [r], id, from, r.timestamp, false) <==>
            BrokenSince(front, id, from, TimeAfter(front), r.timestamp != TimeAfter(front))
  {
    FrontIsSorted(front, r);
    var records := front + [r];
    forall q | q in front && q.timestamp < r.timestamp
      ensures q in records && (BrokenAt(records, q.timestamp, id) <==> BrokenAt(front, q.timestamp, id))
    {
      BrokenBefore(front, r, q.timestamp, id);
    }
  }

  /** One more record: the cell shows it if it goes there, and otherwise what was printed or kept before. */
  lemma CellStep(c: Columns, render: Render, front: seq<Rec>, r: Rec, column: nat)
    requires SortedByTime(front + [r]) && column < |c.structOf|
    ensures Cell(c, render, front + [r], column, true) ==
            if GoesTo(c, r, column) then render(r.structId, r.fieldId, r.data)
            else Cell(c, render, front, column, r.timestamp == TimeAfter(front))
  {
    var records := front + [r];
    assert records[..|records| - 1] == front;
    if !GoesTo(c, r, column) {
      var p := LastFor(c, front, column);
      assert LastFor(c, records, column) == p;
      if p > 0 {
        assert records[p - 1] == front[p - 1];
        BrokenSinceStep(front, r, c.structOf[column], front[p - 1].timestamp);
      }
    }
  }

  /** The mark test of the row: a column is n/a if it is broken now. */
  lemma CellAtRow(c: Columns, render: Render, records: seq<Rec>, column: nat)
    requires SortedByTime(records) && column < |c.structOf|
    ensures Cell(c, render, records, column, false) ==
            if BrokenAt(records, TimeAfter(records), c.structOf[column]) then NOT_AVAILABLE
            else Cell(c, render, records, column, true)
  {
    TimesUpTo(records);
    var p, id := LastFor(c, records, column), c.structOf[column];
    if p > 0 && BrokenAt(records, TimeAfter(records), id) {
      var r :| r in records && r.timestamp == TimeAfter(records) && r.structId == id && r.starting;
      assert records[p - 1] in records;
      assert BrokenSince(records, id, records[p - 1].timestamp, TimeAfter(records), true);
    }
  }

  // ----- The loop -----

  lemma Append(c: Columns, render: Render, structs: nat, front: seq<Rec>, r: Rec)
    requires forall q | q in front + [r] :: q.structId < structs
    ensures r.structId < structs && forall q | q in front :: q.structId < structs
    ensures ScanAll(c, render, structs, front + [r]) ==
            TakeRecord(c, render, NextTime(c, ScanAll(c, render, structs, front), r.timestamp), r)
    ensures Rows(c, render, front + [r]) ==
            if r.timestamp == TimeAfter(front) then Rows(c, render, front)
            else Rows(c, render, front) + [RowOf(c, render, front, false)]
  {
    var records := front + [r];
    assert r in records && records[..|records| - 1] == front;
    assert forall q | q in front :: q in records;
  }

  lemma FlagsStep(c: Columns, render: Render, s: Scan, front: seq<Rec>, r: Rec)
    requires |s.strings| == |c.structOf| && r.structId < |s.flags| && SortedByTime(front + [r])
    requires s.time == TimeAfter(front) && FlagsTrack(s.flags, front)
    ensures FlagsTrack(TakeRecord(c, render, NextTime(c, s, r.timestamp), r).flags, front + [r])
  {
    var records, flags := front + [r], TakeRecord(c, render, NextTime(c, s, r.timestamp), r).flags;
    assert TimeAfter(records) == r.timestamp;
    FrontIsSorted(front, r);
    assert forall q | q in front && q.timestamp == r.timestamp :: TimeAfter(front) == r.timestamp;
    forall id | 0 <= id < |flags|
      ensures flags[id].0 <==> Marked(records, r.timestamp, id, false)
      ensures flags[id].1 <==> Marked(records, r.timestamp, id, true)
    {
      MarkedStep(front, r, r.timestamp, id, false);
      MarkedStep(front, r, r.timestamp, id, true);
    }
  }

  lemma {:induction false} ScanTracks(c: Columns, render: Render, structs: nat, records: seq<Rec>)
    requires SortedByTime(records) && forall r | r in records :: r.structId < structs
    ensures ScanAll(c, render, structs, records).time == TimeAfter(records)
    ensures FlagsTrack(ScanAll(c, render, structs, records).flags, records)
  {
    if records != [] {
      var front, r := records[..|records| - 1], records[|records| - 1];
      assert records == front + [r];
      ScanTracks(c, render, structs, front);
      Append(c, render, structs, front, r);
      FlagsStep(c, render, ScanAll(c, render, structs, front), front, r);
    }
  }

  /** The variables of the loop hold what the last row would show, and the rows so far are right. */
  ghost predicate IsRows(s: Scan, c: Columns, render: Render, records: seq<Rec>) {
    s.strings == RowOf(c, render, records, true).cells && s.rows == Rows(c, render, records)
  }

  lemma NoRecords(c: Columns, render: Render, structs: nat)
    ensures IsRows(ScanAll(c, render, structs, []), c, render, [])
  {
  }

  lemma EmitIsRow(c: Columns, render: Render, s: Scan, records: seq<Rec>)
    requires SortedByTime(records) && forall r | r in records :: r.structId < |s.flags|
    requires s.time == TimeAfter(records) && FlagsTrack(s.flags, records)
    requires |s.strings| == |c.structOf| && s.strings == RowOf(c, render, records, true).cells
    ensures EmitRow(c, s).strings == RowOf(c, render, records, false).cells
    ensures EmitRow(c, s).rows == s.rows + [RowOf(c, render, records, false)]
  {
    forall k | 0 <= k < |c.structOf| ensures EmitRow(c, s).strings[k] == Cell(c, render, records, k, false) {
      CellAtRow(c, render, records, k);
      assert s.strings[k] == Cell(c, render, records, k, true);
    }
  }

  lemma TakeIsRow(c: Columns, render: Render, s: Scan, front: seq<Rec>, r: Rec)
    requires SortedByTime(front + [r]) && |s.strings| == |c.structOf| && r.structId < |s.flags|
    requires s.strings == RowOf(c, render, front, r.timestamp == TimeAfter(front)).cells
    ensures TakeRecord(c, render, s, r).strings == RowOf(c, render, front + [r], true).cells
  {
    forall k | 0 <= k < |c.structOf|
      ensures TakeRecord(c, render, s, r).strings[k] == Cell(c, render, front + [r], k, true)
    {
      CellStep(c, render, front, r, k);
      assert s.strings[k] == Cell(c, render, front, k, r.timestamp == TimeAfter(front));
    }
  }

  lemma ScanStep(c: Columns, render: Render, structs: nat, front: seq<Rec>, r: Rec)
    requires SortedByTime(front + [r]) && forall q | q in front + [r] :: q.structId < structs
    requires (forall q | q in front :: q.structId < structs) &&
             IsRows(ScanAll(c, render, structs, front), c, render, front)
    ensures IsRows(ScanAll(c, render, structs, front + [r]), c, render, front + [r])
  {
    FrontIsSorted(front, r);
    Append(c, render, structs, front, r);
    ScanTracks(c, render, structs, front);
    var s := ScanAll(c, render, structs, front);
    if r.timestamp != s.time { EmitIsRow(c, render, s, front); }
    TakeIsRow(c, render, NextTime(c, s, r.timestamp), front, r);
  }

  lemma {:induction false} ScanIsRows(c: Columns, render: Render, structs: nat, records: seq<Rec>)
    requires SortedByTime(records) && forall r | r in records :: r.structId < structs
    ensures IsRows(ScanAll(c, render, structs, records), c, render, records)
  {
    if records == [] {
      NoRecords(c, render, structs);
    } else {
      var front, r := records[..|records| - 1], records[|records| - 1];
      assert records == front + [r];
      ScanIsRows(c, render, structs, front);
      ScanStep(c, render, structs, front, r);
    }
  }

  /** For every log in the order of its times, whatever its marks: the rows of the file. */
  lemma ConvertIsRows(c: Columns, render: Render, structs: nat, records: seq<Rec>)
    requires SortedByTime(records) && forall r | r in records :: r.structId < structs
    ensures Convert(c, render, structs, records) == AllRows(c, render, records)
  {
    ScanIsRows(c, render, structs, records);
    ScanTracks(c, render, structs, records);
  }

  /** The last row differs from what the marks demand exactly when some column is broken at the last time and
      its text is not n/a already. */
  lemma LastRowDiffersIff(c: Columns, render: Render, structs: nat, records: seq<Rec>)
    requires SortedByTime(records) && forall r | r in records :: r.structId < structs
    ensures var rows := Convert(c, render, structs, records);
      rows != [] &&
      (rows[|rows| - 1] != RowOf(c, render, records, false) <==>
       exists k | 0 <= k < |c.structOf| ::
         BrokenAt(records, TimeAfter(records), c.structOf[k]) && Cell(c, render, records, k, true) != NOT_AVAILABLE)
  {
    ConvertIsRows(c, render, structs, records);
    var shown, marked := RowOf(c, render, records, true), RowOf(c, render, records, false);
    forall k | 0 <= k < |c.structOf|
      ensures shown.cells[k] != marked.cells[k] <==>
              BrokenAt(records, TimeAfter(records), c.structOf[k]) && shown.cells[k] != NOT_AVAILABLE
    {
      CellAtRow(c, render, records, k);
    }
    if shown != marked {
      var k :| 0 <= k < |c.structOf| && shown.cells[k] != marked.cells[k];
      assert Cell(c, render, records, k, true) == shown.cells[k];
    }
  }

  /** It happens: a structure that is started and never ended is printed all the same. */
  lemma LastRowIgnoresMarks(render: Render) returns (c: Columns, records: seq<Rec>)
    ensures SortedByTime(records) && forall r | r in records :: r.structId < 1
    ensures |c.structOf| == 1 && BrokenAt(records, TimeAfter(records), c.structOf[0])
    ensures Convert(c, render, 1, records) == [Row([render(0, 0, 5)], 0.0)]
  {
    var r := Rec(0.0, 0, 0, true, false, 5);
    c, records := Columns(map[(0, 0) := 0], [0]), [r];
    OnlyStarted(records, r);
    ConvertIsRows(c, render, 1, records);
    CellStep(c, render, [], r, 0);
    var none: seq<Rec> := [];
    assert none + [r] == records && records[..0] == none;
    assert RowOf(c, render, records, true) == Row([render(0, 0, 5)], 0.0);
    assert Rows(c, render, records) == [];
  }

  lemma OnlyStarted(records: seq<Rec>, r: Rec)
    requires records == [r] && r.starting && !r.ending
    ensures BrokenAt(records, r.timestamp, r.structId)
  {
    assert r in records && Marked(records, r.timestamp, r.structId, false);
  }

  // ----- The times of the rows -----

  /** The first `m` records are those up to time `t`. */
  ghost predicate Cut(records: seq<Rec>, m: nat, t: real) {
    && m <= |records|
    && (forall j | 0 <= j < m :: records[j].timestamp <= t)
    && forall j | m <= j < |records| :: t < records[j].timestamp
  }

  lemma CutExtends(records: seq<Rec>, m: nat, t: real)
    requires records != [] && t < records[|records| - 1].timestamp && Cut(records[..|records| - 1], m, t)
    ensures Cut(records, m, t) && records[..m] == records[..|records| - 1][..m]
  {
    var front := records[..|records| - 1];
    assert forall j | 0 <= j < |front| :: records[j] == front[j];
  }

  lemma {:induction false} EarlierRowIsCut(c: Columns, render: Render, records: seq<Rec>, i: nat) returns (m: nat)
    requires SortedByTime(records) && (forall r | r in records :: 0.0 <= r.timestamp) && i < |Rows(c, render, records)|
    ensures Rows(c, render, records)[i].time < TimeAfter(records)
    ensures Cut(records, m, Rows(c, render, records)[i].time)
    ensures Rows(c, render, records)[i] == RowOf(c, render, records[..m], false)
  {
    var front, r := records[..|records| - 1], records[|records| - 1];
    assert r in records;
    WholeFront(records);
    if i < |Rows(c, render, front)| {
      m := EarlierRowIsCut(c, render, front, i);
      CutExtends(records, m, Rows(c, render, front)[i].time);
    } else {
      m := |front|;
    }
  }

  /** A new time begins: the row of the former time takes all the records before. */
  lemma WholeFront(records: seq<Rec>)
    requires SortedByTime(records) && records != []
    ensures var front, r := records[..|records| - 1], records[|records| - 1];
      && SortedByTime(front) && (front != [] ==> TimeAfter(front) <= r.timestamp)
      && (TimeAfter(front) < r.timestamp ==> Cut(records, |front|, TimeAfter(front)))
  {
    var n := |records| - 1;
    assert forall j | 0 <= j < n :: records[..n][j] == records[j] && records[j].timestamp <= records[n].timestamp;
    assert forall j | 0 <= j < n - 1 :: records[j].timestamp <= records[n - 1].timestamp;
  }

  /** Every row shows the cells after exactly the records up to its time. */
  lemma RowIsCut(c: Columns, render: Render, records: seq<Rec>, i: nat) returns (m: nat)
    requires SortedByTime(records) && (forall r | r in records :: 0.0 <= r.timestamp) &&
             i < |AllRows(c, render, records)|
    ensures Cut(records, m, AllRows(c, render, records)[i].time)
    ensures AllRows(c, render, records)[i] ==
            RowOf(c, render, records[..m], i == |AllRows(c, render, records)| - 1)
  {
    if i == |Rows(c, render, records)| {
      m := |records|;
      assert records[..m] == records;
      TimesUpTo(records);
    } else {
      m := EarlierRowIsCut(c, render, records, i);
    }
  }

  /** The rows come in the order of their times. */
  lemma {:induction false} RowsInOrder(c: Columns, render: Render, records: seq<Rec>, i: nat, k: nat)
    requires SortedByTime(records) && forall r | r in records :: 0.0 <= r.timestamp
    requires i < k < |AllRows(c, render, records)|
    ensures AllRows(c, render, records)[i].time < AllRows(c, render, records)[k].time
  {
    var _ := EarlierRowIsCut(c, render, records, i);
    if k < |Rows(c, render, records)| {
      var front := records[..|records| - 1];
      assert k == |Rows(c, render, front)| ==> Rows(c, render, records)[k].time == TimeAfter(front);
      RowsInOrder(c, render, front, i, k);
    }
  }

  ghost predicate RecordAtTime(records: seq<Rec>, t: real) {
    exists r :: r in records && r.timestamp == t
  }

  /** There is a row for time zero and for every time of a record, and no other. */
  lemma {:induction false} RowTimesIff(c: Columns, render: Render, records: seq<Rec>, t: real)
    ensures HasTime(AllRows(c, render, records), t) <==> t == 0.0 || RecordAtTime(records, t)
  {
    HasTimeAppend(Rows(c, render, records), RowOf(c, render, records, true), t);
    if records != [] {
      var front, r := records[..|records| - 1], records[|records| - 1];
      RowTimesIff(c, render, front, t);
      HasTimeAppend(Rows(c, render, front), RowOf(c, render, front, true), t);
      HasTimeAppend(Rows(c, render, front), RowOf(c, render, front, false), t);
      RecordAtTimeStep(front, r, t);
      assert records == front + [r];
    }
  }

  lemma RecordAtTimeStep(front: seq<Rec>, r: Rec, t: real)
    ensures RecordAtTime(front + [r], t) <==> RecordAtTime(front, t) || r.timestamp == t
  {
    if q :| q in front && q.timestamp == t { assert q in front + [r]; }
    assert r in front + [r];
  }

  ghost predicate HasTime(rows: seq<Row>, t: real) {
    exists i :: 0 <= i < |rows| && rows[i].time == t
  }

  lemma HasTimeAppend(rows: seq<Row>, row: Row, t: real)
    ensures HasTime(rows + [row], t) <==> HasTime(rows, t) || row.time == t
  {
    if i :| 0 <= i < |rows| && rows[i].time == t { assert (rows + [row])[i].time == t; }
    assert (rows + [row])[|rows|] == row;
  }

  // ----- Logs in which everything started is ended -----

  /** Whatever starts at some time also ends at that time. */
  ghost predicate Complete(records: seq<Rec>) {
    forall r | r in records && r.starting :: Marked(records, r.timestamp, r.structId, true)
  }

  lemma CutIsComplete(records: seq<Rec>, m: nat, t: real)
    requires Complete(records) && Cut(records, m, t)
    ensures Complete(records[..m])
  {
    forall r | r in records[..m] && r.starting ensures Marked(records[..m], r.timestamp, r.structId, true) {
      assert r in records;
      var e :| e in records && e.timestamp == r.timestamp && e.structId == r.structId && e.ending;
      var j :| 0 <= j < |records| && records[j] == e;
      assert j < m && records[..m][j] == e;
    }
  }

  /** Nothing is broken there: the cell shows the last record that goes to the column. */
  lemma CompleteCell(c: Columns, render: Render, records: seq<Rec>, column: nat, lastRow: bool)
    requires Complete(records) && column < |c.structOf|
    ensures var p := LastFor(c, records, column);
      Cell(c, render, records, column, lastRow) ==
      if p == 0 then NOT_AVAILABLE
      else render(records[p - 1].structId, records[p - 1].fieldId, records[p - 1].data)
  {
    forall t, id ensures !BrokenAt(records, t, id) { }
  }

  /** With columns of their own, the cell of a field shows the word of its latest record, provided that all
      records of that field and time show the same. */
  lemma CellIsLatest(c: Columns, render: Render, records: seq<Rec>, t: real, r: Rec, lastRow: bool)
    requires Separate(c) && SortedByTime(records) && Complete(records) && (r.structId, r.fieldId) in c.offset
    requires IsLatest(ToSet(records), r.structId, r.fieldId, t, r) && forall q | q in records :: q.timestamp <= t
    requires forall q | q in records && q.structId == r.structId && q.fieldId == r.fieldId &&
                         q.timestamp == r.timestamp ::
               render(q.structId, q.fieldId, q.data) == render(r.structId, r.fieldId, r.data)
    ensures Cell(c, render, records, c.offset[(r.structId, r.fieldId)], lastRow) ==
            render(r.structId, r.fieldId, r.data)
  {
    var column := c.offset[(r.structId, r.fieldId)];
    CompleteCell(c, render, records, column, lastRow);
    var p := LastFor(c, records, column);
    var j :| 0 <= j < |records| && records[j] == r;
    assert GoesTo(c, records[j], column);
    assert j < p;
    var x := records[p - 1];
    assert x in ToSet(records) && (x.structId, x.fieldId) == (r.structId, r.fieldId);
    assert r.timestamp <= x.timestamp;
  }

  lemma CellWithoutRecord(c: Columns, render: Render, records: seq<Rec>, key: (nat, nat), lastRow: bool)
    requires Separate(c) && key in c.offset && forall q | q in records :: (q.structId, q.fieldId) != key
    ensures Cell(c, render, records, c.offset[key], lastRow) == NOT_AVAILABLE
  {
    assert forall k | 0 <= k < |records| :: records[k] in records && !GoesTo(c, records[k], c.offset[key]);
  }

  // ----- The loops -----

  method WriteRow(c: Columns, s: Scan) returns (s': Scan)
    requires |s.strings| == |c.structOf|
    ensures s' == EmitRow(c, s)
  {
    var strings, cells := s.strings, [];
    for k := 0 to |strings|
      invariant |strings| == |s.strings| && |cells| == k
      invariant cells == strings[..k] == EmitRow(c, s).strings[..k] && strings[k..] == s.strings[k..]
    {
      if Broken(c, s.flags, k) { strings := strings[k := NOT_AVAILABLE]; }
      cells := cells + [strings[k]];
    }
    assert strings[..|strings|] == strings && cells == strings == EmitRow(c, s).strings;
    s' := s.(strings := strings, rows := s.rows + [Row(cells, s.time)]);
  }

  method ClearFlags(flags: seq<(bool, bool)>) returns (cleared: seq<(bool, bool)>)
    ensures cleared == seq(|flags|, _ => (false, false))
  {
    cleared := flags;
    for j := 0 to |flags|
      invariant |cleared| == |flags| && forall i | 0 <= i < j :: cleared[i] == (false, false)
    {
      cleared := cleared[j := (false, false)];
    }
  }

  /** `convert_binary_to_csv`.  A record of an unknown structure is an exception. */
  method ConvertBinaryToCsv(c: Columns, render: Render, structs: nat, records: seq<Rec>)
    returns (rows: seq<Row>, ok: bool)
    ensures ok <==> forall r | r in records :: r.structId < structs
    ensures ok ==> rows == Convert(c, render, structs, records)
  {
    var s := NewScan(structs, |c.structOf|);
    for i := 0 to |records|
      invariant forall r | r in records[..i] :: r.structId < structs
      invariant s == ScanAll(c, render, structs, records[..i])
    {
      var r := records[i];
      assert records[..i + 1][..i] == records[..i];
      if r.timestamp != s.time {
        s := WriteRow(c, s);
        var flags := ClearFlags(s.flags);
        s := s.(time := r.timestamp, flags := flags);
      }
      if r.structId >= structs { return s.rows, false; }
      s := TakeRecord(c, render, s, r);
    }
    assert records[..|records|] == records;
    rows, ok := s.rows + [Row(s.strings, s.time)], true;
  }
}