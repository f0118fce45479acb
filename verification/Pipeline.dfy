/** From the updates of the clients to the rows of the CSV file: FileLogger.h writes the log,
    ExternalMergeSort.h sorts it, binary_to_csv_serializer.cpp prints it. */
module Pipeline {
  import opened Options
  import opened Records
  import opened DeltaLog
  import opened CsvConverter
  import opened Blocks
  import Files = BlockFiles
  import Cache = FileCache
  import Sorting = ExternalSort

  /** A sorted copy of the log of some events. */
  ghost predicate SortedLog(events: seq<Event>, sorted: seq<Rec>) {
    FitsLog(Histories(events)) && Sorted(sorted) && multiset(sorted) == multiset(LogAll(events).records)
  }

  lemma SameMembers(a: seq<Rec>, b: seq<Rec>)
    requires multiset(a) == multiset(b)
    ensures forall r :: r in a <==> r in b
  {
    forall r ensures r in a <==> r in b {
      assert r in a <==> r in multiset(a);
      assert r in b <==> r in multiset(b);
    }
  }

  /** The history of the structure that was registered as number `id`. */
  function HistoryOf(events: seq<Event>, id: nat): History {
    var l, hs := LogAll(events), Histories(events);
    if id < |l.names| && l.names[id] in hs then hs[l.names[id]] else History(0, [], [])
  }

  lemma SortedMembersOf(events: seq<Event>, sorted: seq<Rec>, id: nat)
    requires SortedLog(events, sorted) && id < |LogAll(events).names|
    ensures forall r :: r in sorted && r.structId == id <==> r in StructLog(HistoryOf(events, id), id)
  {
    var l, hs := LogAll(events), Histories(events);
    LogMatchesHistories(events);
    SameMembers(sorted, l.records);
    var n := l.names[id];
    assert n in hs && l.structs[n].id == id && RecordsAgree(l.records, hs[n], id);
  }

  /** A record of the sorted log is one of the history of its structure, and the other way round. */
  lemma SortedMembers(events: seq<Event>, sorted: seq<Rec>)
    requires SortedLog(events, sorted)
    ensures Agrees(LogAll(events), Histories(events))
    ensures forall r | r in sorted :: r.structId < |LogAll(events).names|
    ensures forall id, r | 0 <= id < |LogAll(events).names| ::
      r in sorted && r.structId == id <==> r in StructLog(HistoryOf(events, id), id)
  {
    LogMatchesHistories(events);
    SameMembers(sorted, LogAll(events).records);
    forall id | 0 <= id < |LogAll(events).names|
      ensures forall r :: r in sorted && r.structId == id <==> r in StructLog(HistoryOf(events, id), id)
    {
      SortedMembersOf(events, sorted, id);
    }
  }

  lemma HistoryFits(events: seq<Event>, id: nat)
    requires FitsLog(Histories(events)) && id < |LogAll(events).names|
    ensures id < 256 && Ordered(HistoryOf(events, id)) && |HistoryOf(events, id).initial| <= 256
    ensures exists n :: n in Histories(events) && Histories(events)[n] == HistoryOf(events, id)
  {
    var l, hs := LogAll(events), Histories(events);
    LogMatchesHistories(events);
    var n := l.names[id];
    assert n in hs && l.structs[n].id == id && StructAgrees(l.structs[n], hs[n]);
  }

  lemma SortedLogIsWellFormed(events: seq<Event>, sorted: seq<Rec>)
    requires SortedLog(events, sorted)
    ensures SortedByTime(sorted) && Complete(sorted)
    ensures forall r | r in sorted :: 0.0 <= r.timestamp && r.structId < |LogAll(events).names|
  {
    SortedMembers(events, sorted);
    forall r | r in sorted
      ensures 0.0 <= r.timestamp
      ensures r.starting ==> Marked(sorted, r.timestamp, r.structId, true)
    {
      var h := HistoryOf(events, r.structId);
      HistoryFits(events, r.structId);
      StructLogTimes(h, r.structId);
      var e := StructLogComplete(h, r.structId, r);
      StructLogId(h, r.structId);
      assert e in sorted;
    }
  }

  /** Whatever field `f` is set to at some time shows the same as its value at that time. */
  ghost predicate FieldAgrees(h: History, id: nat, f: nat, render: Render) {
    forall t, x {:trigger Sets(h, f, t, x)} | Sets(h, f, t, x) ::
      f < |ValueAt(h, t)| && render(id, f, x) == render(id, f, ValueAt(h, t)[f])
  }

  /** All updates that set a printed field at one time set it to words that show the same. */
  ghost predicate SameAtOnce(events: seq<Event>, c: Columns, render: Render) {
    forall id, f {:trigger (id, f) in c.offset}
      | 0 <= id < |LogAll(events).names| && 0 <= f < |HistoryOf(events, id).initial| && (id, f) in c.offset ::
      FieldAgrees(HistoryOf(events, id), id, f, render)
  }

  /** Two records of a field at one time show the same. */
  lemma RecordsShowTheSame(h: History, id: nat, f: nat, render: Render, q: Rec, r: Rec)
    requires Ordered(h) && id < 256 && |h.initial| <= 256 && FieldAgrees(h, id, f, render)
    requires q in StructLog(h, id) && r in StructLog(h, id)
    requires q.fieldId == f == r.fieldId && q.timestamp == r.timestamp
    ensures render(id, f, q.data) == render(id, f, r.data)
  {
    RecordIffSet(h, id, q);
    RecordIffSet(h, id, r);
    if q.timestamp != 0.0 { assert Sets(h, f, q.timestamp, q.data) && Sets(h, f, q.timestamp, r.data); }
  }

  /** The last record of a field up to a time comes before the cut and holds the value at that time. */
  lemma LatestInFront(events: seq<Event>, sorted: seq<Rec>, m: nat, t: real, id: nat, f: nat) returns (r: Rec)
    requires SortedLog(events, sorted) && Cut(sorted, m, t) && 0.0 <= t
    requires id < |LogAll(events).names| && f < |HistoryOf(events, id).initial|
    ensures |ValueAt(HistoryOf(events, id), t)| == |HistoryOf(events, id).initial|
    ensures r.structId == id && r.fieldId == f && r.data == ValueAt(HistoryOf(events, id), t)[f]
    ensures r in StructLog(HistoryOf(events, id), id) && r in sorted[..m]
    ensures IsLatest(ToSet(sorted[..m]), id, f, t, r)
  {
    var h, front := HistoryOf(events, id), sorted[..m];
    HistoryFits(events, id);
    SortedMembersOf(events, sorted, id);
    r := LatestIsValue(h, id, f, t);
    assert r in sorted;
    var j :| 0 <= j < |sorted| && sorted[j] == r;
    assert j < m && front[j] == r;
    forall q | q in front && q.structId == id && q.fieldId == f ensures q.timestamp <= r.timestamp {
      assert q in sorted && q in ToSet(StructLog(h, id));
    }
  }

  /** The cell of a field, after the records up to a time, shows the value at that time. */
  lemma CellIsValue(
    events: seq<Event>, sorted: seq<Rec>, c: Columns, render: Render, m: nat, t: real, id: nat, f: nat, lastRow: bool)
    requires SortedLog(events, sorted) && Separate(c) && Cut(sorted, m, t) && 0.0 <= t
    requires id < |LogAll(events).names| && f < |HistoryOf(events, id).initial| && (id, f) in c.offset
    requires FieldAgrees(HistoryOf(events, id), id, f, render)
    ensures |ValueAt(HistoryOf(events, id), t)| == |HistoryOf(events, id).initial|
    ensures Cell(c, render, sorted[..m], c.offset[(id, f)], lastRow) ==
            render(id, f, ValueAt(HistoryOf(events, id), t)[f])
  {
    SortedLogIsWellFormed(events, sorted);
    CutIsComplete(sorted, m, t);
    var r := LatestInFront(events, sorted, m, t, id, f);
    EqualKeysShowTheSame(events, sorted, m, render, id, f, r);
    CellIsLatest(c, render, sorted[..m], t, r, lastRow);
  }

  lemma EqualKeysShowTheSame(events: seq<Event>, sorted: seq<Rec>, m: nat, render: Render, id: nat, f: nat, r: Rec)
    requires SortedLog(events, sorted) && m <= |sorted| && id < |LogAll(events).names|
    requires FieldAgrees(HistoryOf(events, id), id, f, render)
    requires r in StructLog(HistoryOf(events, id), id) && r.structId == id && r.fieldId == f
    ensures forall q | q in sorted[..m] && q.structId == id && q.fieldId == f && q.timestamp == r.timestamp ::
              render(id, f, q.data) == render(id, f, r.data)
  {
    HistoryFits(events, id);
    SortedMembersOf(events, sorted, id);
    forall q | q in sorted[..m] && q.structId == id && q.fieldId == f && q.timestamp == r.timestamp
      ensures render(id, f, q.data) == render(id, f, r.data)
    {
      assert q in sorted;
      RecordsShowTheSame(HistoryOf(events, id), id, f, render, q, r);
    }
  }

  /** Some structure changes at time `t`. */
  ghost predicate SomeChange(hs: map<string, History>, t: real) {
    exists n :: n in hs && ChangesAt(hs[n], t)
  }

  /** What the rows of a run of events have to be: one per time at which some structure changes, and one for
      time zero, in order; and in every row every cell shows the value that the field had at that time. */
  ghost predicate PrintsHistories(events: seq<Event>, c: Columns, render: Render, rows: seq<Row>) {
    && (forall i, j | 0 <= i < j < |rows| :: rows[i].time < rows[j].time)
    && (forall t :: HasTime(rows, t) <==> t == 0.0 || SomeChange(Histories(events), t))
    && (forall i | 0 <= i < |rows| :: RowPrints(events, c, render, rows[i]))
  }

  ghost predicate RowPrints(events: seq<Event>, c: Columns, render: Render, row: Row) {
    |row.cells| == |c.structOf| &&
    forall id, f | 0 <= id < |LogAll(events).names| && 0 <= f < |HistoryOf(events, id).initial| &&
                   (id, f) in c.offset ::
      CellPrints(HistoryOf(events, id), id, f, row.cells, c.offset[(id, f)], render, row.time)
  }

  ghost predicate CellPrints(h: History, id: nat, f: nat, cells: seq<string>, column: nat, render: Render, t: real) {
    f < |ValueAt(h, t)| && column < |cells| && cells[column] == render(id, f, ValueAt(h, t)[f])
  }

  /** The rows of a sorted copy of the log. */
  function Printed(events: seq<Event>, sorted: seq<Rec>, c: Columns, render: Render): seq<Row> {
    var structs := |LogAll(events).names|;
    if forall r | r in sorted :: r.structId < structs then Convert(c, render, structs, sorted) else []
  }

  lemma PrintedRows(events: seq<Event>, sorted: seq<Rec>, c: Columns, render: Render)
    requires SortedLog(events, sorted)
    ensures forall r | r in sorted :: r.structId < |LogAll(events).names|
    ensures Printed(events, sorted, c, render) == AllRows(c, render, sorted)
    ensures SortedByTime(sorted) && Complete(sorted) && forall r | r in sorted :: 0.0 <= r.timestamp
  {
    SortedLogIsWellFormed(events, sorted);
    ConvertIsRows(c, render, |LogAll(events).names|, sorted);
  }

  lemma RowsPrint(events: seq<Event>, sorted: seq<Rec>, c: Columns, render: Render, i: nat)
    requires SortedLog(events, sorted) && Separate(c) && SameAtOnce(events, c, render)
    requires i < |AllRows(c, render, sorted)|
    ensures RowPrints(events, c, render, AllRows(c, render, sorted)[i])
  {
    PrintedRows(events, sorted, c, render);
    var row := AllRows(c, render, sorted)[i];
    var m := RowIsCut(c, render, sorted, i);
    RowTimesIff(c, render, sorted, row.time);
    assert 0.0 <= row.time;
    forall id, f | 0 <= id < |LogAll(events).names| && 0 <= f < |HistoryOf(events, id).initial| && (id, f) in c.offset
      ensures CellPrints(HistoryOf(events, id), id, f, row.cells, c.offset[(id, f)], render, row.time)
    {
      CellIsValue(events, sorted, c, render, m, row.time, id, f, i == |AllRows(c, render, sorted)| - 1);
    }
  }

  lemma TimesPrint(events: seq<Event>, sorted: seq<Rec>, t: real)
    requires SortedLog(events, sorted)
    ensures t == 0.0 || RecordAtTime(sorted, t) <==> t == 0.0 || SomeChange(Histories(events), t)
  {
    var l, hs := LogAll(events), Histories(events);
    SortedMembers(events, sorted);
    if t != 0.0 {
      if r :| r in sorted && r.timestamp == t {
        HistoryFits(events, r.structId);
        RecordedIffChanged(HistoryOf(events, r.structId), r.structId, t);
      }
      if n :| n in hs && ChangesAt(hs[n], t) {
        var id := l.structs[n].id;
        assert Numbered(l.structs[n], l.names, n);
        HistoryFits(events, id);
        RecordedIffChanged(hs[n], id, t);
        var r :| r in StructLog(hs[n], id) && r.timestamp == t;
        assert r in sorted;
      }
    }
  }

  lemma TimesOfRows(events: seq<Event>, sorted: seq<Rec>, c: Columns, render: Render)
    requires SortedLog(events, sorted)
    ensures forall t :: HasTime(AllRows(c, render, sorted), t) <==> t == 0.0 || SomeChange(Histories(events), t)
  {
    forall t ensures HasTime(AllRows(c, render, sorted), t) <==> t == 0.0 || SomeChange(Histories(events), t) {
      RowTimesIff(c, render, sorted, t);
      TimesPrint(events, sorted, t);
    }
  }

  /** The meaning of the whole pipeline: however the registrations and updates of different structures are
      interleaved, and however the sort orders equal keys, the rows print the histories.  Updates that change
      nothing leave no trace; for them the program reads the first element of an empty container, which is not
      defined in C++ and which the model takes to do nothing. */
  lemma RowsPrintHistories(events: seq<Event>, sorted: seq<Rec>, c: Columns, render: Render)
    requires SortedLog(events, sorted) && Separate(c) && SameAtOnce(events, c, render)
    ensures PrintsHistories(events, c, render, Printed(events, sorted, c, render))
  {
    PrintedRows(events, sorted, c, render);
    var rows := AllRows(c, render, sorted);
    forall i, j | 0 <= i < j < |rows| ensures rows[i].time < rows[j].time { RowsInOrder(c, render, sorted, i, j); }
    TimesOfRows(events, sorted, c, render);
    forall i | 0 <= i < |rows| ensures RowPrints(events, c, render, rows[i]) {
      RowsPrint(events, sorted, c, render, i);
    }
  }

  /** It suffices that no structure changes a field twice at one time. */
  lemma ChangedOnceSuffices(events: seq<Event>, c: Columns, render: Render)
    requires FitsLog(Histories(events)) && forall n | n in Histories(events) :: ChangedOnce(Histories(events)[n])
    ensures SameAtOnce(events, c, render)
  {
    forall id, f | 0 <= id < |LogAll(events).names| && 0 <= f < |HistoryOf(events, id).initial| && (id, f) in c.offset
      ensures FieldAgrees(HistoryOf(events, id), id, f, render)
    {
      var h := HistoryOf(events, id);
      HistoryFits(events, id);
      forall t, x | Sets(h, f, t, x) ensures f < |ValueAt(h, t)| && ValueAt(h, t)[f] == x { SetOnce(h, f, t, x); }
    }
  }

  // ----- The converse -----

  /** Behind all records that are not after `q`. */
  function InsertLast(s: seq<Rec>, q: Rec): seq<Rec> {
    if s == [] || Le(s[|s| - 1], q) then s + [q] else InsertLast(s[..|s| - 1], q) + [s[|s| - 1]]
  }

  function SortRecords(s: seq<Rec>): seq<Rec> {
    if s == [] then [] else InsertLast(SortRecords(s[..|s| - 1]), s[|s| - 1])
  }

  lemma {:induction false} InsertLastSorts(s: seq<Rec>, q: Rec) returns (p: nat)
    requires Sorted(s)
    ensures multiset(InsertLast(s, q)) == multiset(s) + multiset{q} && Sorted(InsertLast(s, q))
    ensures p < |InsertLast(s, q)| && InsertLast(s, q)[p] == q
    ensures forall k | p < k < |InsertLast(s, q)| :: !Le(InsertLast(s, q)[k], q)
  {
    if s == [] || Le(s[|s| - 1], q) {
      p := |s|;
      forall k | 0 <= k < |s| ensures Le(s[k], q) {
        HeapOrderReversesRunOrder(s[k], s[|s| - 1], q);
      }
    } else {
      var n := |s| - 1;
      p := InsertLastSorts(s[..n], q);
      assert s == s[..n] + [s[n]];
      var rest := InsertLast(s[..n], q);
      forall x | x in rest ensures Le(x, s[n]) {
        assert x in multiset(rest);
        if x != q { assert x in multiset(s[..n]) && x in s[..n]; } else { HeapOrderReversesRunOrder(q, s[n], q); }
      }
      SortedConcat(rest, [s[n]]);
    }
  }

  lemma {:induction false} SortRecordsSorts(s: seq<Rec>)
    ensures Sorted(SortRecords(s)) && multiset(SortRecords(s)) == multiset(s)
  {
    if s != [] {
      var n := |s| - 1;
      SortRecordsSorts(s[..n]);
      var _ := InsertLastSorts(SortRecords(s[..n]), s[n]);
      assert multiset(s) == multiset(s[..n]) + multiset{s[n]} by { assert s == s[..n] + [s[n]]; }
    }
  }

  /** A sorted copy in which a chosen record comes last of those with its key. */
  lemma SortedWithLast(records: seq<Rec>, q: Rec) returns (sorted: seq<Rec>, p: nat)
    requires q in records
    ensures Sorted(sorted) && multiset(sorted) == multiset(records)
    ensures p < |sorted| && sorted[p] == q && forall k | p < k < |sorted| :: !Le(sorted[k], q)
  {
    var i :| 0 <= i < |records| && records[i] == q;
    var rest := records[..i] + records[i + 1..];
    assert records == records[..i] + [q] + records[i + 1..];
    SortRecordsSorts(rest);
    sorted := InsertLast(SortRecords(rest), q);
    p := InsertLastSorts(SortRecords(rest), q);
  }

  /** The cell then shows that record in the row of its time. */
  lemma LastOfKeyShows(c: Columns, render: Render, sorted: seq<Rec>, p: nat, m: nat, lastRow: bool)
    requires Separate(c) && p < |sorted| && (sorted[p].structId, sorted[p].fieldId) in c.offset
    requires (forall k | p < k < |sorted| :: !Le(sorted[k], sorted[p])) && Cut(sorted, m, sorted[p].timestamp)
    requires Complete(sorted)
    ensures var q := sorted[p];
      Cell(c, render, sorted[..m], c.offset[(q.structId, q.fieldId)], lastRow) == render(q.structId, q.fieldId, q.data)
  {
    var q, front := sorted[p], sorted[..m];
    var column := c.offset[(q.structId, q.fieldId)];
    CutIsComplete(sorted, m, q.timestamp);
    CompleteCell(c, render, front, column, lastRow);
    assert p < m && front[p] == q && GoesTo(c, front[p], column);
    forall k | p < k < m ensures !GoesTo(c, front[k], column) { assert front[k] == sorted[k]; }
  }

  /** If a printed field is set to two words that show differently at one time, some sorted copy misprints it. */
  lemma ClashMisprints(events: seq<Event>, c: Columns, render: Render, id: nat, f: nat, t: real, x: int)
    returns (sorted: seq<Rec>)
    requires FitsLog(Histories(events)) && Separate(c)
    requires id < |LogAll(events).names| && f < |HistoryOf(events, id).initial| && (id, f) in c.offset
    requires Sets(HistoryOf(events, id), f, t, x)
    requires !(f < |ValueAt(HistoryOf(events, id), t)| &&
               render(id, f, x) == render(id, f, ValueAt(HistoryOf(events, id), t)[f]))
    ensures SortedLog(events, sorted) && !PrintsHistories(events, c, render, Printed(events, sorted, c, render))
  {
    var h := HistoryOf(events, id);
    HistoryFits(events, id);
    LogMatchesHistories(events);
    var q := SetIsRecorded(h, id, f, t, x);
    var n := LogAll(events).names[id];
    assert RecordsAgree(LogAll(events).records, h, id) by { assert n in Histories(events); }
    var p;
    sorted, p := SortedWithLast(LogAll(events).records, q);
    PrintedRows(events, sorted, c, render);
    var rows := AllRows(c, render, sorted);
    assert q in sorted;
    RowTimesIff(c, render, sorted, t);
    var i :| 0 <= i < |rows| && rows[i].time == t;
    var m := RowIsCut(c, render, sorted, i);
    LastOfKeyShows(c, render, sorted, p, m, i == |rows| - 1);
    assert !CellPrints(h, id, f, rows[i].cells, c.offset[(id, f)], render, t);
    assert !RowPrints(events, c, render, rows[i]);
  }

  /** For all updates whose times never go back: every sorted copy of the log prints the histories exactly when
      all updates that set a printed field at one time set it to words that show the same. */
  lemma AlwaysPrintsIff(events: seq<Event>, c: Columns, render: Render)
    requires FitsLog(Histories(events)) && Separate(c)
    ensures (forall sorted | SortedLog(events, sorted) ::
              PrintsHistories(events, c, render, Printed(events, sorted, c, render))) <==>
            SameAtOnce(events, c, render)
  {
    if SameAtOnce(events, c, render) {
      forall sorted | SortedLog(events, sorted)
        ensures PrintsHistories(events, c, render, Printed(events, sorted, c, render))
      {
        RowsPrintHistories(events, sorted, c, render);
      }
    } else {
      var id: nat, f: nat :| id < |LogAll(events).names| && f < |HistoryOf(events, id).initial| &&
        (id, f) in c.offset &&
                             !FieldAgrees(HistoryOf(events, id), id, f, render);
      var t, x :| Sets(HistoryOf(events, id), f, t, x) &&
        !(f < |ValueAt(HistoryOf(events, id), t)| &&
          render(id, f, x) == render(id, f, ValueAt(HistoryOf(events, id), t)[f]));
      var sorted := ClashMisprints(events, c, render, id, f, t, x);
    }
  }

  // ----- The files in between -----

  /** How a record is laid out in 24 bytes. */
  datatype Codec = Codec(encode: Rec -> Bytes, decode: Bytes -> Rec)

  /** The codec can represent the given records: their times are doubles and their words have 64 bits. */
  ghost predicate Represents(codec: Codec, records: seq<Rec>) {
    forall r | r in records :: |codec.encode(r)| == Files.DELTA_SIZE && codec.decode(codec.encode(r)) == r
  }

  function Encoded(codec: Codec, records: seq<Rec>): seq<Bytes> {
    seq(|records|, i requires 0 <= i < |records| => codec.encode(records[i]))
  }

  function Decoded(codec: Codec, records: seq<Bytes>): seq<Rec> {
    seq(|records|, i requires 0 <= i < |records| => codec.decode(records[i]))
  }

  lemma DecodedEncoded(codec: Codec, records: seq<Rec>)
    requires Represents(codec, records)
    ensures Decoded(codec, Encoded(codec, records)) == records
    ensures Files.AllFit(Encoded(codec, records), Files.DeltaRecords, Files.DELTA_SIZE)
  {
  }

  /** Writes every record, flushes and closes, as both the logger and the sort do. */
  method WriteFile(codec: Codec, records: seq<Rec>) returns (stream: Bytes)
    requires Represents(codec, records)
    ensures Files.ReadFile(stream, Files.DeltaRecords, []) == Some(Encoded(codec, records))
  {
    var file := new Files.FileSerializer(true, false);
    ghost var w := file.Value();
    ghost var all := Encoded(codec, records);
    ghost var puts := seq(|all|, i requires 0 <= i < |all| => Files.Put(all[i]));
    for i := 0 to |records|
      invariant file.Valid() && file.Value() == Files.Run(w, puts[..i])
      invariant fresh(file) && fresh(file.buffer)
    {
      assert puts[..i + 1][..i] == puts[..i] && puts[..i + 1][i] == Files.Put(codec.encode(records[i]));
      var _ := file.Write(codec.encode(records[i]));
    }
    assert puts[..|records|] == puts;
    file.Flush();
    assert (puts + [Files.FlushNow])[..|puts|] == puts;
    assert file.Value() == Files.Run(w, puts + [Files.FlushNow]);
    DecodedEncoded(codec, records);
    Files.PlainRoundTrip(w, all, Files.DeltaRecords, Files.DELTA_SIZE, true);
    file.Close();
    stream := file.stream;
  }

  method ReadRecords(codec: Codec, stream: Bytes, ghost records: seq<Rec>) returns (r: seq<Rec>)
    requires Represents(codec, records)
    requires Files.ReadFile(stream, Files.DeltaRecords, []) == Some(Encoded(codec, records))
    ensures r == records
  {
    var read := Files.ReadAll(stream, Files.DeltaRecords);
    DecodedEncoded(codec, records);
    r := Decoded(codec, read.value);
  }

  /** `ExternalMergeSort::start` on a closed log file. */
  method SortFile(codec: Codec, stream: Bytes, slot: nat, maxFdOpened: nat, ghost records: seq<Rec>)
    returns (sortedStream: Bytes, ghost sorted: seq<Rec>)
    requires maxFdOpened >= 1 && Represents(codec, records)
    requires Files.ReadFile(stream, Files.DeltaRecords, []) == Some(Encoded(codec, records))
    ensures Sorted(sorted) && multiset(sorted) == multiset(records) && Represents(codec, sorted)
    ensures Files.ReadFile(sortedStream, Files.DeltaRecords, []) == Some(Encoded(codec, sorted))
  {
    var input := ReadRecords(codec, stream, records);
    var os := new Cache.FileSystem();
    var sorter := new Sorting.ExternalMergeSort(slot, maxFdOpened, os);
    var out, _ := sorter.Start(input);
    sorted := out;
    SameMembers(sorted, records);
    sortedStream := WriteFile(codec, out);
  }

  /** Logs the events, closes the file, sorts it and converts it, with the columns of the requested headers
      and of the fields that the description file lists. */
  method LogSortAndConvert(events: seq<Event>, codec: Codec, slot: nat, maxFdOpened: nat,
                           headers: seq<string>, entries: seq<Entry>, render: Render)
    returns (rows: seq<Row>, ok: bool)
    requires maxFdOpened >= 1 && FitsLog(Histories(events)) && DistinctEntries(entries)
    requires SameAtOnce(events, BuildColumns(headers, entries), render)
    requires Represents(codec, LogAll(events).records)
    ensures ok && PrintsHistories(events, BuildColumns(headers, entries), render, rows)
  {
    var c := BuildColumns(headers, entries);
    ColumnsAreSeparate(headers, entries);
    var logger := LogEvents(events);
    var stream := WriteFile(codec, logger.records);
    var sortedStream;
    ghost var sorted;
    sortedStream, sorted := SortFile(codec, stream, slot, maxFdOpened, logger.records);
    var records := ReadRecords(codec, sortedStream, sorted);
    rows, ok := ConvertBinaryToCsv(c, render, |logger.names|, records);
    WhatIsPrinted(events, sorted, c, render);
  }

  lemma WhatIsPrinted(events: seq<Event>, sorted: seq<Rec>, c: Columns, render: Render)
    requires SortedLog(events, sorted) && Separate(c) && SameAtOnce(events, c, render)
    ensures forall r | r in sorted :: r.structId < |LogAll(events).names|
    ensures PrintsHistories(events, c, render, Convert(c, render, |LogAll(events).names|, sorted))
  {
    PrintedRows(events, sorted, c, render);
    RowsPrintHistories(events, sorted, c, render);
  }

  method LogEvents(events: seq<Event>) returns (logger: FileLogger)
    ensures fresh(logger) && !logger.isOpen
    ensures logger.records == LogAll(events).records && |logger.names| == |LogAll(events).names|
  {
    logger := new FileLogger();
    for i := 0 to |events|
      invariant fresh(logger) && logger.isOpen && logger.Value() == LogAll(events[..i])
    {
      assert events[..i + 1][..i] == events[..i];
      match events[i] {
        case Register(name, v) => var _ := logger.RegisterObjectWithName(name, v);
        case Update(name, t, v) => var _ := logger.UpdateStruct(name, t, v);
      }
    }
    assert events[..|events|] == events;
    NothingHeldBack(events);
    logger.Close();
  }
}
