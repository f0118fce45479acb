/** Inputs for which the delta log or its conversion fails, as the exact conditions of DeltaLog.dfy,
    CsvConverter.dfy and Pipeline.dfy say. */
module LogInputs {
  import opened Options
  import opened Records
  import opened DeltaLog
  import opened CsvConverter
  import opened Pipeline

  // ----- Runs of one structure -----

  function Set(t: real, v: seq<int>): Event { Update("s", t, StructValue(0, v)) }

  function Start(v: seq<int>): Event { Register("s", StructValue(0, v)) }

  /** A run of one structure: its history, its last value and its records. */
  ghost predicate Reaches(events: seq<Event>, h: History, last: seq<int>, records: seq<Rec>) {
    Single(events, h) && h.typeId == 0 && |h.initial| == |last| && LastValue(h) == last &&
    LogAll(events).records == records
  }

  function Then(h: History, t: real, v: seq<int>): History { h.(updates := h.updates + [(t, v)]) }

  lemma Starts(v: seq<int>)
    ensures Reaches([Start(v)], History(0, v, []), v, InitRecords(0, v))
  {
    SingleRegister(StructValue(0, v));
  }

  lemma Goes(events: seq<Event>, h: History, last: seq<int>, records: seq<Rec>, t: real, v: seq<int>, more: seq<Rec>)
    requires Reaches(events, h, last, records) && |v| == |last| && WrittenBy(h, 0, t, v) == more
    ensures Reaches(events + [Set(t, v)], Then(h, t, v), v, records + more)
    ensures Log(LogAll(events), Set(t, v)).1
  {
    SingleUpdate(events, h, t, StructValue(0, v));
  }

  /** The latest change of a field after one more update. */
  lemma Latest(h: History, t: real, v: seq<int>, f: nat)
    requires f < |v| == |h.initial| == |LastValue(h)|
    ensures LatestChange(Then(h, t, v), f) ==
            if v[f] != LastValue(h)[f] && LatestChange(h, f).0 <= t then (t, v[f]) else LatestChange(h, f)
    ensures LastValue(Then(h, t, v)) == v && Then(h, t, v).initial == h.initial
  {
    Extend(h, t, v);
  }

  lemma DifferencesOne(a: seq<int>, b: seq<int>)
    requires |a| == |b| == 1
    ensures Differences(a, b) == if a[0] != b[0] then [0] else []
  {
    var none: seq<nat> := [];
    assert Differences(a[..0], b[..0]) == none && none + [0] == [0];
  }

  lemma DifferencesTwo(a: seq<int>, b: seq<int>)
    requires |a| == |b| == 2
    ensures Differences(a, b) == (if a[0] != b[0] then [0] else []) + (if a[1] != b[1] then [1] else [])
  {
    DifferencesOne(a[..1], b[..1]);
    var d := Differences(a[..1], b[..1]);
    assert d + [] == d;
  }

  function Expected(h: History, f: nat, t: real, v: seq<int>, min: nat, max: nat): seq<Rec>
    requires f < |v| == |h.initial|
  {
    if IsRecorded(h, f, t, v[f]) then [FlaggedRec(0, f, t, v[f], min, max)] else []
  }

  lemma WrittenOne(h: History, t: real, v: seq<int>, f: nat)
    requires f < |v| == |h.initial| == |LastValue(h)| && Differences(LastValue(h), v) == [f]
    ensures WrittenBy(h, 0, t, v) == Expected(h, f, t, v, f, f)
  {
    var d: seq<nat>, none: seq<Rec> := [f], [];
    assert d[..0] == [] && Written(h, 0, t, v, d[..0], f, f) == none;
    assert none + Expected(h, f, t, v, f, f) == Expected(h, f, t, v, f, f);
  }

  lemma WrittenTwo(h: History, t: real, v: seq<int>, f: nat, g: nat)
    requires f < |v| == |h.initial| == |LastValue(h)| && g < |v| && Differences(LastValue(h), v) == [f, g]
    ensures WrittenBy(h, 0, t, v) == Expected(h, f, t, v, f, g) + Expected(h, g, t, v, f, g)
  {
    var d: seq<nat>, one: seq<nat>, none: seq<Rec> := [f, g], [f], [];
    assert d[..1] == one && one[..0] == [] && Written(h, 0, t, v, one[..0], f, g) == none;
    assert none + Expected(h, f, t, v, f, g) == Expected(h, f, t, v, f, g);
    assert Written(h, 0, t, v, one, f, g) == Expected(h, f, t, v, f, g);
  }

  // ----- A lost update -----

  function Full(t: real, x: int): Rec { Rec(t, 0, 0, true, true, x) }

  /** Field 0 is set to 1 at time 5, to 0 at time 3, which comes too late, and to 1 at time 7, which leaves no
      record but still counts. */
  lemma ThreeUpdates() returns (h: History)
    ensures Reaches([Start([0])] + [Set(5.0, [1])] + [Set(3.0, [0])] + [Set(7.0, [1])], h, [1],
            [Full(0.0, 0)] + [Full(5.0, 1)])
    ensures LatestChange(h, 0) == (7.0, 1)
  {
    var h0 := History(0, [0], []);
    Starts([0]);
    assert InitRecords(0, [0]) == [Full(0.0, 0)];
    h := OneMore([Start([0])], h0, 0, [Full(0.0, 0)], 5.0, 1, [Full(5.0, 1)]);
    h := OneMore([Start([0])] + [Set(5.0, [1])], h, 1, [Full(0.0, 0)] + [Full(5.0, 1)], 3.0, 0, []);
    h := OneMore([Start([0])] + [Set(5.0, [1])] + [Set(3.0, [0])], h, 0, [Full(0.0, 0)] + [Full(5.0, 1)], 7.0, 1, []);
  }

  lemma OneMore(events: seq<Event>, h: History, last: int, records: seq<Rec>, t: real, x: int, more: seq<Rec>)
    returns (h': History)
    requires Reaches(events, h, [last], records) && x != last
    requires more == if LatestChange(h, 0).0 <= t && x != LatestChange(h, 0).1 && t != 0.0 then [Full(t, x)] else []
    ensures Reaches(events + [Set(t, [x])], h', [x], records + more)
    ensures more == [] ==> Reaches(events + [Set(t, [x])], h', [x], records)
    ensures LatestChange(h', 0) == if LatestChange(h, 0).0 <= t then (t, x) else LatestChange(h, 0)
    ensures Log(LogAll(events), Set(t, [x])).1
  {
    DifferencesOne([last], [x]);
    WrittenOne(h, t, [x], 0);
    Goes(events, h, [last], records, t, [x], more);
    Latest(h, t, [x], 0);
    h' := Then(h, t, [x]);
    assert records + [] == records;
  }

  /** Then 2 at time 6, after the record of time 5 and another value than the last one, is lost. */
  lemma UpdateIsLost() returns (events: seq<Event>)
    ensures events == [Start([0])] + [Set(5.0, [1])] + [Set(3.0, [0])] + [Set(7.0, [1])]
    ensures LogAll(events).records == [Full(0.0, 0)] + [Full(5.0, 1)]
    ensures Log(LogAll(events), Set(6.0, [2])).1 && LogAll(events + [Set(6.0, [2])]).records == LogAll(events).records
  {
    events := [Start([0])] + [Set(5.0, [1])] + [Set(3.0, [0])] + [Set(7.0, [1])];
    var h := ThreeUpdates();
    var _ := OneMore(events, h, 1, [Full(0.0, 0)] + [Full(5.0, 1)], 6.0, 2, []);
  }

  // ----- A lost end mark -----

  lemma TwoFields() returns (h: History)
    ensures Reaches([Start([0, 0])] + [Set(5.0, [0, 1])], h, [0, 1],
                    [Rec(0.0, 0, 0, true, false, 0), Rec(0.0, 0, 1, false, true, 0)] + [Rec(5.0, 0, 1, true, true, 1)])
    ensures LatestChange(h, 0) == (0.0, 0) && LatestChange(h, 1) == (5.0, 1)
  {
    var h0 := History(0, [0, 0], []);
    Starts([0, 0]);
    assert InitRecords(0, [0, 0]) == [Rec(0.0, 0, 0, true, false, 0), Rec(0.0, 0, 1, false, true, 0)];
    DifferencesTwo([0, 0], [0, 1]);
    assert [] + [1] == [1];
    WrittenOne(h0, 5.0, [0, 1], 1);
    Goes([Start([0, 0])], h0, [0, 0], InitRecords(0, [0, 0]), 5.0, [0, 1], [Rec(5.0, 0, 1, true, true, 1)]);
    Latest(h0, 5.0, [0, 1], 0);
    Latest(h0, 5.0, [0, 1], 1);
    h := Then(h0, 5.0, [0, 1]);
  }

  lemma SecondUpdate(front: seq<Event>, h: History, log: seq<Rec>)
    requires Reaches(front, h, [0, 1], log) && LatestChange(h, 0) == (0.0, 0) && LatestChange(h, 1) == (5.0, 1)
    ensures LogAll(front + [Set(3.0, [1, 2])]).records == log + [Rec(3.0, 0, 0, true, false, 1)]
  {
    SecondWritten(h);
    Goes(front, h, [0, 1], log, 3.0, [1, 2], [Rec(3.0, 0, 0, true, false, 1)]);
  }

  lemma SecondWritten(h: History)
    requires |h.initial| == 2 && LastValue(h) == [0, 1]
    requires LatestChange(h, 0) == (0.0, 0) && LatestChange(h, 1) == (5.0, 1)
    ensures WrittenBy(h, 0, 3.0, [1, 2]) == [Rec(3.0, 0, 0, true, false, 1)]
  {
    var v := [1, 2];
    BothDiffer([0, 1], v);
    WrittenTwo(h, 3.0, v, 0, 1);
    FirstOnly(h, v);
  }

  lemma BothDiffer(a: seq<int>, b: seq<int>)
    requires |a| == |b| == 2 && a[0] != b[0] && a[1] != b[1]
    ensures Differences(a, b) == [0, 1]
  {
    DifferencesTwo(a, b);
    assert [0] + [1] == [0, 1];
  }

  lemma FirstOnly(h: History, v: seq<int>)
    requires |h.initial| == 2 && LastValue(h) == [0, 1] && v == [1, 2]
    requires LatestChange(h, 0) == (0.0, 0) && LatestChange(h, 1) == (5.0, 1)
    ensures Expected(h, 0, 3.0, v, 0, 1) + Expected(h, 1, 3.0, v, 0, 1) == [Rec(3.0, 0, 0, true, false, 1)]
  {
    assert IsRecorded(h, 0, 3.0, 1) && !IsRecorded(h, 1, 3.0, 2);
  }

  /** The updates (0, 1) at time 5 and (1, 2) at time 3: the second field keeps its record of time 5, and the end
      mark of the second update is lost with the record that should have carried it. */
  lemma EndIsLost() returns (events: seq<Event>)
    ensures events == [Start([0, 0])] + [Set(5.0, [0, 1])] + [Set(3.0, [1, 2])]
    ensures LogAll(events).records ==
            [Rec(0.0, 0, 0, true, false, 0), Rec(0.0, 0, 1, false, true, 0)] + [Rec(5.0, 0, 1, true, true, 1)] +
            [Rec(3.0, 0, 0, true, false, 1)]
  {
    var front := [Start([0, 0])] + [Set(5.0, [0, 1])];
    var h := TwoFields();
    SecondUpdate(front, h, LogAll(front).records);
    events := front + [Set(3.0, [1, 2])];
  }

  function TwoColumns(): Columns { Columns(map[(0, 0) := 0, (0, 1) := 1], [0, 0]) }

  /** That log up to time 3, in order. */
  lemma BothAreBroken(render: Render, front: seq<Rec>)
    requires front == [Rec(0.0, 0, 0, true, false, 0), Rec(0.0, 0, 1, false, true, 0), Rec(3.0, 0, 0, true, false, 1)]
    ensures SortedByTime(front) && BrokenAt(front, 3.0, 0)
    ensures RowOf(TwoColumns(), render, front, false) == Row([NOT_AVAILABLE, NOT_AVAILABLE], 3.0)
  {
    var c := TwoColumns();
    assert front[2] in front && BrokenAt(front, 3.0, 0);
    CellAtRow(c, render, front, 0);
    CellAtRow(c, render, front, 1);
  }

  lemma FourInOrder(a: Rec, b: Rec, d: Rec, e: Rec)
    requires a.timestamp <= b.timestamp <= d.timestamp <= e.timestamp
    ensures SortedByTime([a, b, d] + [e])
  {
  }

  /** The whole log, in order: the first field stays n/a. */
  lemma FirstStaysHidden(render: Render, front: seq<Rec>, r: Rec)
    requires front == [Rec(0.0, 0, 0, true, false, 0), Rec(0.0, 0, 1, false, true, 0), Rec(3.0, 0, 0, true, false, 1)]
    requires r == Rec(5.0, 0, 1, true, true, 1)
    ensures SortedByTime(front + [r])
    ensures RowOf(TwoColumns(), render, front + [r], true) == Row([NOT_AVAILABLE, render(0, 1, 1)], 5.0)
  {
    BothAreBroken(render, front);
    FourInOrder(front[0], front[1], front[2], r);
    CellStep(TwoColumns(), render, front, r, 0);
    CellStep(TwoColumns(), render, front, r, 1);
  }

  /** Sorted and converted, that log shows n/a for the first field at time 3 and still at time 5. */
  lemma LostEndHidesField(render: Render, sorted: seq<Rec>)
    requires sorted == [Rec(0.0, 0, 0, true, false, 0), Rec(0.0, 0, 1, false, true, 0), Rec(3.0, 0, 0, true, false, 1),
                        Rec(5.0, 0, 1, true, true, 1)]
    ensures forall r | r in sorted :: r.structId < 1
    ensures var rows := Convert(TwoColumns(), render, 1, sorted);
      && |rows| >= 2
      && rows[|rows| - 2] == Row([NOT_AVAILABLE, NOT_AVAILABLE], 3.0)
      && rows[|rows| - 1] == Row([NOT_AVAILABLE, render(0, 1, 1)], 5.0)
  {
    var front := sorted[..3];
    assert sorted == front + [sorted[3]];
    BothAreBroken(render, front);
    FirstStaysHidden(render, front, sorted[3]);
    ConvertIsRows(TwoColumns(), render, 1, sorted);
    Append(TwoColumns(), render, 1, front, sorted[3]);
  }

  // ----- Two values at one time -----

  function OneColumn(): Columns { Columns(map[(0, 0) := 0], [0]) }

  lemma OnlyName(events: seq<Event>, h: History)
    requires Single(events, h) && FitsLog(Histories(events))
    ensures |LogAll(events).names| == 1 && HistoryOf(events, 0) == h
  {
    LogMatchesHistories(events);
    var l, hs := LogAll(events), Histories(events);
    assert |l.structs| == |l.structs.Keys| && l.structs.Keys == {"s"};
    assert l.names[0] in hs;
  }

  lemma TwoAtOnce() returns (h: History)
    ensures Single([Start([0])] + [Set(1.0, [5])] + [Set(1.0, [7])], h)
    ensures h == History(0, [0], [(1.0, [5]), (1.0, [7])])
  {
    var h0 := History(0, [0], []);
    Starts([0]);
    var first := WrittenBy(h0, 0, 1.0, [5]);
    Goes([Start([0])], h0, [0], InitRecords(0, [0]), 1.0, [5], first);
    var h1 := Then(h0, 1.0, [5]);
    Goes([Start([0])] + [Set(1.0, [5])], h1, [5], InitRecords(0, [0]) + first, 1.0, [7], WrittenBy(h1, 0, 1.0, [7]));
    h := Then(h1, 1.0, [7]);
    assert h.updates == [(1.0, [5]), (1.0, [7])];
  }

  lemma TwoAtOnceFits(h: History)
    requires h == History(0, [0], [(1.0, [5]), (1.0, [7])])
    ensures Ordered(h) && Sets(h, 0, 1.0, 5) && ValueAt(h, 1.0) == [7]
  {
    var h0, h1 := History(0, [0], []), History(0, [0], [(1.0, [5])]);
    assert h.updates[..1] == h1.updates && h1.updates[..0] == h0.updates;
    assert h.(updates := h.updates[..1]) == h1 && h1.(updates := h1.updates[..0]) == h0;
    assert Ordered(h0) && LastTime(h0) == 0.0;
    assert Ordered(h1) && LastTime(h1) == 1.0;
    assert Sets(h1, 0, 1.0, 5);
  }

  /** A field that is set to 5 and then to 7 at time 1 can be printed as 5. */
  lemma SameTimeIsAmbiguous(render: Render) returns (events: seq<Event>, sorted: seq<Rec>)
    requires render(0, 0, 5) != render(0, 0, 7)
    ensures events == [Start([0])] + [Set(1.0, [5])] + [Set(1.0, [7])]
    ensures SortedLog(events, sorted) && Separate(OneColumn())
    ensures !PrintsHistories(events, OneColumn(), render, Printed(events, sorted, OneColumn(), render))
  {
    events := [Start([0])] + [Set(1.0, [5])] + [Set(1.0, [7])];
    SetTwiceAtOnce(events);
    assert (0, 0) in OneColumn().offset;
    sorted := ClashMisprints(events, OneColumn(), render, 0, 0, 1.0, 5);
  }

  lemma SetTwiceAtOnce(events: seq<Event>)
    requires events == [Start([0])] + [Set(1.0, [5])] + [Set(1.0, [7])]
    ensures FitsLog(Histories(events)) && |LogAll(events).names| == 1
    ensures var h := HistoryOf(events, 0); h.initial == [0] && Sets(h, 0, 1.0, 5) && ValueAt(h, 1.0) == [7]
  {
    var h := TwoAtOnce();
    TwoAtOnceFits(h);
    OnlyName(events, h);
  }
}
