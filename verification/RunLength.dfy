/** Run-length monitoring: AnyFundamentalVariableMonitoring.h and ContinuousVariableMonitoring.h.

    Times are ranks of finite doubles, so that `nextafter` towards the lowest double is the predecessor. */
module RunLength {
  import opened Options

  /** The rank of the lowest finite double. */
  const LOWEST: int := -0x7FEF_FFFF_FFFF_FFFF
  type Time = t: int | LOWEST <= t

  function Before(t: Time): Time { if t == LOWEST then LOWEST else t - 1 }

  function Max(a: Time, b: Time): Time { if a < b then b else a }

  /** The two monitors differ in where a closed interval ends and in what closing a file does. */
  datatype Kind = AnyTyped | Typed

  /** A closed validity interval. */
  datatype Interval<V> = Interval(start: Time, end: Time, value: V)

  /** `file` is the open file and `closed` are the files before it. */
  datatype Monitor<V> = Monitor(start: Time, end: Time, value: V, valid: bool,
                                variables: seq<Interval<V>>, file: Option<seq<Interval<V>>>,
                                closed: seq<seq<Interval<V>>>)

  datatype Op<V> = Update(time: Time, value: V) | Invalidate(time: Time) | SetFile | ClearFile

  function NewMonitor<V>(start: Time, value: V, valid: bool): Monitor<V> {
    Monitor(start, start, value, valid, [], None, [])
  }

  /** `pushRecord`: with a file, what was kept in memory goes first. */
  function Push<V>(m: Monitor<V>, r: Interval<V>): Monitor<V> {
    match m.file
    case None => m.(variables := m.variables + [r])
    case Some(f) => m.(variables := [], file := Some(f + m.variables + [r]))
  }

  /** The current interval, closed because something else holds from `t` on. */
  function Current<V>(kind: Kind, m: Monitor<V>, t: Time): Interval<V> {
    Interval(m.start, if kind.AnyTyped? then Max(m.end, Before(t)) else m.end, m.value)
  }

  function Updated<V(==)>(kind: Kind, m: Monitor<V>, t: Time, v: V): (Monitor<V>, seq<Interval<V>>, bool) {
    if m.end > t then (m, [], false)
    else if !m.valid then (m.(start := t, end := t, value := v, valid := true), [], true)
    else if m.value == v then (m.(end := t), [], true)
    else
      var r := Current(kind, m, t);
      (Push(m, r).(start := t, end := t, value := v), [r], true)
  }

  function SetInvalid<V>(kind: Kind, m: Monitor<V>, t: Time): (Monitor<V>, seq<Interval<V>>, bool) {
    if m.end > t then (m, [], false)
    else if !m.valid then (m, [], true)
    else
      var r := Current(kind, m, t);
      (Push(m, r).(start := t, end := t, valid := false), [r], true)
  }

  /** The any-typed monitor empties its memory and emits the current interval, valid or not; the other one
      only closes the file. */
  function Clear<V>(kind: Kind, m: Monitor<V>): (Monitor<V>, seq<Interval<V>>) {
    if m.file.None? then (m, [])
    else if kind.Typed? then (m.(file := None, closed := m.closed + [m.file.value]), [])
    else
      var r := Interval(m.start, m.end, m.value);
      var p := Push(m, r);
      (p.(start := 0, end := 0, valid := false, file := None, closed := m.closed + [p.file.value]), [r])
  }

  /** What an operation does, and the records it emits. */
  function Step<V(==)>(kind: Kind, m: Monitor<V>, op: Op<V>): (Monitor<V>, seq<Interval<V>>) {
    match op
    case Update(t, v) => var (n, e, _) := Updated(kind, m, t, v); (n, e)
    case Invalidate(t) => var (n, e, _) := SetInvalid(kind, m, t); (n, e)
    case SetFile => var (n, e) := Clear(kind, m); (n.(file := Some([])), e)
    case ClearFile => Clear(kind, m)
  }

  function Run<V(==)>(kind: Kind, m: Monitor<V>, ops: seq<Op<V>>): (Monitor<V>, seq<Interval<V>>) {
    if ops == [] then (m, [])
    else
      var n := |ops| - 1;
      var (front, emitted) := Run(kind, m, ops[..n]);
      var (last, more) := Step(kind, front, ops[n]);
      (last, emitted + more)
  }

  // ----- Nothing is lost on the way to the files -----

  function Concat<T>(s: seq<seq<T>>): seq<T> {
    if s == [] then [] else Concat(s[..|s| - 1]) + s[|s| - 1]
  }

  /** All records in the order in which they were written or are kept. */
  function Delivered<V>(m: Monitor<V>): seq<Interval<V>> {
    Concat(m.closed) + (if m.file.Some? then m.file.value else []) + m.variables
  }

  lemma StepDelivers<V>(kind: Kind, m: Monitor<V>, op: Op<V>)
    ensures Delivered(Step(kind, m, op).0) == Delivered(m) + Step(kind, m, op).1
  {
    match op {
      case Update(t, _) => if Updated(kind, m, t, op.value).1 != [] { PushDelivers(m, Current(kind, m, t)); }
      case Invalidate(t) => if SetInvalid(kind, m, t).1 != [] { PushDelivers(m, Current(kind, m, t)); }
      case SetFile => ClearDelivers(kind, m);
      case ClearFile => ClearDelivers(kind, m);
    }
  }

  lemma PushDelivers<V>(m: Monitor<V>, r: Interval<V>)
    ensures Delivered(Push(m, r)) == Delivered(m) + [r]
  {
  }

  lemma ClearDelivers<V>(kind: Kind, m: Monitor<V>)
    ensures Delivered(Clear(kind, m).0) == Delivered(m) + Clear(kind, m).1
    ensures Delivered(Clear(kind, m).0.(file := Some([]))) == Delivered(Clear(kind, m).0)
  {
    if m.file.Some? {
      var n := Clear(kind, m).0;
      assert n.closed[..|m.closed|] == m.closed;
      if kind.AnyTyped? { PushDelivers(m, Interval(m.start, m.end, m.value)); }
    }
  }

  /** Over any sequence of updates, invalidations and changes of file, every emitted record is in exactly
      one file or in memory, in the order of emission. */
  lemma {:induction false} NothingIsLost<V>(kind: Kind, m: Monitor<V>, ops: seq<Op<V>>)
    requires Delivered(m) == []
    ensures Delivered(Run(kind, m, ops).0) == Run(kind, m, ops).1
  {
    if ops != [] {
      var n := |ops| - 1;
      NothingIsLost(kind, m, ops[..n]);
      StepDelivers(kind, Run(kind, m, ops[..n]).0, ops[n]);
    }
  }

  // ----- Which file a record is in -----

  /** A file has been opened and not closed since, by the calls alone. */
  predicate FileIsOpen<V>(ops: seq<Op<V>>) {
    ops != [] &&
    match ops[|ops| - 1]
    case SetFile => true
    case ClearFile => false
    case _ => FileIsOpen(ops[..|ops| - 1])
  }

  /** How many files have been opened. */
  function FilesOpened<V>(ops: seq<Op<V>>): nat {
    if ops == [] then 0 else FilesOpened(ops[..|ops| - 1]) + if ops[|ops| - 1].SetFile? then 1 else 0
  }

  /** The number of the file that is open, if there is one. */
  function OpenFile<V>(ops: seq<Op<V>>): Option<nat> {
    if FileIsOpen(ops) then Some(Opened(ops) - 1) else None
  }

  function Opened<V>(ops: seq<Op<V>>): (n: nat)
    ensures FileIsOpen(ops) ==> n > 0
  {
    OpenWasOpened(ops);
    FilesOpened(ops)
  }

  lemma {:induction false} OpenWasOpened<V>(ops: seq<Op<V>>)
    ensures FileIsOpen(ops) ==> FilesOpened(ops) > 0
  {
    if ops != [] { OpenWasOpened(ops[..|ops| - 1]); }
  }

  function Repeated<T>(x: T, n: nat): seq<T> { seq(n, _ => x) }

  /** For each emitted record, the file that was open when it was emitted. */
  function OpenAtEmission<V(==)>(kind: Kind, m: Monitor<V>, ops: seq<Op<V>>): seq<Option<nat>> {
    if ops == [] then []
    else
      var front := ops[..|ops| - 1];
      OpenAtEmission(kind, m, front) +
      Repeated(OpenFile(front), |Step(kind, Run(kind, m, front).0, ops[|ops| - 1]).1|)
  }

  /** The file that a record ends up in: the one that was open when it was emitted, or else the one that was open at
      the next emission with an open file.  Without any it stays in memory. */
  function Destination(open: seq<Option<nat>>): Option<nat> {
    if open == [] then None else if open[0].Some? then open[0] else Destination(open[1..])
  }

  /** The records with a given destination, in order. */
  function Bound<T>(records: seq<T>, open: seq<Option<nat>>, to: Option<nat>): seq<T>
    requires |open| == |records|
  {
    if records == [] then []
    else
      (if Destination(open) == to then [records[0]] else []) + Bound(records[1..], open[1..], to)
  }

  lemma {:induction false} NothingOpenStays<T>(records: seq<T>, open: seq<Option<nat>>)
    requires |open| == |records| && Destination(open) == None
    ensures Bound(records, open, None) == records && forall n: nat :: Bound(records, open, Some(n)) == []
  {
    if records != [] {
      NothingOpenStays(records[1..], open[1..]);
      assert [records[0]] + records[1..] == records;
    }
  }

  lemma NoRest<T>(r: T, to: Option<nat>)
    ensures [] + [r] == [r] && [r][1..] == []
    ensures var none: seq<Option<nat>> := []; none + [to] == [to] && [to][1..] == none
  {
  }

  /** A record that is emitted without an open file is held in memory. */
  lemma {:induction false} BoundKept<T>(records: seq<T>, open: seq<Option<nat>>, r: T, to: Option<nat>)
    requires |open| == |records|
    ensures Bound(records + [r], open + [None], to) == Bound(records, open, to) + (if to == None then [r] else [])
  {
    if records == [] {
      NoRest(r, None);
    } else {
      assert (records + [r])[1..] == records[1..] + [r] && (open + [None])[1..] == open[1..] + [None];
      BoundKept(records[1..], open[1..], r, to);
      DestinationKept(open);
    }
  }

  lemma {:induction false} DestinationKept(open: seq<Option<nat>>)
    ensures Destination(open + [None]) == Destination(open)
  {
    if open == [] {
      NoRest(0, None);
    } else {
      assert (open + [None])[1..] == open[1..] + [None];
      DestinationKept(open[1..]);
    }
  }

  lemma {:induction false} BoundTaken<T>(records: seq<T>, open: seq<Option<nat>>, r: T, n: nat, to: Option<nat>)
    requires |open| == |records| && Destination(open) == None
    ensures Bound(records + [r], open + [Some(n)], to) == if to == Some(n) then records + [r] else []
  {
    if records == [] {
      NoRest(r, Some(n));
    } else {
      assert (records + [r])[1..] == records[1..] + [r] && (open + [Some(n)])[1..] == open[1..] + [Some(n)];
      BoundTaken(records[1..], open[1..], r, n, to);
      DestinationFiled(open, n);
      assert [records[0]] + (records[1..] + [r]) == records + [r];
    }
  }

  /** A record that is emitted with an open file takes everything in memory along. */
  lemma {:induction false} BoundFiled<T>(records: seq<T>, open: seq<Option<nat>>, r: T, n: nat, to: Option<nat>)
    requires |open| == |records|
    ensures Bound(records + [r], open + [Some(n)], to) ==
            if to == Some(n) then Bound(records, open, to) + Bound(records, open, None) + [r]
            else if to == None then [] else Bound(records, open, to)
  {
    if Destination(open) == None {
      BoundTaken(records, open, r, n, to);
      NothingOpenStays(records, open);
      assert [] + records == records;
    } else {
      assert (records + [r])[1..] == records[1..] + [r] && (open + [Some(n)])[1..] == open[1..] + [Some(n)];
      BoundFiled(records[1..], open[1..], r, n, to);
      DestinationFiled(open, n);
      var head := if Destination(open) == to then [records[0]] else [];
      FourParts(head, Bound(records[1..], open[1..], to), Bound(records[1..], open[1..], None), [r]);
    }
  }

  lemma FourParts<T>(a: seq<T>, b: seq<T>, c: seq<T>, d: seq<T>)
    ensures a + (b + c + d) == (a + b) + c + d && [] + c == c
  {
  }

  lemma {:induction false} DestinationFiled(open: seq<Option<nat>>, n: nat)
    ensures Destination(open + [Some(n)]) == if Destination(open) == None then Some(n) else Destination(open)
  {
    if open != [] {
      assert (open + [Some(n)])[1..] == open[1..] + [Some(n)];
      DestinationFiled(open[1..], n);
    }
  }

  /** Memory and files hold the records that are bound for them. */
  ghost predicate Shelved<V(!new)>(variables: seq<Interval<V>>, file: Option<seq<Interval<V>>>,
                                   closed: seq<seq<Interval<V>>>, emitted: seq<Interval<V>>, open: seq<Option<nat>>) {
    && |open| == |emitted| && variables == Bound(emitted, open, None)
    && (forall n | 0 <= n < |closed| :: closed[n] == Bound(emitted, open, Some(n)))
    && (file.Some? ==> file.value == Bound(emitted, open, Some(|closed|)))
    && forall n: nat | |closed| + (if file.Some? then 1 else 0) <= n :: Bound(emitted, open, Some(n)) == []
  }

  lemma PushShelved<V(!new)>(m: Monitor<V>, emitted: seq<Interval<V>>, open: seq<Option<nat>>, r: Interval<V>)
    requires Shelved(m.variables, m.file, m.closed, emitted, open)
    ensures var p := Push(m, r);
      var to := if m.file.Some? then Some(|m.closed|) else None;
      Shelved(p.variables, p.file, p.closed, emitted + [r], open + [to])
  {
    if m.file.Some? {
      forall to: Option<nat> ensures Bound(emitted + [r], open + [Some(|m.closed|)], to) ==
        if to == Some(|m.closed|) then Bound(emitted, open, to) + Bound(emitted, open, None) + [r]
        else if to == None then [] else Bound(emitted, open, to)
      {
        BoundFiled(emitted, open, r, |m.closed|, to);
      }
    } else {
      forall to: Option<nat> ensures Bound(emitted + [r], open + [None], to) ==
        Bound(emitted, open, to) + (if to == None then [r] else [])
      {
        BoundKept(emitted, open, r, to);
      }
    }
  }

  lemma CloseShelved<V(!new)>(m: Monitor<V>, emitted: seq<Interval<V>>, open: seq<Option<nat>>)
    requires Shelved(m.variables, m.file, m.closed, emitted, open) && m.file.Some?
    ensures Shelved(m.variables, None, m.closed + [m.file.value], emitted, open)
    ensures Shelved(m.variables, Some([]), m.closed + [m.file.value], emitted, open)
  {
  }

  lemma OpenShelved<V(!new)>(m: Monitor<V>, emitted: seq<Interval<V>>, open: seq<Option<nat>>)
    requires Shelved(m.variables, None, m.closed, emitted, open)
    ensures Shelved(m.variables, Some([]), m.closed, emitted, open)
  {
  }

  ghost predicate FilesMatch<V>(m: Monitor<V>, ops: seq<Op<V>>) {
    (m.file.Some? <==> FileIsOpen(ops)) && FilesOpened(ops) == |m.closed| + if m.file.Some? then 1 else 0
  }

  lemma StepShelved<V(!new)>(
      kind: Kind, m: Monitor<V>, emitted: seq<Interval<V>>, open: seq<Option<nat>>, front: seq<Op<V>>, op: Op<V>)
    requires Shelved(m.variables, m.file, m.closed, emitted, open) && FilesMatch(m, front)
    ensures var (n, e) := Step(kind, m, op);
      && Shelved(n.variables, n.file, n.closed, emitted + e, open + Repeated(OpenFile(front), |e|))
      && FilesMatch(n, front + [op])
  {
    var (n, e) := Step(kind, m, op);
    assert (front + [op])[..|front|] == front;
    if e == [] {
      assert emitted + e == emitted && open + Repeated(OpenFile(front), 0) == open;
      if m.file.Some? { CloseShelved(m, emitted, open); } else { OpenShelved(m, emitted, open); }
    } else {
      var r := e[0];
      assert e == [r] && Repeated(OpenFile(front), 1) == [OpenFile(front)];
      PushShelved(m, emitted, open, r);
      if op.SetFile? || op.ClearFile? { CloseShelved(Push(m, r), emitted + [r], open + [OpenFile(front)]); }
    }
  }

  lemma {:induction false} RunShelved<V(!new)>(kind: Kind, m: Monitor<V>, ops: seq<Op<V>>)
    requires m.variables == [] && m.file == None && m.closed == []
    ensures var (after, emitted) := Run(kind, m, ops);
      && Shelved(after.variables, after.file, after.closed, emitted, OpenAtEmission(kind, m, ops))
      && FilesMatch(after, ops)
  {
    if ops != [] {
      var front := ops[..|ops| - 1];
      RunShelved(kind, m, front);
      var (before, emitted) := Run(kind, m, front);
      StepShelved(kind, before, emitted, OpenAtEmission(kind, m, front), front, ops[|ops| - 1]);
      assert front + [ops[|ops| - 1]] == ops;
    }
  }

  /** For both monitors and all calls: a record that is emitted while a file is open is in that file, together with
      everything that was held in memory before it, and memory holds exactly the records that were emitted since
      the last such moment.  The files are numbered in the order in which they were opened. */
  lemma RecordsAreFiled<V(!new)>(kind: Kind, m: Monitor<V>, ops: seq<Op<V>>)
    requires m.variables == [] && m.file == None && m.closed == []
    ensures var (after, emitted) := Run(kind, m, ops);
      var open := OpenAtEmission(kind, m, ops);
      && |open| == |emitted| && after.variables == Bound(emitted, open, None)
      && (forall n | 0 <= n < |after.closed| :: after.closed[n] == Bound(emitted, open, Some(n)))
      && (after.file.Some? ==> after.file.value == Bound(emitted, open, Some(|after.closed|)))
      && (after.file.Some? <==> FileIsOpen(ops))
      && FilesOpened(ops) == |after.closed| + (if FileIsOpen(ops) then 1 else 0)
  {
    RunShelved(kind, m, ops);
  }

  /** Closing a file.  The any-typed monitor writes everything, the current interval last, and starts afresh at
      time zero; the other one keeps its memory and its current interval, which goes on in the next file. */
  lemma ClearThenUpdate<V>(kind: Kind, m: Monitor<V>, t: Time, v: V)
    requires m.file.Some?
    ensures var (c, _) := Clear(kind, m);
      var (n, e, ok) := Updated(kind, c, t, v);
      && c.file.None? && |c.closed| == |m.closed| + 1
      && (kind.AnyTyped? ==>
            && c.closed[|m.closed|] == m.file.value + m.variables + [Interval(m.start, m.end, m.value)]
            && c.variables == []
            && (ok <==> 0 <= t) && e == [] && (ok ==> n.valid && n.start == n.end == t && n.value == v))
      && (kind.Typed? ==>
            && c.closed[|m.closed|] == m.file.value && c.variables == m.variables
            && (ok <==> m.end <= t) && (ok && m.valid && m.value == v ==> n.start == m.start && n.end == t && e == []))
  {
  }

  // ----- The history -----

  /** Emitted records and the current interval. */
  function History<V>(m: Monitor<V>, emitted: seq<Interval<V>>): seq<Interval<V>> {
    emitted + (if m.valid then [Interval(m.start, m.end, m.value)] else [])
  }

  ghost predicate Disjoint<V>(h: seq<Interval<V>>) {
    (forall i | 0 <= i < |h| :: h[i].start <= h[i].end) && forall i, j | 0 <= i < j < |h| :: h[i].end < h[j].start
  }

  function Lookup<V>(h: seq<Interval<V>>, t: Time): Option<V> {
    if h == [] then None
    else
      var r := h[|h| - 1];
      if r.start <= t <= r.end then Some(r.value) else Lookup(h[..|h| - 1], t)
  }

  lemma LookupLast<V>(h: seq<Interval<V>>, r: Interval<V>, t: Time)
    ensures Lookup(h + [r], t) == if r.start <= t <= r.end then Some(r.value) else Lookup(h, t)
  {
    assert (h + [r])[..|h|] == h;
  }

  // ----- What the client has told the monitor -----

  /** The view of a client: the time of its last accepted call, the value that holds since then, the last value
      that ever held, the end of the last interval that was closed, and whether a file is open. */
  datatype Client<V> = Client(end: Time, value: Option<V>, last: V, closed: Option<Time>, filed: bool)

  /** Construction with a value or without one; `unset` is what the variable holds in the latter case. */
  function NewClient<V>(start: Time, init: Option<V>, unset: V): Client<V> {
    Client(start, init, if init.Some? then init.value else unset, None, false)
  }

  function Constructed<V>(start: Time, init: Option<V>, unset: V): Monitor<V> {
    NewMonitor(start, if init.Some? then init.value else unset, init.Some?)
  }

  /** Where the current interval ends when something else holds from `t` on. */
  function ClosedAt<V>(kind: Kind, c: Client<V>, t: Time): Time {
    if kind.AnyTyped? then Max(c.end, Before(t)) else c.end
  }

  predicate Closes<V>(kind: Kind, c: Client<V>, op: Op<V>) {
    kind.AnyTyped? && c.filed && (op.SetFile? || op.ClearFile?)
  }

  function Tell<V(==)>(kind: Kind, c: Client<V>, op: Op<V>): Client<V> {
    match op
    case Update(t, v) =>
      if c.end > t then c
      else
        var closed := if c.value.Some? && c.value != Some(v) then Some(ClosedAt(kind, c, t)) else c.closed;
        Client(t, Some(v), v, closed, c.filed)
    case Invalidate(t) =>
      if c.end > t || c.value.None? then c else c.(end := t, value := None, closed := Some(ClosedAt(kind, c, t)))
    case SetFile => (if Closes(kind, c, op) then Client(0, None, c.last, Some(c.end), true) else c).(filed := true)
    case ClearFile => (if Closes(kind, c, op) then Client(0, None, c.last, Some(c.end), true) else c).(filed := false)
  }

  function Told<V(==)>(kind: Kind, c: Client<V>, ops: seq<Op<V>>): Client<V> {
    if ops == [] then c else Tell(kind, Told(kind, c, ops[..|ops| - 1]), ops[|ops| - 1])
  }

  /** What one more call says about time `t`; `before` is what was said so far.  A sample says what holds at its
      own time.  The any-typed monitor also takes it that the former value held in between; the other one takes
      it only if the sample repeats that value.  Changes of file say nothing. */
  function Says<V(==)>(kind: Kind, c: Client<V>, op: Op<V>, t: Time, before: Option<V>): Option<V> {
    match op
    case Update(u, v) =>
      if c.end > u then before
      else if t == u then Some(v)
      else if c.value.Some? && c.end < t < u && (kind.AnyTyped? || c.value == Some(v)) then c.value
      else before
    case Invalidate(u) =>
      if c.end > u || c.value.None? then before
      else if t == u then None
      else if kind.AnyTyped? && c.end < t < u then c.value
      else before
    case SetFile => before
    case ClearFile => before
  }

  /** The last thing that was said about time `t`. */
  function Said<V(==)>(kind: Kind, c: Client<V>, ops: seq<Op<V>>, t: Time): Option<V> {
    if ops == [] then if t == c.end then c.value else None
    else
      var n := |ops| - 1;
      Says(kind, Told(kind, c, ops[..n]), ops[n], t, Said(kind, c, ops[..n], t))
  }

  /** The monitor and its records, as the client sees them. */
  ghost predicate Matches<V>(m: Monitor<V>, emitted: seq<Interval<V>>, c: Client<V>) {
    && m.end == c.end && m.start <= m.end && (m.valid <==> c.value.Some?) && m.value == c.last
    && (m.valid ==> c.value == Some(m.value)) && (!m.valid ==> m.start == m.end)
    && (m.file.Some? <==> c.filed)
    && (emitted == [] <==> c.closed == None) && (emitted != [] ==> c.closed == Some(emitted[|emitted| - 1].end))
    && forall i | 0 <= i < |emitted| :: emitted[i].start <= emitted[i].end
  }

  lemma StepMatches<V>(kind: Kind, m: Monitor<V>, emitted: seq<Interval<V>>, c: Client<V>, op: Op<V>)
    requires Matches(m, emitted, c)
    ensures var (n, e) := Step(kind, m, op); Matches(n, emitted + e, Tell(kind, c, op))
  {
    if op.Update? || op.Invalidate? {
      SampleMatches(kind, m, emitted, c, op);
    } else {
      FileMatches(kind, m, emitted, c, op);
    }
  }

  lemma SampleMatches<V>(kind: Kind, m: Monitor<V>, emitted: seq<Interval<V>>, c: Client<V>, op: Op<V>)
    requires Matches(m, emitted, c) && (op.Update? || op.Invalidate?)
    ensures var (n, e) := Step(kind, m, op); Matches(n, emitted + e, Tell(kind, c, op))
  {
    var (n, e) := Step(kind, m, op);
    if e == [] { assert emitted + e == emitted; } else { assert e == [Current(kind, m, op.time)]; }
  }

  lemma FileMatches<V>(kind: Kind, m: Monitor<V>, emitted: seq<Interval<V>>, c: Client<V>, op: Op<V>)
    requires Matches(m, emitted, c) && (op.SetFile? || op.ClearFile?)
    ensures var (n, e) := Step(kind, m, op); Matches(n, emitted + e, Tell(kind, c, op))
  {
    var (n, e) := Step(kind, m, op);
    if e == [] { assert emitted + e == emitted; }
  }

  lemma {:induction false} RunMatches<V>(kind: Kind, start: Time, init: Option<V>, unset: V, ops: seq<Op<V>>)
    ensures var (m, emitted) := Run(kind, Constructed(start, init, unset), ops);
      Matches(m, emitted, Told(kind, NewClient(start, init, unset), ops))
  {
    if ops != [] {
      var n := |ops| - 1;
      RunMatches(kind, start, init, unset, ops[..n]);
      var (m, emitted) := Run(kind, Constructed(start, init, unset), ops[..n]);
      StepMatches(kind, m, emitted, Told(kind, NewClient(start, init, unset), ops[..n]), ops[n]);
    }
  }

  /** After any calls: an update or an invalidation is accepted if and only if it comes no earlier than the last
      accepted call, and one that is refused changes nothing and emits nothing. */
  lemma AnswersIff<V>(kind: Kind, start: Time, init: Option<V>, unset: V, ops: seq<Op<V>>, t: Time, v: V)
    ensures var m := Run(kind, Constructed(start, init, unset), ops).0;
      var (n, e, updated) := Updated(kind, m, t, v);
      var (n', e', invalidated) := SetInvalid(kind, m, t);
      && (updated <==> Told(kind, NewClient(start, init, unset), ops).end <= t) && (invalidated <==> updated)
      && (!updated ==> n == m && e == [] && n' == m && e' == [])
  {
    RunMatches(kind, start, init, unset, ops);
  }

  // ----- The history against what was said -----

  /** The call makes the history wrong: it invalidates a time about which a value was already told, or it closes
      the file of an any-typed monitor while nothing is valid, which emits the last value for a time of which
      something else was said. */
  predicate Spoils<V(==)>(kind: Kind, c: Client<V>, ops: seq<Op<V>>, op: Op<V>) {
    var now := Told(kind, c, ops);
    match op
    case Update(_, _) => false
    case Invalidate(t) => now.value.Some? && now.end <= t && Said(kind, c, ops, t).Some?
    case SetFile => Closes(kind, now, op) && now.value.None? && Said(kind, c, ops, now.end) != Some(now.last)
    case ClearFile => Closes(kind, now, op) && now.value.None? && Said(kind, c, ops, now.end) != Some(now.last)
  }

  predicate EverSpoils<V(==)>(kind: Kind, c: Client<V>, ops: seq<Op<V>>) {
    ops != [] &&
    (EverSpoils(kind, c, ops[..|ops| - 1]) || Spoils(kind, c, ops[..|ops| - 1], ops[|ops| - 1]))
  }

  /** What the history shows of time `t` after one more call. */
  function Shows<V(==)>(kind: Kind, c: Client<V>, op: Op<V>, t: Time, before: Option<V>): Option<V> {
    match op
    case Update(_, _) => Says(kind, c, op, t, before)
    case Invalidate(u) => if t == u then before else Says(kind, c, op, t, before)
    case SetFile => if Closes(kind, c, op) && c.value.None? && t == c.end then Some(c.last) else before
    case ClearFile => if Closes(kind, c, op) && c.value.None? && t == c.end then Some(c.last) else before
  }

  function Held<V>(m: Monitor<V>): Interval<V> { Interval(m.start, m.end, m.value) }

  lemma UpdateShows<V>(kind: Kind, m: Monitor<V>, emitted: seq<Interval<V>>, c: Client<V>, op: Op<V>, t: Time)
    requires Matches(m, emitted, c) && op.Update?
    ensures var (n, e) := Step(kind, m, op);
      Lookup(History(n, emitted + e), t) == Shows(kind, c, op, t, Lookup(History(m, emitted), t))
  {
    var (n, e) := Step(kind, m, op);
    if m.valid { LookupLast(emitted, Held(m), t); } else { assert History(m, emitted) == emitted; }
    if e == [] {
      assert emitted + e == emitted;
      if m.end <= op.time { LookupLast(emitted, Held(n), t); }
    } else {
      assert History(n, emitted + e) == (emitted + e) + [Held(n)];
      LookupLast(emitted + e, Held(n), t);
      LookupLast(emitted, e[0], t);
      ReplaceShows(kind, m, c, op, t, Lookup(emitted, t));
    }
  }

  /** The interval that is closed and the one that is opened, against the one before. */
  lemma ReplaceShows<V>(kind: Kind, m: Monitor<V>, c: Client<V>, op: Op<V>, t: Time, before: Option<V>)
    requires op.Update? && m.start <= m.end == c.end <= op.time && m.valid && c.value == Some(m.value) &&
             m.value != op.value
    ensures var r := Current(kind, m, op.time);
      (if t == op.time then Some(op.value) else if r.start <= t <= r.end then Some(r.value) else before) ==
      Shows(kind, c, op, t, if m.start <= t <= m.end then Some(m.value) else before)
  {
  }

  lemma InvalidateShows<V>(kind: Kind, m: Monitor<V>, emitted: seq<Interval<V>>, c: Client<V>, op: Op<V>, t: Time)
    requires Matches(m, emitted, c) && op.Invalidate?
    ensures var (n, e) := Step(kind, m, op);
      Lookup(History(n, emitted + e), t) == Shows(kind, c, op, t, Lookup(History(m, emitted), t))
  {
    var (n, e) := Step(kind, m, op);
    if e == [] {
      assert emitted + e == emitted && n == m;
    } else {
      assert m.valid && e == [Current(kind, m, op.time)] && History(n, emitted + e) == emitted + e;
      LookupLast(emitted, Held(m), t);
      LookupLast(emitted, e[0], t);
      CutShows(kind, m, c, op, t, Lookup(emitted, t));
    }
  }

  /** The interval that is closed, against the one before. */
  lemma CutShows<V>(kind: Kind, m: Monitor<V>, c: Client<V>, op: Op<V>, t: Time, before: Option<V>)
    requires op.Invalidate? && m.start <= m.end == c.end <= op.time && m.valid && c.value == Some(m.value)
    ensures var r := Current(kind, m, op.time);
      (if r.start <= t <= r.end then Some(r.value) else before) ==
      Shows(kind, c, op, t, if m.start <= t <= m.end then Some(m.value) else before)
  {
  }

  lemma FileShows<V>(kind: Kind, m: Monitor<V>, emitted: seq<Interval<V>>, c: Client<V>, op: Op<V>, t: Time)
    requires Matches(m, emitted, c) && (op.SetFile? || op.ClearFile?)
    ensures var (n, e) := Step(kind, m, op);
      Lookup(History(n, emitted + e), t) == Shows(kind, c, op, t, Lookup(History(m, emitted), t))
  {
    var (n, e) := Step(kind, m, op);
    if Closes(kind, c, op) {
      LookupLast(emitted, Held(m), t);
      assert e == [Held(m)] && History(n, emitted + e) == emitted + [Held(m)];
      if !m.valid { assert History(m, emitted) == emitted; }
    } else {
      assert emitted + e == emitted;
    }
  }

  lemma StepShows<V>(kind: Kind, m: Monitor<V>, emitted: seq<Interval<V>>, c: Client<V>, op: Op<V>, t: Time)
    requires Matches(m, emitted, c)
    ensures var (n, e) := Step(kind, m, op);
      Lookup(History(n, emitted + e), t) == Shows(kind, c, op, t, Lookup(History(m, emitted), t))
  {
    match op {
      case Update(_, _) => UpdateShows(kind, m, emitted, c, op, t);
      case Invalidate(_) => InvalidateShows(kind, m, emitted, c, op, t);
      case SetFile => FileShows(kind, m, emitted, c, op, t);
      case ClearFile => FileShows(kind, m, emitted, c, op, t);
    }
  }

  /** Looking up any time gives what was said about it. */
  ghost predicate Right<V(!new)>(kind: Kind, start: Time, init: Option<V>, unset: V, ops: seq<Op<V>>) {
    var (m, emitted) := Run(kind, Constructed(start, init, unset), ops);
    forall t: Time {:trigger Lookup(History(m, emitted), t)} ::
      Lookup(History(m, emitted), t) == Said(kind, NewClient(start, init, unset), ops, t)
  }

  /** ... after every call of the run. */
  ghost predicate AlwaysRight<V(!new)>(kind: Kind, start: Time, init: Option<V>, unset: V, ops: seq<Op<V>>) {
    Right(kind, start, init, unset, ops) && (ops != [] ==> AlwaysRight(kind, start, init, unset, ops[..|ops| - 1]))
  }

  lemma RunLookup<V>(kind: Kind, start: Time, init: Option<V>, unset: V, ops: seq<Op<V>>, t: Time)
    requires ops != []
    ensures var n := |ops| - 1;
      var (m, emitted) := Run(kind, Constructed(start, init, unset), ops[..n]);
      var (m', emitted') := Run(kind, Constructed(start, init, unset), ops);
      Lookup(History(m', emitted'), t) ==
      Shows(kind, Told(kind, NewClient(start, init, unset), ops[..n]), ops[n], t, Lookup(History(m, emitted), t))
  {
    var n := |ops| - 1;
    RunMatches(kind, start, init, unset, ops[..n]);
    var (m, emitted) := Run(kind, Constructed(start, init, unset), ops[..n]);
    StepShows(kind, m, emitted, Told(kind, NewClient(start, init, unset), ops[..n]), ops[n], t);
  }

  /** One more call on a right history. */
  lemma RightStep<V(!new)>(kind: Kind, start: Time, init: Option<V>, unset: V, ops: seq<Op<V>>)
    requires ops != [] && Right(kind, start, init, unset, ops[..|ops| - 1])
    ensures Right(kind, start, init, unset, ops) <==>
            !Spoils(kind, NewClient(start, init, unset), ops[..|ops| - 1], ops[|ops| - 1])
  {
    var n := |ops| - 1;
    var first := NewClient(start, init, unset);
    var front, op := ops[..n], ops[n];
    var now := Told(kind, first, front);
    var (m, emitted) := Run(kind, Constructed(start, init, unset), front);
    var (m', emitted') := Run(kind, Constructed(start, init, unset), ops);
    forall t: Time
      ensures Lookup(History(m', emitted'), t) == Shows(kind, now, op, t, Said(kind, first, front, t))
    {
      RunLookup(kind, start, init, unset, ops, t);
      assert Lookup(History(m, emitted), t) == Said(kind, first, front, t);
    }
    if Spoils(kind, first, front, op) {
      var p := if op.Invalidate? then op.time else now.end;
      assert Lookup(History(m', emitted'), p) != Said(kind, first, ops, p);
    }
  }

  /** For all calls, of both monitors, constructed with or without a value: the history is right after every call
      exactly when no call spoils it. */
  lemma {:induction false} HistoryIsRightIff<V(!new)>(
      kind: Kind, start: Time, init: Option<V>, unset: V, ops: seq<Op<V>>)
    ensures AlwaysRight(kind, start, init, unset, ops) <==> !EverSpoils(kind, NewClient(start, init, unset), ops)
  {
    if ops == [] {
      Started(kind, start, init, unset);
    } else {
      HistoryIsRightIff(kind, start, init, unset, ops[..|ops| - 1]);
      if AlwaysRight(kind, start, init, unset, ops[..|ops| - 1]) {
        assert Right(kind, start, init, unset, ops[..|ops| - 1]);
        RightStep(kind, start, init, unset, ops);
      }
    }
  }

  lemma Started<V(!new)>(kind: Kind, start: Time, init: Option<V>, unset: V)
    ensures Right(kind, start, init, unset, [])
  {
    var m := Constructed(start, init, unset);
    forall t: Time ensures Lookup(History(m, []), t) == Said(kind, NewClient(start, init, unset), [], t) {
      if m.valid { LookupLast([], Held(m), t); }
    }
  }

  /** It happens: a value at 5, a file, an invalidation at 6, the file closed.  The history shows the value at 6. */
  lemma CloseShowsInvalid(kind: Kind)
    requires kind.AnyTyped?
    ensures var ops := [Update(5, 7), SetFile, Invalidate(6), ClearFile];
      var (m, emitted) := Run(kind, Constructed(0, None, 0), ops);
      Lookup(History(m, emitted), 6) == Some(7) && Said(kind, NewClient(0, None, 0), ops, 6) == None
  {
    var ops := [Update(5, 7), SetFile, Invalidate(6), ClearFile];
    var m0: Monitor<int> := Constructed(0, None, 0);
    FourCalls(kind, m0, ops);
    var (m, emitted) := Run(kind, m0, ops);
    var five, six := Interval(5, 5, 7), Interval(6, 6, 7);
    assert emitted == [five] + [six] && History(m, emitted) == [five] + [six];
    LookupLast([five], six, 6);
    assert ops[..3][..2] == ops[..2] && ops[..2][..1] == ops[..1] && ops[..1][..0] == [];
    var c0 := NewClient(0, None, 0);
    assert Told(kind, c0, ops[..1]) == Tell(kind, c0, ops[0]);
    assert Told(kind, c0, ops[..2]) == Tell(kind, Told(kind, c0, ops[..1]), ops[1]);
    assert Said(kind, c0, ops[..3], 6) == None;
  }

  lemma FourCalls<V>(kind: Kind, m: Monitor<V>, ops: seq<Op<V>>)
    requires |ops| == 4
    ensures var (m1, e1) := Step(kind, m, ops[0]);
      var (m2, e2) := Step(kind, m1, ops[1]);
      var (m3, e3) := Step(kind, m2, ops[2]);
      var (m4, e4) := Step(kind, m3, ops[3]);
      Run(kind, m, ops) == (m4, (e1 + e2) + e3 + e4)
  {
    assert ops[..3][..2] == ops[..2] && ops[..2][..1] == ops[..1] && ops[..1][..0] == [];
    assert Run(kind, m, ops[..0]) == (m, []);
    var (m1, e1) := Step(kind, m, ops[0]);
    assert Run(kind, m, ops[..1]) == (m1, [] + e1) && [] + e1 == e1;
    var (m2, e2) := Step(kind, m1, ops[1]);
    assert Run(kind, m, ops[..2]) == (m2, e1 + e2);
    var (m3, e3) := Step(kind, m2, ops[2]);
    assert Run(kind, m, ops[..3]) == (m3, (e1 + e2) + e3);
  }

  // ----- Disjointness -----

  /** The end of the last interval of the history. */
  function LastEnd<V>(c: Client<V>): Option<Time> { if c.value.Some? then Some(c.end) else c.closed }

  /** The call adds an interval that starts no later than the last one ends: an update that opens one, or a file
      of an any-typed monitor that is closed while nothing is valid. */
  predicate Overlaps<V(==)>(kind: Kind, c: Client<V>, op: Op<V>) {
    var adds :=
      if op.Update? then c.end <= op.time && c.value != Some(op.value)
      else Closes(kind, c, op) && c.value.None?;
    adds && LastEnd(c).Some? && (if op.Update? then op.time else c.end) <= LastEnd(c).value
  }

  predicate EverOverlaps<V(==)>(kind: Kind, c: Client<V>, ops: seq<Op<V>>) {
    ops != [] &&
    (EverOverlaps(kind, c, ops[..|ops| - 1]) || Overlaps(kind, Told(kind, c, ops[..|ops| - 1]), ops[|ops| - 1]))
  }

  ghost predicate InOrder<V>(h: seq<Interval<V>>) {
    forall i, j | 0 <= i < j < |h| :: h[i].end < h[j].start
  }

  ghost predicate EndBefore<V>(h: seq<Interval<V>>, t: Time) {
    forall i | 0 <= i < |h| :: h[i].end < t
  }

  /** `Disjoint`, in two parts. */
  ghost predicate Strict<V>(m: Monitor<V>, emitted: seq<Interval<V>>) {
    InOrder(emitted) && (m.valid ==> EndBefore(emitted, m.start))
  }

  lemma DisjointMeans<V>(m: Monitor<V>, emitted: seq<Interval<V>>, c: Client<V>)
    requires Matches(m, emitted, c)
    ensures Disjoint(History(m, emitted)) <==> Strict(m, emitted)
  {
    var h := History(m, emitted);
    assert forall i | 0 <= i < |emitted| :: h[i] == emitted[i];
    if m.valid { assert h[|emitted|].start == m.start; }
  }

  /** One more interval. */
  lemma OneMore<V>(emitted: seq<Interval<V>>, r: Interval<V>, t: Time)
    ensures InOrder(emitted + [r]) <==> InOrder(emitted) && EndBefore(emitted, r.start)
    ensures EndBefore(emitted + [r], t) <==> EndBefore(emitted, t) && r.end < t
  {
    var all := emitted + [r];
    assert all[|emitted|] == r && forall i | 0 <= i < |emitted| :: all[i] == emitted[i];
  }

  lemma LastIsLargest<V>(emitted: seq<Interval<V>>, t: Time)
    requires emitted != [] && InOrder(emitted) && forall i | 0 <= i < |emitted| :: emitted[i].start <= emitted[i].end
    ensures EndBefore(emitted, t) <==> emitted[|emitted| - 1].end < t
  {
  }

  lemma EndBeforeLater<V>(emitted: seq<Interval<V>>, t: Time, u: Time)
    requires EndBefore(emitted, t) && t <= u
    ensures EndBefore(emitted, u)
  {
  }

  /** An update closes the current interval and opens another one ... */
  lemma ReplaceStrict<V>(m: Monitor<V>, emitted: seq<Interval<V>>, r: Interval<V>, t: Time)
    requires m.valid && r.start == m.start && m.start <= t
    ensures InOrder(emitted + [r]) && EndBefore(emitted + [r], t) <==> Strict(m, emitted) && r.end < t
  {
    OneMore(emitted, r, t);
    if EndBefore(emitted, m.start) { EndBeforeLater(emitted, m.start, t); }
  }

  lemma UpdateStrict<V>(kind: Kind, m: Monitor<V>, emitted: seq<Interval<V>>, c: Client<V>, op: Op<V>)
    requires Matches(m, emitted, c) && op.Update?
    ensures var (n, e) := Step(kind, m, op); Strict(n, emitted + e) <==> Strict(m, emitted) && !Overlaps(kind, c, op)
  {
    var (n, e) := Step(kind, m, op);
    if e == [] {
      assert emitted + e == emitted;
      if emitted != [] && InOrder(emitted) { LastIsLargest(emitted, op.time); }
    } else {
      assert emitted + e == emitted + [e[0]] && n.start == op.time && n.valid;
      ReplaceStrict(m, emitted, e[0], op.time);
      assert e[0].end < op.time <==> !Overlaps(kind, c, op);
    }
  }

  /** ... and an invalidation only closes it. */
  lemma InvalidateStrict<V>(kind: Kind, m: Monitor<V>, emitted: seq<Interval<V>>, c: Client<V>, op: Op<V>)
    requires Matches(m, emitted, c) && op.Invalidate?
    ensures var (n, e) := Step(kind, m, op); Strict(n, emitted + e) <==> Strict(m, emitted) && !Overlaps(kind, c, op)
  {
    var (n, e) := Step(kind, m, op);
    assert !Overlaps(kind, c, op);
    if e == [] {
      assert emitted + e == emitted;
    } else {
      assert emitted + e == emitted + [e[0]] && !n.valid && e[0].start == m.start;
      OneMore(emitted, e[0], m.start);
    }
  }

  lemma FileStrict<V>(kind: Kind, m: Monitor<V>, emitted: seq<Interval<V>>, c: Client<V>, op: Op<V>)
    requires Matches(m, emitted, c) && (op.SetFile? || op.ClearFile?)
    ensures var (n, e) := Step(kind, m, op); Strict(n, emitted + e) <==> Strict(m, emitted) && !Overlaps(kind, c, op)
  {
    var (n, e) := Step(kind, m, op);
    if Closes(kind, c, op) {
      assert e == [Held(m)] && !n.valid;
      OneMore(emitted, Held(m), m.start);
      if !m.valid { ClosedIsEnd(m, emitted, c); }
    } else {
      assert e == [] && emitted + e == emitted;
    }
  }

  lemma ClosedIsEnd<V>(m: Monitor<V>, emitted: seq<Interval<V>>, c: Client<V>)
    requires Matches(m, emitted, c) && !m.valid
    ensures InOrder(emitted) ==> (EndBefore(emitted, m.start) <==> c.closed == None || c.closed.value < c.end)
  {
    if emitted != [] && InOrder(emitted) { LastIsLargest(emitted, c.end); }
  }

  lemma StrictStep<V>(kind: Kind, m: Monitor<V>, emitted: seq<Interval<V>>, c: Client<V>, op: Op<V>)
    requires Matches(m, emitted, c)
    ensures var (n, e) := Step(kind, m, op); Strict(n, emitted + e) <==> Strict(m, emitted) && !Overlaps(kind, c, op)
  {
    match op {
      case Update(_, _) => UpdateStrict(kind, m, emitted, c, op);
      case Invalidate(_) => InvalidateStrict(kind, m, emitted, c, op);
      case SetFile => FileStrict(kind, m, emitted, c, op);
      case ClearFile => FileStrict(kind, m, emitted, c, op);
    }
  }

  /** For all calls, of both monitors, constructed with or without a value: the intervals of the history are in
      order and apart exactly when no call adds one that starts no later than the last one ends. */
  lemma {:induction false} DisjointIff<V>(kind: Kind, start: Time, init: Option<V>, unset: V, ops: seq<Op<V>>)
    ensures var (m, emitted) := Run(kind, Constructed(start, init, unset), ops);
      Disjoint(History(m, emitted)) <==> !EverOverlaps(kind, NewClient(start, init, unset), ops)
  {
    var (m, emitted) := Run(kind, Constructed(start, init, unset), ops);
    var c := NewClient(start, init, unset);
    RunMatches(kind, start, init, unset, ops);
    DisjointMeans(m, emitted, Told(kind, c, ops));
    if ops != [] {
      var n := |ops| - 1;
      DisjointIff(kind, start, init, unset, ops[..n]);
      var (front, before) := Run(kind, Constructed(start, init, unset), ops[..n]);
      RunMatches(kind, start, init, unset, ops[..n]);
      DisjointMeans(front, before, Told(kind, c, ops[..n]));
      StrictStep(kind, front, before, Told(kind, c, ops[..n]), ops[n]);
    }
  }

  /** It fails: a value at 5, a file that is opened and closed, and a value at 3, which is accepted. */
  lemma CloseTurnsTimeBack(kind: Kind)
    requires kind.AnyTyped?
    ensures var (m, emitted) := Run(kind, Constructed(0, None, 0), [Update(5, 7), SetFile, ClearFile, Update(3, 8)]);
      !Disjoint(History(m, emitted)) && m.valid && m.value == 8
  {
    var ops := [Update(5, 7), SetFile, ClearFile, Update(3, 8)];
    var m0: Monitor<int> := Constructed(0, None, 0);
    FourCalls(kind, m0, ops);
    var (m, emitted) := Run(kind, m0, ops);
    var h := History(m, emitted);
    assert h == [Interval(5, 5, 7), Interval(3, 3, 8)];
    assert h[0].end >= h[1].start;
  }

  // ----- Samples in the order of their times -----

  /** A sample: a value, or None for an invalidation. */
  datatype Sample<V> = Sample(time: Time, value: Option<V>)

  function OpOf<V>(s: Sample<V>): Op<V> {
    match s.value case None => Invalidate(s.time) case Some(v) => Update(s.time, v)
  }

  function Ops<V>(samples: seq<Sample<V>>): seq<Op<V>> {
    seq(|samples|, i requires 0 <= i < |samples| => OpOf(samples[i]))
  }

  ghost predicate Increasing<V>(samples: seq<Sample<V>>) {
    forall i, j | 0 <= i < j < |samples| :: samples[i].time < samples[j].time
  }

  /** What samples say about a time up to the last of them: the value of the last sample at or before it, as far
      as the kind of monitor takes a value to hold between two samples. */
  function Sampled<V(==)>(kind: Kind, samples: seq<Sample<V>>, t: Time): Option<V> {
    if samples == [] then None
    else
      var n := |samples| - 1;
      if samples[n].time <= t then samples[n].value
      else if n > 0 && samples[n - 1].time < t then
        if kind.AnyTyped? || samples[n - 1].value == samples[n].value then samples[n - 1].value else None
      else Sampled(kind, samples[..n], t)
  }

  /** A construction with a value counts as a sample. */
  function WithStart<V>(start: Time, init: Option<V>, samples: seq<Sample<V>>): seq<Sample<V>> {
    (if init.Some? then [Sample(start, init)] else []) + samples
  }

  /** After increasing samples: the value of the last one holds since its time, nothing is said about later times,
      and no call has spoiled the history. */
  ghost predicate UpToDate<V(!new)>(kind: Kind, c: Client<V>, ops: seq<Op<V>>, all: seq<Sample<V>>) {
    var now := Told(kind, c, ops);
    && !EverSpoils(kind, c, ops) && !EverOverlaps(kind, c, ops)
    && (now.closed.Some? && now.value.None? ==> all != [] && now.closed.value < all[|all| - 1].time)
    && (all != [] ==> now.value == all[|all| - 1].value && now.end <= all[|all| - 1].time)
    && (all != [] && now.value.Some? ==> now.end == all[|all| - 1].time)
    && (all == [] ==> now.value == None && now.end == c.end)
    && (forall t: Time | all == [] || all[|all| - 1].time < t :: Said(kind, c, ops, t) == None)
    && (forall t: Time | all != [] && t <= all[|all| - 1].time :: Said(kind, c, ops, t) == Sampled(kind, all, t))
  }

  lemma SampleStep<V(!new)>(kind: Kind, c: Client<V>, front: seq<Op<V>>, before: seq<Sample<V>>, s: Sample<V>)
    requires UpToDate(kind, c, front, before) &&
             (if before == [] then c.end <= s.time else before[|before| - 1].time < s.time)
    ensures UpToDate(kind, c, front + [OpOf(s)], before + [s])
  {
    var ops, all := front + [OpOf(s)], before + [s];
    assert ops[..|front|] == front && all[..|before|] == before;
    assert before != [] ==> all[|before| - 1] == before[|before| - 1];
    assert !Spoils(kind, c, front, OpOf(s));
    forall t: Time | t <= s.time ensures Said(kind, c, ops, t) == Sampled(kind, all, t) {
      SampleSays(kind, c, front, before, s, t);
    }
  }

  lemma SampleSays<V(!new)>(kind: Kind, c: Client<V>, front: seq<Op<V>>, before: seq<Sample<V>>, s: Sample<V>, t: Time)
    requires UpToDate(kind, c, front, before) &&
             (if before == [] then c.end <= s.time else before[|before| - 1].time < s.time)
    requires t <= s.time
    ensures Said(kind, c, front + [OpOf(s)], t) == Sampled(kind, before + [s], t)
  {
    var ops, all := front + [OpOf(s)], before + [s];
    assert ops[..|front|] == front && all[..|before|] == before;
    var now, said := Told(kind, c, front), Said(kind, c, front, t);
    assert Said(kind, c, ops, t) == Says(kind, now, OpOf(s), t, said);
    if before == [] {
      assert Sampled(kind, before, t) == None && said == None;
    } else if t <= before[|before| - 1].time {
      assert said == Sampled(kind, before, t) == Sampled(kind, all, t) by {
        assert all[|before| - 1] == before[|before| - 1];
      }
    } else {
      assert said == None && all[|before| - 1] == before[|before| - 1];
    }
  }

  lemma {:induction false} SamplesFrom<V(!new)>(
      kind: Kind, c: Client<V>, front: seq<Op<V>>, before: seq<Sample<V>>, samples: seq<Sample<V>>)
    requires UpToDate(kind, c, front, before) && Increasing(before + samples)
    requires before == [] && samples != [] ==> c.end <= samples[0].time
    ensures UpToDate(kind, c, front + Ops(samples), before + samples)
  {
    if samples == [] {
      assert front + Ops(samples) == front && before + samples == before;
    } else {
      var n := |samples| - 1;
      LaterSample(before, samples);
      SamplesFrom(kind, c, front, before, samples[..n]);
      SampleStep(kind, c, front + Ops(samples[..n]), before + samples[..n], samples[n]);
      OneMoreSample(front, before, samples);
    }
  }

  lemma LaterSample<V>(before: seq<Sample<V>>, samples: seq<Sample<V>>)
    requires samples != [] && Increasing(before + samples)
    ensures var front := before + samples[..|samples| - 1];
      Increasing(front) && (front != [] ==> front[|front| - 1].time < samples[|samples| - 1].time)
  {
    var all, n := before + samples, |samples| - 1;
    var front := before + samples[..n];
    assert front == all[..|front|] && all[|front|] == samples[n];
  }

  lemma OneMoreSample<V>(front: seq<Op<V>>, before: seq<Sample<V>>, samples: seq<Sample<V>>)
    requires samples != []
    ensures var n := |samples| - 1;
      && front + Ops(samples) == (front + Ops(samples[..n])) + [OpOf(samples[n])]
      && before + samples == (before + samples[..n]) + [samples[n]]
  {
    var n := |samples| - 1;
    assert samples == samples[..n] + [samples[n]];
    assert Ops(samples) == Ops(samples[..n]) + [OpOf(samples[n])];
  }

  /** The calls of a client that opens a file, or none, and gives its samples. */
  function Calls<V>(filed: bool, samples: seq<Sample<V>>): seq<Op<V>> {
    (if filed then [SetFile] else []) + Ops(samples)
  }

  lemma SamplesSay<V(!new)>(kind: Kind, start: Time, init: Option<V>, unset: V, filed: bool, samples: seq<Sample<V>>)
    requires Increasing(WithStart(start, init, samples)) && (samples != [] ==> start <= samples[0].time)
    ensures UpToDate(kind, NewClient(start, init, unset), Calls(filed, samples), WithStart(start, init, samples))
  {
    var front: seq<Op<V>> := if filed then [SetFile] else [];
    FirstSample(kind, start, init, unset, filed);
    assert WithStart(start, init, []) + samples == WithStart(start, init, samples);
    SamplesFrom(kind, NewClient(start, init, unset), front, WithStart(start, init, []), samples);
  }

  lemma FirstSample<V(!new)>(kind: Kind, start: Time, init: Option<V>, unset: V, filed: bool)
    ensures UpToDate(kind, NewClient(start, init, unset), if filed then [SetFile] else [], WithStart(start, init, []))
  {
    var c := NewClient(start, init, unset);
    var none: seq<Op<V>> := [];
    var ops: seq<Op<V>> := if filed then [SetFile] else [];
    var all := WithStart(start, init, []);
    assert all == if init.Some? then [Sample(start, init)] else [];
    assert filed ==> ops[..0] == none && Told(kind, c, ops) == c.(filed := true);
    forall t: Time ensures Said(kind, c, ops, t) == if t == start then init else None {
      assert Said(kind, c, none, t) == if t == start then init else None;
    }
    assert !EverSpoils(kind, c, none) && !EverOverlaps(kind, c, none);
    forall t: Time | all != [] && t <= start ensures Sampled(kind, all, t) == if t == start then init else None {
      assert all[..0] == [];
    }
    var now := Told(kind, c, ops);
    assert now.end == start && now.value == init && now.closed == None;
  }

  /** For all strictly increasing samples, with a file or without one, looking up any time up to the last of them
      gives what they say, and the intervals of the history are apart. */
  lemma HistoryRefinesSamples<V(!new)>(
      kind: Kind, start: Time, init: Option<V>, unset: V, filed: bool, samples: seq<Sample<V>>, t: Time)
    requires Increasing(WithStart(start, init, samples)) && (samples != [] ==> start <= samples[0].time)
    requires WithStart(start, init, samples) != []
    requires t <= WithStart(start, init, samples)[|WithStart(start, init, samples)| - 1].time
    ensures var (m, emitted) := Run(kind, Constructed(start, init, unset), Calls(filed, samples));
      Lookup(History(m, emitted), t) == Sampled(kind, WithStart(start, init, samples), t) &&
      Disjoint(History(m, emitted))
  {
    SamplesSay(kind, start, init, unset, filed, samples);
    DisjointIff(kind, start, init, unset, Calls(filed, samples));
    HistoryIsRightIff(kind, start, init, unset, Calls(filed, samples));
    assert Right(kind, start, init, unset, Calls(filed, samples));
  }

  // ----- The file of an any-typed monitor -----

  /** The first file is open. */
  predicate FirstFile<V>(m: Monitor<V>) { m.file.Some? && m.closed == [] }

  /** When the first file is closed it holds the whole history. */
  lemma FileHoldsHistory<V>(start: Time, init: Option<V>, unset: V, ops: seq<Op<V>>)
    requires FirstFile(Run(AnyTyped, Constructed(start, init, unset), ops).0)
    ensures var (m, emitted) := Run(AnyTyped, Constructed(start, init, unset), ops + [ClearFile]);
      m.closed == [emitted] && History(m, emitted) == emitted
  {
    var m0, all := Constructed(start, init, unset), ops + [ClearFile];
    assert all[..|ops|] == ops;
    assert Delivered(m0) == [];
    NothingIsLost(AnyTyped, m0, all);
    var (m, emitted) := Run(AnyTyped, m0, all);
    assert |m.closed| == 1 && m.file == None && m.variables == [] && !m.valid;
    var file := m.closed[0];
    assert Concat(m.closed) == file by { assert m.closed[..0] == [] && [] + file == file; }
    assert emitted == Delivered(m) == (file + []) + [] == file;
  }

  /** Increasing samples, closed while the last of them is a value: no call spoils the history or overlaps. */
  lemma SamplesCloseWell<V(!new)>(start: Time, init: Option<V>, unset: V, samples: seq<Sample<V>>)
    requires Increasing(WithStart(start, init, samples)) && (samples != [] ==> start <= samples[0].time)
    requires var all := WithStart(start, init, samples); all != [] && all[|all| - 1].value.Some?
    ensures var c, ops := NewClient(start, init, unset), Calls(true, samples) + [ClearFile];
      var all := WithStart(start, init, samples);
      && !EverSpoils(AnyTyped, c, ops) && !EverOverlaps(AnyTyped, c, ops)
      && forall t: Time :: Said(AnyTyped, c, ops, t) ==
                           if t <= all[|all| - 1].time then Sampled(AnyTyped, all, t) else None
  {
    SamplesSay(AnyTyped, start, init, unset, true, samples);
    var c, front, all := NewClient(start, init, unset), Calls(true, samples), WithStart(start, init, samples);
    var ops := front + [ClearFile];
    assert ops[..|front|] == front && ops[|front|] == ClearFile;
    assert Told(AnyTyped, c, front).value == all[|all| - 1].value;
    forall t: Time
      ensures Said(AnyTyped, c, ops, t) == if t <= all[|all| - 1].time then Sampled(AnyTyped, all, t) else None
    {
      assert Said(AnyTyped, c, ops, t) == Said(AnyTyped, c, front, t);
    }
    assert EverSpoils(AnyTyped, c, ops) == EverSpoils(AnyTyped, c, front);
    assert EverOverlaps(AnyTyped, c, ops) == EverOverlaps(AnyTyped, c, front);
  }

  // ----- The class -----

  class VariableMonitoring<V(==, 0)> {
    const kind: Kind
    var startTime: Time
    var endTimeInclusive: Time
    var currentValue: V
    var isValueValid: bool
    var variables: seq<Interval<V>>
    var fileSerialized: Option<seq<Interval<V>>>   // what was written to the open file
    var closedFiles: seq<seq<Interval<V>>>

    ghost function Value(): Monitor<V>
      reads this
    {
      Monitor(startTime, endTimeInclusive, currentValue, isValueValid, variables, fileSerialized, closedFiles)
    }

    constructor (kind: Kind, startTime: Time, value: Option<V>, unset: V)
      ensures this.kind == kind
      ensures Value() == NewMonitor(startTime, if value.Some? then value.value else unset, value.Some?)
    {
      this.kind, this.startTime, endTimeInclusive := kind, startTime, startTime;
      currentValue := if value.Some? then value.value else unset;
      isValueValid, variables, fileSerialized, closedFiles := value.Some?, [], None, [];
    }

    /** `_pushRecordNonRecursive`. */
    method Write(r: Interval<V>)
      modifies this`variables, this`fileSerialized
      ensures variables == if old(fileSerialized).Some? then old(variables) else old(variables) + [r]
      ensures fileSerialized == if old(fileSerialized).Some? then Some(old(fileSerialized).value + [r]) else None
    {
      if fileSerialized.Some? {
        fileSerialized := Some(fileSerialized.value + [r]);
      } else {
        variables := variables + [r];
      }
    }

    method PushRecord(r: Interval<V>)
      modifies this`variables, this`fileSerialized
      ensures Value() == Push(old(Value()), r)
    {
      if variables != [] && fileSerialized.Some? {
        for i := 0 to |variables|
          invariant variables == old(variables) && fileSerialized.Some?
          invariant fileSerialized.value == old(fileSerialized.value) + variables[..i]
        {
          Write(variables[i]);
        }
        assert variables[..|variables|] == variables;
        variables := [];
      }
      assert old(variables) == [] && fileSerialized.Some? ==> fileSerialized.value + [] == fileSerialized.value;
      Write(r);
    }

    method UpdateValue(t: Time, value: V) returns (ok: bool)
      modifies this
      ensures var (m, _, accepted) := Updated(kind, old(Value()), t, value); Value() == m && ok == accepted
    {
      if endTimeInclusive > t { return false; }
      if !isValueValid {
        startTime, endTimeInclusive, currentValue, isValueValid := t, t, value, true;
      } else if currentValue == value {
        endTimeInclusive := t;
      } else {
        PushRecord(Interval(startTime, ClosingEnd(t), currentValue));
        startTime, endTimeInclusive, currentValue, isValueValid := t, t, value, true;
      }
      ok := true;
    }

    function ClosingEnd(t: Time): Time
      reads this
    {
      if kind.AnyTyped? then Max(endTimeInclusive, Before(t)) else endTimeInclusive
    }

    method SetInvalidValue(t: Time) returns (ok: bool)
      modifies this
      ensures var (m, _, accepted) := SetInvalid(kind, old(Value()), t); Value() == m && ok == accepted
    {
      if endTimeInclusive > t { return false; }
      if isValueValid {
        PushRecord(Interval(startTime, ClosingEnd(t), currentValue));
        startTime, endTimeInclusive, isValueValid := t, t, false;
      }
      ok := true;
    }

    method ClearFile()
      modifies this
      ensures Value() == Clear(kind, old(Value())).0
    {
      if fileSerialized.Some? {
        if kind.AnyTyped? {
          PushRecord(Interval(startTime, endTimeInclusive, currentValue));
          startTime, endTimeInclusive, isValueValid := 0, 0, false;
        }
        closedFiles := closedFiles + [fileSerialized.value];
        fileSerialized := None;
      }
    }

    method SetFile()
      modifies this
      ensures Value() == Step(kind, old(Value()), Op.SetFile).0
    {
      ClearFile();
      fileSerialized := Some([]);
    }
  }
}
