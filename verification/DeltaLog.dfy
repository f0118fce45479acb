/** The delta log: FileLogger.h and AnyFundamentalVariableMonitoringWithSharedFile.h.

    A structure is the sequence of the words of its fields, in the order in which the fields are flattened.
    The hidden `deltaFromIntervalTreeSlot` is taken to yield the indices of the fields that differ, in
    increasing order. */
module DeltaLog {
  import opened Options
  import opened Records

  // ----- One field -----

  /** `field_idx` is None until the first update. */
  datatype Monitor =
    Monitor(start: real, end: real, value: int, valid: bool, fieldIdx: Option<nat>, buffer: Option<Rec>)

  const NEW_MONITOR := Monitor(0.0, 0.0, 0, false, None, None)

  /** A record before its flags are known.  Both identifiers are stored in one byte. */
  function Unflagged(structId: nat, idx: nat, t: real, value: int): Rec {
    Rec(t, structId % 256, idx % 256, false, false, value)
  }

  /** `updateValue`: the new monitor, and whether the field has to be written. */
  function UpdateField(m: Monitor, structId: nat, t: real, value: int, idx: nat): (Monitor, bool) {
    var isFirst := m.fieldIdx.None?;
    var own := if isFirst then idx else m.fieldIdx.value;
    var changed := Monitor(t, t, value, true, Some(own), Some(Unflagged(structId, own, t, value)));
    if m.end > t || own != idx then (m.(fieldIdx := Some(own)), false)
    else if !m.valid then (changed, isFirst)
    else if !isFirst && m.value == value then (m.(end := t), false)
    else (changed, true)
  }

  /** `flush`: the new monitor, and what is written to the shared file. */
  function FlushField(m: Monitor, min: nat, max: nat, lastWrite: bool, firstWrite: bool): (Monitor, seq<Rec>) {
    match m.buffer
    case None => (m, [])
    case Some(r) =>
      (m.(buffer := None),
       if r.timestamp == 0.0 && !firstWrite then []
       else [r.(starting := lastWrite || r.fieldId == min, ending := lastWrite || r.fieldId == max)])
  }

  function FinalizeField(m: Monitor): (Monitor, seq<Rec>) {
    var (f, written) := FlushField(m, 0, 0, true, false);
    (if f.valid then f.(start := 0.0, end := 0.0, valid := false) else f, written)
  }

  /** One round of the loop over the differing fields. */
  function Touch(m: Monitor, structId: nat, t: real, value: int, idx: nat, min: nat, max: nat): (Monitor, seq<Rec>) {
    FlushField(UpdateField(m, structId, t, value, idx).0, min, max, false, false)
  }

  /** One visit of a field that differs from the copy: the monitor takes the value unless the time is before its
      own, and a record is written if the value is new to it and the time is not zero. */
  lemma TouchResult(m: Monitor, structId: nat, t: real, value: int, idx: nat, min: nat, max: nat)
    requires m.valid && m.fieldIdx == Some(idx) && m.buffer == None
    ensures var (m', written) := Touch(m, structId, t, value, idx, min, max);
      && m'.valid && m'.fieldIdx == Some(idx) && m'.buffer == None
      && (if m.end <= t then m'.end == t && m'.value == value else m' == m)
      && written == if m.end <= t && m.value != value && t != 0.0 then [FlaggedRec(structId, idx, t, value, min, max)]
                    else []
  {
  }

  function FlaggedRec(structId: nat, idx: nat, t: real, value: int, min: nat, max: nat): Rec {
    Rec(t, structId % 256, idx % 256, idx % 256 == min, idx % 256 == max, value)
  }

  // ----- One structure -----

  datatype StructValue = StructValue(typeId: nat, fields: seq<int>)

  /** `bearing` is the copy of the last value. */
  datatype Struct = Struct(id: nat, typeId: nat, fields: seq<Monitor>, bearing: seq<int>)

  function Differences(a: seq<int>, b: seq<int>): (d: seq<nat>)
    requires |a| == |b|
    ensures forall j | 0 <= j < |d| :: d[j] < |a| && a[d[j]] != b[d[j]]
    ensures forall j, k | 0 <= j < k < |d| :: d[j] < d[k]
    ensures forall i | 0 <= i < |a| && a[i] != b[i] :: i in d
  {
    if a == [] then []
    else
      var n := |a| - 1;
      var d := Differences(a[..n], b[..n]);
      if a[n] != b[n] then d + [n] else d
  }

  function TouchAll(s: Struct, t: real, v: seq<int>, diff: seq<nat>, min: nat, max: nat): (r: (seq<Monitor>, seq<Rec>))
    requires |v| == |s.fields| && forall j | 0 <= j < |diff| :: diff[j] < |v|
    ensures |r.0| == |s.fields|
  {
    if diff == [] then (s.fields, [])
    else
      var k := |diff| - 1;
      var (fields, written) := TouchAll(s, t, v, diff[..k], min, max);
      var (m, r) := Touch(fields[diff[k]], s.id, t, v[diff[k]], diff[k], min, max);
      (fields[diff[k] := m], written + r)
  }

  /** What `updateValue` does to a structure of the same type, and what it writes.  When nothing differs
      nothing is written. */
  function UpdateStruct(s: Struct, t: real, v: seq<int>): (r: (Struct, seq<Rec>))
    requires |v| == |s.fields| == |s.bearing|
    ensures |r.0.fields| == |r.0.bearing| == |v| && r.0.id == s.id && r.0.typeId == s.typeId && r.0.bearing == v
  {
    var diff := Differences(s.bearing, v);
    if diff == [] then (s.(bearing := v), [])
    else
      var (fields, written) := TouchAll(s, t, v, diff, diff[0], diff[|diff| - 1]);
      (s.(fields := fields, bearing := v), written)
  }

  /** `init`: every field is recorded at time zero. */
  function InitField(id: nat, v: seq<int>, i: nat): (Monitor, seq<Rec>)
    requires i < |v|
  {
    FlushField(UpdateField(NEW_MONITOR, id, 0.0, v[i], i).0, 0, |v| - 1, false, true)
  }

  function InitStruct(id: nat, v: StructValue): Struct {
    Struct(id, v.typeId, seq(|v.fields|, i requires 0 <= i < |v.fields| => InitField(id, v.fields, i).0), v.fields)
  }

  /** The records of the initial values. */
  function InitRecords(id: nat, v: seq<int>): (r: seq<Rec>)
    ensures |r| == |v|
  {
    seq(|v|, i requires 0 <= i < |v| => Rec(0.0, id % 256, i % 256, i % 256 == 0, i % 256 == |v| - 1, v[i]))
  }

  /** The records of an update: one per differing field, the first and the last of them marked. */
  function DeltaRecords(id: nat, t: real, v: seq<int>, diff: seq<nat>, min: nat, max: nat): (r: seq<Rec>)
    requires forall j | 0 <= j < |diff| :: diff[j] < |v|
    ensures |r| == |diff|
  {
    seq(|diff|, j requires 0 <= j < |diff| => Rec(t, id, diff[j], diff[j] == min, diff[j] == max, v[diff[j]]))
  }

  function UpdateRecords(id: nat, t: real, before: seq<int>, v: seq<int>): seq<Rec>
    requires |before| == |v|
  {
    var diff := Differences(before, v);
    if diff == [] then [] else DeltaRecords(id, t, v, diff, diff[0], diff[|diff| - 1])
  }

  /** The monitors agree with the last value, hold nothing back, and were last changed by `now`. */
  ghost predicate InStep(s: Struct, now: real) {
    && |s.fields| == |s.bearing| <= 256 && s.id < 256 && 0.0 <= now
    && forall i | 0 <= i < |s.fields| :: FieldInStep(s.fields[i], i, s.bearing[i], now)
  }

  ghost predicate FieldInStep(m: Monitor, i: nat, value: int, now: real) {
    m.valid && m.fieldIdx == Some(i) && m.buffer == None && m.value == value && 0.0 <= m.end <= now
  }

  lemma InitInStep(id: nat, v: StructValue)
    requires id < 256 && |v.fields| <= 256
    ensures InStep(InitStruct(id, v), 0.0)
    ensures forall i | 0 <= i < |v.fields| :: InitField(id, v.fields, i).1 == [InitRecords(id, v.fields)[i]]
  {
  }

  /** Exactly the listed fields have taken the new values. */
  ghost predicate Touched(s: Struct, t: real, v: seq<int>, diff: seq<nat>, fields: seq<Monitor>) {
    |fields| == |s.fields| == |v| &&
    forall i | 0 <= i < |v| :: if i in diff then FieldInStep(fields[i], i, v[i], t) else fields[i] == s.fields[i]
  }

  lemma {:induction false} TouchAllInStep(
      s: Struct, now: real, t: real, v: seq<int>, diff: seq<nat>, min: nat, max: nat)
    requires InStep(s, now) && now <= t && 0.0 < t && |v| == |s.fields|
    requires forall j | 0 <= j < |diff| :: diff[j] < |v| && s.bearing[diff[j]] != v[diff[j]]
    requires forall j, k | 0 <= j < k < |diff| :: diff[j] < diff[k]
    ensures var (fields, written) := TouchAll(s, t, v, diff, min, max);
      written == DeltaRecords(s.id, t, v, diff, min, max) && Touched(s, t, v, diff, fields)
  {
    if diff != [] {
      var k := |diff| - 1;
      TouchAllInStep(s, now, t, v, diff[..k], min, max);
      var fields := TouchAll(s, t, v, diff[..k], min, max).0;
      TouchInStep(s, now, fields[diff[k]], t, v, diff, min, max);
      var m := Touch(fields[diff[k]], s.id, t, v[diff[k]], diff[k], min, max).0;
      TouchedMore(s, t, v, diff, fields, m);
      DeltaRecordsStep(s.id, t, v, diff, min, max);
    }
  }

  /** The last of the listed fields. */
  lemma TouchInStep(s: Struct, now: real, m: Monitor, t: real, v: seq<int>, diff: seq<nat>, min: nat, max: nat)
    requires InStep(s, now) && now <= t && 0.0 < t && |v| == |s.fields| && diff != []
    requires var i := diff[|diff| - 1]; i < |v| && s.bearing[i] != v[i] && m == s.fields[i]
    ensures var i := diff[|diff| - 1];
      var (m', written) := Touch(m, s.id, t, v[i], i, min, max);
      FieldInStep(m', i, v[i], t) && written == [Rec(t, s.id, i, i == min, i == max, v[i])]
  {
    var i := diff[|diff| - 1];
    assert FieldInStep(m, i, s.bearing[i], now);
    TouchResult(m, s.id, t, v[i], i, min, max);
  }

  lemma TouchedMore(s: Struct, t: real, v: seq<int>, diff: seq<nat>, fields: seq<Monitor>, m: Monitor)
    requires diff != [] && diff[|diff| - 1] < |v| && Touched(s, t, v, diff[..|diff| - 1], fields)
    requires FieldInStep(m, diff[|diff| - 1], v[diff[|diff| - 1]], t)
    ensures Touched(s, t, v, diff, fields[diff[|diff| - 1] := m])
  {
    var k := |diff| - 1;
    assert forall i :: i in diff <==> i in diff[..k] || i == diff[k] by { assert diff == diff[..k] + [diff[k]]; }
  }

  lemma DeltaRecordsStep(id: nat, t: real, v: seq<int>, diff: seq<nat>, min: nat, max: nat)
    requires diff != [] && forall j | 0 <= j < |diff| :: diff[j] < |v|
    ensures var k := |diff| - 1;
      DeltaRecords(id, t, v, diff, min, max) ==
      DeltaRecords(id, t, v, diff[..k], min, max) + [Rec(t, id, diff[k], diff[k] == min, diff[k] == max, v[diff[k]])]
  {
  }

  /** An update no earlier than the ones before it keeps the monitors in step and records exactly what changed. */
  lemma UpdateInStep(s: Struct, now: real, t: real, v: seq<int>)
    requires InStep(s, now) && now <= t && 0.0 < t && |v| == |s.fields|
    ensures InStep(UpdateStruct(s, t, v).0, t)
    ensures UpdateStruct(s, t, v).1 == UpdateRecords(s.id, t, s.bearing, v)
  {
    var diff := Differences(s.bearing, v);
    if diff == [] {
      assert s.bearing == v by { forall i | 0 <= i < |v| ensures s.bearing[i] == v[i] { } }
    } else {
      TouchAllInStep(s, now, t, v, diff, diff[0], diff[|diff| - 1]);
      var (s', _) := UpdateStruct(s, t, v);
      forall i | 0 <= i < |v| ensures FieldInStep(s'.fields[i], i, v[i], t) {
        assert FieldInStep(s.fields[i], i, s.bearing[i], now);
        if i !in diff { assert s.bearing[i] == v[i]; }
      }
    }
  }

  // ----- The logger -----

  datatype Logger = Logger(structs: map<string, Struct>, names: seq<string>, records: seq<Rec>)

  const NEW_LOGGER := Logger(map[], [], [])

  datatype Event = Register(name: string, value: StructValue) | Update(name: string, time: real, value: StructValue)

  /** The type test of `updateValue`: the type, and with it the number of fields. */
  predicate SameType(s: Struct, v: StructValue) {
    s.typeId == v.typeId && |v.fields| == |s.fields| == |s.bearing|
  }

  /** `registerObjectWithName` and `updateStruct`, with their answers. */
  function Log(l: Logger, e: Event): (Logger, bool) {
    match e
    case Register(name, v) =>
      if name in l.structs then (l, false)
      else
        var id := |l.structs|;
        (Logger(l.structs[name := InitStruct(id, v)], l.names + [name], l.records + InitRecords(id, v.fields)), true)
    case Update(name, t, v) =>
      if name !in l.structs || !SameType(l.structs[name], v) then (l, false)
      else
        var (s, written) := UpdateStruct(l.structs[name], t, v.fields);
        (l.(structs := l.structs[name := s], records := l.records + written), true)
  }

  function LogAll(events: seq<Event>): Logger {
    if events == [] then NEW_LOGGER else Log(LogAll(events[..|events| - 1]), events[|events| - 1]).0
  }

  // ----- What was logged, without fields or records -----

  /** A structure as its client sees it: the initial value and the timed updates. */
  datatype History = History(typeId: nat, initial: seq<int>, updates: seq<(real, seq<int>)>)

  function ValueAt(h: History, t: real): seq<int>
    decreases |h.updates|
  {
    if h.updates == [] then h.initial
    else
      var n := |h.updates| - 1;
      if h.updates[n].0 <= t then h.updates[n].1 else ValueAt(h.(updates := h.updates[..n]), t)
  }

  function LastTime(h: History): real {
    if h.updates == [] then 0.0 else h.updates[|h.updates| - 1].0
  }

  function LastValue(h: History): seq<int> {
    if h.updates == [] then h.initial else h.updates[|h.updates| - 1].1
  }

  function Happen(hs: map<string, History>, e: Event): map<string, History> {
    match e
    case Register(name, v) => if name in hs then hs else hs[name := History(v.typeId, v.fields, [])]
    case Update(name, t, v) =>
      if name !in hs || hs[name].typeId != v.typeId || |hs[name].initial| != |v.fields| then hs
      else hs[name := hs[name].(updates := hs[name].updates + [(t, v.fields)])]
  }

  function Histories(events: seq<Event>): map<string, History> {
    if events == [] then map[] else Happen(Histories(events[..|events| - 1]), events[|events| - 1])
  }

  /** All values have the same number of fields, and the times are positive and never go back. */
  ghost predicate Ordered(h: History)
    decreases |h.updates|
  {
    h.updates == [] ||
    var n := |h.updates| - 1;
    var before := h.(updates := h.updates[..n]);
    Ordered(before) && LastTime(before) <= h.updates[n].0 && 0.0 < h.updates[n].0 && |h.updates[n].1| == |h.initial|
  }

  /** The clients' side of the bargain: identifiers fit in a byte, and the updates of every structure come
      in the order of their times. */
  ghost predicate FitsLog(hs: map<string, History>) {
    |hs| <= 256 && forall n | n in hs :: |hs[n].initial| <= 256 && Ordered(hs[n])
  }

  /** The records of one structure, in the order in which they are written. */
  function StructLog(h: History, id: nat): seq<Rec>
    decreases |h.updates|
  {
    if h.updates == [] then InitRecords(id, h.initial)
    else
      var n := |h.updates| - 1;
      var before := h.(updates := h.updates[..n]);
      StructLog(before, id) +
      (if |LastValue(before)| == |h.updates[n].1| then
         UpdateRecords(id, h.updates[n].0, LastValue(before), h.updates[n].1)
       else [])
  }

  lemma OrderedFacts(h: History)
    requires Ordered(h)
    ensures 0.0 <= LastTime(h) && |LastValue(h)| == |h.initial|
    decreases |h.updates|
  {
    if h.updates != [] { OrderedFacts(h.(updates := h.updates[..|h.updates| - 1])); }
  }

  // ----- The logger and the histories -----

  /** The logger after the events that made the histories: every structure is in step with its history, and
      the records of the structure numbered `id` are those of the history. */
  ghost predicate Agrees(l: Logger, hs: map<string, History>) {
    && Directory(l, hs)
    && forall n | n in hs :: StructAgrees(l.structs[n], hs[n]) && RecordsAgree(l.records, hs[n], l.structs[n].id)
  }

  /** The names are numbered in the order of registration, and every record belongs to one of them. */
  ghost predicate Directory(l: Logger, hs: map<string, History>) {
    && l.structs.Keys == hs.Keys && |l.names| == |l.structs|
    && (forall n | n in hs :: Numbered(l.structs[n], l.names, n))
    && (forall i | 0 <= i < |l.names| :: l.names[i] in hs && l.structs[l.names[i]].id == i)
    && forall r | r in l.records :: r.structId < |l.names|
  }

  ghost predicate StructAgrees(s: Struct, h: History) {
    InStep(s, LastTime(h)) && s.bearing == LastValue(h) && s.typeId == h.typeId && |s.bearing| == |h.initial|
  }

  ghost predicate Numbered(s: Struct, names: seq<string>, n: string) {
    s.id < |names| && names[s.id] == n
  }

  ghost predicate RecordsAgree(records: seq<Rec>, h: History, id: nat) {
    forall r :: r in records && r.structId == id <==> r in StructLog(h, id)
  }

  lemma OthersAgree(records: seq<Rec>, more: seq<Rec>, h: History, id: nat)
    requires RecordsAgree(records, h, id) && forall r | r in more :: r.structId != id
    ensures RecordsAgree(records + more, h, id)
  {
  }

  /** Every record carries the number of its structure. */
  lemma {:induction false} StructLogId(h: History, id: nat)
    requires id < 256
    ensures forall r | r in StructLog(h, id) :: r.structId == id
    decreases |h.updates|
  {
    if h.updates != [] { StructLogId(h.(updates := h.updates[..|h.updates| - 1]), id); }
  }

  lemma InitAgrees(records: seq<Rec>, id: nat, v: StructValue)
    requires id < 256 && |v.fields| <= 256 && forall r | r in records :: r.structId != id
    ensures StructAgrees(InitStruct(id, v), History(v.typeId, v.fields, []))
    ensures RecordsAgree(records + InitRecords(id, v.fields), History(v.typeId, v.fields, []), id)
  {
    InitInStep(id, v);
    StructLogId(History(v.typeId, v.fields, []), id);
  }

  /** Whatever happens to one structure, new or not, leaves the numbering intact ... */
  lemma DirectoryStep(l: Logger, hs: map<string, History>, name: string, s: Struct, h: History, more: seq<Rec>)
    requires Directory(l, hs) && (if name in hs then s.id == l.structs[name].id else s.id == |l.names|)
    requires forall r | r in more :: r.structId == s.id
    ensures var names := if name in hs then l.names else l.names + [name];
      Directory(Logger(l.structs[name := s], names, l.records + more), hs[name := h])
  {
    var names := if name in hs then l.names else l.names + [name];
    var structs := l.structs[name := s];
    assert name in hs ==> structs.Keys == l.structs.Keys && |structs| == |structs.Keys|;
    assert name in hs ==> Numbered(l.structs[name], l.names, name);
    assert forall n | n in hs :: Numbered(l.structs[n], l.names, n);
  }

  /** ... and the records of all the others. */
  lemma AgreesStep(l: Logger, hs: map<string, History>, name: string, s: Struct, h: History, more: seq<Rec>)
    requires Agrees(l, hs) && (if name in hs then s.id == l.structs[name].id else s.id == |l.names|)
    requires forall r | r in more :: r.structId == s.id
    requires StructAgrees(s, h) && RecordsAgree(l.records + more, h, s.id)
    ensures var names := if name in hs then l.names else l.names + [name];
      Agrees(Logger(l.structs[name := s], names, l.records + more), hs[name := h])
  {
    DirectoryStep(l, hs, name, s, h, more);
    forall n | n in hs && n != name
      ensures StructAgrees(l.structs[n], hs[n]) && RecordsAgree(l.records + more, hs[n], l.structs[n].id)
    {
      assert Numbered(l.structs[n], l.names, n) && (name in hs ==> Numbered(l.structs[name], l.names, name));
      assert StructAgrees(l.structs[n], hs[n]) && RecordsAgree(l.records, hs[n], l.structs[n].id);
      OthersAgree(l.records, more, hs[n], l.structs[n].id);
    }
  }

  lemma RegisterAgrees(l: Logger, hs: map<string, History>, name: string, v: StructValue)
    requires Agrees(l, hs) && name !in hs && |hs| < 256 && |v.fields| <= 256
    ensures Agrees(Log(l, Register(name, v)).0, Happen(hs, Register(name, v)))
  {
    var id := |l.structs|;
    assert |l.structs| == |l.structs.Keys| && |hs| == |hs.Keys|;
    InitAgrees(l.records, id, v);
    AgreesStep(l, hs, name, InitStruct(id, v), History(v.typeId, v.fields, []), InitRecords(id, v.fields));
  }

  /** One structure and its history after an accepted update. */
  lemma DeltaAgrees(s: Struct, h: History, records: seq<Rec>, t: real, v: seq<int>)
    requires StructAgrees(s, h) && RecordsAgree(records, h, s.id) && LastTime(h) <= t && 0.0 < t && |v| == |s.bearing|
    ensures var (s', written) := UpdateStruct(s, t, v);
      var h' := h.(updates := h.updates + [(t, v)]);
      && StructAgrees(s', h') && RecordsAgree(records + written, h', s.id)
      && forall r | r in written :: r.structId == s.id
  {
    var h' := h.(updates := h.updates + [(t, v)]);
    assert h'.updates[..|h'.updates| - 1] == h.updates && h'.(updates := h.updates) == h;
    UpdateInStep(s, LastTime(h), t, v);
    assert StructLog(h', s.id) == StructLog(h, s.id) + UpdateRecords(s.id, t, s.bearing, v);
  }

  lemma UpdateAgrees(l: Logger, hs: map<string, History>, name: string, t: real, v: StructValue)
    requires Agrees(l, hs) && name in hs && SameType(l.structs[name], v) && LastTime(hs[name]) <= t && 0.0 < t
    ensures Agrees(Log(l, Update(name, t, v)).0, Happen(hs, Update(name, t, v)))
  {
    var s, h := l.structs[name], hs[name];
    assert StructAgrees(s, h) && RecordsAgree(l.records, h, s.id);
    DeltaAgrees(s, h, l.records, t, v.fields);
    var (s', written) := UpdateStruct(s, t, v.fields);
    AgreesStep(l, hs, name, s', h.(updates := h.updates + [(t, v.fields)]), written);
  }

  /** The histories only grow: if they fit in the end, they always did. */
  lemma FitsBefore(hs: map<string, History>, e: Event)
    requires FitsLog(Happen(hs, e))
    ensures FitsLog(hs)
    ensures e.Update? && e.name in hs && Happen(hs, e) != hs ==>
              LastTime(hs[e.name]) <= e.time && 0.0 < e.time
    ensures e.Register? && e.name !in hs ==> |hs| < 256 && |e.value.fields| <= 256
  {
    var hs' := Happen(hs, e);
    if e.name in hs && hs' != hs {
      var h, h' := hs[e.name], hs'[e.name];
      assert Ordered(h') && h'.updates[..|h'.updates| - 1] == h.updates && h'.(updates := h.updates) == h;
      assert hs'.Keys == hs.Keys && |hs'| == |hs'.Keys| && |hs| == |hs.Keys|;
      forall n | n in hs ensures |hs[n].initial| <= 256 && Ordered(hs[n]) { assert n in hs'; }
    } else if e.name !in hs && e.Register? {
      assert e.name in hs' && |hs'| == |hs| + 1;
      forall n | n in hs ensures |hs[n].initial| <= 256 && Ordered(hs[n]) { assert n in hs' && hs'[n] == hs[n]; }
    }
  }

  /** Whatever is registered and updated, in any interleaving: the log holds exactly the records of the
      histories. */
  lemma {:induction false} LogMatchesHistories(events: seq<Event>)
    requires FitsLog(Histories(events))
    ensures Agrees(LogAll(events), Histories(events))
  {
    if events != [] {
      var n := |events| - 1;
      var l, hs, e := LogAll(events[..n]), Histories(events[..n]), events[n];
      FitsBefore(hs, e);
      LogMatchesHistories(events[..n]);
      match e {
        case Register(name, v) => if name !in hs { RegisterAgrees(l, hs, name, v); }
        case Update(name, t, v) =>
          if name in hs {
            assert StructAgrees(l.structs[name], hs[name]);
            if SameType(l.structs[name], v) {
              assert |Happen(hs, e)[name].updates| == |hs[name].updates| + 1;
              UpdateAgrees(l, hs, name, t, v);
            }
          }
      }
    }
  }

  // ----- What the records say -----

  lemma ValueAtSize(h: History, t: real)
    requires Ordered(h)
    ensures |ValueAt(h, t)| == |h.initial|
    decreases |h.updates|
  {
    if h.updates != [] { ValueAtSize(h.(updates := h.updates[..|h.updates| - 1]), t); }
  }

  /** The records of a structure: which times they have, and what the log is up to its last update. */
  lemma {:induction false} StructLogTimes(h: History, id: nat)
    requires Ordered(h) && id < 256 && |h.initial| <= 256
    ensures forall r | r in StructLog(h, id) :: 0.0 <= r.timestamp <= LastTime(h) && r.fieldId < |h.initial|
    decreases |h.updates|
  {
    if h.updates == [] {
      assert StructLog(h, id) == InitRecords(id, h.initial);
    } else {
      var n := |h.updates| - 1;
      var before, u := h.(updates := h.updates[..n]), h.updates[n];
      OrderedFacts(before);
      StructLogTimes(before, id);
      var more := UpdateRecords(id, u.0, LastValue(before), u.1);
      UpdateTimes(id, u.0, LastValue(before), u.1);
      assert StructLog(h, id) == StructLog(before, id) + more;
      forall r | r in StructLog(h, id) ensures 0.0 <= r.timestamp <= LastTime(h) && r.fieldId < |h.initial| {
        assert r in StructLog(before, id) || r in more;
      }
    }
  }

  lemma UpdateTimes(id: nat, t: real, before: seq<int>, v: seq<int>)
    requires |before| == |v|
    ensures forall r | r in UpdateRecords(id, t, before, v) ::
              r.timestamp == t && r.fieldId < |v| && r.data == v[r.fieldId] != before[r.fieldId]
  {
  }

  lemma LatestKept(first: seq<Rec>, more: seq<Rec>, id: nat, f: nat, t: real, r: Rec)
    requires IsLatest(ToSet(first), id, f, t, r) && forall q | q in more :: q.fieldId != f || q.timestamp > t
    ensures IsLatest(ToSet(first + more), id, f, t, r)
  {
  }

  lemma LatestReplaced(first: seq<Rec>, more: seq<Rec>, id: nat, f: nat, t: real, r: Rec)
    requires r in more && r.structId == id && r.fieldId == f && r.timestamp <= t
    requires forall q | q in first || q in more :: q.timestamp <= r.timestamp
    ensures IsLatest(ToSet(first + more), id, f, t, r)
  {
  }

  /** The last record of a field up to any time holds the value the structure had at that time. */
  lemma {:induction false} LatestIsValue(h: History, id: nat, f: nat, t: real) returns (r: Rec)
    requires Ordered(h) && id < 256 && |h.initial| <= 256 && f < |h.initial| && 0.0 <= t
    ensures |ValueAt(h, t)| == |h.initial|
    ensures IsLatest(ToSet(StructLog(h, id)), id, f, t, r) && r.data == ValueAt(h, t)[f]
    decreases |h.updates|
  {
    ValueAtSize(h, t);
    if h.updates == [] {
      r := InitRecords(id, h.initial)[f];
    } else {
      var n := |h.updates| - 1;
      var before, u := h.(updates := h.updates[..n]), h.updates[n];
      OrderedFacts(before);
      StructLogTimes(before, id);
      r := LatestIsValue(before, id, f, t);
      var delta := UpdateRecords(id, u.0, LastValue(before), u.1);
      if u.0 <= t { LatestStart(before, t); }
      if u.0 <= t && LastValue(before)[f] != u.1[f] {
        r := RecordOf(id, u.0, LastValue(before), u.1, f);
        LatestReplaced(StructLog(before, id), delta, id, f, t, r);
      } else {
        LatestKept(StructLog(before, id), delta, id, f, t, r);
      }
    }
  }

  lemma RecordOf(id: nat, t: real, before: seq<int>, v: seq<int>, f: nat) returns (r: Rec)
    requires |before| == |v| && f < |v| && before[f] != v[f]
    ensures r in UpdateRecords(id, t, before, v)
    ensures r.timestamp == t && r.structId == id && r.fieldId == f && r.data == v[f]
  {
    var diff := Differences(before, v);
    var j :| 0 <= j < |diff| && diff[j] == f;
    r := UpdateRecords(id, t, before, v)[j];
  }

  lemma LatestStart(h: History, t: real)
    requires Ordered(h) && LastTime(h) <= t
    ensures ValueAt(h, t) == LastValue(h)
  {
  }

  /** Whatever is started at some time is also ended at that time. */
  lemma {:induction false} StructLogComplete(h: History, id: nat, r: Rec) returns (e: Rec)
    requires Ordered(h) && id < 256 && |h.initial| <= 256 && r in StructLog(h, id)
    ensures e in StructLog(h, id) && e.timestamp == r.timestamp && e.ending
    decreases |h.updates|
  {
    if h.updates == [] {
      e := InitRecords(id, h.initial)[|h.initial| - 1];
    } else {
      var n := |h.updates| - 1;
      var before, u := h.(updates := h.updates[..n]), h.updates[n];
      OrderedFacts(before);
      if r in StructLog(before, id) {
        e := StructLogComplete(before, id, r);
      } else {
        e := UpdateComplete(id, u.0, LastValue(before), u.1, r);
      }
    }
  }

  /** The last record of an update has the end mark. */
  lemma UpdateComplete(id: nat, t: real, before: seq<int>, v: seq<int>, r: Rec) returns (e: Rec)
    requires |before| == |v| && r in UpdateRecords(id, t, before, v)
    ensures e in UpdateRecords(id, t, before, v) && e.timestamp == r.timestamp && e.ending
  {
    var delta := UpdateRecords(id, t, before, v);
    e := delta[|delta| - 1];
  }

  /** Some update at time `t` changes a field. */
  predicate ChangesAt(h: History, t: real)
    decreases |h.updates|
  {
    h.updates != [] &&
    var n := |h.updates| - 1;
    var before := h.(updates := h.updates[..n]);
    ChangesAt(before, t) || (h.updates[n].0 == t && h.updates[n].1 != LastValue(before))
  }

  ghost predicate RecordedAt(records: seq<Rec>, t: real) {
    exists r :: r in records && r.timestamp == t
  }

  lemma DeltaRecordedIff(id: nat, u: real, before: seq<int>, v: seq<int>, t: real)
    requires |before| == |v|
    ensures RecordedAt(UpdateRecords(id, u, before, v), t) <==> u == t && v != before
  {
    var delta := UpdateRecords(id, u, before, v);
    if v != before {
      var i :| 0 <= i < |v| && v[i] != before[i];
      assert i in Differences(before, v);
      assert delta[0] in delta && delta[0].timestamp == u;
    }
  }

  /** There is a record at a time after zero exactly when the structure changed then. */
  lemma {:induction false} RecordedIffChanged(h: History, id: nat, t: real)
    requires Ordered(h) && id < 256 && |h.initial| <= 256
    ensures RecordedAt(StructLog(h, id), t) <==> ChangesAt(h, t) || (t == 0.0 && h.initial != [])
    decreases |h.updates|
  {
    if h.updates == [] {
      if h.initial != [] { assert InitRecords(id, h.initial)[0].timestamp == 0.0; }
    } else {
      var n := |h.updates| - 1;
      var before, u := h.(updates := h.updates[..n]), h.updates[n];
      OrderedFacts(before);
      RecordedIffChanged(before, id, t);
      DeltaRecordedIff(id, u.0, LastValue(before), u.1, t);
      RecordedAppend(StructLog(before, id), UpdateRecords(id, u.0, LastValue(before), u.1), t);
    }
  }

  lemma RecordedAppend(a: seq<Rec>, b: seq<Rec>, t: real)
    ensures RecordedAt(a + b, t) <==> RecordedAt(a, t) || RecordedAt(b, t)
  {
    if r :| r in a && r.timestamp == t { assert r in a + b; }
    if r :| r in b && r.timestamp == t { assert r in a + b; }
  }

  // ----- Several updates at one time -----

  /** Some update at time `t` changes field `f` to `x`. */
  predicate Sets(h: History, f: nat, t: real, x: int)
    decreases |h.updates|
  {
    h.updates != [] &&
    var n := |h.updates| - 1;
    var before, u := h.(updates := h.updates[..n]), h.updates[n];
    Sets(before, f, t, x) || (u.0 == t && ChangesField(before, u.1, f) && u.1[f] == x)
  }

  predicate ChangesField(before: History, v: seq<int>, f: nat) {
    f < |v| && f < |LastValue(before)| && v[f] != LastValue(before)[f]
  }

  predicate SetsAny(h: History, f: nat, t: real)
    decreases |h.updates|
  {
    h.updates != [] &&
    var n := |h.updates| - 1;
    var before, u := h.(updates := h.updates[..n]), h.updates[n];
    SetsAny(before, f, t) || (u.0 == t && ChangesField(before, u.1, f))
  }

  /** No field is changed twice at one time. */
  ghost predicate ChangedOnce(h: History)
    decreases |h.updates|
  {
    h.updates == [] ||
    var n := |h.updates| - 1;
    var before, u := h.(updates := h.updates[..n]), h.updates[n];
    ChangedOnce(before) && forall f | 0 <= f < |u.1| && ChangesField(before, u.1, f) :: !SetsAny(before, f, u.0)
  }

  lemma {:induction false} SetsInThePast(h: History, f: nat, t: real, x: int)
    requires Ordered(h) && Sets(h, f, t, x)
    ensures 0.0 < t <= LastTime(h) && SetsAny(h, f, t) && f < |h.initial|
    decreases |h.updates|
  {
    var before := h.(updates := h.updates[..|h.updates| - 1]);
    OrderedFacts(before);
    if Sets(before, f, t, x) { SetsInThePast(before, f, t, x); }
  }

  /** Then whatever a field is set to at some time is its value at that time. */
  lemma {:induction false} SetOnce(h: History, f: nat, t: real, x: int)
    requires Ordered(h) && ChangedOnce(h) && Sets(h, f, t, x)
    ensures f < |ValueAt(h, t)| && ValueAt(h, t)[f] == x
    decreases |h.updates|
  {
    var n := |h.updates| - 1;
    var before, u := h.(updates := h.updates[..n]), h.updates[n];
    ValueAtSize(h, t);
    OrderedFacts(before);
    SetsInThePast(h, f, t, x);
    if Sets(before, f, t, x) {
      SetsInThePast(before, f, t, x);
      SetOnce(before, f, t, x);
      if u.0 <= t {
        LatestStart(before, t);
        assert !ChangesField(before, u.1, f);
      }
    }
  }

  /** The records of a field, in the terms of the client: the initial value at time zero, and what it is set to. */
  lemma {:induction false} RecordIffSet(h: History, id: nat, r: Rec)
    requires Ordered(h) && id < 256 && |h.initial| <= 256 && r in StructLog(h, id)
    ensures r.fieldId < |h.initial|
    ensures if r.timestamp == 0.0 then r.data == h.initial[r.fieldId] else Sets(h, r.fieldId, r.timestamp, r.data)
    decreases |h.updates|
  {
    if h.updates == [] {
      assert r in InitRecords(id, h.initial);
    } else {
      var n := |h.updates| - 1;
      var before, u := h.(updates := h.updates[..n]), h.updates[n];
      OrderedFacts(before);
      if r in StructLog(before, id) {
        RecordIffSet(before, id, r);
      } else {
        assert r in UpdateRecords(id, u.0, LastValue(before), u.1);
        UpdateTimes(id, u.0, LastValue(before), u.1);
      }
    }
  }

  lemma {:induction false} SetIsRecorded(h: History, id: nat, f: nat, t: real, x: int) returns (r: Rec)
    requires Ordered(h) && id < 256 && |h.initial| <= 256 && Sets(h, f, t, x)
    ensures r in StructLog(h, id) && r.structId == id && r.fieldId == f && r.timestamp == t && r.data == x
    decreases |h.updates|
  {
    var n := |h.updates| - 1;
    var before, u := h.(updates := h.updates[..n]), h.updates[n];
    OrderedFacts(before);
    if Sets(before, f, t, x) {
      r := SetIsRecorded(before, id, f, t, x);
    } else {
      r := RecordOf(id, u.0, LastValue(before), u.1, f);
    }
  }

  lemma {:induction false} ValueAtZero(h: History)
    requires Ordered(h)
    ensures ValueAt(h, 0.0) == h.initial
    decreases |h.updates|
  {
    if h.updates != [] { ValueAtZero(h.(updates := h.updates[..|h.updates| - 1])); }
  }

  lemma DeltaUnique(id: nat, t: real, before: seq<int>, v: seq<int>, q: Rec, r: Rec)
    requires |before| == |v| && q in UpdateRecords(id, t, before, v) && r in UpdateRecords(id, t, before, v)
    requires q.fieldId == r.fieldId
    ensures q == r && q.timestamp == t
  {
  }

  lemma {:induction false} StructLogSets(h: History, id: nat, r: Rec)
    requires Ordered(h) && id < 256 && |h.initial| <= 256 && r in StructLog(h, id)
    ensures r.timestamp > 0.0 ==> SetsAny(h, r.fieldId, r.timestamp)
    decreases |h.updates|
  {
    RecordIffSet(h, id, r);
    if r.timestamp > 0.0 { SetsInThePast(h, r.fieldId, r.timestamp, r.data); }
  }

  /** If no field changes twice at one time, a structure is recorded at most once per field and time. */
  lemma {:induction false} StructLogUnique(h: History, id: nat, q: Rec, r: Rec)
    requires Ordered(h) && ChangedOnce(h) && id < 256 && |h.initial| <= 256
    requires q in StructLog(h, id) && r in StructLog(h, id) && q.timestamp == r.timestamp && q.fieldId == r.fieldId
    ensures q == r
    decreases |h.updates|
  {
    if h.updates != [] {
      var n := |h.updates| - 1;
      var before, u := h.(updates := h.updates[..n]), h.updates[n];
      OrderedFacts(before);
      var delta := UpdateRecords(id, u.0, LastValue(before), u.1);
      if q in StructLog(before, id) && r in StructLog(before, id) {
        StructLogUnique(before, id, q, r);
      } else if q in delta && r in delta {
        DeltaUnique(id, u.0, LastValue(before), u.1, q, r);
      } else {
        var first, second := if q in delta then r else q, if q in delta then q else r;
        NotSetBefore(before, id, u.0, u.1, first, second);
      }
    }
  }

  lemma NotSetBefore(before: History, id: nat, t: real, v: seq<int>, first: Rec, second: Rec)
    requires Ordered(before) && id < 256 && |before.initial| <= 256 &&
             |v| == |before.initial| == |LastValue(before)| && 0.0 < t
    requires forall f | 0 <= f < |v| && ChangesField(before, v, f) :: !SetsAny(before, f, t)
    requires first in StructLog(before, id) && second in UpdateRecords(id, t, LastValue(before), v)
    ensures first.timestamp != second.timestamp || first.fieldId != second.fieldId
  {
    StructLogSets(before, id, first);
    assert ChangesField(before, v, second.fieldId) && second.timestamp == t;
  }

  // ----- Updates in any order -----

  /** The change of a field with the latest time so far, and of several at that time the last one.  A change is
      an update that gives the field another value than the update before it. */
  function LatestChange(h: History, f: nat): (r: (real, int))
    requires f < |h.initial|
    ensures 0.0 <= r.0
    decreases |h.updates|
  {
    if h.updates == [] then (0.0, h.initial[f])
    else
      var n := |h.updates| - 1;
      var before, u := h.(updates := h.updates[..n]), h.updates[n];
      var latest := LatestChange(before, f);
      if ChangesField(before, u.1, f) && latest.0 <= u.0 then (u.0, u.1[f]) else latest
  }

  /** Whether an update of a field to `x` at time `t` is recorded: it must change the field, come no earlier than
      every earlier change, differ from what the latest of them set, and not be at time zero. */
  predicate IsRecorded(h: History, f: nat, t: real, x: int)
    requires f < |h.initial|
  {
    f < |LastValue(h)| && x != LastValue(h)[f] && LatestChange(h, f).0 <= t && x != LatestChange(h, f).1 && t != 0.0
  }

  /** The records of an update, from the history alone.  The marks go to the first and the last field that the
      update changes, whether or not these are recorded. */
  function Written(h: History, id: nat, t: real, v: seq<int>, diff: seq<nat>, min: nat, max: nat): seq<Rec>
    requires forall j | 0 <= j < |diff| :: diff[j] < |v| == |h.initial|
  {
    if diff == [] then []
    else
      var f := diff[|diff| - 1];
      Written(h, id, t, v, diff[..|diff| - 1], min, max) +
      (if IsRecorded(h, f, t, v[f]) then [FlaggedRec(id, f, t, v[f], min, max)] else [])
  }

  function WrittenBy(h: History, id: nat, t: real, v: seq<int>): seq<Rec>
    requires |v| == |h.initial| == |LastValue(h)|
  {
    var diff := Differences(LastValue(h), v);
    if diff == [] then [] else Written(h, id, t, v, diff, diff[0], diff[|diff| - 1])
  }

  ghost predicate FieldTracks(m: Monitor, f: nat, latest: (real, int)) {
    m.valid && m.fieldIdx == Some(f) && m.buffer == None && m.end == latest.0 && m.value == latest.1
  }

  ghost predicate Tracks(s: Struct, h: History) {
    && |s.fields| == |s.bearing| == |h.initial| && s.bearing == LastValue(h) && s.typeId == h.typeId
    && forall f | 0 <= f < |s.fields| :: FieldTracks(s.fields[f], f, LatestChange(h, f))
  }

  lemma {:induction false} TouchAllTracks(
      s: Struct, h: History, t: real, v: seq<int>, diff: seq<nat>, min: nat, max: nat)
    requires Tracks(s, h) && |v| == |h.initial|
    requires forall j | 0 <= j < |diff| :: diff[j] < |v| && ChangesField(h, v, diff[j])
    requires forall j, k | 0 <= j < k < |diff| :: diff[j] < diff[k]
    ensures TouchAll(s, t, v, diff, min, max).1 == Written(h, s.id, t, v, diff, min, max)
    ensures forall f | 0 <= f < |v| ::
      FieldTracks(TouchAll(s, t, v, diff, min, max).0[f], f,
                  if f in diff && LatestChange(h, f).0 <= t then (t, v[f]) else LatestChange(h, f))
  {
    if diff != [] {
      var k := |diff| - 1;
      var f := diff[k];
      TouchAllTracks(s, h, t, v, diff[..k], min, max);
      assert f !in diff[..k];
      var m := TouchAll(s, t, v, diff[..k], min, max).0[f];
      assert FieldTracks(m, f, LatestChange(h, f));
      TouchResult(m, s.id, t, v[f], f, min, max);
    }
  }

  lemma DifferIff(s: Struct, h: History, v: seq<int>)
    requires Tracks(s, h) && |v| == |h.initial|
    ensures forall f | 0 <= f < |v| :: f in Differences(s.bearing, v) <==> ChangesField(h, v, f)
  {
  }

  lemma UpdateWrites(s: Struct, h: History, t: real, v: seq<int>)
    requires Tracks(s, h) && |v| == |h.initial|
    ensures var (s', written) := UpdateStruct(s, t, v);
      && written == WrittenBy(h, s.id, t, v)
      && forall f | 0 <= f < |v| ::
           FieldTracks(s'.fields[f], f,
                       if ChangesField(h, v, f) && LatestChange(h, f).0 <= t then (t, v[f]) else LatestChange(h, f))
  {
    var diff := Differences(s.bearing, v);
    DifferIff(s, h, v);
    if diff != [] { TouchAllTracks(s, h, t, v, diff, diff[0], diff[|diff| - 1]); }
  }

  /** One update, whenever it comes: what it writes and what the monitors hold afterwards. */
  lemma UpdateTracks(s: Struct, h: History, t: real, v: seq<int>)
    requires Tracks(s, h) && |v| == |h.initial|
    ensures UpdateStruct(s, t, v).1 == WrittenBy(h, s.id, t, v)
    ensures Tracks(UpdateStruct(s, t, v).0, h.(updates := h.updates + [(t, v)]))
  {
    UpdateWrites(s, h, t, v);
    Extend(h, t, v);
  }

  lemma InitTracks(id: nat, v: StructValue)
    ensures Tracks(InitStruct(id, v), History(v.typeId, v.fields, []))
  {
  }

  ghost predicate AllTrack(l: Logger, hs: map<string, History>) {
    l.structs.Keys == hs.Keys && forall n | n in hs :: Tracks(l.structs[n], hs[n])
  }

  /** Over all runs, whatever the order of the updates and however many structures there are. */
  lemma {:induction false} LogTracks(events: seq<Event>)
    ensures AllTrack(LogAll(events), Histories(events))
  {
    if events != [] {
      var n := |events| - 1;
      LogTracks(events[..n]);
      EventTracks(LogAll(events[..n]), Histories(events[..n]), events[n]);
    }
  }

  lemma EventTracks(l: Logger, hs: map<string, History>, e: Event)
    requires AllTrack(l, hs)
    ensures AllTrack(Log(l, e).0, Happen(hs, e))
  {
    match e {
      case Register(name, v) => InitTracks(|l.structs|, v);
      case Update(name, t, v) =>
        if name in hs {
          assert Tracks(l.structs[name], hs[name]);
          if SameType(l.structs[name], v) { UpdateTracks(l.structs[name], hs[name], t, v.fields); }
        }
    }
  }

  lemma {:induction false} WrittenField(
      h: History, id: nat, t: real, v: seq<int>, diff: seq<nat>, min: nat, max: nat, f: nat)
    requires f < |v| == |h.initial| <= 256 && forall j | 0 <= j < |diff| :: diff[j] < |v|
    ensures HasRecord(Written(h, id, t, v, diff, min, max), f) <==> f in diff && IsRecorded(h, f, t, v[f])
    ensures forall r | r in Written(h, id, t, v, diff, min, max) && r.fieldId == f ::
            r == FlaggedRec(id, f, t, v[f], min, max)
  {
    if diff != [] {
      var k := |diff| - 1;
      WrittenField(h, id, t, v, diff[..k], min, max, f);
      var front, all := Written(h, id, t, v, diff[..k], min, max), Written(h, id, t, v, diff, min, max);
      if r :| r in front && r.fieldId == f { assert r in all; }
      if diff[k] == f && IsRecorded(h, f, t, v[f]) { assert FlaggedRec(id, f, t, v[f], min, max) in all; }
    }
  }

  /** Field `f` of an update is recorded exactly when `IsRecorded` holds of the updates before it, in every run,
      and the records are then those of `WrittenBy`. */
  lemma RecordedIff(events: seq<Event>, name: string, t: real, v: StructValue)
    requires name in Histories(events)
    ensures name in LogAll(events).structs
    ensures var l, h := LogAll(events), Histories(events)[name];
      var (after, ok) := Log(l, Update(name, t, v));
      && (ok <==> v.typeId == h.typeId && |v.fields| == |h.initial|)
      && |LastValue(h)| == |h.initial|
      && (!ok ==> after == l)
      && (ok ==> after.records == l.records + WrittenBy(h, l.structs[name].id, t, v.fields))
      && (ok && |v.fields| <= 256 ==> forall f | 0 <= f < |v.fields| ::
            HasRecord(WrittenBy(h, l.structs[name].id, t, v.fields), f) <==> IsRecorded(h, f, t, v.fields[f]))
  {
    LogTracks(events);
    var l, h := LogAll(events), Histories(events)[name];
    assert Tracks(l.structs[name], h);
    if v.typeId == h.typeId && |v.fields| == |h.initial| {
      UpdateTracks(l.structs[name], h, t, v.fields);
      if |v.fields| <= 256 { FieldsWritten(h, l.structs[name].id, t, v.fields); }
    }
  }

  ghost predicate HasRecord(records: seq<Rec>, f: nat) {
    exists r :: r in records && r.fieldId == f
  }

  lemma FieldsWritten(h: History, id: nat, t: real, v: seq<int>)
    requires |v| == |h.initial| == |LastValue(h)| <= 256
    ensures forall f | 0 <= f < |v| :: HasRecord(WrittenBy(h, id, t, v), f) <==> IsRecorded(h, f, t, v[f])
  {
    var diff := Differences(LastValue(h), v);
    forall f | 0 <= f < |v| ensures HasRecord(WrittenBy(h, id, t, v), f) <==> IsRecorded(h, f, t, v[f]) {
      if diff != [] { WrittenField(h, id, t, v, diff, diff[0], diff[|diff| - 1], f); }
    }
  }

  lemma Extend(h: History, t: real, v: seq<int>)
    requires |v| == |h.initial| == |LastValue(h)|
    ensures var h' := h.(updates := h.updates + [(t, v)]);
      && LastValue(h') == v
      && forall f | 0 <= f < |v| ::
           LatestChange(h', f) ==
           if ChangesField(h, v, f) && LatestChange(h, f).0 <= t then (t, v[f]) else LatestChange(h, f)
  {
    var h' := h.(updates := h.updates + [(t, v)]);
    assert h'.updates[..|h'.updates| - 1] == h.updates && h'.(updates := h.updates) == h;
  }

  /** The events concern one structure, the first, and `h` is its history. */
  ghost predicate Single(events: seq<Event>, h: History) {
    Histories(events) == map["s" := h] && |LastValue(h)| == |h.initial| &&
    "s" in LogAll(events).structs && LogAll(events).structs["s"].id == 0
  }

  lemma SingleRegister(v: StructValue)
    ensures Single([Register("s", v)], History(v.typeId, v.fields, []))
    ensures LogAll([Register("s", v)]).records == InitRecords(0, v.fields)
  {
    var events := [Register("s", v)];
    assert events[..0] == [];
    assert Histories(events) == Happen(map[], events[0]) && LogAll(events) == Log(NEW_LOGGER, events[0]).0;
    assert [] + InitRecords(0, v.fields) == InitRecords(0, v.fields);
  }

  lemma SingleUpdate(events: seq<Event>, h: History, t: real, v: StructValue)
    requires Single(events, h) && v.typeId == h.typeId && |v.fields| == |h.initial|
    ensures Single(events + [Update("s", t, v)], h.(updates := h.updates + [(t, v.fields)]))
    ensures LogAll(events + [Update("s", t, v)]).records == LogAll(events).records + WrittenBy(h, 0, t, v.fields)
    ensures Log(LogAll(events), Update("s", t, v)).1
  {
    var e := Update("s", t, v);
    LogMore(events, e);
    LogTracks(events);
    assert Tracks(LogAll(events).structs["s"], h);
    UpdateTracks(LogAll(events).structs["s"], h, t, v.fields);
    Extend(h, t, v.fields);
    assert Happen(Histories(events), e) == map["s" := h.(updates := h.updates + [(t, v.fields)])];
  }

  lemma LogMore(events: seq<Event>, e: Event)
    ensures LogAll(events + [e]) == Log(LogAll(events), e).0 && Histories(events + [e]) == Happen(Histories(events), e)
  {
    var more := events + [e];
    assert more[..|more| - 1] == events;
  }

  /** Nothing is ever held back: `close` has nothing left to write. */
  ghost predicate Quiet(l: Logger) {
    forall n | n in l.structs :: QuietFields(l.structs[n].fields)
  }

  ghost predicate QuietFields(fields: seq<Monitor>) {
    forall i | 0 <= i < |fields| :: fields[i].buffer == None
  }

  lemma {:induction false} TouchAllQuiet(s: Struct, t: real, v: seq<int>, diff: seq<nat>, min: nat, max: nat)
    requires QuietFields(s.fields) && |v| == |s.fields| && forall j | 0 <= j < |diff| :: diff[j] < |v|
    ensures QuietFields(TouchAll(s, t, v, diff, min, max).0)
  {
    if diff != [] { TouchAllQuiet(s, t, v, diff[..|diff| - 1], min, max); }
  }

  lemma UpdateQuiet(s: Struct, t: real, v: seq<int>)
    requires QuietFields(s.fields) && |v| == |s.fields| == |s.bearing|
    ensures QuietFields(UpdateStruct(s, t, v).0.fields)
  {
    var diff := Differences(s.bearing, v);
    if diff != [] { TouchAllQuiet(s, t, v, diff, diff[0], diff[|diff| - 1]); }
  }

  lemma InitQuiet(id: nat, v: StructValue)
    ensures QuietFields(InitStruct(id, v).fields)
  {
    forall i | 0 <= i < |v.fields| ensures InitStruct(id, v).fields[i].buffer == None {
      assert InitStruct(id, v).fields[i] == InitField(id, v.fields, i).0;
    }
  }

  lemma LogQuiet(l: Logger, e: Event)
    requires Quiet(l)
    ensures Quiet(Log(l, e).0)
  {
    match e {
      case Register(name, v) => InitQuiet(|l.structs|, v);
      case Update(name, t, v) =>
        if name in l.structs && SameType(l.structs[name], v) { UpdateQuiet(l.structs[name], t, v.fields); }
    }
  }

  /** In every run, in whatever order the updates come. */
  lemma {:induction false} NothingHeldBack(events: seq<Event>)
    ensures Quiet(LogAll(events))
  {
    if events != [] {
      NothingHeldBack(events[..|events| - 1]);
      LogQuiet(LogAll(events[..|events| - 1]), events[|events| - 1]);
    }
  }

  // ----- The answers -----

  /** The registered names, in the order of their first registration. */
  function Registered(events: seq<Event>): seq<string> {
    if events == [] then []
    else
      var before, e := Registered(events[..|events| - 1]), events[|events| - 1];
      if e.Register? && e.name !in before then before + [e.name] else before
  }

  /** In every run the names are numbered in the order of their first registration, and each has a history of the
      type and size that it was registered with. */
  lemma {:induction false} NamesAreRegistered(events: seq<Event>)
    ensures LogAll(events).names == Registered(events) && |LogAll(events).structs| == |Registered(events)|
    ensures forall n :: n in Histories(events) <==> n in Registered(events)
    ensures AllTrack(LogAll(events), Histories(events))
  {
    LogTracks(events);
    if events != [] {
      var n := |events| - 1;
      NamesAreRegistered(events[..n]);
      LogTracks(events[..n]);
      var l, e := LogAll(events[..n]), events[n];
      assert e.Update? && e.name in l.structs ==> |l.structs[e.name := Log(l, e).0.structs[e.name]]| == |l.structs| by {
        if e.Update? && e.name in l.structs { SameSize(l.structs, e.name, Log(l, e).0.structs[e.name]); }
      }
    }
  }

  lemma SameSize(structs: map<string, Struct>, name: string, s: Struct)
    requires name in structs
    ensures |structs[name := s]| == |structs|
  {
    assert structs[name := s].Keys == structs.Keys;
    assert |structs[name := s]| == |structs[name := s].Keys| && |structs| == |structs.Keys|;
  }

  /** After any events: a registration is accepted if and only if its name is new, and then gets the next number; an
      update is accepted if and only if its name is registered with the same type and size.  What is refused changes
      nothing. */
  lemma AnswersIff(events: seq<Event>, e: Event)
    ensures var l := LogAll(events);
      var (after, ok) := Log(l, e);
      && (!ok ==> after == l)
      && (match e
          case Register(name, v) =>
            (ok <==> name !in Registered(events)) &&
            (ok ==> after.structs[name].id == |Registered(events)| && after.names == Registered(events) + [name])
          case Update(name, _, v) =>
            ok <==> name in Registered(events) && name in Histories(events) &&
                    v.typeId == Histories(events)[name].typeId && |v.fields| == |Histories(events)[name].initial|)
  {
    NamesAreRegistered(events);
    if e.name in Histories(events) { assert Tracks(LogAll(events).structs[e.name], Histories(events)[e.name]); }
  }

  /** A registration writes one record for each field at time zero, the least field marked as the start and the
      greatest as the end. */
  lemma RegistrationRecords(events: seq<Event>, name: string, v: StructValue)
    requires name !in Registered(events) && |Registered(events)| < 256 && |v.fields| <= 256
    ensures var l, n := LogAll(events), |Registered(events)|;
      Log(l, Register(name, v)).0.records == l.records + FirstRecords(n, v.fields)
  {
    NamesAreRegistered(events);
    FirstAreInit(|Registered(events)|, v.fields);
  }

  function FirstRecords(id: nat, v: seq<int>): seq<Rec> {
    seq(|v|, i requires 0 <= i < |v| => Rec(0.0, id, i, i == 0, i == |v| - 1, v[i]))
  }

  lemma FirstAreInit(id: nat, v: seq<int>)
    requires id < 256 && |v| <= 256
    ensures InitRecords(id, v) == FirstRecords(id, v)
  {
  }

  lemma {:induction false} DifferencesAscend(a: seq<int>, b: seq<int>)
    requires |a| == |b|
    ensures var d := Differences(a, b); forall j, k | 0 <= j < k < |d| :: d[j] < d[k]
    ensures forall j | 0 <= j < |Differences(a, b)| :: Differences(a, b)[j] < |a|
  {
    if a != [] { DifferencesAscend(a[..|a| - 1], b[..|b| - 1]); }
  }

  /** Among the records of an update exactly the one of the least field is marked as the start, and exactly the one of
      the greatest field as the end. */
  lemma MarksOfUpdate(id: nat, t: real, before: seq<int>, v: seq<int>, r: Rec)
    requires |before| == |v| && r in UpdateRecords(id, t, before, v)
    ensures r.starting <==> forall q | q in UpdateRecords(id, t, before, v) :: r.fieldId <= q.fieldId
    ensures r.ending <==> forall q | q in UpdateRecords(id, t, before, v) :: q.fieldId <= r.fieldId
  {
    var all, diff := UpdateRecords(id, t, before, v), Differences(before, v);
    DifferencesAscend(before, v);
    assert all[0] in all && all[|all| - 1] in all;
    forall q | q in all ensures diff[0] <= q.fieldId <= diff[|diff| - 1] {
      var j :| 0 <= j < |all| && all[j] == q;
    }
  }

  // ----- The class -----

  class FileLogger {
    var structs: map<string, Struct>
    var names: seq<string>
    var records: seq<Rec>   // what the shared file holds
    var isOpen: bool

    ghost function Value(): Logger
      reads this
    {
      Logger(structs, names, records)
    }

    constructor ()
      ensures Value() == NEW_LOGGER && isOpen
    {
      structs, names, records, isOpen := map[], [], [], true;
    }

    method WriteField(m: Monitor, min: nat, max: nat, lastWrite: bool, firstWrite: bool) returns (m': Monitor)
      modifies this`records
      ensures m' == FlushField(m, min, max, lastWrite, firstWrite).0
      ensures records == old(records) + (if isOpen then FlushField(m, min, max, lastWrite, firstWrite).1 else [])
    {
      m' := m;
      if m.buffer.Some? {
        m' := m.(buffer := None);
        var r := m.buffer.value;
        if r.timestamp == 0.0 && !firstWrite { return; }
        r := r.(starting := lastWrite || r.fieldId == min, ending := lastWrite || r.fieldId == max);
        if isOpen { records := records + [r]; }
      }
    }

    /** The first loop of `init`: every field is updated, and all of them have to be written. */
    method SetFields(id: nat, v: seq<int>) returns (fields: seq<Monitor>, toPersist: seq<nat>)
      ensures |fields| == |v| && forall i | 0 <= i < |v| :: fields[i] == UpdateField(NEW_MONITOR, id, 0.0, v[i], i).0
      ensures toPersist == seq(|v|, i => i)
    {
      fields, toPersist := [], [];
      for i := 0 to |v|
        invariant |fields| == i && forall k | 0 <= k < i :: fields[k] == UpdateField(NEW_MONITOR, id, 0.0, v[k], k).0
        invariant toPersist == seq(i, k => k)
      {
        var (m, write) := UpdateField(NEW_MONITOR, id, 0.0, v[i], i);
        fields := fields + [m];
        if write { toPersist := toPersist + [i]; }
      }
    }

    method Init(id: nat, v: StructValue) returns (s: Struct)
      modifies this`records
      ensures s == InitStruct(id, v)
      ensures records == old(records) + (if isOpen then InitRecords(id, v.fields) else [])
    {
      var fields, toPersist := SetFields(id, v.fields);
      if toPersist != [] {
        var min, max := toPersist[0], toPersist[|toPersist| - 1];
        for k := 0 to |toPersist|
          invariant |fields| == |v.fields|
          invariant forall i | 0 <= i < k :: fields[i] == InitField(id, v.fields, i).0
          invariant forall i | k <= i < |fields| :: fields[i] == UpdateField(NEW_MONITOR, id, 0.0, v.fields[i], i).0
          invariant records == old(records) + (if isOpen then InitRecords(id, v.fields)[..k] else [])
        {
          var m := WriteField(fields[toPersist[k]], min, max, false, true);
          fields := fields[toPersist[k] := m];
        }
      }
      s := Struct(id, v.typeId, fields, v.fields);
    }

    method RegisterObjectWithName(name: string, v: StructValue) returns (ok: bool)
      modifies this
      ensures isOpen == old(isOpen) && (isOpen ==> (Value(), ok) == Log(old(Value()), Register(name, v)))
    {
      if name in structs { return false; }
      var s := Init(|structs|, v);
      structs := structs[name := s];
      names := names + [name];
      ok := true;
    }

    /** The loop over the fields that differ. */
    method WriteDelta(s: Struct, t: real, v: seq<int>, diff: seq<nat>) returns (fields: seq<Monitor>)
      requires diff != [] && |v| == |s.fields| && forall j | 0 <= j < |diff| :: diff[j] < |v|
      modifies this`records
      ensures fields == TouchAll(s, t, v, diff, diff[0], diff[|diff| - 1]).0
      ensures records == old(records) + (if isOpen then TouchAll(s, t, v, diff, diff[0], diff[|diff| - 1]).1 else [])
    {
      var min, max := diff[0], diff[|diff| - 1];
      fields := s.fields;
      for k := 0 to |diff|
        invariant |fields| == |v| && fields == TouchAll(s, t, v, diff[..k], min, max).0
        invariant records == old(records) + (if isOpen then TouchAll(s, t, v, diff[..k], min, max).1 else [])
      {
        assert diff[..k + 1][..k] == diff[..k];
        var (m, _) := UpdateField(fields[diff[k]], s.id, t, v[diff[k]], diff[k]);
        m := WriteField(m, min, max, false, false);
        fields := fields[diff[k] := m];
      }
      assert diff[..|diff|] == diff;
    }

    method UpdateStruct(name: string, t: real, v: StructValue) returns (ok: bool)
      modifies this
      ensures isOpen == old(isOpen) && (isOpen ==> (Value(), ok) == Log(old(Value()), Update(name, t, v)))
    {
      if name !in structs || !SameType(structs[name], v) { return false; }
      var s := structs[name];
      var diff := Differences(s.bearing, v.fields);
      if diff != [] {
        var fields := WriteDelta(s, t, v.fields, diff);
        s := s.(fields := fields);
      }
      assert old(records) + [] == old(records);
      structs := structs[name := s.(bearing := v.fields)];
      ok := true;
    }

    /** `finaliseWrite` of one structure. */
    method FinaliseWrite(s: Struct) returns (s': Struct)
      requires QuietFields(s.fields)
      modifies this`records
      ensures records == old(records)
      ensures |s'.fields| == |s.fields| && s' == s.(fields := s'.fields)
      ensures forall i | 0 <= i < |s.fields| :: s'.fields[i] == FinalizeField(s.fields[i]).0
    {
      s' := s;
      for i := 0 to |s.fields|
        invariant records == old(records) && |s'.fields| == |s.fields| && s' == s.(fields := s'.fields)
        invariant forall k | 0 <= k < i :: s'.fields[k] == FinalizeField(s.fields[k]).0
        invariant forall k | i <= k < |s.fields| :: s'.fields[k] == s.fields[k]
      {
        var m := WriteField(s'.fields[i], 0, 0, true, false);
        if m.valid { m := m.(start := 0.0, end := 0.0, valid := false); }
        s' := s'.(fields := s'.fields[i := m]);
      }
    }

    /** `close`: nothing is held back, so nothing is added; the last block is flushed and the file closed. */
    method Close()
      requires Quiet(Value())
      modifies this
      ensures records == old(records) && names == old(names) && !isOpen
    {
      var pending := structs.Keys;
      while pending != {}
        invariant records == old(records) && names == old(names) && pending <= structs.Keys
        invariant forall n | n in pending :: QuietFields(structs[n].fields)
        decreases |pending|
      {
        var n :| n in pending;
        var s := FinaliseWrite(structs[n]);
        structs := structs[n := s];
        pending := pending - {n};
      }
      isOpen := false;
    }
  }
}
