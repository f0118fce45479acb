/** Interval files from end to end: what the monitors of RunLength record is written by the serializer of
    BlockFiles as a packed header and a payload, and the merge of CursorMerge reads it again. */
module IntervalFiles {
  import opened Options
  import opened Blocks
  import opened BlockFiles
  import CursorMerge
  import RunLength

  type Header = CursorMerge.Header
  type Interval = RunLength.Interval<Bytes>

  const NAME_SIZE: nat := 126              // sizeof(logger_record)
  const SIGN: nat := 0x8000_0000_0000_0000
  const HIGHEST: int := 0x7FEF_FFFF_FFFF_FFFF

  // ----- Records as bytes -----

  /** The bits of the finite double of a rank: sign and magnitude. */
  function TimeBits(t: int): nat
    requires -HIGHEST <= t <= HIGHEST
  {
    if t >= 0 then t else SIGN - t
  }

  function TimeOf(bits: nat): int { if bits < SIGN then bits else SIGN - bits }

  predicate Fits(r: Interval, payload: nat) {
    r.start <= HIGHEST && r.end <= HIGHEST && |r.value| == payload
  }

  /** The packed header, with both validity bytes set, and the payload; `name` is the name of the file. */
  function Encode(r: Interval, name: Bytes): Bytes
    requires Fits(r, |r.value|)
  {
    ToLE(TimeBits(r.start), 8) + ToLE(TimeBits(r.end), 8) + [1, 1] + name + ToLE(|r.value|, 8) + r.value
  }

  /** What the fields of the header hold.  A record that is cut short has none. */
  function Decode(r: Bytes): Header {
    if |r| < HEADER_SIZE then CursorMerge.Header(0, 0, false, [])
    else
      var valid := r[16] != 0 && r[17] != 0;
      CursorMerge.Header(TimeOf(FromLE(r[0..8])), TimeOf(FromLE(r[8..16])), valid, r[HEADER_SIZE..])
  }

  function HeaderOf(r: Interval): Header { CursorMerge.Header(r.start, r.end, true, r.value) }

  lemma WordFits()
    ensures Power256(8) == 0x1_0000_0000_0000_0000
  {
    assert Power256(4) == 0x1_0000_0000;
    assert Power256(6) == 0x1_0000_0000_0000;
  }

  lemma TimeRoundTrip(t: int)
    requires -HIGHEST <= t <= HIGHEST
    ensures TimeOf(FromLE(ToLE(TimeBits(t), 8))) == t
  {
    WordFits();
    LERoundTrip(TimeBits(t), 8);
  }

  lemma Slices(a: Bytes, b: Bytes, c: Bytes, name: Bytes, d: Bytes, e: Bytes)
    requires |a| == |b| == |d| == 8 && |c| == 2 && |name| == NAME_SIZE
    ensures var r := a + b + c + name + d + e;
      r[0..8] == a && r[8..16] == b && r[16] == c[0] && r[17] == c[1] &&
      r[PAYLOAD_AT..PAYLOAD_AT + 8] == d && r[HEADER_SIZE..] == e
  {
  }

  /** A record that is written is read as it was, and says how long it is. */
  lemma RecordRoundTrip(r: Interval, name: Bytes, payload: nat)
    requires Fits(r, payload) && |name| == NAME_SIZE && payload <= BUFFER_SIZE
    ensures FitsLayout(Encode(r, name), HeaderRecords, HEADER_SIZE + payload)
    ensures Decode(Encode(r, name)) == HeaderOf(r)
  {
    TimeRoundTrip(r.start);
    TimeRoundTrip(r.end);
    SmallLE(payload);
    Slices(ToLE(TimeBits(r.start), 8), ToLE(TimeBits(r.end), 8), [1, 1], name, ToLE(payload, 8), r.value);
  }

  // ----- Files -----

  ghost predicate AllEncode(records: seq<Interval>, payload: nat) {
    forall i | 0 <= i < |records| :: Fits(records[i], payload)
  }

  /** What the serializer is given. */
  function Puts(records: seq<Interval>, name: Bytes, payload: nat): seq<Op>
    requires AllEncode(records, payload)
  {
    seq(|records|, i requires 0 <= i < |records| => Put(Encode(records[i], name)))
  }

  /** The bytes of the file. */
  function Stream(w: Writer, records: seq<Interval>, name: Bytes, payload: nat): Bytes
    requires NewWriter(w) && AllEncode(records, payload)
  {
    AfterClose(Run(w, Puts(records, name, payload))).stream
  }

  function Decoded(records: seq<Bytes>): seq<Header> {
    seq(|records|, i requires 0 <= i < |records| => Decode(records[i]))
  }

  function DecodedBlocks(blocks: seq<seq<Bytes>>): seq<seq<Header>> {
    seq(|blocks|, b requires 0 <= b < |blocks| => Decoded(blocks[b]))
  }

  /** The blocks that the merge gets, if no record of the file is beyond the index. */
  function Column(stream: Bytes): Option<seq<seq<Header>>> {
    match ReadBlocks(stream, HeaderRecords, [])
    case None => None
    case Some(blocks) => Some(DecodedBlocks(blocks))
  }

  function HeadersOf(records: seq<Interval>): seq<Header> {
    seq(|records|, i requires 0 <= i < |records| => HeaderOf(records[i]))
  }

  lemma {:induction false} DecodedReadable(blocks: seq<seq<Bytes>>, limit: nat)
    ensures Readable(DecodedBlocks(blocks), limit) == Readable(blocks, limit)
  {
    if blocks != [] {
      assert DecodedBlocks(blocks)[1..] == DecodedBlocks(blocks[1..]);
      DecodedReadable(blocks[1..], if limit == 0 then |blocks[0]| else limit);
    }
  }

  lemma {:induction false} DecodedFlat(blocks: seq<seq<Bytes>>)
    ensures Flatten(DecodedBlocks(blocks)) == Decoded(Flatten(blocks))
  {
    if blocks != [] {
      assert DecodedBlocks(blocks)[1..] == DecodedBlocks(blocks[1..]);
      DecodedFlat(blocks[1..]);
      assert Decoded(blocks[0] + Flatten(blocks[1..])) == Decoded(blocks[0]) + Decoded(Flatten(blocks[1..]));
    }
  }

  /** Only the last block may be empty: all records come before the first empty block. */
  lemma {:induction false} AllSeen<T>(blocks: seq<seq<T>>)
    requires forall b | 0 <= b < |blocks| - 1 :: blocks[b] != []
    ensures Flatten(Seen(blocks)) == Flatten(blocks)
  {
    if blocks != [] {
      if blocks[0] == [] { assert blocks[1..] == []; } else { AllSeen(blocks[1..]); }
    }
  }

  lemma {:induction false} WrittenRecords(records: seq<Interval>, name: Bytes, payload: nat)
    requires AllEncode(records, payload) && |name| == NAME_SIZE && HEADER_SIZE + payload <= BUFFER_SIZE
    ensures Decoded(Written(Puts(records, name, payload))) == HeadersOf(records)
  {
    if records != [] {
      var n := |records| - 1;
      WrittenRecords(records[..n], name, payload);
      assert Puts(records, name, payload)[..n] == Puts(records[..n], name, payload);
      var front := Written(Puts(records[..n], name, payload));
      assert Decoded(front + [Encode(records[n], name)]) == Decoded(front) + [Decode(Encode(records[n], name))];
      assert Fits(records[n], payload);
      RecordRoundTrip(records[n], name, payload);
      assert HeadersOf(records) == HeadersOf(records[..n]) + [HeaderOf(records[n])];
    }
  }

  lemma PutsFit(records: seq<Interval>, name: Bytes, payload: nat)
    requires AllEncode(records, payload) && |name| == NAME_SIZE && HEADER_SIZE + payload <= BUFFER_SIZE
    ensures FittingOps(Puts(records, name, payload), HeaderRecords, HEADER_SIZE + payload)
    ensures var ops := Puts(records, name, payload); forall i | 0 <= i < |ops| :: ops[i].Put?
  {
    var ops := Puts(records, name, payload);
    forall i | 0 <= i < |ops| ensures ops[i].Put? && FitsLayout(ops[i].data, HeaderRecords, HEADER_SIZE + payload) {
      assert Fits(records[i], payload);
      RecordRoundTrip(records[i], name, payload);
    }
  }

  /** The blocks of a file that is written without a flush. */
  function BlocksOf(ops: seq<Op>, size: nat): seq<seq<Bytes>> {
    Packing(ops, size).0 + [Packing(ops, size).1]
  }

  /** All blocks but the last have `p` records, and the last has no more. */
  ghost predicate Chunked<T>(blocks: seq<seq<T>>, p: nat) {
    && p > 0 && blocks != [] && |blocks[|blocks| - 1]| <= p
    && forall b | 0 <= b < |blocks| - 1 :: |blocks[b]| == p
  }

  /** How many records a block holds. */
  function PerBlock(size: nat): nat
    requires size > 0
  {
    BUFFER_SIZE / size
  }

  lemma PerBlockIff(k: nat, size: nat)
    requires size > 0
    ensures k * size <= BUFFER_SIZE <==> k <= PerBlock(size)
  {
    var p := PerBlock(size);
    assert p * size <= BUFFER_SIZE < p * size + size;
    Scaled(k, p, size);
    Scaled(p, k, size);
  }

  lemma BlocksAreChunks(ops: seq<Op>, size: nat)
    requires FittingOps(ops, HeaderRecords, size) && size > 0 && forall i | 0 <= i < |ops| :: ops[i].Put?
    ensures Chunked(BlocksOf(ops, size), PerBlock(size))
  {
    FullBlocks(ops, HeaderRecords, size);
    var (blocks, current) := Packing(ops, size);
    PerBlockIff(1, size);
    PerBlockIff(|current|, size);
    forall b | 0 <= b < |blocks| ensures |blocks[b]| == PerBlock(size) {
      PerBlockIff(|blocks[b]|, size);
      PerBlockIff(|blocks[b]| + 1, size);
    }
  }

  lemma BlocksOfFile(w: Writer, ops: seq<Op>, size: nat)
    requires NewWriter(w) && FittingOps(ops, HeaderRecords, size) && size > 0
    requires forall i | 0 <= i < |ops| :: ops[i].Put?
    ensures var blocks := BlocksOf(ops, size);
      && Column(AfterClose(Run(w, ops)).stream) == Some(DecodedBlocks(blocks)) && Readable(blocks, 0)
      && Flatten(blocks) == Written(ops) && forall b | 0 <= b < |blocks| - 1 :: blocks[b] != []
  {
    ClosedBlocks(w, ops, HeaderRecords, size);
    PutsReadable(ops, HeaderRecords, size);
    BlocksAreChunks(ops, size);
  }

  /** A file of intervals can be read to its end, and the merge sees exactly the intervals that were written. */
  lemma FileIsColumn(w: Writer, records: seq<Interval>, name: Bytes, payload: nat)
    requires NewWriter(w) && AllEncode(records, payload)
    requires |name| == NAME_SIZE && HEADER_SIZE + payload <= BUFFER_SIZE
    ensures var column := Column(Stream(w, records, name, payload));
      && column.Some? && Readable(column.value, 0)
      && Flatten(column.value) == HeadersOf(records) && Flatten(Seen(column.value)) == HeadersOf(records)
  {
    var ops, size := Puts(records, name, payload), HEADER_SIZE + payload;
    PutsFit(records, name, payload);
    BlocksOfFile(w, ops, size);
    WrittenRecords(records, name, payload);
    var all := BlocksOf(ops, size);
    DecodedReadable(all, 0);
    DecodedFlat(all);
    assert forall b | 0 <= b < |all| - 1 :: |DecodedBlocks(all)[b]| == |all[b]|;
    AllSeen(DecodedBlocks(all));
  }

  /** What the merge finds under its old pointer when it has moved to a new block: the bytes of the file at the
      old place of the new block.  They are those of the record in this place, or, in a shorter block, those that
      the writer left there, of the record that the pointer was taken for. */
  lemma OldHeaderIsInFile(w: Writer, ops: seq<Op>, size: nat, c: CursorMerge.Column)
    requires NewWriter(w) && FittingOps(ops, HeaderRecords, size) && size >= HEADER_SIZE
    requires c.blocks == DecodedBlocks(BlocksOf(ops, size)) && c.good
    requires c.block + 1 < |c.blocks| && c.first + 1 == |c.blocks[c.block]|
    ensures var place := (c.block + 1) * BLOCK_SIZE + Place(size, c.first);
      CursorMerge.OldHeader(c, CursorMerge.Next(c), c.blocks[c.block][c.first]) ==
      Decode(Clip(AfterClose(Run(w, ops)).stream, place, size))
  {
    var blocks, b, k := BlocksOf(ops, size), c.block + 1, c.first;
    CursorMerge.OldHeaderIs(c);
    assert c.blocks[b] == Decoded(blocks[b]) && c.blocks[b - 1] == Decoded(blocks[b - 1]);
    BytesAtPlace(w, ops, size, b, k);
  }

  lemma BytesAtPlace(w: Writer, ops: seq<Op>, size: nat, b: nat, k: nat)
    requires NewWriter(w) && FittingOps(ops, HeaderRecords, size)
    requires 0 < b < |BlocksOf(ops, size)| && k < |BlocksOf(ops, size)[b - 1]|
    ensures var blocks := BlocksOf(ops, size);
      Clip(AfterClose(Run(w, ops)).stream, b * BLOCK_SIZE + Place(size, k), size) ==
      if k < |blocks[b]| then blocks[b][k] else blocks[b - 1][k]
  {
    if k < |BlocksOf(ops, size)[b]| {
      ClosedBlocks(w, ops, HeaderRecords, size);
      InPlace(AfterClose(Run(w, ops)).stream, BlocksOf(ops, size), HeaderRecords, size, b, k);
    } else {
      FileLeavesOld(w, ops, HeaderRecords, size);
    }
  }

  // ----- Recordings -----

  /** The calls of one any-typed monitor until its first file is closed, and the writer of that file. */
  datatype Recording = Recording(start: RunLength.Time, init: Option<Bytes>, unset: Bytes,
                                 ops: seq<RunLength.Op<Bytes>>, writer: Writer, name: Bytes, payload: nat)

  predicate CallFits(op: RunLength.Op<Bytes>, payload: nat) {
    match op
    case Update(t, v) => t <= HIGHEST && |v| == payload
    case Invalidate(t) => t <= HIGHEST
    case SetFile => true
    case ClearFile => true
  }

  ghost predicate Proper(r: Recording) {
    && NewWriter(r.writer) && |r.name| == NAME_SIZE && HEADER_SIZE + r.payload <= BUFFER_SIZE
    && r.start <= HIGHEST && |r.unset| == r.payload && (r.init.Some? ==> |r.init.value| == r.payload)
    && (forall i | 0 <= i < |r.ops| :: CallFits(r.ops[i], r.payload))
    && RunLength.FirstFile(Recorded(r, r.ops).0)
  }

  function Recorded(r: Recording, ops: seq<RunLength.Op<Bytes>>): (RunLength.Monitor<Bytes>, seq<Interval>) {
    RunLength.Run(RunLength.AnyTyped, RunLength.Constructed(r.start, r.init, r.unset), ops)
  }

  /** All calls, the last of which closes the file. */
  function AllCalls(r: Recording): seq<RunLength.Op<Bytes>> { r.ops + [RunLength.ClearFile] }

  function Client(r: Recording): RunLength.Client<Bytes> { RunLength.NewClient(r.start, r.init, r.unset) }

  lemma {:induction false} RunFits(r: Recording, ops: seq<RunLength.Op<Bytes>>)
    requires r.start <= HIGHEST && |r.unset| == r.payload && (r.init.Some? ==> |r.init.value| == r.payload)
    requires forall i | 0 <= i < |ops| :: CallFits(ops[i], r.payload)
    ensures Fits(RunLength.Held(Recorded(r, ops).0), r.payload) && AllEncode(Recorded(r, ops).1, r.payload)
  {
    if ops != [] {
      var n := |ops| - 1;
      RunFits(r, ops[..n]);
      var m := Recorded(r, ops[..n]).0;
      assert CallFits(ops[n], r.payload);
      StepFits(m, ops[n], r.payload);
    }
  }

  lemma StepFits(m: RunLength.Monitor<Bytes>, op: RunLength.Op<Bytes>, payload: nat)
    requires Fits(RunLength.Held(m), payload) && CallFits(op, payload)
    ensures var (n, e) := RunLength.Step(RunLength.AnyTyped, m, op);
      Fits(RunLength.Held(n), payload) && AllEncode(e, payload)
  {
  }

  /** The intervals that the monitor writes to its file. */
  function FileRecords(r: Recording): seq<Interval>
    requires Proper(r)
  {
    RunLength.FileHoldsHistory(r.start, r.init, r.unset, r.ops);
    Recorded(r, AllCalls(r)).0.closed[0]
  }

  lemma RecordsFit(r: Recording)
    requires Proper(r)
    ensures FileRecords(r) == Recorded(r, AllCalls(r)).1 && AllEncode(FileRecords(r), r.payload)
    ensures var (m, emitted) := Recorded(r, AllCalls(r)); RunLength.History(m, emitted) == FileRecords(r)
  {
    RunLength.FileHoldsHistory(r.start, r.init, r.unset, r.ops);
    RunFits(r, AllCalls(r));
  }

  /** The bytes of the closed file. */
  function FileOf(r: Recording): Bytes
    requires Proper(r)
  {
    RecordsFit(r);
    Stream(r.writer, FileRecords(r), r.name, r.payload)
  }

  /** The column of a recording. */
  function ColumnOf(r: Recording): (column: seq<seq<Header>>)
    requires Proper(r)
    ensures Column(FileOf(r)) == Some(column)
  {
    RecordsFit(r);
    FileIsColumn(r.writer, FileRecords(r), r.name, r.payload);
    Column(FileOf(r)).value
  }

  lemma ColumnHolds(r: Recording)
    requires Proper(r)
    ensures Readable(ColumnOf(r), 0) &&
            Flatten(ColumnOf(r)) == CursorMerge.Records(ColumnOf(r)) == HeadersOf(FileRecords(r))
  {
    RecordsFit(r);
    FileIsColumn(r.writer, FileRecords(r), r.name, r.payload);
  }

  // ----- What the rows show -----

  /** No call of the recording adds an interval that starts before the last one has ended. */
  predicate InOrder(r: Recording) { !RunLength.EverOverlaps(RunLength.AnyTyped, Client(r), AllCalls(r)) }

  /** No call makes the history say something else than the client said. */
  predicate Faithful(r: Recording) { !RunLength.EverSpoils(RunLength.AnyTyped, Client(r), AllCalls(r)) }

  function Said(r: Recording, t: RunLength.Time): Option<Bytes> {
    RunLength.Said(RunLength.AnyTyped, Client(r), AllCalls(r), t)
  }

  /** The intervals are apart exactly when the calls are in order. */
  lemma ColumnApartIff(r: Recording)
    requires Proper(r)
    ensures CursorMerge.Apart(Flatten(ColumnOf(r))) <==> InOrder(r)
  {
    RunLength.DisjointIff(RunLength.AnyTyped, r.start, r.init, r.unset, AllCalls(r));
    RecordsFit(r);
    ColumnHolds(r);
    HeadersApart(FileRecords(r));
  }

  lemma HeadersApart(records: seq<Interval>)
    ensures CursorMerge.Apart(HeadersOf(records)) <==> RunLength.Disjoint(records)
  {
    var h := HeadersOf(records);
    assert forall i | 0 <= i < |h| :: h[i] == HeaderOf(records[i]);
    assert CursorMerge.Apart(h) ==> RunLength.Disjoint(records) by {
      if CursorMerge.Apart(h) {
        forall i | 0 <= i < |h| ensures records[i].start <= records[i].end { assert h[i].start <= h[i].end; }
        forall i, j | 0 <= i < j < |h| ensures records[i].end < records[j].start { assert h[i].end < h[j].start; }
      }
    }
  }

  /** The text of a value, and what is printed for none. */
  function TextOf(show: Bytes -> string, value: Option<Bytes>): string {
    if value.None? then CursorMerge.NOT_AVAILABLE else show(value.value)
  }

  function Rendered(show: Bytes -> string): CursorMerge.Render { (h: Header) => show(h.value) }

  lemma {:induction false} CellIsLookup(show: Bytes -> string, records: seq<Interval>, t: RunLength.Time)
    ensures CursorMerge.CellOf(Rendered(show), HeadersOf(records), t) == TextOf(show, RunLength.Lookup(records, t))
  {
    if records != [] {
      var n := |records| - 1;
      CellIsLookup(show, records[..n], t);
      assert HeadersOf(records)[..n] == HeadersOf(records[..n]);
    }
  }

  /** The cell of a recording at any time: what the client said, exactly where its file does not go wrong. */
  lemma CellIsSaid(show: Bytes -> string, r: Recording, t: RunLength.Time, text: string)
    requires Proper(r) && InOrder(r) && Faithful(r)
    requires CursorMerge.Shows(Rendered(show), ColumnOf(r), t, text)
    ensures text == TextOf(show, Said(r, t)) <==> !CursorMerge.GoesWrong(Rendered(show), ColumnOf(r), t)
  {
    ColumnApartIff(r);
    CursorMerge.RightCellIff(Rendered(show), ColumnOf(r), t, text);
    ColumnHolds(r);
    RecordsFit(r);
    CellIsLookup(show, FileRecords(r), t);
    RunLength.HistoryIsRightIff(RunLength.AnyTyped, r.start, r.init, r.unset, AllCalls(r));
    assert RunLength.Right(RunLength.AnyTyped, r.start, r.init, r.unset, AllCalls(r));
  }

  lemma {:induction false} SamplesKeepFile(m: RunLength.Monitor<Bytes>, front: seq<RunLength.Op<Bytes>>,
                                           samples: seq<RunLength.Sample<Bytes>>)
    requires RunLength.FirstFile(RunLength.Run(RunLength.AnyTyped, m, front).0)
    ensures RunLength.FirstFile(RunLength.Run(RunLength.AnyTyped, m, front + RunLength.Ops(samples)).0)
  {
    if samples == [] {
      assert front + RunLength.Ops(samples) == front;
    } else {
      var n := |samples| - 1;
      SamplesKeepFile(m, front, samples[..n]);
      RunLength.OneMoreSample(front, [], samples);
      var before := front + RunLength.Ops(samples[..n]);
      assert (before + [RunLength.OpOf(samples[n])])[..|before|] == before;
    }
  }

  /** A file that is opened first, samples at increasing times, the last of which is a value: such a recording is in
      order and faithful, and what it says of a time is what the samples say. */
  lemma SampledRecording(r: Recording, samples: seq<RunLength.Sample<Bytes>>)
    requires r.ops == RunLength.Calls(true, samples) && (samples != [] ==> r.start <= samples[0].time)
    requires var all := RunLength.WithStart(r.start, r.init, samples);
      RunLength.Increasing(all) && all != [] && all[|all| - 1].value.Some?
    ensures RunLength.FirstFile(Recorded(r, r.ops).0) && InOrder(r) && Faithful(r)
    ensures var all := RunLength.WithStart(r.start, r.init, samples);
      forall t: RunLength.Time :: Said(r, t) ==
        if t <= all[|all| - 1].time then RunLength.Sampled(RunLength.AnyTyped, all, t) else None
  {
    RunLength.SamplesCloseWell(r.start, r.init, r.unset, samples);
    var m := RunLength.Constructed(r.start, r.init, r.unset);
    var front: seq<RunLength.Op<Bytes>> := [RunLength.SetFile];
    assert RunLength.Run(RunLength.AnyTyped, m, front).0 == m.(file := Some([])) by { assert front[..0] == []; }
    SamplesKeepFile(m, front, samples);
  }

  // ----- Where a file goes wrong -----

  lemma {:induction false} ChunkLength<T>(blocks: seq<seq<T>>, p: nat, b: nat)
    requires Chunked(blocks, p) && b < |blocks|
    ensures |Flatten(blocks[..b])| == b * p
  {
    if b > 0 {
      ChunkLength(blocks, p, b - 1);
      assert blocks[..b] == blocks[..b - 1] + [blocks[b - 1]];
      FlattenAppend(blocks[..b - 1], blocks[b - 1]);
      Scaled(0, b - 1, p);
    }
  }

  lemma ChunkAt<T>(blocks: seq<seq<T>>, p: nat, b: nat, k: nat)
    requires Chunked(blocks, p) && b < |blocks| && k < |blocks[b]|
    ensures b * p + k < |Flatten(blocks)| && Flatten(blocks)[b * p + k] == blocks[b][k]
  {
    ChunkLength(blocks, p, b);
    FlattenAt(blocks, b, k);
  }

  /** A block is full if and only if there are enough records for it. */
  lemma FullBlockIff<T>(blocks: seq<seq<T>>, p: nat, b: nat)
    requires Chunked(blocks, p)
    ensures b < |blocks| && |blocks[b]| == p <==> b * p + p <= |Flatten(blocks)|
  {
    var n := |blocks| - 1;
    ChunkLength(blocks, p, n);
    assert blocks == blocks[..n] + [blocks[n]];
    FlattenAppend(blocks[..n], blocks[n]);
    Scaled(b, n, p);
    Scaled(n, b, p);
  }

  /** Time `t` is in the gap before record number `b * p`, and there are `p` more records from there on. */
  ghost predicate BlockGap(records: seq<Interval>, p: nat, b: nat, t: int) {
    0 < b * p && b * p + p <= |records| && records[b * p - 1].end < t < records[b * p].start
  }

  /** A hidden gap after block `b`, and the value before it. */
  lemma HiddenGapIff(blocks: seq<seq<Header>>, records: seq<Interval>, p: nat, b: nat, t: int)
    requires Chunked(blocks, p) && Flatten(blocks) == HeadersOf(records)
    ensures CursorMerge.HiddenGap(Seen(blocks), b, t) <==> BlockGap(records, p, b + 1, t)
  {
    AllSeenBut(blocks, p);
    FullBlockIff(blocks, p, b + 1);
    if b + 1 < |blocks| && |blocks[b + 1]| == p {
      assert Seen(blocks)[b] == blocks[b] && Seen(blocks)[b + 1] == blocks[b + 1];
      GapRecords(blocks, records, p, b);
    }
  }

  lemma GapRecords(blocks: seq<seq<Header>>, records: seq<Interval>, p: nat, b: nat)
    requires Chunked(blocks, p) && Flatten(blocks) == HeadersOf(records)
    requires b + 1 < |blocks| && |blocks[b + 1]| == p
    ensures |blocks[b]| == p && 0 < (b + 1) * p < |records|
    ensures blocks[b][p - 1] == HeaderOf(records[(b + 1) * p - 1]) && blocks[b + 1][0] == HeaderOf(records[(b + 1) * p])
  {
    Scaled(0, b, p);
    ChunkAt(blocks, p, b, p - 1);
    ChunkAt(blocks, p, b + 1, 0);
  }

  lemma AllSeenBut<T>(blocks: seq<seq<T>>, p: nat)
    requires Chunked(blocks, p)
    ensures |Seen(blocks)| >= |blocks| - 1 && (blocks[|blocks| - 1] != [] ==> Seen(blocks) == blocks)
  {
    if |Seen(blocks)| < |blocks| { assert blocks[|Seen(blocks)|] == []; }
  }

  /** The gap before record number `b * p` is hidden, and the value before it is printed. */
  ghost predicate RepeatsAt(show: Bytes -> string, records: seq<Interval>, p: nat, b: nat, t: int) {
    BlockGap(records, p, b, t) && show(records[b * p - 1].value) != CursorMerge.NOT_AVAILABLE
  }

  lemma NothingBehind(blocks: seq<seq<Header>>, p: nat)
    requires Chunked(blocks, p)
    ensures Flatten(blocks[|Seen(blocks)|..]) == []
  {
    AllSeenBut(blocks, p);
    var rest := blocks[|Seen(blocks)|..];
    if rest != [] { assert rest[0] == [] && rest[1..] == []; }
  }

  lemma WrongRepeats(
      show: Bytes -> string, blocks: seq<seq<Header>>, records: seq<Interval>, p: nat, t: int) returns (b: nat)
    requires Chunked(blocks, p) && Flatten(blocks) == HeadersOf(records)
    requires CursorMerge.GoesWrong(Rendered(show), blocks, t)
    ensures RepeatsAt(show, records, p, b, t)
  {
    var seen := Seen(blocks);
    NothingBehind(blocks, p);
    var a: nat :| a < |seen| && CursorMerge.HiddenGap(seen, a, t) &&
                  Rendered(show)(seen[a][|seen[a]| - 1]) != CursorMerge.NOT_AVAILABLE;
    b := a + 1;
    HiddenGapIff(blocks, records, p, a, t);
    ValueBefore(show, blocks, records, p, b, t);
  }

  /** The value before the gap. */
  lemma ValueBefore(show: Bytes -> string, blocks: seq<seq<Header>>, records: seq<Interval>, p: nat, b: nat, t: int)
    requires Chunked(blocks, p) && Flatten(blocks) == HeadersOf(records) && b > 0 && BlockGap(records, p, b, t)
    ensures b < |Seen(blocks)| && |Seen(blocks)[b - 1]| == p
    ensures Rendered(show)(Seen(blocks)[b - 1][p - 1]) == show(records[b * p - 1].value)
  {
    FullBlockIff(blocks, p, b);
    AllSeenBut(blocks, p);
    GapRecords(blocks, records, p, b - 1);
  }

  lemma RepeatsWrong(show: Bytes -> string, blocks: seq<seq<Header>>, records: seq<Interval>, p: nat, b: nat, t: int)
    requires Chunked(blocks, p) && Flatten(blocks) == HeadersOf(records) && RepeatsAt(show, records, p, b, t)
    ensures CursorMerge.GoesWrong(Rendered(show), blocks, t)
  {
    assert b > 0;
    HiddenGapIff(blocks, records, p, b - 1, t);
    ValueBefore(show, blocks, records, p, b, t);
  }

  /** The file of a recording goes wrong at a time exactly when the time is in a gap between two full blocks. */
  lemma GoesWrongIff(show: Bytes -> string, r: Recording, t: int)
    requires Proper(r)
    ensures var p := PerBlock(HEADER_SIZE + r.payload);
      CursorMerge.GoesWrong(Rendered(show), ColumnOf(r), t) <==>
      exists b: nat :: RepeatsAt(show, FileRecords(r), p, b, t)
  {
    var p, blocks, records := PerBlock(HEADER_SIZE + r.payload), ColumnOf(r), FileRecords(r);
    ColumnChunked(r);
    ColumnHolds(r);
    if CursorMerge.GoesWrong(Rendered(show), blocks, t) { var _ := WrongRepeats(show, blocks, records, p, t); }
    if b: nat :| RepeatsAt(show, records, p, b, t) { RepeatsWrong(show, blocks, records, p, b, t); }
  }

  lemma ColumnChunked(r: Recording)
    requires Proper(r)
    ensures Chunked(ColumnOf(r), PerBlock(HEADER_SIZE + r.payload))
  {
    RecordsFit(r);
    var ops, size := Puts(FileRecords(r), r.name, r.payload), HEADER_SIZE + r.payload;
    PutsFit(FileRecords(r), r.name, r.payload);
    BlocksOfFile(r.writer, ops, size);
    BlocksAreChunks(ops, size);
    var blocks := BlocksOf(ops, size);
    assert forall b | 0 <= b < |blocks| :: |DecodedBlocks(blocks)[b]| == |blocks[b]|;
  }

  // ----- The whole way -----

  ghost predicate RightCells(show: Bytes -> string, recordings: seq<Recording>, row: CursorMerge.Row)
    requires forall f | 0 <= f < |recordings| :: Proper(recordings[f])
  {
    && RunLength.LOWEST <= row.time && |row.cells| == |recordings|
    && forall f | 0 <= f < |recordings| ::
         row.cells[f] == TextOf(show, Said(recordings[f], row.time)) <==>
         !CursorMerge.GoesWrong(Rendered(show), ColumnOf(recordings[f]), row.time)
  }

  function Columns(recordings: seq<Recording>): seq<seq<seq<Header>>>
    requires forall f | 0 <= f < |recordings| :: Proper(recordings[f])
  {
    seq(|recordings|, f requires 0 <= f < |recordings| => ColumnOf(recordings[f]))
  }

  lemma {:induction false} TimesOfLow(records: seq<Interval>)
    ensures forall x | x in CursorMerge.TimesOf(HeadersOf(records)) :: RunLength.LOWEST <= x
  {
    if records != [] {
      var n := |records| - 1;
      TimesOfLow(records[..n]);
      assert HeadersOf(records)[..n] == HeadersOf(records[..n]);
    }
  }

  lemma {:induction false} TimesLow(recordings: seq<Recording>)
    requires forall f | 0 <= f < |recordings| :: Proper(recordings[f])
    ensures forall x | x in CursorMerge.Times(Columns(recordings)) :: RunLength.LOWEST <= x
  {
    if recordings != [] {
      var n := |recordings| - 1;
      TimesLow(recordings[..n]);
      assert Columns(recordings)[..n] == Columns(recordings[..n]);
      ColumnHolds(recordings[n]);
      TimesOfLow(FileRecords(recordings[n]));
    }
  }

  lemma {:induction false} RowTimeMember(rows: seq<CursorMerge.Row>, i: nat)
    requires i < |rows|
    ensures rows[i].time in CursorMerge.RowTimes(rows)
  {
    if i < |rows| - 1 { RowTimeMember(rows[..|rows| - 1], i); }
  }

  lemma ColumnsWellFormed(recordings: seq<Recording>)
    requires forall f | 0 <= f < |recordings| :: Proper(recordings[f]) && InOrder(recordings[f])
    ensures var files := Columns(recordings); forall f | 0 <= f < |files| :: CursorMerge.WellFormed(files[f])
  {
    forall f | 0 <= f < |recordings| ensures CursorMerge.WellFormed(Columns(recordings)[f]) {
      ColumnApartIff(recordings[f]);
      ColumnHolds(recordings[f]);
    }
  }

  lemma AllRowsSay(show: Bytes -> string, recordings: seq<Recording>, rows: seq<CursorMerge.Row>)
    requires forall f | 0 <= f < |recordings| ::
             Proper(recordings[f]) && InOrder(recordings[f]) && Faithful(recordings[f])
    requires CursorMerge.RightRows(Rendered(show), Columns(recordings), rows)
    requires CursorMerge.RowTimes(rows) == CursorMerge.Times(Columns(recordings))
    ensures forall i | 0 <= i < |rows| :: RightCells(show, recordings, rows[i])
  {
    forall i | 0 <= i < |rows| ensures RightCells(show, recordings, rows[i]) { RowsSay(show, recordings, rows, i); }
  }

  lemma RowsSay(show: Bytes -> string, recordings: seq<Recording>, rows: seq<CursorMerge.Row>, i: nat)
    requires forall f | 0 <= f < |recordings| ::
             Proper(recordings[f]) && InOrder(recordings[f]) && Faithful(recordings[f])
    requires CursorMerge.RightRows(Rendered(show), Columns(recordings), rows) && i < |rows|
    requires CursorMerge.RowTimes(rows) == CursorMerge.Times(Columns(recordings))
    ensures RightCells(show, recordings, rows[i])
  {
    RowTimeMember(rows, i);
    TimesLow(recordings);
    assert CursorMerge.RightRow(Rendered(show), Columns(recordings), rows[i]);
    forall f | 0 <= f < |recordings|
      ensures rows[i].cells[f] == TextOf(show, Said(recordings[f], rows[i].time)) <==>
              !CursorMerge.GoesWrong(Rendered(show), ColumnOf(recordings[f]), rows[i].time)
    {
      CellIsSaid(show, recordings[f], rows[i].time, rows[i].cells[f]);
    }
  }

  /** The files of any number of monitors, merged: there is a row for every time at which an interval starts or
      ends, and its cells are what the clients have said about that time, except in gaps between full blocks. */
  method MergeFiles(show: Bytes -> string, streams: seq<Bytes>, ghost recordings: seq<Recording>)
    returns (rows: seq<CursorMerge.Row>, ok: bool)
    requires forall f | 0 <= f < |recordings| ::
               Proper(recordings[f]) && InOrder(recordings[f]) && Faithful(recordings[f])
    requires |streams| == |recordings| && forall f | 0 <= f < |recordings| :: streams[f] == FileOf(recordings[f])
    ensures ok && CursorMerge.RowTimes(rows) == CursorMerge.Times(Columns(recordings))
    ensures forall i, j | 0 <= i < j < |rows| :: rows[i].time < rows[j].time
    ensures forall i | 0 <= i < |rows| :: RightCells(show, recordings, rows[i])
  {
    var files := ReadColumns(streams, recordings);
    ColumnsWellFormed(recordings);
    rows, ok := CursorMerge.MultibinaryToCsv(Rendered(show), files);
    AllRowsSay(show, recordings, rows);
  }

  lemma ColumnAt(recordings: seq<Recording>, f: nat)
    requires (forall g | 0 <= g < |recordings| :: Proper(recordings[g])) && f < |recordings|
    ensures Column(FileOf(recordings[f])) == Some(Columns(recordings)[f])
  {
  }

  method ReadColumns(streams: seq<Bytes>, ghost recordings: seq<Recording>) returns (files: seq<seq<seq<Header>>>)
    requires forall f | 0 <= f < |recordings| :: Proper(recordings[f])
    requires |streams| == |recordings| && forall f | 0 <= f < |recordings| :: streams[f] == FileOf(recordings[f])
    ensures files == Columns(recordings)
  {
    ghost var all := Columns(recordings);
    files := [];
    for f := 0 to |streams|
      invariant files == all[..f]
    {
      var column := Column(streams[f]);
      ColumnAt(recordings, f);
      files := files + [column.value];
    }
  }
}
