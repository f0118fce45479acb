/** The fixed-block record file: FileSerializer.h writes it, FileBlockWrapper.h and FileBlockReader.h read it.

    A block has 1024 bytes: the number of its records as a little-endian 64-bit word, and 1016 bytes of
    records.  The buffer of the writer is never cleared, so a short block ends in bytes of earlier blocks. */
module BlockFiles {
  const BLOCK_SIZE: nat := 1024
  const BUFFER_SIZE: nat := 1016
  const HEADER_SIZE: nat := 152    // sizeof(BlockHeader)
  const DELTA_SIZE: nat := 24      // sizeof(new_delta_data_structure)
  const PAYLOAD_AT: nat := 144     // offset of payload_size in the packed header

  import opened Options
  import opened Blocks

  // ----- Little-endian words -----

  function Power256(n: nat): nat { if n == 0 then 1 else 256 * Power256(n - 1) }

  function ToLE(x: nat, n: nat): (s: Bytes)
    ensures |s| == n
  {
    if n == 0 then [] else [(x % 256) as byte] + ToLE(x / 256, n - 1)
  }

  function FromLE(s: Bytes): nat {
    if s == [] then 0 else s[0] as nat + 256 * FromLE(s[1..])
  }

  lemma {:induction false} LERoundTrip(x: nat, n: nat)
    requires x < Power256(n)
    ensures FromLE(ToLE(x, n)) == x
  {
    if n > 0 {
      LERoundTrip(x / 256, n - 1);
      assert ToLE(x, n)[1..] == ToLE(x / 256, n - 1);
    }
  }

  lemma SmallLE(x: nat)
    requires x <= BLOCK_SIZE
    ensures FromLE(ToLE(x, 8)) == x
  {
    assert Power256(2) == 65536;
    assert Power256(5) >= 1 && Power256(8) >= Power256(2);
    LERoundTrip(x, 8);
  }

  // ----- The writer -----

  datatype Writer = Writer(stream: Bytes, buffer: Bytes, written: nat, offset: nat, open: bool)

  function AfterFlush(w: Writer): Writer {
    if w.open then w.(stream := w.stream + (ToLE(w.written, 8) + w.buffer), written := 0, offset := 0) else w
  }

  function AfterClose(w: Writer): Writer {
    AfterFlush(w).(open := false)
  }

  function Copied(buffer: Bytes, offset: nat, data: Bytes): (b: Bytes)
    requires offset + |data| <= |buffer|
    ensures |b| == |buffer|
  {
    buffer[..offset] + data + buffer[offset + |data|..]
  }

  /** Both `write` overloads: `data` is the record, or the header followed by its payload. */
  function AfterWrite(w: Writer, data: Bytes): (Writer, bool)
    requires |w.buffer| == BUFFER_SIZE
  {
    if !w.open || |data| > BUFFER_SIZE then (w, false)
    else
      var f := if |data| + w.offset > BUFFER_SIZE then AfterFlush(w) else w;
      (f.(buffer := Copied(f.buffer, f.offset, data), offset := f.offset + |data|, written := f.written + 1), true)
  }

  function Concat(records: seq<Bytes>): Bytes {
    if records == [] then [] else Concat(records[..|records| - 1]) + records[|records| - 1]
  }

  /** One block of the file: the count, the records, and whatever is left in the buffer. */
  ghost predicate IsBlock(block: Bytes, records: seq<Bytes>) {
    |block| == BLOCK_SIZE && 8 + |Concat(records)| <= BLOCK_SIZE && |records| <= BLOCK_SIZE &&
    block[..8] == ToLE(|records|, 8) && block[8..8 + |Concat(records)|] == Concat(records)
  }

  ghost predicate IsFile(stream: Bytes, blocks: seq<seq<Bytes>>)
    decreases |blocks|
  {
    if blocks == [] then stream == []
    else
      var n := |blocks| - 1;
      |stream| >= BLOCK_SIZE && IsFile(stream[..|stream| - BLOCK_SIZE], blocks[..n]) &&
      IsBlock(stream[|stream| - BLOCK_SIZE..], blocks[n])
  }

  /** The writer has flushed `blocks` and buffers `current`. */
  ghost predicate Represents(w: Writer, blocks: seq<seq<Bytes>>, current: seq<Bytes>) {
    && |w.buffer| == BUFFER_SIZE
    && w.written == |current| <= w.offset && w.offset == |Concat(current)| <= BUFFER_SIZE
    && w.buffer[..w.offset] == Concat(current)
    && IsFile(w.stream, blocks)
  }

  lemma FlushRepresents(w: Writer, blocks: seq<seq<Bytes>>, current: seq<Bytes>)
    requires Represents(w, blocks, current) && w.open
    ensures Represents(AfterFlush(w), blocks + [current], [])
  {
    var header := ToLE(w.written, 8);
    SplitBlock(header, w.buffer, w.offset);
    ExtendFile(w.stream, blocks, header + w.buffer, current);
  }

  lemma ExtendFile(stream: Bytes, blocks: seq<seq<Bytes>>, block: Bytes, records: seq<Bytes>)
    requires IsFile(stream, blocks) && IsBlock(block, records)
    ensures IsFile(stream + block, blocks + [records])
  {
    SplitStream(stream, block);
    assert (blocks + [records])[..|blocks|] == blocks;
  }

  lemma SplitBlock(header: Bytes, buffer: Bytes, offset: nat)
    requires |header| == 8 && |buffer| == BUFFER_SIZE && offset <= BUFFER_SIZE
    ensures var block := header + buffer; block[..8] == header && block[8..8 + offset] == buffer[..offset]
  {
  }

  lemma SplitStream(stream: Bytes, block: Bytes)
    requires |block| == BLOCK_SIZE
    ensures var s := stream + block; s[|s| - BLOCK_SIZE..] == block && s[..|s| - BLOCK_SIZE] == stream
  {
  }

  lemma WriteRepresents(w: Writer, blocks: seq<seq<Bytes>>, current: seq<Bytes>, data: Bytes)
    requires Represents(w, blocks, current) && w.open && 0 < |data| <= BUFFER_SIZE
    ensures AfterWrite(w, data).1
    ensures if |data| + w.offset > BUFFER_SIZE then Represents(AfterWrite(w, data).0, blocks + [current], [data])
            else Represents(AfterWrite(w, data).0, blocks, current + [data])
  {
    if |data| + w.offset > BUFFER_SIZE {
      FlushRepresents(w, blocks, current);
      AppendRepresents(AfterFlush(w), blocks + [current], [], data);
      assert [] + [data] == [data];
    } else {
      AppendRepresents(w, blocks, current, data);
    }
  }

  lemma AppendRepresents(w: Writer, blocks: seq<seq<Bytes>>, current: seq<Bytes>, data: Bytes)
    requires Represents(w, blocks, current) && 0 < |data| && |data| + w.offset <= BUFFER_SIZE
    ensures Represents(
              w.(buffer := Copied(w.buffer, w.offset, data), offset := w.offset + |data|, written := w.written + 1),
              blocks, current + [data])
  {
    assert (current + [data])[..|current|] == current;
    var b := Copied(w.buffer, w.offset, data);
    assert b[..w.offset + |data|] == w.buffer[..w.offset] + data;
  }

  // ----- Records of one size -----

  /** How the reader finds the records of a block: they are all 24 bytes long, or each starts with a header
      that holds the size of its payload. */
  datatype Layout = DeltaRecords | HeaderRecords

  function PayloadSize(header: Bytes): nat {
    if |header| >= PAYLOAD_AT + 8 then FromLE(header[PAYLOAD_AT..PAYLOAD_AT + 8]) else 0
  }

  /** A record of size `size` in the given layout. */
  predicate FitsLayout(r: Bytes, layout: Layout, size: nat) {
    |r| == size && (if layout.DeltaRecords? then size == DELTA_SIZE else size == HEADER_SIZE + PayloadSize(r))
  }

  function Clip(block: Bytes, from: nat, length: nat): Bytes {
    if from + length <= |block| then block[from..from + length] else []
  }

  function SizeAt(block: Bytes, layout: Layout, offset: nat): nat {
    if layout.DeltaRecords? then DELTA_SIZE else HEADER_SIZE + PayloadSize(Clip(block, offset, HEADER_SIZE))
  }

  function RecordAt(block: Bytes, layout: Layout, offset: nat): Bytes {
    Clip(block, offset, SizeAt(block, layout, offset))
  }

  /** `_index`: the offsets of the first `n` records from `offset` on. */
  function Offsets(block: Bytes, layout: Layout, offset: nat, n: nat): (s: seq<nat>)
    ensures |s| == n
    decreases n
  {
    if n == 0 then []
    else
      [offset] + Offsets(block, layout, offset + SizeAt(block, layout, offset), n - 1)
  }

  /** The records of a block, by the index. */
  function RecordsOf(block: Bytes, layout: Layout, index: seq<nat>, n: nat): seq<Bytes>
    requires n <= |index|
  {
    seq(n, i requires 0 <= i < n => RecordAt(block, layout, index[i]))
  }

  /** `read` until the end of the file, taking every record of every block.  The index is computed on the
      first block that has records and kept for all later ones; a record beyond it is an access out of
      bounds, which is None here. */
  function ReadBlocks(stream: Bytes, layout: Layout, index: seq<nat>): Option<seq<seq<Bytes>>>
    decreases |stream|
  {
    if |stream| < BLOCK_SIZE then Some([])
    else
      var block := stream[..BLOCK_SIZE];
      var n := FromLE(block[..8]);
      var idx := if index == [] then Offsets(block, layout, 8, n) else index;
      if n > |idx| then None
      else match ReadBlocks(stream[BLOCK_SIZE..], layout, idx)
        case None => None
        case Some(rest) => Some([RecordsOf(block, layout, idx, n)] + rest)
  }

  /** All records of the file, in order. */
  function ReadFile(stream: Bytes, layout: Layout, index: seq<nat>): Option<seq<Bytes>> {
    match ReadBlocks(stream, layout, index)
    case None => None
    case Some(blocks) => Some(Flatten(blocks))
  }

  // ----- Reading what was written -----

  /** The record index of a block of `n` records of size `size`. */
  function Positions(size: nat, n: nat): (s: seq<nat>)
    ensures |s| == n
  {
    seq(n, i requires 0 <= i < n => Place(size, i))
  }

  function Place(size: nat, i: nat): nat { 8 + i * size }

  lemma PositionsStep(size: nat, n: nat, k: nat)
    requires k < n
    ensures Place(size, k + 1) == Place(size, k) + size
    ensures Positions(size, n)[k..] == [Place(size, k)] + Positions(size, n)[k + 1..]
  {
    assert (k + 1) * size == k * size + size;
  }

  ghost predicate AllFit(records: seq<Bytes>, layout: Layout, size: nat) {
    forall i | 0 <= i < |records| :: FitsLayout(records[i], layout, size)
  }

  lemma Scaled(i: nat, n: nat, size: nat)
    ensures i < n ==> i * size + size <= n * size
    ensures (n + 1) * size == n * size + size
  {
    if i < n {
      var d: nat := n - i - 1;
      assert n * size == (i + 1 + d) * size == i * size + size + d * size;
      Product(d, size);
    }
  }

  lemma Product(a: nat, b: nat)
    ensures a * b >= 0
  {
  }

  lemma {:induction false} ConcatLength(records: seq<Bytes>, layout: Layout, size: nat)
    requires AllFit(records, layout, size)
    ensures |Concat(records)| == |records| * size
  {
    if records != [] {
      var n := |records| - 1;
      ConcatLength(records[..n], layout, size);
      assert FitsLayout(records[n], layout, size);
      Scaled(0, n, size);
    }
  }

  lemma AppendKeeps(a: Bytes, b: Bytes, from: nat, to: nat)
    requires from <= to <= |a|
    ensures (a + b)[from..to] == a[from..to]
  {
  }

  lemma {:induction false} ConcatAt(records: seq<Bytes>, layout: Layout, size: nat, i: nat)
    requires AllFit(records, layout, size) && i < |records|
    ensures i * size + size <= |Concat(records)| && Concat(records)[i * size..i * size + size] == records[i]
  {
    var n := |records| - 1;
    ConcatLength(records, layout, size);
    ConcatLength(records[..n], layout, size);
    Scaled(i, n, size);
    Scaled(i, |records|, size);
    if i < n {
      ConcatAt(records[..n], layout, size, i);
      AppendKeeps(Concat(records[..n]), records[n], i * size, i * size + size);
    } else {
      assert FitsLayout(records[n], layout, size);
    }
  }

  lemma PayloadOfHeader(r: Bytes)
    requires |r| >= HEADER_SIZE
    ensures PayloadSize(r[..HEADER_SIZE]) == PayloadSize(r)
  {
    assert r[..HEADER_SIZE][PAYLOAD_AT..PAYLOAD_AT + 8] == r[PAYLOAD_AT..PAYLOAD_AT + 8];
  }

  lemma SliceOfSlice(s: Bytes, a: nat, b: nat, c: nat, d: nat)
    requires c <= d && a + d <= b <= |s|
    ensures s[a..b][c..d] == s[a + c..a + d]
  {
    var t := s[a..b];
    forall k | 0 <= k < d - c ensures t[c..d][k] == s[a + c..a + d][k] {
      assert t[c..d][k] == t[c + k] == s[a + (c + k)];
      assert s[a + c..a + d][k] == s[(a + c) + k];
    }
  }

  lemma BlockSlice(block: Bytes, records: seq<Bytes>, from: nat, size: nat)
    requires IsBlock(block, records) && from + size <= |Concat(records)|
    ensures block[8 + from..8 + from + size] == Concat(records)[from..from + size]
  {
    SliceOfSlice(block, 8, 8 + |Concat(records)|, from, from + size);
  }

  /** A record that lies in a block at some place is what the reader finds there. */
  lemma ReadInPlace(block: Bytes, r: Bytes, at: nat, layout: Layout, size: nat)
    requires at + size <= |block| && block[at..at + size] == r && FitsLayout(r, layout, size)
    ensures RecordAt(block, layout, at) == r && SizeAt(block, layout, at) == size
  {
    if layout.HeaderRecords? {
      assert Clip(block, at, HEADER_SIZE) == r[..HEADER_SIZE];
      PayloadOfHeader(r);
    }
  }

  /** The records of a block are found at the positions of the index. */
  lemma BlockRecordAt(block: Bytes, records: seq<Bytes>, layout: Layout, size: nat, i: nat)
    requires IsBlock(block, records) && AllFit(records, layout, size) && i < |records|
    ensures RecordAt(block, layout, Place(size, i)) == records[i]
    ensures SizeAt(block, layout, Place(size, i)) == size
  {
    ConcatAt(records, layout, size, i);
    BlockSlice(block, records, i * size, size);
    ReadInPlace(block, records[i], Place(size, i), layout, size);
  }

  lemma BlockRecords(block: Bytes, records: seq<Bytes>, layout: Layout, size: nat, idx: seq<nat>)
    requires IsBlock(block, records) && AllFit(records, layout, size)
    requires |records| <= |idx| && idx == Positions(size, |idx|)
    ensures RecordsOf(block, layout, idx, |records|) == records
  {
    forall i | 0 <= i < |records| ensures RecordAt(block, layout, idx[i]) == records[i] {
      BlockRecordAt(block, records, layout, size, i);
      assert idx[i] == Positions(size, |idx|)[i] == Place(size, i);
    }
  }

  lemma {:induction false} BlockOffsets(block: Bytes, records: seq<Bytes>, layout: Layout, size: nat, k: nat)
    requires IsBlock(block, records) && AllFit(records, layout, size) && k <= |records|
    ensures Offsets(block, layout, Place(size, k), |records| - k) == Positions(size, |records|)[k..]
    decreases |records| - k
  {
    if k < |records| {
      BlockRecordAt(block, records, layout, size, k);
      PositionsStep(size, |records|, k);
      BlockOffsets(block, records, layout, size, k + 1);
    }
  }

  lemma {:induction false} FrontBlock(stream: Bytes, blocks: seq<seq<Bytes>>)
    requires IsFile(stream, blocks) && blocks != []
    ensures |stream| >= BLOCK_SIZE && IsBlock(stream[..BLOCK_SIZE], blocks[0]) &&
            IsFile(stream[BLOCK_SIZE..], blocks[1..])
    decreases |blocks|
  {
    var n, m := |blocks| - 1, |stream| - BLOCK_SIZE;
    if n == 0 {
      assert stream[..m] == [] && stream[m..] == stream[..BLOCK_SIZE] && stream[BLOCK_SIZE..] == [];
    } else {
      FrontBlock(stream[..m], blocks[..n]);
      CutTwice(stream, BLOCK_SIZE, m);
      CutTwice(blocks, 1, n);
    }
  }

  lemma CutTwice<T>(s: seq<T>, a: nat, b: nat)
    requires a <= b <= |s|
    ensures s[..b][..a] == s[..a] && s[..b][a..] == s[a..][..b - a] && s[a..][b - a..] == s[b..]
  {
  }

  ghost predicate AllBlocksFit(blocks: seq<seq<Bytes>>, layout: Layout, size: nat) {
    forall b | 0 <= b < |blocks| :: AllFit(blocks[b], layout, size)
  }

  /** The reader's result on every well-formed file: all the blocks when none has more records than the index
      has entries, and an access beyond the index otherwise. */
  lemma {:induction false} ReadFileResult(
      stream: Bytes, blocks: seq<seq<Bytes>>, layout: Layout, size: nat, limit: nat)
    requires IsFile(stream, blocks) && AllBlocksFit(blocks, layout, size)
    ensures ReadBlocks(stream, layout, Positions(size, limit)) == if Readable(blocks, limit) then Some(blocks) else None
    decreases |blocks|
  {
    if blocks != [] {
      FrontBlock(stream, blocks);
      assert AllFit(blocks[0], layout, size);
      assert forall b | 0 <= b < |blocks[1..]| :: blocks[1..][b] == blocks[b + 1];
      ReadFileResult(stream[BLOCK_SIZE..], blocks[1..], layout, size, if limit == 0 then |blocks[0]| else limit);
      ReadOneBlock(stream, blocks[0], layout, size, limit);
      assert [blocks[0]] + blocks[1..] == blocks;
    }
  }

  /** The reader takes one block. */
  lemma ReadOneBlock(stream: Bytes, records: seq<Bytes>, layout: Layout, size: nat, limit: nat)
    requires |stream| >= BLOCK_SIZE && IsBlock(stream[..BLOCK_SIZE], records) && AllFit(records, layout, size)
    ensures var l := if limit == 0 then |records| else limit;
      var rest := ReadBlocks(stream[BLOCK_SIZE..], layout, Positions(size, l));
      ReadBlocks(stream, layout, Positions(size, limit)) ==
      if |records| > l || rest.None? then None else Some([records] + rest.value)
  {
    var block, l := stream[..BLOCK_SIZE], if limit == 0 then |records| else limit;
    BlockIndex(block, records, layout, size, limit);
    if |records| <= l { BlockRecords(block, records, layout, size, Positions(size, l)); }
  }

  lemma BlockIndex(block: Bytes, records: seq<Bytes>, layout: Layout, size: nat, limit: nat)
    requires IsBlock(block, records) && AllFit(records, layout, size)
    ensures FromLE(block[..8]) == |records|
    ensures (if Positions(size, limit) == [] then Offsets(block, layout, 8, |records|) else Positions(size, limit)) ==
            Positions(size, if limit == 0 then |records| else limit)
  {
    SmallLE(|records|);
    BlockOffsets(block, records, layout, size, 0);
    assert Place(size, 0) == 8;
    assert Positions(size, |records|)[0..] == Positions(size, |records|);
  }

  // ----- Whole runs of the writer -----

  /** What a client does with the file before it closes it. */
  datatype Op = Put(data: Bytes) | FlushNow

  function Apply(w: Writer, op: Op): (r: Writer)
    requires |w.buffer| == BUFFER_SIZE
    ensures |r.buffer| == BUFFER_SIZE
  {
    match op
    case Put(data) => AfterWrite(w, data).0
    case FlushNow => AfterFlush(w)
  }

  function Run(w: Writer, ops: seq<Op>): (r: Writer)
    requires |w.buffer| == BUFFER_SIZE
    ensures |r.buffer| == BUFFER_SIZE
  {
    if ops == [] then w else Apply(Run(w, ops[..|ops| - 1]), ops[|ops| - 1])
  }

  /** The records a run writes, in order. */
  function Written(ops: seq<Op>): seq<Bytes> {
    if ops == [] then []
    else Written(ops[..|ops| - 1]) + (if ops[|ops| - 1].Put? then [ops[|ops| - 1].data] else [])
  }

  /** How a run of records of size `size` fills blocks: those written, and the records of the next one. */
  function Packing(ops: seq<Op>, size: nat): (seq<seq<Bytes>>, seq<Bytes>) {
    if ops == [] then ([], [])
    else
      var (blocks, current) := Packing(ops[..|ops| - 1], size);
      Pack(blocks, current, ops[|ops| - 1], size)
  }

  function Pack(blocks: seq<seq<Bytes>>, current: seq<Bytes>, op: Op, size: nat): (seq<seq<Bytes>>, seq<Bytes>) {
    match op
    case FlushNow => (blocks + [current], [])
    case Put(data) =>
      if (|current| + 1) * size > BUFFER_SIZE then (blocks + [current], [data]) else (blocks, current + [data])
  }

  ghost predicate FittingOps(ops: seq<Op>, layout: Layout, size: nat) {
    size <= BUFFER_SIZE && forall i | 0 <= i < |ops| && ops[i].Put? :: FitsLayout(ops[i].data, layout, size)
  }

  predicate NewWriter(w: Writer) {
    |w.buffer| == BUFFER_SIZE && w.stream == [] && w.written == 0 == w.offset && w.open
  }

  lemma {:induction false} PackingContents(ops: seq<Op>, layout: Layout, size: nat)
    requires FittingOps(ops, layout, size)
    ensures var (blocks, current) := Packing(ops, size);
      AllBlocksFit(blocks, layout, size) && AllFit(current, layout, size) && Flatten(blocks) + current == Written(ops)
  {
    if ops != [] {
      var n := |ops| - 1;
      PackingContents(ops[..n], layout, size);
      var (blocks, current) := Packing(ops[..n], size);
      FlattenAppend(blocks, current);
    }
  }

  /** The state of the writer after any run. */
  lemma {:induction false} RunPacks(w: Writer, ops: seq<Op>, layout: Layout, size: nat)
    requires NewWriter(w) && FittingOps(ops, layout, size)
    ensures var (blocks, current) := Packing(ops, size);
      Run(w, ops).open && Represents(Run(w, ops), blocks, current)
  {
    if ops == [] {
      assert w.buffer[..0] == [];
    } else {
      var n := |ops| - 1;
      RunPacks(w, ops[..n], layout, size);
      PackingContents(ops[..n], layout, size);
      var (blocks, current) := Packing(ops[..n], size);
      ApplyPacks(Run(w, ops[..n]), blocks, current, ops[n], layout, size);
    }
  }

  lemma PutPacks(w: Writer, blocks: seq<seq<Bytes>>, current: seq<Bytes>, data: Bytes, layout: Layout, size: nat)
    requires w.open && Represents(w, blocks, current) && size <= BUFFER_SIZE
    requires AllFit(current, layout, size) && FitsLayout(data, layout, size)
    ensures AfterWrite(w, data).0.open && 0 < |data| == size
    ensures size + w.offset > BUFFER_SIZE <==> (|current| + 1) * size > BUFFER_SIZE
    ensures if size + w.offset > BUFFER_SIZE then Represents(AfterWrite(w, data).0, blocks + [current], [data])
            else Represents(AfterWrite(w, data).0, blocks, current + [data])
  {
    ConcatLength(current, layout, size);
    Scaled(0, |current|, size);
    WriteRepresents(w, blocks, current, data);
  }

  lemma ApplyPacks(w: Writer, blocks: seq<seq<Bytes>>, current: seq<Bytes>, op: Op, layout: Layout, size: nat)
    requires w.open && Represents(w, blocks, current) && size <= BUFFER_SIZE
    requires AllFit(current, layout, size) && (op.Put? ==> FitsLayout(op.data, layout, size))
    ensures Apply(w, op).open
    ensures Represents(Apply(w, op), Pack(blocks, current, op, size).0, Pack(blocks, current, op, size).1)
  {
    if op.FlushNow? {
      FlushRepresents(w, blocks, current);
    } else {
      PutPacks(w, blocks, current, op.data, layout, size);
    }
  }

  /** The blocks of the closed file. */
  lemma ClosedBlocks(w: Writer, ops: seq<Op>, layout: Layout, size: nat)
    requires NewWriter(w) && FittingOps(ops, layout, size)
    ensures var (blocks, current) := Packing(ops, size);
      && IsFile(AfterClose(Run(w, ops)).stream, blocks + [current])
      && AllBlocksFit(blocks + [current], layout, size) && Flatten(blocks + [current]) == Written(ops)
      && ReadBlocks(AfterClose(Run(w, ops)).stream, layout, []) ==
         if Readable(blocks + [current], 0) then Some(blocks + [current]) else None
  {
    RunPacks(w, ops, layout, size);
    PackingContents(ops, layout, size);
    var (blocks, current) := Packing(ops, size);
    FlushRepresents(Run(w, ops), blocks, current);
    FlattenAppend(blocks, current);
    assert Positions(size, 0) == [];
    ReadFileResult(AfterClose(Run(w, ops)).stream, blocks + [current], layout, size, 0);
  }

  /** Whatever is written, flushed and closed is read back, record by record, exactly when no block of the
      file has more records than the first one that has any. */
  lemma FileRoundTrip(w: Writer, ops: seq<Op>, layout: Layout, size: nat)
    requires NewWriter(w) && FittingOps(ops, layout, size)
    ensures var (blocks, current) := Packing(ops, size);
      ReadFile(AfterClose(Run(w, ops)).stream, layout, []) ==
      if Readable(blocks + [current], 0) then Some(Written(ops)) else None
  {
    ClosedBlocks(w, ops, layout, size);
  }

  /** One record, a flush, and two records: the second block has more records than the first. */
  lemma FlushThenMore(w: Writer, r: Bytes, layout: Layout, size: nat)
    requires NewWriter(w) && FitsLayout(r, layout, size) && 2 * size <= BUFFER_SIZE
    ensures ReadFile(AfterClose(Run(w, [Put(r), FlushNow, Put(r), Put(r)])).stream, layout, []) == None
  {
    var ops := [Put(r), FlushNow, Put(r), Put(r)];
    FourPacked(r, size);
    FileRoundTrip(w, ops, layout, size);
    ReadableIff([[r], [r, r]], 0);
    assert |[[r], [r, r]][1]| > |[[r], [r, r]][0]|;
  }

  lemma FourPacked(r: Bytes, size: nat)
    requires 2 * size <= BUFFER_SIZE
    ensures var (blocks, current) := Packing([Put(r), FlushNow, Put(r), Put(r)], size);
      blocks + [current] == [[r], [r, r]]
  {
    var ops := [Put(r), FlushNow, Put(r), Put(r)];
    assert ops[..3][..2] == ops[..2] && ops[..2][..1] == ops[..1] && ops[..1][..0] == [];
    assert Packing(ops[..1], size) == ([], [r]) by { assert [] + [r] == [r]; }
    assert Packing(ops[..2], size) == ([[r]], []) by { assert [] + [[r]] == [[r]]; }
    assert Packing(ops[..3], size) == ([[r]], [r]) by { assert [] + [r] == [r]; }
    assert [r] + [r] == [r, r];
  }

  /** A program that flushes between its records cannot read them back: `Put`, `FlushNow`, `Put`, `Put`. */
  lemma FlushedEarlyIsUnreadable(w: Writer)
    requires NewWriter(w)
    ensures var r: Bytes := seq(DELTA_SIZE, _ => 0);
      ReadFile(AfterClose(Run(w, [Put(r), FlushNow, Put(r), Put(r)])).stream, DeltaRecords, []) == None
  {
    FlushThenMore(w, seq(DELTA_SIZE, _ => 0), DeltaRecords, DELTA_SIZE);
  }

  /** Every block that the writer completes on its own is full. */
  lemma {:induction false} FullBlocks(ops: seq<Op>, layout: Layout, size: nat)
    requires FittingOps(ops, layout, size) && size > 0 && forall i | 0 <= i < |ops| :: ops[i].Put?
    ensures var (blocks, current) := Packing(ops, size);
      && |current| * size <= BUFFER_SIZE
      && forall b | 0 <= b < |blocks| :: |blocks[b]| * size <= BUFFER_SIZE < (|blocks[b]| + 1) * size
  {
    if ops != [] {
      assert ops[|ops| - 1].Put?;
      FullBlocks(ops[..|ops| - 1], layout, size);
    }
  }

  /** The order of two multiples of the record size is that of the factors. */
  lemma MultipleOrder(a: nat, b: nat, size: nat)
    ensures a * size <= BUFFER_SIZE < (b + 1) * size ==> a <= b
  {
    if a > b { Scaled(b, a, size); Scaled(0, b, size); }
  }

  lemma {:induction false} FullBlocksReadable(blocks: seq<seq<Bytes>>, rest: seq<seq<Bytes>>, size: nat, limit: nat)
    requires forall b | 0 <= b < |blocks| :: |blocks[b]| * size <= BUFFER_SIZE < (|blocks[b]| + 1) * size
    requires limit == 0 || BUFFER_SIZE < (limit + 1) * size
    requires |rest| <= 2 && (|rest| > 0 ==> |rest[0]| * size <= BUFFER_SIZE) && (|rest| > 1 ==> rest[1] == [])
    ensures Readable(blocks + rest, limit)
  {
    var all := blocks + rest;
    if blocks != [] {
      assert all[0] == blocks[0] && all[1..] == blocks[1..] + rest;
      var l := if limit == 0 then |blocks[0]| else limit;
      MultipleOrder(|blocks[0]|, l, size);
      FullBlocksReadable(blocks[1..], rest, size, l);
    } else if rest != [] {
      assert all == rest;
      if limit != 0 { MultipleOrder(|rest[0]|, limit, size); }
      if |rest| == 2 { assert rest[1..][1..] == []; }
    }
  }

  /** Records of one size, written without a flush in between, are read back as they are, in both layouts.  A
      client that flushes before it closes, as the logger does, adds an empty block, which changes nothing. */
  lemma PlainRoundTrip(w: Writer, records: seq<Bytes>, layout: Layout, size: nat, flushed: bool)
    requires NewWriter(w) && AllFit(records, layout, size) && 0 < size <= BUFFER_SIZE
    ensures var puts := seq(|records|, i requires 0 <= i < |records| => Put(records[i]));
      var ops := puts + (if flushed then [FlushNow] else []);
      ReadFile(AfterClose(Run(w, ops)).stream, layout, []) == Some(records)
  {
    var puts := seq(|records|, i requires 0 <= i < |records| => Put(records[i]));
    var ops := puts + (if flushed then [FlushNow] else []);
    PutsReadable(puts, layout, size);
    WrittenPuts(records);
    if flushed {
      assert ops[..|ops| - 1] == puts && ops[|ops| - 1] == FlushNow;
    } else {
      assert ops == puts;
    }
    assert Written(ops) == records;
    FileRoundTrip(w, ops, layout, size);
  }

  lemma PutsReadable(puts: seq<Op>, layout: Layout, size: nat)
    requires FittingOps(puts, layout, size) && size > 0 && forall i | 0 <= i < |puts| :: puts[i].Put?
    ensures var (blocks, current) := Packing(puts, size);
      Readable(blocks + [current], 0) && Readable((blocks + [current]) + [[]], 0)
  {
    FullBlocks(puts, layout, size);
    var (blocks, current) := Packing(puts, size);
    FullBlocksReadable(blocks, [current], size, 0);
    FullBlocksReadable(blocks, [current, []], size, 0);
    assert (blocks + [current]) + [[]] == blocks + [current, []];
  }

  lemma {:induction false} WrittenPuts(records: seq<Bytes>)
    ensures Written(seq(|records|, i requires 0 <= i < |records| => Put(records[i]))) == records
  {
    if records != [] {
      var n := |records| - 1;
      WrittenPuts(records[..n]);
      var puts := seq(|records|, i requires 0 <= i < |records| => Put(records[i]));
      assert puts[..n] == seq(n, i requires 0 <= i < n => Put(records[..n][i]));
    }
  }

  // ----- Records of different sizes -----

  /** Where record `k` of a block begins, whatever the sizes of the records before it. */
  function StartOf(records: seq<Bytes>, k: nat): nat
    requires k <= |records|
  {
    8 + |Concat(records[..k])|
  }

  /** Every record starts with a header that holds the size of its payload. */
  ghost predicate SelfSized(records: seq<Bytes>) {
    forall i | 0 <= i < |records| :: FitsLayout(records[i], HeaderRecords, |records[i]|)
  }

  lemma {:induction false} ConcatCut(records: seq<Bytes>, k: nat)
    requires k < |records|
    ensures |Concat(records[..k])| + |records[k]| == |Concat(records[..k + 1])| <= |Concat(records)|
    ensures Concat(records)[|Concat(records[..k])|..|Concat(records[..k])| + |records[k]|] == records[k]
  {
    var n := |records| - 1;
    assert records[..k + 1][..k] == records[..k];
    if k < n {
      ConcatCut(records[..n], k);
      assert records[..n][..k] == records[..k] && records[..n][..k + 1] == records[..k + 1];
      var from := |Concat(records[..k])|;
      AppendKeeps(Concat(records[..n]), records[n], from, from + |records[k]|);
    } else {
      assert records[..n + 1] == records;
    }
  }

  lemma SelfSizedAt(block: Bytes, records: seq<Bytes>, k: nat)
    requires IsBlock(block, records) && SelfSized(records) && k < |records|
    ensures RecordAt(block, HeaderRecords, StartOf(records, k)) == records[k]
    ensures StartOf(records, k) + SizeAt(block, HeaderRecords, StartOf(records, k)) == StartOf(records, k + 1)
  {
    ConcatCut(records, k);
    BlockSlice(block, records, |Concat(records[..k])|, |records[k]|);
    assert FitsLayout(records[k], HeaderRecords, |records[k]|);
    ReadInPlace(block, records[k], StartOf(records, k), HeaderRecords, |records[k]|);
  }

  function Starts(records: seq<Bytes>): seq<nat> {
    seq(|records|, k requires 0 <= k < |records| => StartOf(records, k))
  }

  lemma {:induction false} SelfSizedOffsets(block: Bytes, records: seq<Bytes>, k: nat)
    requires IsBlock(block, records) && SelfSized(records) && k <= |records|
    ensures Offsets(block, HeaderRecords, StartOf(records, k), |records| - k) == Starts(records)[k..]
    decreases |records| - k
  {
    if k < |records| {
      SelfSizedAt(block, records, k);
      SelfSizedOffsets(block, records, k + 1);
      assert Starts(records)[k..] == [StartOf(records, k)] + Starts(records)[k + 1..];
    }
  }

  /** The records of a block begin where those of the index do. */
  ghost predicate Starting(records: seq<Bytes>, index: seq<nat>) {
    |records| <= |index| && forall k | 0 <= k < |records| :: StartOf(records, k) == index[k]
  }

  ghost predicate AllStarting(blocks: seq<seq<Bytes>>, index: seq<nat>) {
    forall b | 0 <= b < |blocks| :: SelfSized(blocks[b]) && Starting(blocks[b], index)
  }

  lemma RestStarting(blocks: seq<seq<Bytes>>, index: seq<nat>)
    requires AllStarting(blocks, index) && blocks != []
    ensures AllStarting(blocks[1..], index) && SelfSized(blocks[0]) && Starting(blocks[0], index)
    ensures [blocks[0]] + blocks[1..] == blocks
  {
    assert forall b | 0 <= b < |blocks[1..]| :: blocks[1..][b] == blocks[b + 1];
  }

  lemma {:induction false} MixedRest(stream: Bytes, blocks: seq<seq<Bytes>>, index: seq<nat>)
    requires IsFile(stream, blocks) && AllStarting(blocks, index) && index != []
    ensures ReadBlocks(stream, HeaderRecords, index) == Some(blocks)
    decreases |blocks|
  {
    if blocks != [] {
      FrontBlock(stream, blocks);
      RestStarting(blocks, index);
      MixedRest(stream[BLOCK_SIZE..], blocks[1..], index);
      MixedBlock(stream[..BLOCK_SIZE], blocks[0], index, index);
    }
  }

  /** With records of different sizes, a file is read back if the records of every block begin where those of the
      first one do: the index is made for that one. */
  lemma MixedFileResult(stream: Bytes, blocks: seq<seq<Bytes>>)
    requires IsFile(stream, blocks) && blocks != [] && blocks[0] != [] && AllStarting(blocks, Starts(blocks[0]))
    ensures ReadBlocks(stream, HeaderRecords, []) == Some(blocks)
  {
    var first := Starts(blocks[0]);
    FrontBlock(stream, blocks);
    RestStarting(blocks, first);
    MixedRest(stream[BLOCK_SIZE..], blocks[1..], first);
    MixedBlock(stream[..BLOCK_SIZE], blocks[0], [], first);
  }

  lemma MixedBlock(block: Bytes, records: seq<Bytes>, index: seq<nat>, first: seq<nat>)
    requires IsBlock(block, records) && SelfSized(records) && Starting(records, first)
    requires first == if index == [] then Starts(records) else index
    ensures FromLE(block[..8]) == |records|
    ensures index == [] ==> Offsets(block, HeaderRecords, 8, |records|) == first
    ensures RecordsOf(block, HeaderRecords, first, |records|) == records
  {
    SmallLE(|records|);
    assert records[..0] == [] && StartOf(records, 0) == 8;
    SelfSizedOffsets(block, records, 0);
    assert Starts(records)[0..] == Starts(records);
    forall k | 0 <= k < |records| ensures RecordAt(block, HeaderRecords, first[k]) == records[k] {
      SelfSizedAt(block, records, k);
    }
  }

  // ----- What is refused -----

  /** The calls without the writes of records that fit into no block. */
  function Fitting(ops: seq<Op>): seq<Op> {
    if ops == [] then []
    else
      var op := ops[|ops| - 1];
      Fitting(ops[..|ops| - 1]) + if op.Put? && |op.data| > 1016 then [] else [op]
  }

  /** A write to an open file is accepted if and only if the record has at most 1016 bytes, after any calls; those
      that were refused have made no difference. */
  lemma {:induction false} OversizedIsIgnored(w: Writer, ops: seq<Op>, data: Bytes)
    requires |w.buffer| == BUFFER_SIZE && w.open
    ensures Run(w, ops) == Run(w, Fitting(ops)) && Run(w, ops).open
    ensures AfterWrite(Run(w, ops), data).1 <==> |data| <= 1016
  {
    if ops != [] {
      var n := |ops| - 1;
      OversizedIsIgnored(w, ops[..n], data);
      OneMoreCall(w, Fitting(ops[..n]), ops[n]);
    }
  }

  lemma OneMoreCall(w: Writer, front: seq<Op>, op: Op)
    requires |w.buffer| == BUFFER_SIZE && Run(w, front).open
    ensures Run(w, front + [op]) == Apply(Run(w, front), op) && Run(w, front + [op]).open && front + [] == front
    ensures op.Put? && |op.data| > 1016 ==> Apply(Run(w, front), op) == Run(w, front)
  {
    assert (front + [op])[..|front|] == front;
  }

  /** A closed file takes nothing more, and closing it again changes nothing. */
  lemma {:induction false} ClosedIsFinal(w: Writer, ops: seq<Op>, data: Bytes)
    requires |w.buffer| == BUFFER_SIZE
    ensures var c := AfterClose(w);
      Run(c, ops) == c && AfterClose(c) == c && AfterWrite(c, data) == (c, false)
  {
    if ops != [] { ClosedIsFinal(w, ops[..|ops| - 1], data); }
  }

  /** Bytes after the last whole block are not read. */
  lemma {:induction false} TailIsIgnored(stream: Bytes, tail: Bytes, layout: Layout, index: seq<nat>)
    requires |stream| % BLOCK_SIZE == 0 && |tail| < BLOCK_SIZE
    ensures ReadBlocks(stream + tail, layout, index) == ReadBlocks(stream, layout, index)
    decreases |stream|
  {
    if |stream| >= BLOCK_SIZE {
      var block := stream[..BLOCK_SIZE];
      assert (stream + tail)[..BLOCK_SIZE] == block && (stream + tail)[BLOCK_SIZE..] == stream[BLOCK_SIZE..] + tail;
      var n := FromLE(block[..8]);
      TailIsIgnored(stream[BLOCK_SIZE..], tail, layout, if index == [] then Offsets(block, layout, 8, n) else index);
    }
  }

  // ----- What a short block leaves behind -----

  /** The buffer still holds the records of the block `last` in the places that `current` has not reached. */
  ghost predicate Leftover(buffer: Bytes, last: seq<Bytes>, current: seq<Bytes>, size: nat) {
    && (forall i | 0 <= i < |current| :: Clip(buffer, i * size, size) == current[i])
    && forall i | |current| <= i < |last| :: Clip(buffer, i * size, size) == last[i]
  }

  /** In the file, every block that is shorter than the one before it ends in the records of that one. */
  ghost predicate LeavesOld(stream: Bytes, blocks: seq<seq<Bytes>>, size: nat) {
    |stream| == |blocks| * BLOCK_SIZE &&
    forall b, i | 1 <= b < |blocks| && |blocks[b]| <= i < |blocks[b - 1]| ::
      Clip(stream, b * BLOCK_SIZE + Place(size, i), size) == blocks[b - 1][i]
  }

  function Last(blocks: seq<seq<Bytes>>): seq<Bytes> { if blocks == [] then [] else blocks[|blocks| - 1] }

  lemma CopyLeaves(buffer: Bytes, last: seq<Bytes>, current: seq<Bytes>, data: Bytes, size: nat)
    requires Leftover(buffer, last, current, size) && |data| == size && |current| * size + size <= |buffer|
    ensures Leftover(Copied(buffer, |current| * size, data), last, current + [data], size)
  {
    var n, more := |current|, current + [data];
    var copied := Copied(buffer, n * size, data);
    forall i | 0 <= i < |more| ensures Clip(copied, i * size, size) == more[i] {
      CopiedPlace(buffer, n, data, i, size);
    }
    forall i | |more| <= i < |last| ensures Clip(copied, i * size, size) == last[i] {
      CopiedPlace(buffer, n, data, i, size);
    }
  }

  lemma CopiedPlace(buffer: Bytes, n: nat, data: Bytes, i: nat, size: nat)
    requires |data| == size && n * size + size <= |buffer|
    ensures Clip(Copied(buffer, n * size, data), i * size, size) ==
            if i == n then data else Clip(buffer, i * size, size)
  {
    if i != n {
      Scaled(i, n, size);
      Scaled(n, i, size);
      CopyElsewhere(buffer, n * size, data, i * size, size);
    }
  }

  lemma CopyElsewhere(buffer: Bytes, offset: nat, data: Bytes, at: nat, size: nat)
    requires offset + |data| <= |buffer| && (at + size <= offset || offset + |data| <= at)
    ensures Clip(Copied(buffer, offset, data), at, size) == Clip(buffer, at, size)
  {
    var copied := Copied(buffer, offset, data);
    if at + size <= |buffer| {
      forall k | at <= k < at + size ensures copied[k] == buffer[k] { }
      assert copied[at..at + size] == buffer[at..at + size];
    }
  }

  lemma ClipFront(stream: Bytes, more: Bytes, at: nat, size: nat)
    requires at + size <= |stream|
    ensures Clip(stream + more, at, size) == Clip(stream, at, size)
  {
  }

  lemma ClipBack(stream: Bytes, header: Bytes, buffer: Bytes, at: nat, size: nat)
    requires at + size <= |buffer|
    ensures Clip(stream + (header + buffer), |stream| + |header| + at, size) == Clip(buffer, at, size)
  {
    var s, from := stream + (header + buffer), |stream| + |header| + at;
    forall k | from <= k < from + size ensures s[k] == buffer[k - from + at] { }
    assert s[from..from + size] == buffer[at..at + size];
  }

  ghost predicate Room(blocks: seq<seq<Bytes>>, size: nat) {
    forall b | 0 <= b < |blocks| :: |blocks[b]| * size <= BUFFER_SIZE
  }

  lemma FlushLeaves(
      stream: Bytes, blocks: seq<seq<Bytes>>, header: Bytes, buffer: Bytes, current: seq<Bytes>, size: nat)
    requires LeavesOld(stream, blocks, size) && Leftover(buffer, Last(blocks), current, size)
    requires |header| == 8 && |buffer| == BUFFER_SIZE && Room(blocks, size)
    ensures LeavesOld(stream + (header + buffer), blocks + [current], size)
    ensures Leftover(buffer, current, [], size)
  {
    var n := |blocks|;
    var s, bs := stream + (header + buffer), blocks + [current];
    forall b, i | 1 <= b < |bs| && |bs[b]| <= i < |bs[b - 1]|
      ensures Clip(s, b * BLOCK_SIZE + Place(size, i), size) == bs[b - 1][i]
    {
      assert |blocks[b - 1]| * size <= BUFFER_SIZE;
      Scaled(i, |blocks[b - 1]|, size);
      StreamPlace(stream, header, buffer, n, b, i, size);
    }
  }

  lemma StreamPlace(stream: Bytes, header: Bytes, buffer: Bytes, n: nat, b: nat, i: nat, size: nat)
    requires |stream| == n * BLOCK_SIZE && |header| == 8 && |buffer| == BUFFER_SIZE && b <= n &&
             i * size + size <= BUFFER_SIZE
    ensures Clip(stream + (header + buffer), b * BLOCK_SIZE + Place(size, i), size) ==
            if b == n then Clip(buffer, i * size, size) else Clip(stream, b * BLOCK_SIZE + Place(size, i), size)
  {
    if b == n {
      ClipBack(stream, header, buffer, i * size, size);
    } else {
      ClipFront(stream, header + buffer, b * BLOCK_SIZE + Place(size, i), size);
    }
  }

  /** All of it, for a writer that has flushed `blocks` and buffers `current`. */
  ghost predicate Leaves(w: Writer, blocks: seq<seq<Bytes>>, current: seq<Bytes>, size: nat) {
    && LeavesOld(w.stream, blocks, size) && Leftover(w.buffer, Last(blocks), current, size)
    && Room(blocks, size) && |current| * size <= BUFFER_SIZE
  }

  /** A whole run leaves old records behind in this way: the writer never clears its buffer. */
  lemma {:induction false} RunLeavesOld(w: Writer, ops: seq<Op>, layout: Layout, size: nat)
    requires NewWriter(w) && FittingOps(ops, layout, size)
    ensures Leaves(Run(w, ops), Packing(ops, size).0, Packing(ops, size).1, size)
  {
    if ops != [] {
      var n := |ops| - 1;
      RunLeavesOld(w, ops[..n], layout, size);
      RunPacks(w, ops[..n], layout, size);
      PackingContents(ops[..n], layout, size);
      var (blocks, current) := Packing(ops[..n], size);
      ApplyLeavesOld(Run(w, ops[..n]), blocks, current, ops[n], layout, size);
    }
  }

  /** So does the closed file. */
  lemma FileLeavesOld(w: Writer, ops: seq<Op>, layout: Layout, size: nat)
    requires NewWriter(w) && FittingOps(ops, layout, size)
    ensures var (blocks, current) := Packing(ops, size);
      LeavesOld(AfterClose(Run(w, ops)).stream, blocks + [current], size)
  {
    RunLeavesOld(w, ops, layout, size);
    RunPacks(w, ops, layout, size);
    FlushKeepsLeaves(Run(w, ops), Packing(ops, size).0, Packing(ops, size).1, size);
  }

  lemma FlushKeepsLeaves(w: Writer, blocks: seq<seq<Bytes>>, current: seq<Bytes>, size: nat)
    requires w.open && |w.buffer| == BUFFER_SIZE && Leaves(w, blocks, current, size)
    ensures Leaves(AfterFlush(w), blocks + [current], [], size)
  {
    FlushLeaves(w.stream, blocks, ToLE(w.written, 8), w.buffer, current, size);
  }

  /** A record that fits into the buffer. */
  lemma PutKeepsLeaves(w: Writer, blocks: seq<seq<Bytes>>, current: seq<Bytes>, data: Bytes, size: nat)
    requires w.open && |w.buffer| == BUFFER_SIZE && Leaves(w, blocks, current, size)
    requires |data| == size && w.offset == |current| * size && w.offset + size <= BUFFER_SIZE
    ensures Leaves(AfterWrite(w, data).0, blocks, current + [data], size)
  {
    Scaled(0, |current|, size);
    CopyLeaves(w.buffer, Last(blocks), current, data, size);
  }

  /** A record that does not fit is written as after a flush. */
  lemma FullWrite(w: Writer, data: Bytes)
    requires w.open && |w.buffer| == BUFFER_SIZE && |data| <= BUFFER_SIZE < |data| + w.offset
    ensures AfterWrite(w, data) == AfterWrite(AfterFlush(w), data)
  {
  }

  lemma ApplyLeavesOld(w: Writer, blocks: seq<seq<Bytes>>, current: seq<Bytes>, op: Op, layout: Layout, size: nat)
    requires w.open && Represents(w, blocks, current) && AllFit(current, layout, size) && size <= BUFFER_SIZE
    requires Leaves(w, blocks, current, size) && (op.Put? ==> FitsLayout(op.data, layout, size))
    ensures Leaves(Apply(w, op), Pack(blocks, current, op, size).0, Pack(blocks, current, op, size).1, size)
  {
    ConcatLength(current, layout, size);
    Scaled(0, |current|, size);
    if op.Put? && (|current| + 1) * size <= BUFFER_SIZE {
      PutKeepsLeaves(w, blocks, current, op.data, size);
    } else {
      FlushKeepsLeaves(w, blocks, current, size);
      if op.Put? {
        FullWrite(w, op.data);
        PutKeepsLeaves(AfterFlush(w), blocks + [current], [], op.data, size);
        assert [] + [op.data] == [op.data];
      }
    }
  }

  // ----- Where the records are in the file -----

  lemma {:induction false} BlockAt(stream: Bytes, blocks: seq<seq<Bytes>>, b: nat) returns (block: Bytes)
    requires IsFile(stream, blocks) && b < |blocks|
    ensures |stream| == |blocks| * BLOCK_SIZE
    ensures block == stream[b * BLOCK_SIZE..b * BLOCK_SIZE + BLOCK_SIZE] && IsBlock(block, blocks[b])
    decreases |blocks|
  {
    FileLength(stream, blocks);
    var n, m := |blocks| - 1, |stream| - BLOCK_SIZE;
    if b < n {
      block := BlockAt(stream[..m], blocks[..n], b);
      CutFront(stream, m, b * BLOCK_SIZE, b * BLOCK_SIZE + BLOCK_SIZE);
    } else {
      block := stream[m..];
      assert block == stream[m..m + BLOCK_SIZE];
    }
  }

  lemma CutFront(stream: Bytes, m: nat, from: nat, to: nat)
    requires from <= to <= m <= |stream|
    ensures stream[..m][from..to] == stream[from..to]
  {
  }

  lemma {:induction false} FileLength(stream: Bytes, blocks: seq<seq<Bytes>>)
    requires IsFile(stream, blocks)
    ensures |stream| == |blocks| * BLOCK_SIZE
    decreases |blocks|
  {
    if blocks != [] { FileLength(stream[..|stream| - BLOCK_SIZE], blocks[..|blocks| - 1]); }
  }

  /** The records of a block are where the index says. */
  lemma InPlace(stream: Bytes, blocks: seq<seq<Bytes>>, layout: Layout, size: nat, b: nat, i: nat)
    requires IsFile(stream, blocks) && AllBlocksFit(blocks, layout, size) && b < |blocks| && i < |blocks[b]|
    ensures Clip(stream, b * BLOCK_SIZE + Place(size, i), size) == blocks[b][i]
  {
    var _ := BlockAt(stream, blocks, b);
    assert AllFit(blocks[b], layout, size);
    InPlaceOfBlock(stream, b * BLOCK_SIZE, blocks[b], layout, size, i);
  }

  lemma InPlaceOfBlock(stream: Bytes, m: nat, records: seq<Bytes>, layout: Layout, size: nat, i: nat)
    requires m + BLOCK_SIZE <= |stream| && IsBlock(stream[m..m + BLOCK_SIZE], records)
    requires AllFit(records, layout, size) && i < |records|
    ensures Clip(stream, m + Place(size, i), size) == records[i]
  {
    ConcatAt(records, layout, size, i);
    BlockSlice(stream[m..m + BLOCK_SIZE], records, i * size, size);
    SliceOfSlice(stream, m, m + BLOCK_SIZE, Place(size, i), Place(size, i) + size);
  }

  // ----- The classes -----

  class FileSerializer {
    const buffer: array<byte>
    var writtenElement: nat
    var writtenOffset: nat
    var stream: Bytes
    var streamIsOpen: bool

    ghost predicate Valid()
      reads this
    {
      buffer.Length == BUFFER_SIZE && writtenOffset <= BUFFER_SIZE
    }

    ghost function Value(): (w: Writer)
      requires Valid()
      reads this, buffer
      ensures |w.buffer| == BUFFER_SIZE
    {
      Writer(stream, buffer[..], writtenElement, writtenOffset, streamIsOpen)
    }

    /** `isRegular` and `isDirectory` are what the file system says of the name. */
    constructor (isRegular: bool, isDirectory: bool)
      ensures Valid() && fresh(buffer) && (Value().open ==> NewWriter(Value()))
      ensures Value().open <==> isRegular || !isDirectory
    {
      buffer := new byte[BUFFER_SIZE];
      writtenElement, writtenOffset, stream, streamIsOpen := 0, 0, [], isRegular || !isDirectory;
    }

    method Flush()
      requires Valid()
      modifies this
      ensures Valid() && Value() == AfterFlush(old(Value()))
    {
      if streamIsOpen {
        stream := stream + (ToLE(writtenElement, 8) + buffer[..]);
        writtenElement, writtenOffset := 0, 0;
      }
    }

    method Close()
      requires Valid()
      modifies this
      ensures Valid() && Value() == AfterClose(old(Value()))
    {
      if streamIsOpen {
        Flush();
        streamIsOpen := false;
      }
    }

    /** memcpy into the buffer. */
    method CopyIn(offset: nat, data: Bytes)
      requires offset + |data| <= buffer.Length
      modifies buffer
      ensures buffer[..] == Copied(old(buffer[..]), offset, data)
    {
      for i := 0 to |data|
        invariant forall k | 0 <= k < i :: buffer[offset + k] == data[k]
        invariant forall k | 0 <= k < offset || offset + i <= k < buffer.Length :: buffer[k] == old(buffer[k])
      {
        buffer[offset + i] := data[i];
      }
      assert buffer[offset..offset + |data|] == data;
    }

    method CopyBoth(offset: nat, header: Bytes, data: Bytes)
      requires offset + |header| + |data| <= buffer.Length
      modifies buffer
      ensures buffer[..] == Copied(old(buffer[..]), offset, header + data)
    {
      CopyIn(offset, header);
      CopyIn(offset + |header|, data);
      CopiedTwice(old(buffer[..]), offset, header, data);
    }

    method Write(data: Bytes) returns (ok: bool)
      requires Valid()
      modifies this, buffer
      ensures Valid() && (Value(), ok) == AfterWrite(old(Value()), data)
    {
      if !streamIsOpen || |data| > BUFFER_SIZE { return false; }
      if |data| + writtenOffset > BUFFER_SIZE { Flush(); }
      CopyIn(writtenOffset, data);
      writtenOffset := writtenOffset + |data|;
      writtenElement := writtenElement + 1;
      ok := true;
    }

    method WriteWithHeader(header: Bytes, data: Bytes) returns (ok: bool)
      requires Valid() && |header| == HEADER_SIZE
      modifies this, buffer
      ensures Valid() && (Value(), ok) == AfterWrite(old(Value()), header + data)
    {
      if !streamIsOpen || |data| + HEADER_SIZE > BUFFER_SIZE { return false; }
      if |data| + HEADER_SIZE + writtenOffset > BUFFER_SIZE { Flush(); }
      CopyBoth(writtenOffset, header, data);
      writtenOffset := writtenOffset + |data| + HEADER_SIZE;
      writtenElement := writtenElement + 1;
      ok := true;
    }
  }

  lemma CopiedTwice(buffer: Bytes, offset: nat, a: Bytes, b: Bytes)
    requires offset + |a| + |b| <= |buffer|
    ensures Copied(Copied(buffer, offset, a), offset + |a|, b) == Copied(buffer, offset, a + b)
  {
  }

  lemma OffsetsStep(index: seq<nat>, block: Bytes, layout: Layout, offset: nat, n: nat)
    requires n > 0
    ensures index + Offsets(block, layout, offset, n) ==
            (index + [offset]) + Offsets(block, layout, offset + SizeAt(block, layout, offset), n - 1)
  {
  }

  method CollectOffsets(block: Bytes, layout: Layout, n: nat) returns (index: seq<nat>)
    ensures index == Offsets(block, layout, 8, n)
  {
    var offset: nat := 8;
    index := [];
    for i := 0 to n
      invariant |index| == i && Offsets(block, layout, 8, n) == index + Offsets(block, layout, offset, n - i)
    {
      OffsetsStep(index, block, layout, offset, n - i);
      index := index + [offset];
      offset := offset + SizeAt(block, layout, offset);
    }
  }

  class FileBlockWrapper {
    var index: seq<nat>
    var valid: bool
    var buffer: Bytes

    constructor ()
      ensures index == [] && !valid && |buffer| == BLOCK_SIZE
    {
      index, valid, buffer := [], false, seq(BLOCK_SIZE, _ => 0);
    }

    /** Reads the next block of a file whose unread part is `rest`. */
    method Next(rest: Bytes, layout: Layout) returns (rest': Bytes)
      modifies this
      ensures valid <==> |rest| >= BLOCK_SIZE
      ensures valid ==> buffer == rest[..BLOCK_SIZE] && rest' == rest[BLOCK_SIZE..]
      ensures index == if valid && old(index) == [] then Offsets(buffer, layout, 8, FromLE(buffer[..8])) else old(index)
    {
      valid := |rest| >= BLOCK_SIZE;
      if valid {
        buffer, rest' := rest[..BLOCK_SIZE], rest[BLOCK_SIZE..];
        Index(layout);
      } else {
        buffer, rest' := seq(BLOCK_SIZE, _ => 0), [];
      }
    }

    method Index(layout: Layout)
      requires |buffer| == BLOCK_SIZE
      modifies this`index
      ensures index == if old(index) == [] then Offsets(buffer, layout, 8, FromLE(buffer[..8])) else old(index)
    {
      if index == [] {
        index := CollectOffsets(buffer, layout, FromLE(buffer[..8]));
      }
    }

    function Size(): nat
      reads this
    {
      if valid && |buffer| == BLOCK_SIZE then FromLE(buffer[..8]) else 0
    }

    /** All records of the block, one `getNewRecord` or `get` after the other. */
    method Records(layout: Layout) returns (records: seq<Bytes>)
      requires valid && |buffer| == BLOCK_SIZE && Size() <= |index|
      ensures records == RecordsOf(buffer, layout, index, Size())
    {
      records := [];
      for i := 0 to Size()
        invariant records == RecordsOf(buffer, layout, index, i)
      {
        records := records + [RecordAt(buffer, layout, index[i])];
      }
    }
  }

  function Prepend(front: seq<Bytes>, rest: Option<seq<Bytes>>): Option<seq<Bytes>> {
    if rest.None? then None else Some(front + rest.value)
  }

  lemma ReadFileStep(stream: Bytes, layout: Layout, index: seq<nat>, read: seq<Bytes>)
    requires |stream| >= BLOCK_SIZE
    ensures var block := stream[..BLOCK_SIZE]; var n := FromLE(block[..8]);
      var idx := if index == [] then Offsets(block, layout, 8, n) else index;
      Prepend(read, ReadFile(stream, layout, index)) ==
      if n > |idx| then None
      else Prepend(read + RecordsOf(block, layout, idx, n), ReadFile(stream[BLOCK_SIZE..], layout, idx))
  {
    var block := stream[..BLOCK_SIZE];
    var n := FromLE(block[..8]);
    var idx := if index == [] then Offsets(block, layout, 8, n) else index;
    var rest := ReadBlocks(stream[BLOCK_SIZE..], layout, idx);
    if n <= |idx| && rest.Some? {
      var records := RecordsOf(block, layout, idx, n);
      assert ([records] + rest.value)[1..] == rest.value;
      Associative(read, records, Flatten(rest.value));
    }
  }

  /** The loop of every reader of a record file. */
  method ReadAll(stream: Bytes, layout: Layout) returns (records: Option<seq<Bytes>>)
    ensures records == ReadFile(stream, layout, [])
  {
    var wrapper := new FileBlockWrapper();
    var read: seq<Bytes>, rest := [], stream;
    assert ReadFile(stream, layout, []).Some? ==>
             [] + ReadFile(stream, layout, []).value == ReadFile(stream, layout, []).value;
    while |rest| >= BLOCK_SIZE
      invariant ReadFile(stream, layout, []) == Prepend(read, ReadFile(rest, layout, wrapper.index))
      decreases |rest|
    {
      ReadFileStep(rest, layout, wrapper.index, read);
      rest := wrapper.Next(rest, layout);
      if wrapper.Size() > |wrapper.index| { return None; }
      var block := wrapper.Records(layout);
      read := read + block;
    }
    assert read + [] == read;
    records := Some(read);
  }
}
