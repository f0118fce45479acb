/** The merge of per-field record files along a time line: multibinary_to_csv_serializer.cpp and
    RecordFileDeserializer.cpp.

    Times are ranks of finite doubles.  The text of a cell is an uninterpreted function of the record. */
module CursorMerge {
  import opened Blocks

  /** A block header and its payload.  `valid` says that both validity bytes are set. */
  datatype Header = Header(start: int, end: int, valid: bool, value: Bytes)

  type Render = Header -> string
  const NOT_AVAILABLE := "n/a"

  /** One column: the blocks of its file, the cursor (`block`, `first`, `good`), the number of records in the
      index of its buffer, and the text of the last cell. */
  datatype Column =
    Column(blocks: seq<seq<Header>>, block: nat, first: nat, good: bool, index: nat, text: string)

  /** `init`. */
  function NewColumn(blocks: seq<seq<Header>>): Column {
    Column(blocks, 0, 0, blocks != [], if blocks == [] then 0 else |blocks[0]|, NOT_AVAILABLE)
  }

  predicate Valid(c: Column) {
    c.good ==> c.block < |c.blocks| && c.first <= |c.blocks[c.block]|
  }

  /** What `current` gives: a null pointer, a record, or an access beyond the index. */
  datatype Slot = Nothing | Record(header: Header) | OutOfBounds

  /** `current`. */
  function Current(c: Column): Slot
    requires Valid(c)
  {
    if !c.good || |c.blocks[c.block]| <= c.first then Nothing
    else if c.index <= c.first then OutOfBounds
    else Record(c.blocks[c.block][c.first])
  }

  /** `next`: the next record of the block, or the first of the next block.  The index is made once, for the
      first block with records. */
  function Next(c: Column): (d: Column)
    requires Valid(c)
    ensures Valid(d)
  {
    if !c.good then c
    else if |c.blocks[c.block]| <= c.first + 1 then
      if c.block + 1 < |c.blocks| then
        var index := if c.index == 0 then |c.blocks[c.block + 1]| else c.index;
        c.(block := c.block + 1, first := 0, index := index)
      else c.(good := false)
    else c.(first := c.first + 1)
  }

  /** What the pointer to the record `r` under the cursor of `c` shows after the cursor has moved to `d`.  A
      new block is read into the same buffer: the pointer then shows the record in the same place, or, when
      the new block is shorter, the bytes that the writer left there, which are those of `r`. */
  function OldHeader(c: Column, d: Column, r: Header): Header
    requires Valid(d)
  {
    if d.good && d.block != c.block && c.first < |d.blocks[d.block]| then d.blocks[d.block][c.first] else r
  }

  lemma OldHeaderIs(c: Column)
    requires c.good && c.block + 1 < |c.blocks| && c.first + 1 == |c.blocks[c.block]|
    ensures OldHeader(c, Next(c), c.blocks[c.block][c.first]) ==
            if c.first < |c.blocks[c.block + 1]| then c.blocks[c.block + 1][c.first] else c.blocks[c.block][c.first]
  {
  }

  predicate IsGap(old_: Header, new_: Header, t: int) {
    old_.end != new_.start && old_.end < t < new_.start
  }

  /** A cell of a row: some text, nothing at all, or an access beyond the index. */
  datatype Cell = Printed(text: string) | Omitted | Fault

  function Show(c: Column, text: string): (Column, Cell) {
    (c.(text := text), Printed(text))
  }

  /** One column at one time.  The pair of positions is copied from the vector and never written back, so that
      there is no former record before the cursor moves. */
  function StepColumn(render: Render, c: Column, t: int): (r: (Column, Cell))
    requires Valid(c)
    ensures Valid(r.0) && r.0.blocks == c.blocks
  {
    match Current(c)
    case Nothing => Show(c, NOT_AVAILABLE)
    case OutOfBounds => (c, Fault)
    case Record(r) =>
      if !r.valid then Show(c, NOT_AVAILABLE)
      else if r.start > t then Show(c, c.text)
      else
        var d := if t > r.end then Next(c) else c;
        match Current(d)
        case Nothing => Show(d, NOT_AVAILABLE)
        case OutOfBounds => (d, Fault)
        case Record(q) =>
          if !q.valid || IsGap(OldHeader(c, d, r), q, t) then Show(d, NOT_AVAILABLE)
          else if q.start > t then Show(d, d.text)
          else if t <= q.end then Show(d, render(q))
          else (d, Omitted)
  }

  // ----- Well-formed files -----

  /** The intervals are in order and apart. */
  ghost predicate Apart(s: seq<Header>) {
    && (forall i | 0 <= i < |s| :: s[i].start <= s[i].end && s[i].valid)
    && forall i, j | 0 <= i < j < |s| :: s[i].end < s[j].start
  }

  /** The records that the merge gets to see: it never advances past an empty block. */
  function Records(blocks: seq<seq<Header>>): seq<Header> {
    Flatten(Seen(blocks))
  }

  ghost predicate WellFormed(blocks: seq<seq<Header>>) {
    Apart(Records(blocks)) && Readable(blocks, 0)
  }

  function Done(c: Column): seq<Header>
    requires OnRecord(c)
  {
    if c.good then Flatten(c.blocks[..c.block]) + c.blocks[c.block][..c.first] else Records(c.blocks)
  }

  function Todo(c: Column): seq<Header>
    requires OnRecord(c)
  {
    if c.good then Ahead(c.blocks, c.block, c.first) else []
  }

  /** The records in sight from one place on. */
  function Ahead(blocks: seq<seq<Header>>, b: nat, first: nat): seq<Header> {
    var seen := Seen(blocks);
    if b < |seen| && first <= |seen[b]| then seen[b][first..] + Flatten(seen[b + 1..]) else []
  }

  lemma AheadStep(blocks: seq<seq<Header>>, b: nat, first: nat)
    requires b < |Seen(blocks)| && first < |blocks[b]|
    ensures Ahead(blocks, b, first) != [] && Ahead(blocks, b, first)[0] == blocks[b][first]
    ensures Ahead(blocks, b, first + 1) == Ahead(blocks, b, first)[1..]
  {
    MoveOne([], blocks[b], first, Flatten(Seen(blocks)[b + 1..]));
  }

  /** The cursor stands on a record or on the first empty block, or it has passed the last block; the index is
      that of the first block. */
  predicate OnRecord(c: Column) {
    var n := |Seen(c.blocks)|;
    && (n > 0 ==> c.index == |c.blocks[0]|)
    && if c.good then
         c.block <= n && c.block < |c.blocks| && if c.block < n then c.first < |c.blocks[c.block]| else c.first == 0
       else n == |c.blocks|
  }

  lemma DoneTodo(c: Column)
    requires OnRecord(c)
    ensures Done(c) + Todo(c) == Records(c.blocks)
  {
    var b, seen := c.block, Seen(c.blocks);
    if c.good && b < |seen| {
      SplitAt(seen, b, c.first);
      assert seen[..b] == c.blocks[..b];
    } else if c.good {
      assert c.blocks[..b] == seen && c.blocks[b][..0] == [];
    }
  }

  lemma SplitAt(blocks: seq<seq<Header>>, b: nat, first: nat)
    requires b < |blocks| && first <= |blocks[b]|
    ensures Flatten(blocks) ==
            (Flatten(blocks[..b]) + blocks[b][..first]) + (blocks[b][first..] + Flatten(blocks[b + 1..]))
  {
    FlattenConcat(blocks[..b], blocks[b..]);
    assert blocks[..b] + blocks[b..] == blocks;
    assert blocks[b..][0] == blocks[b] && blocks[b..][1..] == blocks[b + 1..];
    assert blocks[b][..first] + blocks[b][first..] == blocks[b];
  }

  /** The record under the cursor is the first that is left to do, and the index reaches it. */
  lemma CurrentIsFirst(c: Column)
    requires OnRecord(c) && WellFormed(c.blocks)
    ensures Valid(c) && Current(c) == if Todo(c) == [] then Nothing else Record(Todo(c)[0])
  {
    if c.good && c.block < |Seen(c.blocks)| {
      assert Seen(c.blocks)[0] != [];
      ReadableBlock(c.blocks, c.block);
    }
  }

  lemma NextTakesOne(c: Column)
    requires OnRecord(c) && Todo(c) != []
    ensures OnRecord(Next(c)) && Done(Next(c)) == Done(c) + [Todo(c)[0]] && Todo(Next(c)) == Todo(c)[1..]
  {
    var b := c.block;
    if c.first + 1 < |c.blocks[b]| {
      SameBlock(c);
    } else {
      BlockTaken(c);
      if b + 1 < |c.blocks| { NextBlock(c); } else { LastRecord(c); }
    }
  }

  lemma SameBlock(c: Column)
    requires OnRecord(c) && Todo(c) != [] && c.first + 1 < |c.blocks[c.block]|
    ensures OnRecord(Next(c)) && Done(Next(c)) == Done(c) + [Todo(c)[0]] && Todo(Next(c)) == Todo(c)[1..]
  {
    SameBlockDone(c);
    SameBlockTodo(c);
  }

  lemma SameBlockDone(c: Column)
    requires OnRecord(c) && Todo(c) != [] && c.first + 1 < |c.blocks[c.block]|
    ensures OnRecord(Next(c)) && Done(Next(c)) == Done(c) + [c.blocks[c.block][c.first]]
  {
    assert Next(c) == c.(first := c.first + 1);
    MoveOne(Flatten(c.blocks[..c.block]), c.blocks[c.block], c.first, []);
  }

  lemma SameBlockTodo(c: Column)
    requires OnRecord(c) && Todo(c) != [] && c.first + 1 < |c.blocks[c.block]| && OnRecord(Next(c))
    ensures Todo(c)[0] == c.blocks[c.block][c.first] && Todo(Next(c)) == Todo(c)[1..]
  {
    assert Next(c) == c.(first := c.first + 1);
    AheadStep(c.blocks, c.block, c.first);
  }

  lemma MoveOne<T>(front: seq<T>, s: seq<T>, first: nat, back: seq<T>)
    requires first < |s|
    ensures front + s[..first + 1] == (front + s[..first]) + [s[first]]
    ensures (s[first..] + back)[0] == s[first] && s[first + 1..] + back == (s[first..] + back)[1..]
  {
  }

  /** The last record of a block is taken. */
  lemma BlockTaken(c: Column)
    requires OnRecord(c) && Todo(c) != [] && c.first + 1 == |c.blocks[c.block]|
    ensures Flatten(c.blocks[..c.block + 1]) == Done(c) + [Todo(c)[0]]
    ensures Todo(c)[1..] == Flatten(Seen(c.blocks)[c.block + 1..])
  {
    var b := c.block;
    assert c.blocks[..b + 1] == c.blocks[..b] + [c.blocks[b]];
    FlattenAppend(c.blocks[..b], c.blocks[b]);
    assert c.blocks[b][..c.first] + [c.blocks[b][c.first]] == c.blocks[b];
    assert c.blocks[b][c.first..] == [c.blocks[b][c.first]];
  }

  lemma NextBlock(c: Column)
    requires OnRecord(c) && Todo(c) != [] && c.first + 1 == |c.blocks[c.block]| && c.block + 1 < |c.blocks|
    ensures OnRecord(Next(c)) && Done(Next(c)) == Flatten(c.blocks[..c.block + 1])
    ensures Todo(Next(c)) == Flatten(Seen(c.blocks)[c.block + 1..])
  {
    var b, seen := c.block, Seen(c.blocks);
    assert c.blocks[b + 1][..0] == [];
    if b + 1 < |seen| {
      assert seen[b + 1][0..] == seen[b + 1];
      assert seen[b + 1..][0] == seen[b + 1] && seen[b + 1..][1..] == seen[b + 2..];
    }
  }

  lemma LastRecord(c: Column)
    requires OnRecord(c) && Todo(c) != [] && c.first + 1 == |c.blocks[c.block]| && c.block + 1 == |c.blocks|
    ensures OnRecord(Next(c)) && Done(Next(c)) == Flatten(c.blocks[..c.block + 1])
    ensures Todo(Next(c)) == Flatten(Seen(c.blocks)[c.block + 1..])
  {
    assert c.blocks[..c.block + 1] == c.blocks == Seen(c.blocks);
  }

  // ----- One advance is enough -----

  /** The block before the cursor is used up, and the new one has at least as many records. */
  predicate AtFullerBlock(c: Column)
  {
    c.good && c.first == 0 < c.block < |c.blocks| && |c.blocks[c.block - 1]| <= |c.blocks[c.block]|
  }

  function TextAt(render: Render, c: Column, t: int): string
    requires OnRecord(c)
  {
    var todo, done := Todo(c), Done(c);
    if todo == [] then NOT_AVAILABLE
    else if todo[0].start <= t then render(todo[0])
    else if AtFullerBlock(c) && done != [] then render(done[|done| - 1])
    else NOT_AVAILABLE
  }

  /** After the row of time `t`: what is done ended before `t`, the record under the cursor ends at `t` or
      later, and the text is that of the cell. */
  ghost predicate InStep(render: Render, c: Column, t: int) {
    && OnRecord(c) && WellFormed(c.blocks)
    && (forall r | r in Done(c) :: r.end < t)
    && (Todo(c) != [] ==> t <= Todo(c)[0].end)
    && c.text == TextAt(render, c, t)
  }

  /** No interval of the column starts or ends between the two times. */
  ghost predicate Adjacent(blocks: seq<seq<Header>>, t: int, u: int) {
    t < u && forall r | r in Records(blocks) :: !(t < r.start < u) && !(t < r.end < u)
  }

  lemma TodoMembers(c: Column)
    requires OnRecord(c) && WellFormed(c.blocks) && Todo(c) != []
    ensures Todo(c)[0] in Records(c.blocks) && Todo(c)[0].valid && Todo(c)[0].start <= Todo(c)[0].end
    ensures |Todo(c)| > 1 ==> Todo(c)[1] in Records(c.blocks) && Todo(c)[1].valid &&
                              Todo(c)[0].end < Todo(c)[1].start <= Todo(c)[1].end
  {
    DoneTodo(c);
    var n, all := |Done(c)|, Records(c.blocks);
    assert all[n] == Todo(c)[0];
    if |Todo(c)| > 1 { assert all[n + 1] == Todo(c)[1]; }
  }

  /** The record in the old place of a fuller block does not end before the first record of that block. */
  lemma NoGapInFullerBlock(blocks: seq<seq<Header>>, b: nat, k: nat, t: int)
    requires WellFormed(blocks) && b < |Seen(blocks)| && k < |blocks[b]|
    ensures !IsGap(blocks[b][k], blocks[b][0], t)
  {
    FlattenAt(Seen(blocks), b, 0);
    FlattenAt(Seen(blocks), b, k);
  }

  /** The record under the cursor has ended: it ended at the last time, whose cell shows it, and the record
      after it starts no earlier than now. */
  lemma EndedJustNow(render: Render, c: Column, t: int, u: int)
    requires InStep(render, c, t) && Adjacent(c.blocks, t, u) && Todo(c) != [] && Todo(c)[0].end < u
    ensures Current(c) == Record(Todo(c)[0]) && Todo(c)[0].valid && Todo(c)[0].start <= Todo(c)[0].end == t
    ensures c.text == render(Todo(c)[0])
    ensures |Todo(c)| > 1 ==> Todo(c)[1].valid && t < u <= Todo(c)[1].start <= Todo(c)[1].end
  {
    CurrentIsFirst(c);
    TodoMembers(c);
  }

  /** The cursor moves to the next record: the gap is seen unless the new block hides it. */
  lemma GapAfterNext(c: Column, t: int, u: int)
    requires OnRecord(c) && WellFormed(c.blocks) && |Todo(c)| > 1
    requires Todo(c)[0].end == t < u <= Todo(c)[1].start
    ensures IsGap(OldHeader(c, Next(c), Todo(c)[0]), Todo(c)[1], u) <==>
            u < Todo(c)[1].start && !AtFullerBlock(Next(c))
  {
    var d := Next(c);
    CurrentIsFirst(c);
    NextTakesOne(c);
    CurrentIsFirst(d);
    if AtFullerBlock(d) {
      assert c.first == |c.blocks[c.block]| - 1;
      NoGapInFullerBlock(d.blocks, d.block, c.first, u);
    } else {
      assert OldHeader(c, d, Todo(c)[0]) == Todo(c)[0];
    }
  }

  lemma TextIsFree(c: Column, text: string)
    requires OnRecord(c)
    ensures var d := c.(text := text);
      OnRecord(d) && Done(d) == Done(c) && Todo(d) == Todo(c) && AtFullerBlock(d) == AtFullerBlock(c)
  {
    var d := c.(text := text);
    assert (d.blocks, d.block, d.first, d.good, d.index) == (c.blocks, c.block, c.first, c.good, c.index);
    assert OnRecord(d);
  }

  function TextAfterNext(render: Render, c: Column, u: int): string
    requires OnRecord(c) && Valid(c)
  {
    if |Todo(c)| <= 1 then NOT_AVAILABLE
    else if u == Todo(c)[1].start then render(Todo(c)[1])
    else if AtFullerBlock(Next(c)) then c.text
    else NOT_AVAILABLE
  }

  lemma AdvanceShows(render: Render, c: Column, t: int, u: int)
    requires InStep(render, c, t) && Adjacent(c.blocks, t, u) && Todo(c) != [] && Todo(c)[0].end < u
    ensures StepColumn(render, c, u) == Show(Next(c), TextAfterNext(render, c, u))
  {
    EndedJustNow(render, c, t, u);
    NextTakesOne(c);
    CurrentIsFirst(Next(c));
    if |Todo(c)| > 1 { GapAfterNext(c, t, u); }
  }

  lemma NextInStep(render: Render, c: Column, t: int, u: int)
    requires InStep(render, c, t) && Adjacent(c.blocks, t, u) && Todo(c) != [] && Todo(c)[0].end < u
    ensures InStep(render, Next(c).(text := TextAfterNext(render, c, u)), u)
  {
    EndedJustNow(render, c, t, u);
    NextTakesOne(c);
    DoneGrows(c, t, u);
    TextIsFree(Next(c), TextAfterNext(render, c, u));
  }

  lemma DoneGrows(c: Column, t: int, u: int)
    requires OnRecord(c) && Todo(c) != [] && OnRecord(Next(c)) && Done(Next(c)) == Done(c) + [Todo(c)[0]]
    requires t < u && Todo(c)[0].end < u && forall r | r in Done(c) :: r.end < t
    ensures Done(Next(c)) != [] && Done(Next(c))[|Done(Next(c))| - 1] == Todo(c)[0]
    ensures forall r | r in Done(Next(c)) :: r.end < u
  {
  }

  lemma StayShows(render: Render, c: Column, t: int, u: int)
    requires InStep(render, c, t) && t < u && (Todo(c) != [] ==> u <= Todo(c)[0].end)
    ensures StepColumn(render, c, u) == Show(c, TextAt(render, c, u))
  {
    CurrentIsFirst(c);
    if Todo(c) != [] { TodoMembers(c); }
  }

  /** Whatever the cursor does at the next time, it advances at most once and is in step again, and exactly
      one cell is printed. */
  lemma StepKeepsInStep(render: Render, c: Column, t: int, u: int)
    requires InStep(render, c, t) && Adjacent(c.blocks, t, u)
    ensures var (d, cell) := StepColumn(render, c, u); InStep(render, d, u) && cell == Printed(d.text)
  {
    if Todo(c) != [] && Todo(c)[0].end < u {
      AdvanceShows(render, c, t, u);
      NextInStep(render, c, t, u);
    } else {
      StayShows(render, c, t, u);
      TextIsFree(c, TextAt(render, c, u));
    }
  }

  // ----- What the cells mean -----

  ghost predicate Covers(r: Header, t: int) { r.start <= t <= r.end }

  /** Time `t` is in the gap between the blocks `b` and `b + 1`, and the latter has at least as many records. */
  ghost predicate HiddenGap(seen: seq<seq<Header>>, b: nat, t: int) {
    b + 1 < |seen| && seen[b] != [] && |seen[b]| <= |seen[b + 1]| &&
    seen[b][|seen[b]| - 1].end < t < seen[b + 1][0].start
  }

  /** The cell of a time is the value of the interval that covers it.  In a gap it is n/a, except in a gap
      between two blocks the latter of which is at least as full: there the value before the gap is repeated.
      Records behind an empty block are not shown. */
  ghost predicate Shows(render: Render, blocks: seq<seq<Header>>, t: int, text: string) {
    var seen := Seen(blocks);
    && (forall r | r in Flatten(seen) && Covers(r, t) :: text == render(r))
    && (forall b | 0 <= b < |seen| && HiddenGap(seen, b, t) :: text == render(seen[b][|seen[b]| - 1]))
    && (!(exists r :: r in Flatten(seen) && Covers(r, t)) && !(exists b :: 0 <= b < |seen| && HiddenGap(seen, b, t))
        ==> text == NOT_AVAILABLE)
  }

  /** Only the record under the cursor can cover the time of the row. */
  lemma CoveredIsCurrent(render: Render, c: Column, t: int, r: Header)
    requires InStep(render, c, t) && r in Records(c.blocks) && Covers(r, t)
    ensures Todo(c) != [] && r == Todo(c)[0]
  {
    DoneTodo(c);
    var n, all := |Done(c)|, Records(c.blocks);
    assert forall i | 0 <= i < n :: all[i] == Done(c)[i] && Done(c)[i].end < t;
    var i :| 0 <= i < |all| && all[i] == r;
    assert n <= i && all[n] == Todo(c)[0];
  }

  lemma InDone(c: Column, b: nat, k: nat)
    requires OnRecord(c) && b < |Seen(c.blocks)| && k < |c.blocks[b]|
    ensures !c.good || b < c.block || (b == c.block && k < c.first) ==> c.blocks[b][k] in Done(c)
    ensures c.good && (c.block < b || (b == c.block && c.first <= k)) ==> c.blocks[b][k] in Todo(c)
  {
    var seen := Seen(c.blocks);
    assert seen[b] == c.blocks[b];
    if !c.good {
      FlattenAt(seen, b, k);
    } else if b < c.block {
      assert c.blocks[..c.block][b] == c.blocks[b];
      FlattenAt(c.blocks[..c.block], b, k);
    } else if b > c.block {
      assert seen[c.block + 1..][b - c.block - 1] == seen[b];
      FlattenAt(seen[c.block + 1..], b - c.block - 1, k);
    }
  }

  lemma TodoEndsLate(render: Render, c: Column, t: int, r: Header)
    requires InStep(render, c, t) && r in Todo(c)
    ensures t <= r.end
  {
    DoneTodo(c);
    var i :| 0 <= i < |Todo(c)| && Todo(c)[i] == r;
    var n, all := |Done(c)|, Records(c.blocks);
    assert all[n + i] == r && all[n] == Todo(c)[0];
  }

  /** The record before a hidden gap is done ... */
  lemma BeforeGapIsDone(render: Render, c: Column, b: nat, t: int)
    requires InStep(render, c, t) && HiddenGap(Seen(c.blocks), b, t)
    ensures !c.good || b < c.block
  {
    var k := |c.blocks[b]| - 1;
    InDone(c, b, k);
    if c.blocks[b][k] in Todo(c) { TodoEndsLate(render, c, t, c.blocks[b][k]); }
  }

  /** ... and the record after it is not. */
  lemma AfterGapIsTodo(render: Render, c: Column, b: nat, t: int)
    requires InStep(render, c, t) && HiddenGap(Seen(c.blocks), b, t)
    ensures c.good && (c.block < b + 1 || (c.block == b + 1 && c.first == 0)) && c.blocks[b + 1][0] in Todo(c)
  {
    InDone(c, b + 1, 0);
    FlattenAt(Seen(c.blocks), b + 1, 0);
    assert c.blocks[b + 1][0] !in Done(c);
  }

  /** In a hidden gap the cursor stands on the first record of the fuller block. */
  lemma HiddenGapIsHere(render: Render, c: Column, b: nat, t: int)
    requires InStep(render, c, t) && HiddenGap(Seen(c.blocks), b, t)
    ensures c.good && c.block == b + 1 && AtFullerBlock(c) && Todo(c) != []
  {
    BeforeGapIsDone(render, c, b, t);
    AfterGapIsTodo(render, c, b, t);
    BehindGap(c, b, t);
  }

  lemma BehindGap(c: Column, b: nat, t: int)
    requires HiddenGap(Seen(c.blocks), b, t) && c.good && c.block == b + 1 && c.first == 0
    ensures AtFullerBlock(c)
  {
  }

  lemma FullerBlockDone(c: Column)
    requires OnRecord(c) && AtFullerBlock(c) && Todo(c) != []
    ensures c.block < |Seen(c.blocks)| && c.blocks[c.block - 1] != [] && Done(c) != []
    ensures Todo(c)[0] == c.blocks[c.block][0] &&
            Done(c)[|Done(c)| - 1] == c.blocks[c.block - 1][|c.blocks[c.block - 1]| - 1]
  {
    var b := c.block - 1;
    assert Seen(c.blocks)[b] != [];
    assert c.blocks[..b + 1] == c.blocks[..b] + [c.blocks[b]];
    FlattenAppend(c.blocks[..b], c.blocks[b]);
  }

  /** A cursor in step shows the right cell. */
  lemma InStepShows(render: Render, c: Column, t: int)
    requires InStep(render, c, t)
    ensures Shows(render, c.blocks, t, c.text)
  {
    var seen := Seen(c.blocks);
    forall r | r in Flatten(seen) && Covers(r, t) ensures c.text == render(r) { CoveredIsCurrent(render, c, t, r); }
    forall b | 0 <= b < |seen| && HiddenGap(seen, b, t) ensures c.text == render(seen[b][|seen[b]| - 1]) {
      HiddenGapIsHere(render, c, b, t);
      FullerBlockDone(c);
    }
    if c.text != NOT_AVAILABLE { TextIsJustified(render, c, t); }
  }

  lemma TextIsJustified(render: Render, c: Column, t: int)
    requires InStep(render, c, t) && c.text != NOT_AVAILABLE
    ensures (exists r :: r in Records(c.blocks) && Covers(r, t)) ||
            exists b :: 0 <= b < |Seen(c.blocks)| && HiddenGap(Seen(c.blocks), b, t)
  {
    TodoMembers(c);
    if Todo(c)[0].start <= t {
      assert Covers(Todo(c)[0], t);
    } else {
      FullerBlockDone(c);
      assert Done(c)[|Done(c)| - 1] in Done(c);
      assert HiddenGap(Seen(c.blocks), c.block - 1, t);
    }
  }

  /** What a cell ought to be: the value of the interval that covers the time. */
  function CellOf(render: Render, records: seq<Header>, t: int): string {
    if records == [] then NOT_AVAILABLE
    else
      var r := records[|records| - 1];
      if r.start <= t <= r.end then render(r) else CellOf(render, records[..|records| - 1], t)
  }

  lemma {:induction false} CellOfCovered(render: Render, records: seq<Header>, t: int, r: Header)
    requires Apart(records) && r in records && Covers(r, t)
    ensures CellOf(render, records, t) == render(r)
  {
    var n := |records| - 1;
    if !Covers(records[n], t) {
      CellOfCovered(render, records[..n], t, r);
    }
  }

  lemma {:induction false} CellOfNone(render: Render, records: seq<Header>, t: int)
    requires forall r | r in records :: !Covers(r, t)
    ensures CellOf(render, records, t) == NOT_AVAILABLE
  {
    if records != [] {
      assert !Covers(records[|records| - 1], t);
      CellOfNone(render, records[..|records| - 1], t);
    }
  }

  /** A file goes wrong at time `t`: an interval behind an empty block covers it, or the value before a hidden gap
      is repeated in it. */
  ghost predicate GoesWrong(render: Render, blocks: seq<seq<Header>>, t: int) {
    var seen := Seen(blocks);
    || (exists r :: r in Flatten(blocks[|seen|..]) && Covers(r, t) && render(r) != NOT_AVAILABLE)
    || exists b :: 0 <= b < |seen| && HiddenGap(seen, b, t) && render(seen[b][|seen[b]| - 1]) != NOT_AVAILABLE
  }

  /** The cells are what they ought to be exactly where the file does not go wrong. */
  lemma RightCellIff(render: Render, blocks: seq<seq<Header>>, t: int, text: string)
    requires Apart(Flatten(blocks)) && Shows(render, blocks, t, text)
    ensures text == CellOf(render, Flatten(blocks), t) <==> !GoesWrong(render, blocks, t)
  {
    var seen := Seen(blocks);
    var rest := Flatten(blocks[|seen|..]);
    assert seen + blocks[|seen|..] == blocks;
    FlattenConcat(seen, blocks[|seen|..]);
    if r :| r in Flatten(seen) && Covers(r, t) {
      CoveredCell(render, blocks, t, r);
    } else if b :| 0 <= b < |seen| && HiddenGap(seen, b, t) {
      GapIsEmpty(blocks, b, t);
      CellOfNone(render, Flatten(blocks), t);
    } else if r :| r in rest && Covers(r, t) {
      CellOfCovered(render, Flatten(blocks), t, r);
      assert forall q | q in rest && Covers(q, t) :: render(q) == render(r) by {
        forall q | q in rest && Covers(q, t) ensures render(q) == render(r) {
          CellOfCovered(render, Flatten(blocks), t, q);
        }
      }
    } else {
      CellOfNone(render, Flatten(blocks), t);
    }
  }

  /** A time that a record in sight covers. */
  lemma CoveredCell(render: Render, blocks: seq<seq<Header>>, t: int, r: Header)
    requires Apart(Flatten(blocks)) && r in Records(blocks) && Covers(r, t)
    ensures CellOf(render, Flatten(blocks), t) == render(r) && !GoesWrong(render, blocks, t)
  {
    var seen := Seen(blocks);
    var rest := Flatten(blocks[|seen|..]);
    assert seen + blocks[|seen|..] == blocks;
    FlattenConcat(seen, blocks[|seen|..]);
    CellOfCovered(render, Flatten(blocks), t, r);
    forall q | q in rest ensures !Covers(q, t) { OnlyOneCovers(Records(blocks), rest, r, q, t); }
    forall b | 0 <= b < |seen| ensures !HiddenGap(seen, b, t) {
      if HiddenGap(seen, b, t) { GapIsEmpty(blocks, b, t); }
    }
  }

  lemma OnlyOneCovers(front: seq<Header>, back: seq<Header>, r: Header, q: Header, t: int)
    requires Apart(front + back) && r in front && q in back && Covers(r, t)
    ensures !Covers(q, t)
  {
    var i :| 0 <= i < |front| && front[i] == r;
    var j :| 0 <= j < |back| && back[j] == q;
    assert (front + back)[i] == r && (front + back)[|front| + j] == q;
  }

  lemma GapIsEmpty(blocks: seq<seq<Header>>, b: nat, t: int)
    requires Apart(Flatten(blocks)) && HiddenGap(Seen(blocks), b, t)
    ensures forall r | r in Flatten(blocks) :: !Covers(r, t)
  {
    var all, k := Flatten(blocks), |blocks[b]| - 1;
    FlattenAt(blocks, b, k);
    FlattenAt(blocks, b + 1, 0);
    var n := |Flatten(blocks[..b])| + k;
    assert |Flatten(blocks[..b + 1])| == n + 1 by {
      assert blocks[..b + 1] == blocks[..b] + [blocks[b]];
      FlattenAppend(blocks[..b], blocks[b]);
    }
    assert all[n].end < t < all[n + 1].start;
    forall r | r in all ensures !Covers(r, t) { OutsideGap(all, n, t, r); }
  }

  lemma OutsideGap(all: seq<Header>, n: nat, t: int, r: Header)
    requires Apart(all) && n + 1 < |all| && all[n].end < t < all[n + 1].start && r in all
    ensures !Covers(r, t)
  {
    var i :| 0 <= i < |all| && all[i] == r;
    assert i < n ==> r.end < all[n].start;
    assert n + 1 < i ==> all[n + 1].end < r.start;
  }

  function At(start: int, end: int, value: byte): Header { Header(start, end, true, [value]) }

  /** Two blocks of one record each can be read and have their intervals in order, and in the gap between them the
      value before the gap is printed. */
  lemma HiddenGapPrints(render: Render, text: string)
    requires Shows(render, [[At(0, 1, 7)], [At(5, 6, 8)]], 3, text)
    ensures WellFormed([[At(0, 1, 7)], [At(5, 6, 8)]])
    ensures text == render(At(0, 1, 7))
    ensures CellOf(render, Flatten([[At(0, 1, 7)], [At(5, 6, 8)]]), 3) == NOT_AVAILABLE
  {
    var blocks := [[At(0, 1, 7)], [At(5, 6, 8)]];
    TwoBlocks(At(0, 1, 7), At(5, 6, 8));
    assert HiddenGap(Seen(blocks), 0, 3);
    CellOfNone(render, Flatten(blocks), 3);
  }

  lemma TwoBlocks(a: Header, b: Header)
    ensures Seen([[a], [b]]) == [[a], [b]] && Flatten([[a], [b]]) == [a, b] && Readable([[a], [b]], 0)
  {
    var blocks := [[a], [b]];
    assert blocks[1..] == [[b]] && Seen([[b]]) == [[b]] && Flatten([[b]]) == [b];
    ReadableIff(blocks, 0);
  }

  /** A record behind an empty block is never printed. */
  lemma EmptyBlockHides(render: Render, text: string)
    requires Shows(render, [[At(0, 1, 7)], [], [At(5, 6, 8)]], 5, text)
    ensures WellFormed([[At(0, 1, 7)], [], [At(5, 6, 8)]]) && text == NOT_AVAILABLE
    ensures CellOf(render, Flatten([[At(0, 1, 7)], [], [At(5, 6, 8)]]), 5) == render(At(5, 6, 8))
  {
    var blocks := [[At(0, 1, 7)], [], [At(5, 6, 8)]];
    EmptyBetween(At(0, 1, 7), At(5, 6, 8));
    CellOfCovered(render, Flatten(blocks), 5, At(5, 6, 8));
  }

  lemma EmptyBetween(a: Header, b: Header)
    ensures Seen([[a], [], [b]]) == [[a]] && Flatten([[a]]) == [a] && Flatten([[a], [], [b]]) == [a, b]
    ensures Readable([[a], [], [b]], 0)
  {
    var blocks := [[a], [], [b]];
    assert blocks[1..] == [[], [b]] && Seen([[], [b]]) == [];
    assert Flatten([[b]]) == [b] && [[], [b]][1..] == [[b]] && Flatten([[], [b]]) == [b];
    ReadableIff(blocks, 0);
  }

  // ----- Where a row lacks a cell -----

  /** The cursor moves at most once for each row: when the next interval has ended too, nothing is printed, and the
      row has one cell less.  This takes intervals that are not apart: 0 to 10, 2 to 3 and 11 to 12 at time 11. */
  lemma NestedIsOmitted(render: Render)
    ensures var blocks := [[At(0, 10, 7), At(2, 3, 8), At(11, 12, 9)]];
      StepColumn(render, NewColumn(blocks), 11) == (NewColumn(blocks).(first := 1), Omitted) && !Apart(blocks[0])
  {
    var s := [At(0, 10, 7), At(2, 3, 8), At(11, 12, 9)];
    assert s[0].end >= s[1].start;
  }

  // ----- Where a column ends -----

  /** The column after its cells for some times. */
  function Stepped(render: Render, c: Column, times: seq<int>): (d: Column)
    requires Valid(c)
    ensures Valid(d)
  {
    if times == [] then c
    else StepColumn(render, Stepped(render, c, times[..|times| - 1]), times[|times| - 1]).0
  }

  /** Whenever a step leaves the cursor on nothing or on a record that is not valid, the cell is n/a. */
  lemma InvalidIsNotShown(render: Render, c: Column, t: int)
    requires Valid(c)
    ensures var (d, cell) := StepColumn(render, c, t);
      Current(d) == Nothing || (Current(d).Record? && !Current(d).header.valid) ==>
        cell == Printed(NOT_AVAILABLE) && d.text == NOT_AVAILABLE
  {
  }

  /** Nothing is under the cursor, or a record that is not valid: the cell is n/a at every later time, and the cursor
      stays where it is. */
  lemma {:induction false} StaysForGood(render: Render, c: Column, times: seq<int>, t: int)
    requires Valid(c) && (Current(c) == Nothing || (Current(c).Record? && !Current(c).header.valid))
    ensures var d := Stepped(render, c, times);
      && (d.blocks, d.block, d.first, d.good, d.index) == (c.blocks, c.block, c.first, c.good, c.index)
      && StepColumn(render, d, t) == (d.(text := NOT_AVAILABLE), Printed(NOT_AVAILABLE))
  {
    if times != [] { StaysForGood(render, c, times[..|times| - 1], times[|times| - 1]); }
  }

  // ----- The time line -----

  /** A row: the cells that were printed, and the time. */
  datatype Row = Row(cells: seq<string>, time: int)

  function TimesOf(records: seq<Header>): set<int> {
    if records == [] then {}
    else TimesOf(records[..|records| - 1]) + {records[|records| - 1].start, records[|records| - 1].end}
  }

  /** All starts and ends: the set that `init` fills in a first pass over every file. */
  function Times(files: seq<seq<seq<Header>>>): set<int> {
    if files == [] then {} else Times(files[..|files| - 1]) + TimesOf(Flatten(files[|files| - 1]))
  }

  lemma {:induction false} TimesOfMember(records: seq<Header>, r: Header)
    requires r in records
    ensures r.start in TimesOf(records) && r.end in TimesOf(records)
  {
    if r != records[|records| - 1] { TimesOfMember(records[..|records| - 1], r); }
  }

  lemma {:induction false} TimesMember(files: seq<seq<seq<Header>>>, f: nat, r: Header)
    requires f < |files| && r in Records(files[f])
    ensures r.start in Times(files) && r.end in Times(files)
  {
    var n := |files| - 1;
    if f < n {
      TimesMember(files[..n], f, r);
    } else {
      SeenIsFront(files[f]);
      TimesOfMember(Flatten(files[f]), r);
    }
  }

  lemma SeenIsFront(blocks: seq<seq<Header>>)
    ensures Records(blocks) <= Flatten(blocks)
  {
    var n := |Seen(blocks)|;
    assert blocks == blocks[..n] + blocks[n..];
    FlattenConcat(blocks[..n], blocks[n..]);
  }

  lemma {:induction false} TimesConcat(a: seq<Header>, b: seq<Header>)
    ensures TimesOf(a + b) == TimesOf(a) + TimesOf(b)
  {
    if b == [] {
      assert a + b == a;
    } else {
      var n := |b| - 1;
      TimesConcat(a, b[..n]);
      assert (a + b)[..|a + b| - 1] == a + b[..n];
    }
  }

  /** One block of the first pass: a record beyond the index is an access out of bounds. */
  method CollectBlock(block: seq<Header>, index: nat, before: set<int>) returns (times: set<int>, ok: bool)
    ensures ok <==> |block| <= index
    ensures ok ==> times == before + TimesOf(block)
  {
    times := before;
    for i := 0 to |block|
      invariant i <= index && times == before + TimesOf(block[..i])
    {
      if index <= i { return times, false; }
      assert block[..i + 1][..i] == block[..i];
      times := times + {block[i].start, block[i].end};
    }
    assert block[..|block|] == block;
    ok := true;
  }

  /** One file of the first pass. */
  method CollectFile(blocks: seq<seq<Header>>, before: set<int>) returns (times: set<int>, ok: bool)
    ensures ok <==> Readable(blocks, 0)
    ensures ok ==> times == before + TimesOf(Flatten(blocks))
  {
    times, ok := before, true;
    var index: nat := 0;
    assert blocks[0..] == blocks;
    for b := 0 to |blocks|
      invariant Readable(blocks, 0) <==> Readable(blocks[b..], index)
      invariant times == before + TimesOf(Flatten(blocks[..b]))
    {
      assert blocks[b..][0] == blocks[b] && blocks[b..][1..] == blocks[b + 1..];
      if index == 0 { index := |blocks[b]|; }
      times, ok := CollectBlock(blocks[b], index, times);
      if !ok { return; }
      assert blocks[..b + 1] == blocks[..b] + [blocks[b]];
      FlattenAppend(blocks[..b], blocks[b]);
      TimesConcat(Flatten(blocks[..b]), blocks[b]);
    }
    assert blocks[..|blocks|] == blocks;
    ok := true;
  }

  method CollectTimes(files: seq<seq<seq<Header>>>) returns (times: set<int>, ok: bool)
    ensures ok <==> forall f | 0 <= f < |files| :: Readable(files[f], 0)
    ensures ok ==> times == Times(files)
  {
    times, ok := {}, true;
    for f := 0 to |files|
      invariant forall g | 0 <= g < f :: Readable(files[g], 0)
      invariant times == Times(files[..f])
    {
      assert files[..f + 1][..f] == files[..f];
      times, ok := CollectFile(files[f], times);
      if !ok { return; }
    }
    assert files[..|files|] == files;
    ok := true;
  }

  lemma SomeMember(s: set<int>)
    requires s != {}
    ensures exists x :: x in s
  {
    assert !(exists x :: x in s) ==> s == {};
  }

  /** The first element of a `std::set`. */
  method Least(s: set<int>) returns (m: int)
    requires s != {}
    ensures m in s && (forall x | x in s :: m <= x) && forall x | x in s - {m} :: m < x
  {
    SomeMember(s);
    m :| m in s;
    var rest := s - {m};
    while rest != {}
      invariant m in s && forall x | x in s && x !in rest :: m <= x
      invariant rest <= s
      decreases |rest|
    {
      SomeMember(rest);
      var x :| x in rest;
      if x < m { m := x; }
      rest := rest - {x};
    }
  }

  ghost predicate ColumnsInStep(render: Render, files: seq<seq<seq<Header>>>, columns: seq<Column>, t: int) {
    |columns| == |files| && forall i | 0 <= i < |files| ::
      columns[i].blocks == files[i] && InStep(render, columns[i], t)
  }

  /** One cell of a row. */
  lemma CellIsRight(render: Render, files: seq<seq<seq<Header>>>, columns: seq<Column>, t: int, u: int, i: nat)
    requires ColumnsInStep(render, files, columns, t) && i < |files| && Adjacent(files[i], t, u)
    ensures Valid(columns[i])
    ensures var (d, cell) := StepColumn(render, columns[i], u);
      d.blocks == files[i] && InStep(render, d, u) && cell == Printed(d.text) && Shows(render, files[i], u, d.text)
  {
    StepKeepsInStep(render, columns[i], t, u);
    InStepShows(render, StepColumn(render, columns[i], u).0, u);
  }

  lemma RowGrows(
      render: Render, files: seq<seq<seq<Header>>>, after: seq<Column>, u: int, cells: seq<string>, d: Column)
    requires |after| < |files| && ColumnsInStep(render, files[..|after|], after, u)
    requires RightCells(render, files[..|after|], u, cells)
    requires d.blocks == files[|after|] && InStep(render, d, u) && Shows(render, d.blocks, u, d.text)
    ensures ColumnsInStep(render, files[..|after| + 1], after + [d], u)
    ensures RightCells(render, files[..|after| + 1], u, cells + [d.text])
  {
    var i := |after|;
    assert forall k | 0 <= k < i :: files[..i + 1][k] == files[..i][k];
  }

  /** The loop over the columns. */
  method WriteRow(render: Render, columns: seq<Column>, ghost files: seq<seq<seq<Header>>>, ghost t: int, u: int)
    returns (after: seq<Column>, row: Row)
    requires ColumnsInStep(render, files, columns, t) && forall i | 0 <= i < |files| :: Adjacent(files[i], t, u)
    ensures ColumnsInStep(render, files, after, u)
    ensures row.time == u && RightRow(render, files, row)
  {
    after := [];
    var cells := [];
    for i := 0 to |columns|
      invariant ColumnsInStep(render, files[..i], after, u) && RightCells(render, files[..i], u, cells)
    {
      CellIsRight(render, files, columns, t, u, i);
      var (d, cell) := StepColumn(render, columns[i], u);
      RowGrows(render, files, after, u, cells, d);
      match cell {
        case Printed(text) => cells := cells + [text];
        case Omitted =>
        case Fault => assert false;
      }
      after := after + [d];
    }
    assert files[..|files|] == files;
    row := Row(cells, u);
  }

  function RowTimes(rows: seq<Row>): set<int> {
    if rows == [] then {} else RowTimes(rows[..|rows| - 1]) + {rows[|rows| - 1].time}
  }

  ghost predicate RightCells(render: Render, files: seq<seq<seq<Header>>>, t: int, cells: seq<string>) {
    |cells| == |files| && forall f | 0 <= f < |files| :: Shows(render, files[f], t, cells[f])
  }

  ghost predicate RightRow(render: Render, files: seq<seq<seq<Header>>>, row: Row) {
    RightCells(render, files, row.time, row.cells)
  }

  /** The rows are right, and they come in order. */
  ghost predicate RightRows(render: Render, files: seq<seq<seq<Header>>>, rows: seq<Row>) {
    && (forall i, j | 0 <= i < j < |rows| :: rows[i].time < rows[j].time)
    && forall i | 0 <= i < |rows| :: RightRow(render, files, rows[i])
  }

  /** `multibinary_to_csv_serializer`, for any number of columns with intervals in order.  It stays within the
      record index exactly when no block of a file has more records than the first one with any; then there is
      one row for every time at which some interval starts or ends, with exactly one cell per column, and the
      right one. */
  method MultibinaryToCsv(render: Render, files: seq<seq<seq<Header>>>) returns (rows: seq<Row>, ok: bool)
    requires forall i | 0 <= i < |files| :: Apart(Records(files[i]))
    ensures ok <==> forall i | 0 <= i < |files| :: Readable(files[i], 0)
    ensures ok ==> RightRows(render, files, rows) && RowTimes(rows) == Times(files)
  {
    var left;
    left, ok := CollectTimes(files);
    var columns := seq(|files|, i requires 0 <= i < |files| => NewColumn(files[i]));
    rows := [];
    if !ok || left == {} { return; }
    var first := Least(left);
    ghost var now := first - 1;
    StartInStep(render, files, columns, now);
    while left != {}
      invariant OnLine(files, left, rows, now) && RightRows(render, files, rows)
      invariant ColumnsInStep(render, files, columns, now)
      decreases |left|
    {
      var t := Least(left);
      TimesAdjacent(files, left, rows, now, t);
      var row;
      columns, row := WriteRow(render, columns, files, now, t);
      LineStep(render, files, left, rows, now, row);
      rows, left, now := rows + [row], left - {t}, t;
    }
  }

  /** Every time is either that of a row or left, and what is left is later than `now`. */
  ghost predicate OnLine(files: seq<seq<seq<Header>>>, left: set<int>, rows: seq<Row>, now: int) {
    && left + RowTimes(rows) == Times(files)
    && (forall x | x in left :: now < x)
    && forall i | 0 <= i < |rows| :: rows[i].time <= now
  }

  lemma LineStep(render: Render, files: seq<seq<seq<Header>>>, left: set<int>, rows: seq<Row>, now: int, row: Row)
    requires OnLine(files, left, rows, now) && RightRows(render, files, rows) && RightRow(render, files, row)
    requires row.time in left && forall x | x in left - {row.time} :: row.time < x
    ensures OnLine(files, left - {row.time}, rows + [row], row.time) && RightRows(render, files, rows + [row])
  {
    assert (rows + [row])[..|rows|] == rows;
  }

  lemma StartInStep(render: Render, files: seq<seq<seq<Header>>>, columns: seq<Column>, now: int)
    requires forall i | 0 <= i < |files| :: WellFormed(files[i])
    requires |columns| == |files| && forall i | 0 <= i < |files| :: columns[i] == NewColumn(files[i])
    requires forall x | x in Times(files) :: now < x
    ensures ColumnsInStep(render, files, columns, now)
  {
    forall i | 0 <= i < |files| ensures InStep(render, columns[i], now) {
      forall r | r in Records(files[i]) ensures now < r.start { TimesMember(files, i, r); }
      NewInStep(render, files[i], now);
    }
  }

  lemma NewIsOnRecord(blocks: seq<seq<Header>>)
    ensures OnRecord(NewColumn(blocks)) && Done(NewColumn(blocks)) == []
  {
    if blocks != [] { assert blocks[..0] == [] && blocks[0][..0] == []; }
  }

  lemma NewInStep(render: Render, blocks: seq<seq<Header>>, now: int)
    requires WellFormed(blocks) && forall r | r in Records(blocks) :: now < r.start
    ensures InStep(render, NewColumn(blocks), now)
  {
    NewIsOnRecord(blocks);
    NewShowsNothing(render, blocks, now);
  }

  lemma NewShowsNothing(render: Render, blocks: seq<seq<Header>>, now: int)
    requires WellFormed(blocks) && forall r | r in Records(blocks) :: now < r.start
    requires OnRecord(NewColumn(blocks))
    ensures var c := NewColumn(blocks);
      (Todo(c) != [] ==> now <= Todo(c)[0].end) && TextAt(render, c, now) == NOT_AVAILABLE
  {
    var c := NewColumn(blocks);
    if Todo(c) != [] { TodoMembers(c); }
  }

  lemma {:induction false} RowTimesUpTo(rows: seq<Row>, now: int)
    requires forall i | 0 <= i < |rows| :: rows[i].time <= now
    ensures forall x | x in RowTimes(rows) :: x <= now
  {
    if rows != [] { RowTimesUpTo(rows[..|rows| - 1], now); }
  }

  lemma TimesAdjacent(files: seq<seq<seq<Header>>>, left: set<int>, rows: seq<Row>, now: int, t: int)
    requires OnLine(files, left, rows, now) && t in left && forall x | x in left :: t <= x
    ensures forall i | 0 <= i < |files| :: Adjacent(files[i], now, t)
  {
    RowTimesUpTo(rows, now);
    forall i, r | 0 <= i < |files| && r in Records(files[i]) ensures !(now < r.start < t) && !(now < r.end < t) {
      TimesMember(files, i, r);
    }
  }
}
