/** The lock-free triple buffer of test_triple_buffer.cpp: one writer, one reader, and an atomic
    {idx, has_update} word.  The local index is assigned one step after the exchange, so there are
    states in which `front` or `back` names a slot that its thread no longer owns. */
module TripleBuffer {
  import opened Options

  /** A slot is raw until it has been written completely; it is raw again while it is rewritten. */
  datatype Slot<T> = Raw | Whole(value: T)

  datatype WriterPC<T> =
    | WriterIdle
    | Writing                 // inside object(ptr)
    | Written(value: T)       // about to exchange
    | Published(prev: int)    // about to assign back_idx_

  datatype ReaderPC =
    | ReaderIdle
    | Loaded(updated: bool)   // about to exchange, or to return
    | Taken(prev: int)        // about to assign front_idx_

  /** `log` is the history of published values and `held` the number of the publication that the reader
      took last (0 when it took none): publication n is log[n - 1]. */
  datatype State<T> = State(
    slots: seq<Slot<T>>,
    front: int,
    back: int,
    spare: int,
    hasUpdate: bool,
    writer: WriterPC<T>,
    reader: ReaderPC,
    log: seq<T>,
    held: nat)

  /** The reader loads with relaxed order.  A stale load returns an earlier value of the word, but none
      before the reader's own last exchange: that one, and the initial one, have has_update == false. */
  datatype Action<T> =
    | BeginWrite
    | FinishWrite(value: T)
    | Publish
    | AssignBack
    | Load(stale: bool)
    | Take
    | AssignFront
    | ReturnOld

  predicate Enabled<T>(s: State<T>, a: Action<T>) {
    match a
    case BeginWrite => s.writer.WriterIdle? && 0 <= s.back < |s.slots|
    case FinishWrite(_) => s.writer.Writing? && 0 <= s.back < |s.slots|
    case Publish => s.writer.Written?
    case AssignBack => s.writer.Published?
    case Load(_) => s.reader.ReaderIdle?
    case Take => s.reader == Loaded(true)
    case AssignFront => s.reader.Taken?
    case ReturnOld => s.reader == Loaded(false)
  }

  function Apply<T>(s: State<T>, a: Action<T>): State<T>
    requires Enabled(s, a)
  {
    match a
    case BeginWrite => s.(slots := s.slots[s.back := Raw], writer := Writing)
    case FinishWrite(value) => s.(slots := s.slots[s.back := Whole(value)], writer := Written(value))
    case Publish =>
      s.(spare := s.back, hasUpdate := true, writer := Published(s.spare), log := s.log + [s.writer.value])
    case AssignBack => s.(back := s.writer.prev, writer := WriterIdle)
    case Load(stale) => s.(reader := Loaded(s.hasUpdate && !stale))
    case Take => s.(spare := s.front, hasUpdate := false, reader := Taken(s.spare), held := |s.log|)
    case AssignFront => s.(front := s.reader.prev, reader := ReaderIdle)
    case ReturnOld => s.(reader := ReaderIdle)
  }

  ghost predicate Init<T>(s: State<T>) {
    s.slots == [Raw, Raw, Raw] && s.front == 0 && s.spare == 1 && s.back == 2 && !s.hasUpdate &&
    s.writer.WriterIdle? && s.reader.ReaderIdle? && s.log == [] && s.held == 0
  }

  function ReaderSlot<T>(s: State<T>): int {
    if s.reader.Taken? then s.reader.prev else s.front
  }

  function WriterSlot<T>(s: State<T>): int {
    if s.writer.Published? then s.writer.prev else s.back
  }

  ghost predicate Inv<T>(s: State<T>) {
    && |s.slots| == 3
    && {ReaderSlot(s), s.spare, WriterSlot(s)} == {0, 1, 2}
    && s.held <= |s.log|
    && (s.hasUpdate <==> s.held < |s.log|)
    && (s.reader == Loaded(true) ==> s.hasUpdate)
    && (s.writer.Writing? ==> s.slots[s.back] == Raw)
    && (s.writer.Written? ==> s.slots[s.back] == Whole(s.writer.value))
    && (s.hasUpdate ==> s.slots[s.spare] == Whole(s.log[|s.log| - 1]))
    && (s.held > 0 ==> s.slots[ReaderSlot(s)] == Whole(s.log[s.held - 1]))
  }

  lemma ThreeSlots(a: int, b: int, c: int)
    requires {a, b, c} == {0, 1, 2}
    ensures a != b && b != c && a != c && 0 <= a < 3 && 0 <= b < 3 && 0 <= c < 3
  {
    assert a in {0, 1, 2} && b in {0, 1, 2} && c in {0, 1, 2};
    assert 0 in {a, b, c} && 1 in {a, b, c} && 2 in {a, b, c};
  }

  lemma StepKeepsInv<T>(s: State<T>, a: Action<T>)
    requires Inv(s) && Enabled(s, a)
    ensures Inv(Apply(s, a))
  {
    ThreeSlots(ReaderSlot(s), s.spare, WriterSlot(s));
    assert {ReaderSlot(s), s.spare, WriterSlot(s)} == {ReaderSlot(s), WriterSlot(s), s.spare} ==
           {s.spare, ReaderSlot(s), WriterSlot(s)};
  }

  ghost predicate StepAt<T>(states: seq<State<T>>, actions: seq<Action<T>>, i: nat)
    requires |states| == |actions| + 1 && i < |actions|
  {
    Enabled(states[i], actions[i]) && states[i + 1] == Apply(states[i], actions[i])
  }

  /** Any interleaving of the writer's and the reader's steps. */
  ghost predicate IsRun<T>(states: seq<State<T>>, actions: seq<Action<T>>) {
    |states| == |actions| + 1 && Init(states[0]) &&
    forall i {:trigger StepAt(states, actions, i)} :: 0 <= i < |actions| ==> StepAt(states, actions, i)
  }

  lemma {:induction false} RunKeepsInv<T>(states: seq<State<T>>, actions: seq<Action<T>>, i: nat)
    requires IsRun(states, actions) && i <= |actions|
    ensures Inv(states[i])
  {
    if i > 0 {
      RunKeepsInv(states, actions, i - 1);
      assert StepAt(states, actions, i - 1);
      StepKeepsInv(states[i - 1], actions[i - 1]);
    }
  }

  // ----- What the two threads did -----

  /** The value that the writer finished last, from its calls alone. */
  function LastWritten<T>(actions: seq<Action<T>>): Option<T> {
    if actions == [] then None
    else
      match actions[|actions| - 1]
      case FinishWrite(value) => Some(value)
      case _ => LastWritten(actions[..|actions| - 1])
  }

  /** The values that were published, in order: each time, the one that was finished last. */
  function Publications<T>(actions: seq<Action<T>>): seq<T> {
    if actions == [] then []
    else
      var n := |actions| - 1;
      var front := actions[..n];
      Publications(front) +
      if actions[n].Publish? && LastWritten(front).Some? then [LastWritten(front).value] else []
  }

  /** How many publications there were when the reader last exchanged. */
  function PublishedAtTake<T>(actions: seq<Action<T>>): nat {
    if actions == [] then 0
    else
      var n := |actions| - 1;
      if actions[n].Take? then |Publications(actions[..n])| else PublishedAtTake(actions[..n])
  }

  /** In every run the log is what the writer was given, and the number of the publication that the reader holds is
      that of its last exchange. */
  lemma {:induction false} LogIsPublications<T>(states: seq<State<T>>, actions: seq<Action<T>>, i: nat)
    requires IsRun(states, actions) && i <= |actions|
    ensures states[i].log == Publications(actions[..i]) && states[i].held == PublishedAtTake(actions[..i])
    ensures states[i].writer.Written? ==> LastWritten(actions[..i]) == Some(states[i].writer.value)
  {
    if i > 0 {
      LogIsPublications(states, actions, i - 1);
      assert StepAt(states, actions, i - 1);
      assert actions[..i][..i - 1] == actions[..i - 1];
    }
  }

  // ----- Safety -----

  /** At every step, between an exchange and the index assignment too, the slot that the reader owns,
      the spare one and the slot that the writer owns are the three slots. */
  lemma SlotsArePermuted<T>(states: seq<State<T>>, actions: seq<Action<T>>, i: nat)
    requires IsRun(states, actions) && i <= |actions|
    ensures {ReaderSlot(states[i]), states[i].spare, WriterSlot(states[i])} == {0, 1, 2}
  {
    RunKeepsInv(states, actions, i);
  }

  /** The writer writes only its own slot, which is raw meanwhile; it never touches the one that the reader owns or
      the spare one, and not the one that `front_idx_` names unless the reader is about to assign it.  What the
      reader took is completely written, and is the publication with the number that it holds. */
  lemma NoTornRead<T>(states: seq<State<T>>, actions: seq<Action<T>>, i: nat)
    requires IsRun(states, actions) && i < |actions|
    ensures var s, n, published := states[i], PublishedAtTake(actions[..i]), Publications(actions[..i]);
            n <= |published| &&
            (n > 0 ==> 0 <= ReaderSlot(s) < |s.slots| && s.slots[ReaderSlot(s)] == Whole(published[n - 1]))
    ensures var s := states[i];
            s.held <= |s.log| &&
            (s.held > 0 ==> 0 <= ReaderSlot(s) < |s.slots| && s.slots[ReaderSlot(s)] == Whole(s.log[s.held - 1]))
    ensures var s := states[i]; s.writer.Writing? ==> 0 <= s.back < |s.slots| && s.slots[s.back] == Raw
    ensures var s, after := states[i], states[i + 1];
            s.slots != after.slots ==>
              (forall k | 0 <= k < 3 && k != s.back ::
                 |s.slots| == |after.slots| == 3 && after.slots[k] == s.slots[k]) &&
              s.back != ReaderSlot(s) && s.back != s.spare && (s.back == s.front ==> s.reader.Taken?)
  {
    RunKeepsInv(states, actions, i);
    LogIsPublications(states, actions, i);
    assert StepAt(states, actions, i);
    ThreeSlots(ReaderSlot(states[i]), states[i].spare, WriterSlot(states[i]));
  }

  /** While the reader stays out of `get_for_reader`, its slot keeps its contents, however often the
      writer publishes meanwhile. */
  lemma {:induction false} ReadIsStable<T>(states: seq<State<T>>, actions: seq<Action<T>>, i: nat, j: nat)
    requires IsRun(states, actions) && i <= j <= |actions|
    requires states[i].reader.ReaderIdle? && 0 <= states[i].front < 3
    requires forall k | i <= k < j :: !actions[k].Load?
    ensures states[j].reader.ReaderIdle? && states[j].front == states[i].front && states[j].held == states[i].held
    ensures |states[i].slots| == |states[j].slots| == 3
    ensures states[j].slots[states[j].front] == states[i].slots[states[i].front]
  {
    RunKeepsInv(states, actions, j);
    if i < j {
      ReadIsStable(states, actions, i, j - 1);
      NoTornRead(states, actions, j - 1);
      assert StepAt(states, actions, j - 1);
    }
  }

  // ----- Freshness -----

  /** The publication that the reader holds never gets older. */
  lemma {:induction false} HeldNeverDecreases<T>(states: seq<State<T>>, actions: seq<Action<T>>, i: nat, j: nat)
    requires IsRun(states, actions) && i <= j <= |actions|
    ensures states[i].held <= states[j].held && states[i].log <= states[j].log
  {
    RunKeepsInv(states, actions, j);
    if i < j {
      HeldNeverDecreases(states, actions, i, j - 1);
      RunKeepsInv(states, actions, j - 1);
      assert StepAt(states, actions, j - 1);
    }
  }

  /** While the reader does not exchange, `held` stays and has_update is never lost. */
  lemma {:induction false} UpdateStaysVisible<T>(states: seq<State<T>>, actions: seq<Action<T>>, i: nat, j: nat)
    requires IsRun(states, actions) && i <= j <= |actions|
    requires forall k | i <= k < j :: !actions[k].Take?
    ensures states[j].held == states[i].held
    ensures states[i].hasUpdate ==> states[j].hasUpdate
  {
    if i < j {
      UpdateStaysVisible(states, actions, i, j - 1);
      assert StepAt(states, actions, j - 1);
    }
  }

  /** A load reports an update exactly when it is not stale and something was published since the
      reader's last exchange. */
  lemma LoadReportsNews<T>(states: seq<State<T>>, actions: seq<Action<T>>, i: nat)
    requires IsRun(states, actions) && i < |actions| && actions[i].Load?
    ensures states[i + 1].reader.Loaded?
    ensures states[i + 1].reader.updated <==> !actions[i].stale && states[i].held < |states[i].log|
    ensures states[i + 1].reader.updated <==>
            !actions[i].stale && PublishedAtTake(actions[..i]) < |Publications(actions[..i])|
  {
    RunKeepsInv(states, actions, i);
    LogIsPublications(states, actions, i);
    assert StepAt(states, actions, i);
  }

  /** When `updated` is true, the reader gets the value that was published last before its exchange `j`, even if it
      was published after the load `i`, and it is a newer publication than the one held before. */
  lemma UpdatedIsLatest<T>(states: seq<State<T>>, actions: seq<Action<T>>, i: nat, j: nat)
    requires IsRun(states, actions) && i < j < |actions|
    requires actions[i].Load? && actions[j].Take?
    requires forall k | i < k < j :: !actions[k].Take?
    ensures states[j + 1].held == |states[j].log| && states[i].held < states[j + 1].held &&
            states[i].log <= states[j].log
    ensures PublishedAtTake(actions[..i]) < |Publications(actions[..j])|
    ensures var s, published := states[j + 1], Publications(actions[..j]);
            |s.log| > 0 && s.log == published &&
            0 <= ReaderSlot(s) < |s.slots| && s.slots[ReaderSlot(s)] == Whole(published[|published| - 1])
  {
    RunKeepsInv(states, actions, j);
    RunKeepsInv(states, actions, j + 1);
    assert StepAt(states, actions, i) && StepAt(states, actions, j);
    UpdateStaysVisible(states, actions, i + 1, j);
    HeldNeverDecreases(states, actions, i, j);
    LogIsPublications(states, actions, i);
    LogIsPublications(states, actions, j);
    ThreeSlots(ReaderSlot(states[j + 1]), states[j + 1].spare, WriterSlot(states[j + 1]));
  }

  /** When `updated` is false after a load that is not stale, nothing was published between the reader's
      last exchange `i` and the load `j`. */
  lemma NotUpdatedMeansNoNews<T>(states: seq<State<T>>, actions: seq<Action<T>>, i: nat, j: nat)
    requires IsRun(states, actions) && i < j < |actions|
    requires actions[i].Take? && actions[j] == Load(false) && states[j + 1].reader == Loaded(false)
    requires forall k | i < k < j :: !actions[k].Take?
    ensures states[j].log == states[i].log && Publications(actions[..j]) == Publications(actions[..i])
  {
    LogIsPublications(states, actions, i);
    LogIsPublications(states, actions, j);
    RunKeepsInv(states, actions, i);
    assert StepAt(states, actions, i) && StepAt(states, actions, j);
    LoadReportsNews(states, actions, j);
    UpdateStaysVisible(states, actions, i + 1, j);
    HeldNeverDecreases(states, actions, i, j);
    RunKeepsInv(states, actions, j);
  }

  /** With a stale load the claim fails: a publication can be missed. */
  lemma StaleLoadMissesNews(value: int) returns (states: seq<State<int>>, actions: seq<Action<int>>)
    ensures IsRun(states, actions) && |actions| == 4
    ensures actions[3] == Load(true) && states[4].reader == Loaded(false) && states[3].held < |states[3].log|
  {
    var s0 := State([Raw, Raw, Raw], 0, 2, 1, false, WriterIdle, ReaderIdle, [], 0);
    actions := [BeginWrite, FinishWrite(value), Publish, Load(true)];
    var s1 := Apply(s0, actions[0]);
    var s2 := Apply(s1, actions[1]);
    var s3 := Apply(s2, actions[2]);
    states := [s0, s1, s2, s3, Apply(s3, actions[3])];
    assert forall i | 0 <= i < 4 :: StepAt(states, actions, i);
  }

  // ----- The methods, called by one thread -----

  class Buffer<T> {
    const buffers: array<Slot<T>>
    var front: int
    var back: int
    var spare: int
    var hasUpdate: bool
    ghost var log: seq<T>
    ghost var held: nat

    /** The state between calls. */
    ghost function Value(): State<T>
      reads this, buffers
    {
      State(buffers[..], front, back, spare, hasUpdate, WriterIdle, ReaderIdle, log, held)
    }

    constructor ()
      ensures Init(Value()) && Inv(Value()) && fresh(buffers)
    {
      buffers := new Slot<T>[3](_ => Raw);
      front, spare, back, hasUpdate, log, held := 0, 1, 2, false, [], 0;
      new;
      assert buffers[..] == [Raw, Raw, Raw];
    }

    /** Publishes `value`; the reader's slot stays as it is. */
    method Update(value: T)
      requires Inv(Value())
      modifies this, buffers
      ensures Inv(Value()) && log == old(log) + [value] && held == old(held) && front == old(front)
      ensures 0 <= front < 3 && buffers.Length == 3 && buffers[front] == old(buffers[front])
      ensures hasUpdate && 0 <= spare < 3 && buffers[spare] == Whole(value)
    {
      ghost var s := Value();
      ThreeSlots(front, spare, back);
      buffers[back] := Whole(value);
      var prev := spare;
      spare, hasUpdate := back, true;
      back := prev;
      log := log + [value];
      UpdateSteps(s, value);
      assert Value().slots == s.slots[s.back := Whole(value)];
    }

    /** Returns the reader's slot and whether it is new: without interference, whether anything was
        published since the last call. */
    method GetForReader() returns (slot: int, updated: bool)
      requires Inv(Value())
      modifies this
      ensures Inv(Value()) && log == old(log) && held == |log|
      ensures updated <==> old(held) < |log|
      ensures slot == front && 0 <= slot < 3 && buffers.Length == 3
      ensures log != [] ==> buffers[slot] == Whole(log[|log| - 1])
      ensures !updated ==> front == old(front)
    {
      ghost var s := Value();
      ThreeSlots(front, spare, back);
      updated := hasUpdate;
      if updated {
        var prev := spare;
        spare, hasUpdate := front, false;
        front := prev;
        held := |log|;
        GetSteps(s);
      }
      slot := front;
    }
  }

  lemma UpdateSteps<T>(s: State<T>, value: T)
    requires Inv(s) && s.writer.WriterIdle? && s.reader.ReaderIdle? && 0 <= s.back < |s.slots|
    ensures Inv(s.(slots := s.slots[s.back := Whole(value)], spare := s.back, hasUpdate := true, back := s.spare,
                   log := s.log + [value]))
  {
    StepKeepsInv(s, BeginWrite);
    var s1 := Apply(s, BeginWrite);
    StepKeepsInv(s1, FinishWrite(value));
    var s2 := Apply(s1, FinishWrite(value));
    StepKeepsInv(s2, Publish);
    var s3 := Apply(s2, Publish);
    StepKeepsInv(s3, AssignBack);
    assert Apply(s3, AssignBack).slots == s.slots[s.back := Whole(value)];
  }

  lemma GetSteps<T>(s: State<T>)
    requires Inv(s) && s.reader.ReaderIdle? && s.hasUpdate
    ensures Inv(s.(spare := s.front, hasUpdate := false, front := s.spare, held := |s.log|))
  {
    StepKeepsInv(s, Load(false));
    var s1 := Apply(s, Load(false));
    StepKeepsInv(s1, Take);
    StepKeepsInv(Apply(s1, Take), AssignFront);
  }
}
