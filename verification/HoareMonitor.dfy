/** The signal-and-urgent-wait monitor of HoareMonitor.h as a transition system.

    Every statement that touches shared memory is one step, so threads interleave between the
    test of `urgent`, the pop and the `V`.  The number of threads and of conditions is arbitrary.
    A semaphore is named by its address; an address may be reused once it has been deleted. */
module HoareMonitor {
  import opened Options

  type Thread = int
  type Sem = int
  type Cond = int

  /** Where a thread is; the comments name the next statement it executes. */
  datatype PC =
    | Outside
    | Entering                                      // mutex.P
    | Inside                                        // the caller's own code
    | WaitPushed(c: Cond, ws: Sem)                  // if (urgent.empty())
    | WaitFreeMutex(c: Cond, ws: Sem)               // mutex.V
    | WaitWakeUrgent(c: Cond, ws: Sem, wake: Sem)   // s->V
    | WaitBlocked(c: Cond, ws: Sem)                 // ws->P
    | WaitResumed(ws: Sem)                          // delete ws
    | SignalPopped(ws: Sem)                         // s = new Semaphore; urgent.push(s)
    | SignalPushed(ws: Sem, s: Sem)                 // ws->V
    | SignalBlocked(s: Sem)                         // s->P
    | SignalResumed(s: Sem)                         // delete s
    | LeaveFreeMutex                                // mutex.V
    | LeaveWakeUrgent(wake: Sem)                    // s->V

  /** `sems` holds the value of every allocated private semaphore, `creator` the thread whose call
      allocated it.  `fault` records that a step used a semaphore that is not allocated. */
  datatype State<D> = State(
    mutex: nat,
    sems: map<Sem, nat>,
    creator: map<Sem, Thread>,
    urgent: seq<Sem>,
    waiting: seq<seq<Sem>>,
    pc: map<Thread, PC>,
    shared: D,
    fault: bool)

  datatype Action<D> =
    | CallEnter
    | Acquire
    | Write(d: D)
    | CallWait(c: Cond, sem: Sem)
    | WaitTest
    | WaitRelease
    | WaitP
    | WaitDelete
    | CallSignal(c: Cond)
    | SignalPush(sem: Sem)
    | SignalV
    | SignalP
    | SignalDelete
    | CallLeave
    | LeaveRelease

  /** The value a `P` on `id` waits for; a `P` on a deleted semaphore does not wait. */
  predicate CanP<D>(s: State<D>, id: Sem) {
    id in s.sems ==> s.sems[id] > 0
  }

  predicate Enabled<D>(s: State<D>, t: Thread, a: Action<D>) {
    t in s.pc &&
    match a
    case CallEnter => s.pc[t].Outside?
    case Acquire => s.pc[t].Entering? && s.mutex > 0
    case Write(_) => s.pc[t].Inside?
    case CallWait(c, sem) => s.pc[t].Inside? && 0 <= c < |s.waiting| && sem !in s.sems
    case WaitTest => s.pc[t].WaitPushed?
    case WaitRelease => s.pc[t].WaitFreeMutex? || s.pc[t].WaitWakeUrgent?
    case WaitP => s.pc[t].WaitBlocked? && CanP(s, s.pc[t].ws)
    case WaitDelete => s.pc[t].WaitResumed?
    case CallSignal(c) => s.pc[t].Inside? && 0 <= c < |s.waiting|
    case SignalPush(sem) => s.pc[t].SignalPopped? && sem !in s.sems
    case SignalV => s.pc[t].SignalPushed?
    case SignalP => s.pc[t].SignalBlocked? && CanP(s, s.pc[t].s)
    case SignalDelete => s.pc[t].SignalResumed?
    case CallLeave => s.pc[t].Inside?
    case LeaveRelease => s.pc[t].LeaveFreeMutex? || s.pc[t].LeaveWakeUrgent?
  }

  function Goto<D>(s: State<D>, t: Thread, pc: PC): State<D> {
    s.(pc := s.pc[t := pc])
  }

  function New<D>(s: State<D>, t: Thread, id: Sem): State<D> {
    s.(sems := s.sems[id := 0], creator := s.creator[id := t])
  }

  function Delete<D>(s: State<D>, id: Sem): State<D> {
    if id in s.sems then s.(sems := s.sems - {id}, creator := s.creator - {id}) else s.(fault := true)
  }

  function V<D>(s: State<D>, id: Sem): State<D> {
    if id in s.sems then s.(sems := s.sems[id := s.sems[id] + 1]) else s.(fault := true)
  }

  function P<D>(s: State<D>, id: Sem): State<D>
    requires CanP(s, id)
  {
    if id in s.sems then s.(sems := s.sems[id := s.sems[id] - 1]) else s.(fault := true)
  }

  function Top(stack: seq<Sem>): Sem
    requires stack != []
  {
    stack[|stack| - 1]
  }

  function Popped(stack: seq<Sem>): seq<Sem>
    requires stack != []
  {
    stack[..|stack| - 1]
  }

  function Apply<D>(s: State<D>, t: Thread, a: Action<D>): State<D>
    requires Enabled(s, t, a)
  {
    var pc := s.pc[t];
    match a
    case CallEnter => Goto(s, t, Entering)
    case Acquire => Goto(s.(mutex := s.mutex - 1), t, Inside)
    case Write(d) => s.(shared := d)
    case CallWait(c, sem) =>
      Goto(New(s.(waiting := s.waiting[c := s.waiting[c] + [sem]]), t, sem), t, WaitPushed(c, sem))
    case WaitTest =>
      if s.urgent == [] then Goto(s, t, WaitFreeMutex(pc.c, pc.ws))
      else Goto(s.(urgent := Popped(s.urgent)), t, WaitWakeUrgent(pc.c, pc.ws, Top(s.urgent)))
    case WaitRelease =>
      if pc.WaitFreeMutex? then Goto(s.(mutex := s.mutex + 1), t, WaitBlocked(pc.c, pc.ws))
      else Goto(V(s, pc.wake), t, WaitBlocked(pc.c, pc.ws))
    case WaitP => Goto(P(s, pc.ws), t, WaitResumed(pc.ws))
    case WaitDelete => Goto(Delete(s, pc.ws), t, Inside)
    case CallSignal(c) =>
      if s.waiting[c] == [] then s
      else Goto(s.(waiting := s.waiting[c := s.waiting[c][1..]]), t, SignalPopped(s.waiting[c][0]))
    case SignalPush(sem) =>
      Goto(New(s.(urgent := s.urgent + [sem]), t, sem), t, SignalPushed(pc.ws, sem))
    case SignalV => Goto(V(s, pc.ws), t, SignalBlocked(pc.s))
    case SignalP => Goto(P(s, pc.s), t, SignalResumed(pc.s))
    case SignalDelete => Goto(Delete(s, pc.s), t, Inside)
    case CallLeave =>
      if s.urgent == [] then Goto(s, t, LeaveFreeMutex)
      else Goto(s.(urgent := Popped(s.urgent)), t, LeaveWakeUrgent(Top(s.urgent)))
    case LeaveRelease =>
      if pc.LeaveFreeMutex? then Goto(s.(mutex := s.mutex + 1), t, Outside)
      else Goto(V(s, pc.wake), t, Outside)
  }

  ghost predicate Init<D>(s: State<D>) {
    s.mutex == 1 && s.sems == map[] && s.creator == map[] && s.urgent == [] && !s.fault &&
    (forall c | 0 <= c < |s.waiting| :: s.waiting[c] == []) &&
    (forall t | t in s.pc :: s.pc[t].Outside?)
  }

  // ----- The permission-token invariant -----

  /** The single permission is in the mutex, in one private semaphore, or with one thread. */
  datatype Token = AtMutex | AtSem(id: Sem) | AtThread(t: Thread)

  /** The thread is inside the monitor: it has the permission and has not yet passed it on. */
  predicate Holds(pc: PC) {
    !(pc.Outside? || pc.Entering? || pc.WaitBlocked? || pc.SignalBlocked?)
  }

  /** `id` is the private semaphore created by the call that the thread is executing. */
  predicate Owns(pc: PC, id: Sem) {
    match pc
    case WaitPushed(_, ws) => ws == id
    case WaitFreeMutex(_, ws) => ws == id
    case WaitWakeUrgent(_, ws, _) => ws == id
    case WaitBlocked(_, ws) => ws == id
    case WaitResumed(ws) => ws == id
    case SignalPushed(_, s) => s == id
    case SignalBlocked(s) => s == id
    case SignalResumed(s) => s == id
    case _ => false
  }

  /** The thread's `waitCond(c)` has pushed `id` and has not yet been resumed. */
  predicate WaitsOn(pc: PC, c: Cond, id: Sem) {
    pc == WaitPushed(c, id) || pc == WaitFreeMutex(c, id) || pc == WaitBlocked(c, id) ||
    (pc.WaitWakeUrgent? && pc.c == c && pc.ws == id)
  }

  /** The thread's `signalCond` has pushed `id` and has not yet been resumed. */
  predicate SignalsWith(pc: PC, id: Sem) {
    (pc.SignalPushed? && pc.s == id) || pc == SignalBlocked(id)
  }

  /** A thread between popping the waiter `id` and its `V`. */
  predicate AboutToResumeWaiter(pc: PC, id: Sem) {
    pc == SignalPopped(id) || (pc.SignalPushed? && pc.ws == id)
  }

  /** A thread between popping the suspended signaller `id` and its `V`. */
  predicate AboutToResumeSignaller(pc: PC, id: Sem) {
    pc == LeaveWakeUrgent(id) || (pc.WaitWakeUrgent? && pc.wake == id)
  }

  predicate AboutToFreeMutex(pc: PC) {
    pc.WaitFreeMutex? || pc.LeaveFreeMutex?
  }

  function Bit(b: bool): nat { if b then 1 else 0 }

  predicate Distinct(q: seq<Sem>) {
    forall i, j :: 0 <= i < j < |q| ==> q[i] != q[j]
  }

  function PcOf<D>(s: State<D>, t: Thread): PC {
    if t in s.pc then s.pc[t] else Outside
  }

  /** The program counter of the thread that created `id`. */
  function OwnerPc<D>(s: State<D>, id: Sem): PC {
    if id in s.creator then PcOf(s, s.creator[id]) else Outside
  }

  /** The program counter of the thread inside, if there is one. */
  function HolderPc<D>(s: State<D>, tok: Token): PC {
    if tok.AtThread? then PcOf(s, tok.t) else Outside
  }

  ghost predicate TokenAt<D>(s: State<D>, tok: Token) {
    && s.mutex == Bit(tok == AtMutex)
    && (forall id | id in s.sems :: s.sems[id] == Bit(tok == AtSem(id)))
    && (forall t | t in s.pc :: Holds(s.pc[t]) <==> tok == AtThread(t))
    && (tok.AtSem? ==> tok.id in s.sems)
    && (tok.AtThread? ==> tok.t in s.pc)
  }

  /** Allocated semaphores and the calls that own them correspond one to one. */
  ghost predicate Ownership<D>(s: State<D>) {
    && s.creator.Keys == s.sems.Keys
    && (forall id {:trigger id in s.sems} | id in s.sems :: Owns(OwnerPc(s, id), id))
    && (forall t, id {:trigger Owns(PcOf(s, t), id)} | Owns(PcOf(s, t), id) ::
          id in s.sems && id in s.creator && s.creator[id] == t)
  }

  /** Every queued waiter is queued once, under its own condition, and has not been resumed. */
  ghost predicate WaitingOk<D>(s: State<D>) {
    && (forall c | 0 <= c < |s.waiting| :: Distinct(s.waiting[c]))
    && (forall c, id {:trigger id in s.waiting[c]} | 0 <= c < |s.waiting| && id in s.waiting[c] ::
          WaitsOn(OwnerPc(s, id), c, id) && id in s.sems && s.sems[id] == 0)
  }

  ghost predicate UrgentOk<D>(s: State<D>) {
    && Distinct(s.urgent)
    && (forall id {:trigger id in s.urgent} | id in s.urgent ::
          SignalsWith(OwnerPc(s, id), id) && id in s.sems && s.sems[id] == 0)
  }

  /** A blocked waiter is queued, or its permission is on its way. */
  ghost predicate WaitersOk<D>(s: State<D>, tok: Token) {
    forall t, c, id {:trigger WaitsOn(PcOf(s, t), c, id)} | WaitsOn(PcOf(s, t), c, id) ::
      && 0 <= c < |s.waiting|
      && (id in s.waiting[c] ||
          (PcOf(s, t).WaitBlocked? && (tok == AtSem(id) || AboutToResumeWaiter(HolderPc(s, tok), id))))
  }

  ghost predicate SignallersOk<D>(s: State<D>, tok: Token) {
    forall t, id {:trigger SignalsWith(PcOf(s, t), id)} | SignalsWith(PcOf(s, t), id) ::
      id in s.urgent ||
      (PcOf(s, t).SignalBlocked? && (tok == AtSem(id) || AboutToResumeSignaller(HolderPc(s, tok), id)))
  }

  /** What the permission holder has popped is blocked and no longer queued. */
  ghost predicate HolderOk<D>(s: State<D>, tok: Token) {
    var holder := HolderPc(s, tok);
    && (forall id {:trigger AboutToResumeWaiter(holder, id)} | AboutToResumeWaiter(holder, id) ::
          OwnerPc(s, id).WaitBlocked? && forall c {:trigger s.waiting[c]} | 0 <= c < |s.waiting| :: id !in s.waiting[c])
    && (forall id {:trigger AboutToResumeSignaller(holder, id)} | AboutToResumeSignaller(holder, id) ::
          OwnerPc(s, id).SignalBlocked? && id !in s.urgent)
    && (AboutToFreeMutex(holder) || tok.AtMutex? ==> s.urgent == [])
    && (holder.SignalPushed? ==> s.urgent != [] && Top(s.urgent) == holder.s)
    && (tok.AtSem? ==>
          && (OwnerPc(s, tok.id).WaitBlocked? || OwnerPc(s, tok.id).SignalBlocked?))
  }

  ghost predicate InvAt<D>(s: State<D>, tok: Token) {
    && !s.fault
    && TokenAt(s, tok) && Ownership(s) && WaitingOk(s) && UrgentOk(s)
    && WaitersOk(s, tok) && SignallersOk(s, tok) && HolderOk(s, tok)
  }

  ghost predicate Inv<D>(s: State<D>) {
    exists tok :: InvAt(s, tok)
  }

  lemma InitInv<D>(s: State<D>)
    requires Init(s)
    ensures InvAt(s, AtMutex)
  {
  }

  /** Where the permission is after a step. */
  function NextToken<D>(s: State<D>, t: Thread, a: Action<D>, tok: Token): Token
    requires Enabled(s, t, a)
  {
    match a
    case Acquire => AtThread(t)
    case WaitRelease => if s.pc[t].WaitFreeMutex? then AtMutex else AtSem(s.pc[t].wake)
    case WaitP => AtThread(t)
    case SignalV => AtSem(s.pc[t].ws)
    case SignalP => AtThread(t)
    case LeaveRelease => if s.pc[t].LeaveFreeMutex? then AtMutex else AtSem(s.pc[t].wake)
    case _ => tok
  }

  /** A step of `t` moves no other thread and changes the creator of no semaphore. */
  lemma OthersStay<D>(s: State<D>, t: Thread, a: Action<D>)
    requires Ownership(s) && Enabled(s, t, a)
    ensures forall u {:trigger PcOf(Apply(s, t, a), u)} | u != t :: PcOf(Apply(s, t, a), u) == PcOf(s, u)
    ensures forall id {:trigger OwnerPc(Apply(s, t, a), id)} | id in s.creator && id in Apply(s, t, a).creator ::
              Apply(s, t, a).creator[id] == s.creator[id] &&
              (s.creator[id] != t ==> OwnerPc(Apply(s, t, a), id) == OwnerPc(s, id))
  {
    forall id | id in s.creator && id in Apply(s, t, a).creator
      ensures Apply(s, t, a).creator[id] == s.creator[id]
      ensures s.creator[id] != t ==> OwnerPc(Apply(s, t, a), id) == OwnerPc(s, id)
    {
      if s.creator[id] != t {
        assert PcOf(Apply(s, t, a), s.creator[id]) == PcOf(s, s.creator[id]);
      }
    }
  }

  /** What the invariant says of a thread executing `waitCond`, `signalCond` or `mutex_out`. */
  lemma ActorFacts<D>(s: State<D>, t: Thread, tok: Token)
    requires InvAt(s, tok) && t in s.pc
    ensures forall id {:trigger Owns(s.pc[t], id)} | Owns(s.pc[t], id) :: id in s.sems && s.creator[id] == t
    ensures forall c, id {:trigger WaitsOn(s.pc[t], c, id)} | WaitsOn(s.pc[t], c, id) :: 0 <= c < |s.waiting|
    ensures var pc := s.pc[t];
            (pc.WaitPushed? || pc.WaitFreeMutex? || pc.WaitWakeUrgent? ==>
               Owns(pc, pc.ws) && WaitsOn(pc, pc.c, pc.ws) && pc.ws in s.waiting[pc.c]) &&
            (pc.WaitBlocked? || pc.WaitResumed? ==> Owns(pc, pc.ws)) &&
            (pc.SignalPushed? || pc.SignalBlocked? || pc.SignalResumed? ==> Owns(pc, pc.s)) &&
            (pc.WaitWakeUrgent? || pc.LeaveWakeUrgent? ==>
               AboutToResumeSignaller(pc, pc.wake) && OwnerPc(s, pc.wake).SignalBlocked? && pc.wake !in s.urgent) &&
            (pc.SignalPopped? || pc.SignalPushed? ==>
               AboutToResumeWaiter(pc, pc.ws) && OwnerPc(s, pc.ws).WaitBlocked?)
  {
    var pc := s.pc[t];
    assert pc == PcOf(s, t);
    if Holds(pc) {
      assert pc == HolderPc(s, tok);
      if pc.WaitPushed? || pc.WaitFreeMutex? || pc.WaitWakeUrgent? {
        assert WaitsOn(PcOf(s, t), pc.c, pc.ws);
      }
      if pc.WaitWakeUrgent? || pc.LeaveWakeUrgent? {
        assert AboutToResumeSignaller(HolderPc(s, tok), pc.wake);
      }
      if pc.SignalPopped? || pc.SignalPushed? {
        assert AboutToResumeWaiter(HolderPc(s, tok), pc.ws);
      }
    }
  }

  /** While `t` is inside, every queued waiter and every suspended signaller is blocked. */
  lemma QueuedAreBlocked<D>(s: State<D>, t: Thread)
    requires InvAt(s, AtThread(t))
    ensures forall c, id | 0 <= c < |s.waiting| && id in s.waiting[c] && OwnerPc(s, id) != s.pc[t] ::
            OwnerPc(s, id) == WaitBlocked(c, id)
    ensures forall id | id in s.urgent && OwnerPc(s, id) != s.pc[t] :: OwnerPc(s, id) == SignalBlocked(id)
  {
  }

  /** A call that waits on a semaphore is the call that created it. */
  lemma WaitersAreOwners<D>(s: State<D>)
    requires Ownership(s)
    ensures forall t, c, id {:trigger WaitsOn(PcOf(s, t), c, id)} | WaitsOn(PcOf(s, t), c, id) ::
              id in s.creator && s.creator[id] == t
    ensures forall t, id {:trigger SignalsWith(PcOf(s, t), id)} | SignalsWith(PcOf(s, t), id) ::
              id in s.creator && s.creator[id] == t
  {
    forall t, c, id | WaitsOn(PcOf(s, t), c, id) ensures id in s.creator && s.creator[id] == t {
      assert Owns(PcOf(s, t), id);
    }
    forall t, id | SignalsWith(PcOf(s, t), id) ensures id in s.creator && s.creator[id] == t {
      assert Owns(PcOf(s, t), id);
    }
  }

  lemma PushDistinct(q: seq<Sem>, id: Sem)
    requires Distinct(q) && id !in q
    ensures Distinct(q + [id])
    ensures forall x {:trigger x in q + [id]} :: x in q + [id] <==> x in q || x == id
  {
  }

  lemma PopDistinct(q: seq<Sem>)
    requires Distinct(q) && q != []
    ensures Distinct(Popped(q)) && Distinct(q[1..])
    ensures forall x {:trigger x in Popped(q)} :: x in Popped(q) <==> x in q && x != Top(q)
    ensures forall x {:trigger x in q[1..]} :: x in q[1..] <==> x in q && x != q[0]
  {
    forall x ensures x in Popped(q) <==> x in q && x != Top(q) ensures x in q[1..] <==> x in q && x != q[0] {
      assert q == Popped(q) + [Top(q)] == [q[0]] + q[1..];
    }
  }

  /** The private semaphore that a call has created. */
  lemma OwnSemaphore(pc: PC)
    ensures pc.WaitPushed? || pc.WaitFreeMutex? || pc.WaitWakeUrgent? || pc.WaitBlocked? || pc.WaitResumed? ==>
              Owns(pc, pc.ws)
    ensures pc.SignalPushed? || pc.SignalBlocked? || pc.SignalResumed? ==> Owns(pc, pc.s)
  {
  }

  // Each part of the invariant, over each group of steps.

  /** Entering, leaving and writing. */
  predicate IsPassing<D>(a: Action<D>) {
    a.CallEnter? || a.Acquire? || a.Write? || a.CallLeave? || a.LeaveRelease?
  }

  lemma PassingKeepsToken<D>(s: State<D>, t: Thread, a: Action<D>, tok: Token)
    requires InvAt(s, tok) && Enabled(s, t, a) && IsPassing(a)
    ensures !Apply(s, t, a).fault && TokenAt(Apply(s, t, a), NextToken(s, t, a, tok))
  {
    ActorFacts(s, t, tok);
  }

  lemma PassingKeepsOwnership<D>(s: State<D>, t: Thread, a: Action<D>)
    requires Ownership(s) && Enabled(s, t, a) && IsPassing(a)
    ensures Ownership(Apply(s, t, a))
  {
    OthersStay(s, t, a);
    assert s.pc[t] == PcOf(s, t);
    OwnSemaphore(s.pc[t]);
  }

  lemma PassingKeepsWaiting<D>(s: State<D>, t: Thread, a: Action<D>, tok: Token)
    requires InvAt(s, tok) && Enabled(s, t, a) && IsPassing(a)
    ensures WaitingOk(Apply(s, t, a))
  {
    OthersStay(s, t, a);
    ActorFacts(s, t, tok);
  }

  lemma PassingKeepsUrgent<D>(s: State<D>, t: Thread, a: Action<D>, tok: Token)
    requires InvAt(s, tok) && Enabled(s, t, a) && IsPassing(a)
    ensures UrgentOk(Apply(s, t, a))
  {
    OthersStay(s, t, a);
    ActorFacts(s, t, tok);
    if s.urgent != [] { PopDistinct(s.urgent); }
  }

  lemma PassingKeepsWaiters<D>(s: State<D>, t: Thread, a: Action<D>, tok: Token)
    requires InvAt(s, tok) && Enabled(s, t, a) && IsPassing(a)
    ensures WaitersOk(Apply(s, t, a), NextToken(s, t, a, tok))
  {
    OthersStay(s, t, a);
    ActorFacts(s, t, tok);
    WaitersAreOwners(s);
    if s.urgent != [] { PopDistinct(s.urgent); }
  }

  lemma PassingKeepsSignallers<D>(s: State<D>, t: Thread, a: Action<D>, tok: Token)
    requires InvAt(s, tok) && Enabled(s, t, a) && IsPassing(a)
    ensures SignallersOk(Apply(s, t, a), NextToken(s, t, a, tok))
  {
    OthersStay(s, t, a);
    ActorFacts(s, t, tok);
    WaitersAreOwners(s);
    if s.urgent != [] { PopDistinct(s.urgent); }
  }

  lemma PassingKeepsHolder<D>(s: State<D>, t: Thread, a: Action<D>, tok: Token)
    requires InvAt(s, tok) && Enabled(s, t, a) && IsPassing(a)
    ensures HolderOk(Apply(s, t, a), NextToken(s, t, a, tok))
  {
    OthersStay(s, t, a);
    ActorFacts(s, t, tok);
    WaitersAreOwners(s);
    if s.pc[t].Inside? { QueuedAreBlocked(s, t); }
    if s.urgent != [] {
      PopDistinct(s.urgent);
      assert Top(s.urgent) in s.urgent;
    }
  }

  lemma PassingKeepsInv<D>(s: State<D>, t: Thread, a: Action<D>, tok: Token)
    requires InvAt(s, tok) && Enabled(s, t, a) && IsPassing(a)
    ensures InvAt(Apply(s, t, a), NextToken(s, t, a, tok))
  {
    PassingKeepsToken(s, t, a, tok);
    PassingKeepsOwnership(s, t, a);
    PassingKeepsWaiting(s, t, a, tok);
    PassingKeepsUrgent(s, t, a, tok);
    PassingKeepsWaiters(s, t, a, tok);
    PassingKeepsSignallers(s, t, a, tok);
    PassingKeepsHolder(s, t, a, tok);
  }

  /** `waitCond` before its `P`. */
  predicate IsWaiting<D>(a: Action<D>) {
    a.CallWait? || a.WaitTest? || a.WaitRelease?
  }

  lemma WaitingKeepsToken<D>(s: State<D>, t: Thread, a: Action<D>, tok: Token)
    requires InvAt(s, tok) && Enabled(s, t, a) && IsWaiting(a)
    ensures !Apply(s, t, a).fault && TokenAt(Apply(s, t, a), NextToken(s, t, a, tok))
  {
    ActorFacts(s, t, tok);
  }

  lemma WaitingKeepsOwnership<D>(s: State<D>, t: Thread, a: Action<D>)
    requires Ownership(s) && Enabled(s, t, a) && IsWaiting(a)
    ensures Ownership(Apply(s, t, a))
  {
    OthersStay(s, t, a);
    assert s.pc[t] == PcOf(s, t);
    OwnSemaphore(s.pc[t]);
  }

  lemma WaitingKeepsWaiting<D>(s: State<D>, t: Thread, a: Action<D>, tok: Token)
    requires InvAt(s, tok) && Enabled(s, t, a) && IsWaiting(a)
    ensures WaitingOk(Apply(s, t, a))
  {
    OthersStay(s, t, a);
    ActorFacts(s, t, tok);
    if a.CallWait? { PushDistinct(s.waiting[a.c], a.sem); }
  }

  lemma WaitingKeepsUrgent<D>(s: State<D>, t: Thread, a: Action<D>, tok: Token)
    requires InvAt(s, tok) && Enabled(s, t, a) && IsWaiting(a)
    ensures UrgentOk(Apply(s, t, a))
  {
    OthersStay(s, t, a);
    ActorFacts(s, t, tok);
    if s.urgent != [] { PopDistinct(s.urgent); }
  }

  lemma WaitingKeepsWaiters<D>(s: State<D>, t: Thread, a: Action<D>, tok: Token)
    requires InvAt(s, tok) && Enabled(s, t, a) && IsWaiting(a)
    ensures WaitersOk(Apply(s, t, a), NextToken(s, t, a, tok))
  {
    OthersStay(s, t, a);
    ActorFacts(s, t, tok);
    WaitersAreOwners(s);
    if s.urgent != [] { PopDistinct(s.urgent); }
  }

  lemma WaitingKeepsSignallers<D>(s: State<D>, t: Thread, a: Action<D>, tok: Token)
    requires InvAt(s, tok) && Enabled(s, t, a) && IsWaiting(a)
    ensures SignallersOk(Apply(s, t, a), NextToken(s, t, a, tok))
  {
    OthersStay(s, t, a);
    ActorFacts(s, t, tok);
    WaitersAreOwners(s);
    if s.urgent != [] { PopDistinct(s.urgent); }
  }

  lemma WaitingKeepsHolder<D>(s: State<D>, t: Thread, a: Action<D>, tok: Token)
    requires InvAt(s, tok) && Enabled(s, t, a) && IsWaiting(a)
    ensures HolderOk(Apply(s, t, a), NextToken(s, t, a, tok))
  {
    OthersStay(s, t, a);
    ActorFacts(s, t, tok);
    WaitersAreOwners(s);
    if a.WaitTest? { QueuedAreBlocked(s, t); }
    if a.CallWait? { PushDistinct(s.waiting[a.c], a.sem); }
    if s.urgent != [] {
      PopDistinct(s.urgent);
      assert Top(s.urgent) in s.urgent;
    }
  }

  lemma WaitingKeepsInv<D>(s: State<D>, t: Thread, a: Action<D>, tok: Token)
    requires InvAt(s, tok) && Enabled(s, t, a) && IsWaiting(a)
    ensures InvAt(Apply(s, t, a), NextToken(s, t, a, tok))
  {
    WaitingKeepsToken(s, t, a, tok);
    WaitingKeepsOwnership(s, t, a);
    WaitingKeepsWaiting(s, t, a, tok);
    WaitingKeepsUrgent(s, t, a, tok);
    WaitingKeepsWaiters(s, t, a, tok);
    WaitingKeepsSignallers(s, t, a, tok);
    WaitingKeepsHolder(s, t, a, tok);
  }

  /** `signalCond` before its `P`. */
  predicate IsSignalling<D>(a: Action<D>) {
    a.CallSignal? || a.SignalPush? || a.SignalV?
  }

  lemma SignallingKeepsToken<D>(s: State<D>, t: Thread, a: Action<D>, tok: Token)
    requires InvAt(s, tok) && Enabled(s, t, a) && IsSignalling(a)
    ensures !Apply(s, t, a).fault && TokenAt(Apply(s, t, a), NextToken(s, t, a, tok))
  {
    ActorFacts(s, t, tok);
  }

  lemma SignallingKeepsOwnership<D>(s: State<D>, t: Thread, a: Action<D>)
    requires Ownership(s) && Enabled(s, t, a) && IsSignalling(a)
    ensures Ownership(Apply(s, t, a))
  {
    OthersStay(s, t, a);
    assert s.pc[t] == PcOf(s, t);
    OwnSemaphore(s.pc[t]);
  }

  lemma SignallingKeepsWaiting<D>(s: State<D>, t: Thread, a: Action<D>, tok: Token)
    requires InvAt(s, tok) && Enabled(s, t, a) && IsSignalling(a)
    ensures WaitingOk(Apply(s, t, a))
  {
    OthersStay(s, t, a);
    ActorFacts(s, t, tok);
    if a.CallSignal? && s.waiting[a.c] != [] { PopDistinct(s.waiting[a.c]); }
  }

  lemma SignallingKeepsUrgent<D>(s: State<D>, t: Thread, a: Action<D>, tok: Token)
    requires InvAt(s, tok) && Enabled(s, t, a) && IsSignalling(a)
    ensures UrgentOk(Apply(s, t, a))
  {
    OthersStay(s, t, a);
    ActorFacts(s, t, tok);
    if a.SignalPush? { PushDistinct(s.urgent, a.sem); }
  }

  lemma SignallingKeepsWaiters<D>(s: State<D>, t: Thread, a: Action<D>, tok: Token)
    requires InvAt(s, tok) && Enabled(s, t, a) && IsSignalling(a)
    ensures WaitersOk(Apply(s, t, a), NextToken(s, t, a, tok))
  {
    OthersStay(s, t, a);
    ActorFacts(s, t, tok);
    WaitersAreOwners(s);
    if a.CallSignal? && s.waiting[a.c] != [] { PopDistinct(s.waiting[a.c]); }
  }

  lemma SignallingKeepsSignallers<D>(s: State<D>, t: Thread, a: Action<D>, tok: Token)
    requires InvAt(s, tok) && Enabled(s, t, a) && IsSignalling(a)
    ensures SignallersOk(Apply(s, t, a), NextToken(s, t, a, tok))
  {
    OthersStay(s, t, a);
    ActorFacts(s, t, tok);
    WaitersAreOwners(s);
  }

  lemma CallSignalKeepsHolder<D>(s: State<D>, t: Thread, a: Action<D>, tok: Token)
    requires InvAt(s, tok) && Enabled(s, t, a) && a.CallSignal?
    ensures HolderOk(Apply(s, t, a), NextToken(s, t, a, tok))
  {
    OthersStay(s, t, a);
    ActorFacts(s, t, tok);
    WaitersAreOwners(s);
    QueuedAreBlocked(s, t);
    if s.waiting[a.c] != [] {
      PopDistinct(s.waiting[a.c]);
      assert s.waiting[a.c][0] in s.waiting[a.c];
    }
  }

  lemma SuspendingKeepsHolder<D>(s: State<D>, t: Thread, a: Action<D>, tok: Token)
    requires InvAt(s, tok) && Enabled(s, t, a) && (a.SignalPush? || a.SignalV?)
    ensures HolderOk(Apply(s, t, a), NextToken(s, t, a, tok))
  {
    OthersStay(s, t, a);
    ActorFacts(s, t, tok);
    WaitersAreOwners(s);
    if a.SignalPush? { PushDistinct(s.urgent, a.sem); }
  }

  lemma SignallingKeepsHolder<D>(s: State<D>, t: Thread, a: Action<D>, tok: Token)
    requires InvAt(s, tok) && Enabled(s, t, a) && IsSignalling(a)
    ensures HolderOk(Apply(s, t, a), NextToken(s, t, a, tok))
  {
    if a.CallSignal? { CallSignalKeepsHolder(s, t, a, tok); } else { SuspendingKeepsHolder(s, t, a, tok); }
  }

  lemma SignallingKeepsInv<D>(s: State<D>, t: Thread, a: Action<D>, tok: Token)
    requires InvAt(s, tok) && Enabled(s, t, a) && IsSignalling(a)
    ensures InvAt(Apply(s, t, a), NextToken(s, t, a, tok))
  {
    SignallingKeepsToken(s, t, a, tok);
    SignallingKeepsOwnership(s, t, a);
    SignallingKeepsWaiting(s, t, a, tok);
    SignallingKeepsUrgent(s, t, a, tok);
    SignallingKeepsWaiters(s, t, a, tok);
    SignallingKeepsSignallers(s, t, a, tok);
    SignallingKeepsHolder(s, t, a, tok);
  }

  /** The `P` of both calls, and what follows. */
  predicate IsResuming<D>(a: Action<D>) {
    a.WaitP? || a.WaitDelete? || a.SignalP? || a.SignalDelete?
  }

  lemma ResumingKeepsToken<D>(s: State<D>, t: Thread, a: Action<D>, tok: Token)
    requires InvAt(s, tok) && Enabled(s, t, a) && IsResuming(a)
    ensures !Apply(s, t, a).fault && TokenAt(Apply(s, t, a), NextToken(s, t, a, tok))
  {
    ActorFacts(s, t, tok);
  }

  lemma ResumingKeepsOwnership<D>(s: State<D>, t: Thread, a: Action<D>)
    requires Ownership(s) && Enabled(s, t, a) && IsResuming(a)
    ensures Ownership(Apply(s, t, a))
  {
    OthersStay(s, t, a);
    assert s.pc[t] == PcOf(s, t);
    OwnSemaphore(s.pc[t]);
  }

  lemma ResumingKeepsWaiting<D>(s: State<D>, t: Thread, a: Action<D>, tok: Token)
    requires InvAt(s, tok) && Enabled(s, t, a) && IsResuming(a)
    ensures WaitingOk(Apply(s, t, a))
  {
    OthersStay(s, t, a);
    ActorFacts(s, t, tok);
  }

  lemma ResumingKeepsUrgent<D>(s: State<D>, t: Thread, a: Action<D>, tok: Token)
    requires InvAt(s, tok) && Enabled(s, t, a) && IsResuming(a)
    ensures UrgentOk(Apply(s, t, a))
  {
    OthersStay(s, t, a);
    ActorFacts(s, t, tok);
  }

  lemma ResumingKeepsWaiters<D>(s: State<D>, t: Thread, a: Action<D>, tok: Token)
    requires InvAt(s, tok) && Enabled(s, t, a) && IsResuming(a)
    ensures WaitersOk(Apply(s, t, a), NextToken(s, t, a, tok))
  {
    OthersStay(s, t, a);
    ActorFacts(s, t, tok);
    WaitersAreOwners(s);
  }

  lemma ResumingKeepsSignallers<D>(s: State<D>, t: Thread, a: Action<D>, tok: Token)
    requires InvAt(s, tok) && Enabled(s, t, a) && IsResuming(a)
    ensures SignallersOk(Apply(s, t, a), NextToken(s, t, a, tok))
  {
    OthersStay(s, t, a);
    ActorFacts(s, t, tok);
    WaitersAreOwners(s);
  }

  lemma ResumingKeepsHolder<D>(s: State<D>, t: Thread, a: Action<D>, tok: Token)
    requires InvAt(s, tok) && Enabled(s, t, a) && IsResuming(a)
    ensures HolderOk(Apply(s, t, a), NextToken(s, t, a, tok))
  {
    OthersStay(s, t, a);
    ActorFacts(s, t, tok);
    WaitersAreOwners(s);
  }

  lemma ResumingKeepsInv<D>(s: State<D>, t: Thread, a: Action<D>, tok: Token)
    requires InvAt(s, tok) && Enabled(s, t, a) && IsResuming(a)
    ensures InvAt(Apply(s, t, a), NextToken(s, t, a, tok))
  {
    ResumingKeepsToken(s, t, a, tok);
    ResumingKeepsOwnership(s, t, a);
    ResumingKeepsWaiting(s, t, a, tok);
    ResumingKeepsUrgent(s, t, a, tok);
    ResumingKeepsWaiters(s, t, a, tok);
    ResumingKeepsSignallers(s, t, a, tok);
    ResumingKeepsHolder(s, t, a, tok);
  }

  lemma StepKeepsInv<D>(s: State<D>, t: Thread, a: Action<D>, tok: Token)
    requires InvAt(s, tok) && Enabled(s, t, a)
    ensures InvAt(Apply(s, t, a), NextToken(s, t, a, tok))
  {
    if IsPassing(a) {
      PassingKeepsInv(s, t, a, tok);
    } else if IsWaiting(a) {
      WaitingKeepsInv(s, t, a, tok);
    } else if IsSignalling(a) {
      SignallingKeepsInv(s, t, a, tok);
    } else {
      ResumingKeepsInv(s, t, a, tok);
    }
  }

  // ----- Whole runs -----

  datatype Event<D> = Event(thread: Thread, action: Action<D>)

  ghost predicate StepAt<D>(states: seq<State<D>>, events: seq<Event<D>>, i: nat)
    requires |states| == |events| + 1 && i < |events|
  {
    Enabled(states[i], events[i].thread, events[i].action) &&
    states[i + 1] == Apply(states[i], events[i].thread, events[i].action)
  }

  /** An interleaving of any number of threads, from the freshly constructed monitor. */
  ghost predicate IsRun<D>(states: seq<State<D>>, events: seq<Event<D>>) {
    |states| == |events| + 1 && Init(states[0]) &&
    forall i {:trigger StepAt(states, events, i)} :: 0 <= i < |events| ==> StepAt(states, events, i)
  }

  lemma {:induction false} RunKeepsInv<D>(states: seq<State<D>>, events: seq<Event<D>>, i: nat) returns (tok: Token)
    requires IsRun(states, events) && i <= |events|
    ensures InvAt(states[i], tok)
  {
    if i == 0 {
      InitInv(states[0]);
      tok := AtMutex;
    } else {
      var before := RunKeepsInv(states, events, i - 1);
      assert StepAt(states, events, i - 1);
      var e := events[i - 1];
      StepKeepsInv(states[i - 1], e.thread, e.action, before);
      tok := NextToken(states[i - 1], e.thread, e.action, before);
    }
  }

  /** Sum of the values of all allocated private semaphores. */
  ghost function SemTotal(sems: map<Sem, nat>): nat
    decreases |sems|
  {
    if exists id :: id in sems then
      var id :| id in sems;
      sems[id] + SemTotal(sems - {id})
    else 0
  }

  lemma {:induction false} SemTotalIsBit(sems: map<Sem, nat>, tok: Token)
    requires forall id | id in sems :: sems[id] == Bit(tok == AtSem(id))
    ensures SemTotal(sems) == Bit(tok.AtSem? && tok.id in sems)
    decreases |sems|
  {
    if exists id :: id in sems {
      var id :| id in sems && SemTotal(sems) == sems[id] + SemTotal(sems - {id});
      SemTotalIsBit(sems - {id}, tok);
    }
  }

  function ThreadsInside<D>(s: State<D>): set<Thread> {
    set t | t in s.pc && Holds(s.pc[t])
  }

  lemma InsideIsToken<D>(s: State<D>, tok: Token)
    requires TokenAt(s, tok)
    ensures ThreadsInside(s) == if tok.AtThread? then {tok.t} else {}
  {
    forall t ensures t in ThreadsInside(s) <==> tok.AtThread? && t == tok.t {
      assert t in s.pc ==> (Holds(s.pc[t]) <==> tok == AtThread(t));
    }
  }

  /** Mutual exclusion over whole runs: the mutex count, the values of the private semaphores and the
      number of threads inside always add up to one. */
  lemma OnePermission<D>(states: seq<State<D>>, events: seq<Event<D>>, i: nat)
    requires IsRun(states, events) && i <= |events|
    ensures states[i].mutex + SemTotal(states[i].sems) + |ThreadsInside(states[i])| == 1
  {
    var tok := RunKeepsInv(states, events, i);
    var s := states[i];
    SemTotalIsBit(s.sems, tok);
    InsideIsToken(s, tok);
  }

  /** No step of any run waits on, signals or deletes a semaphore that is not allocated. */
  lemma NoUseAfterFree<D>(states: seq<State<D>>, events: seq<Event<D>>, i: nat)
    requires IsRun(states, events) && i <= |events|
    ensures !states[i].fault
  {
    var _ := RunKeepsInv(states, events, i);
  }

  /** The thread's own code still refers to semaphore `id`. */
  predicate Mentions(pc: PC, id: Sem) {
    Owns(pc, id) || AboutToResumeWaiter(pc, id) || AboutToResumeSignaller(pc, id)
  }

  /** When a call deletes its semaphore, no queue, stack or other thread refers to it any more. */
  lemma DeleteIsSafe<D>(states: seq<State<D>>, events: seq<Event<D>>, i: nat, id: Sem)
    requires IsRun(states, events) && i < |events|
    requires id in states[i].sems && id !in states[i + 1].sems
    ensures id !in states[i].urgent
    ensures forall c | 0 <= c < |states[i].waiting| :: id !in states[i].waiting[c]
    ensures forall t | t in states[i].pc && t != events[i].thread :: !Mentions(states[i].pc[t], id)
  {
    var tok := RunKeepsInv(states, events, i);
    assert StepAt(states, events, i);
    var s, t := states[i], events[i].thread;
    ActorFacts(s, t, tok);
    forall u | u in s.pc && u != t ensures !Mentions(s.pc[u], id) {
      assert !Holds(s.pc[u]);
      assert s.pc[u] == PcOf(s, u);
      assert !Owns(PcOf(s, u), id);
    }
  }

  /** Every queued semaphore is queued exactly once over all queues, and belongs to a thread whose
      call has not been resumed. */
  lemma QueuedOnce<D>(states: seq<State<D>>, events: seq<Event<D>>, i: nat)
    requires IsRun(states, events) && i <= |events|
    ensures var s := states[i];
            (forall c, k, d, l | 0 <= c < |s.waiting| && 0 <= k < |s.waiting[c]| &&
                                 0 <= d < |s.waiting| && 0 <= l < |s.waiting[d]| &&
                                 s.waiting[c][k] == s.waiting[d][l] ::
               c == d && k == l) &&
            (forall c, id | 0 <= c < |s.waiting| && id in s.waiting[c] ::
               id in s.creator && WaitsOn(OwnerPc(s, id), c, id) && id !in s.urgent) &&
            Distinct(s.urgent) &&
            (forall id | id in s.urgent :: id in s.creator && SignalsWith(OwnerPc(s, id), id))
  {
    var tok := RunKeepsInv(states, events, i);
    var s := states[i];
    forall c, k, d, l | 0 <= c < |s.waiting| && 0 <= k < |s.waiting[c]| &&
                        0 <= d < |s.waiting| && 0 <= l < |s.waiting[d]| && s.waiting[c][k] == s.waiting[d][l]
      ensures c == d && k == l
    {
      assert s.waiting[c][k] in s.waiting[c] && s.waiting[d][l] in s.waiting[d];
      assert Distinct(s.waiting[c]);
    }
  }

  // ----- Calls that take effect at once -----

  /** The monitor as its clients see it: who has called `mutex_in` and is not in yet, who is inside, the suspended
      signallers, the waiters of each condition, and the protected data. */
  datatype Spec<D> = Spec(
    entering: set<Thread>,
    inside: Option<Thread>,
    urgent: seq<Thread>,
    waiting: seq<seq<Thread>>,
    shared: D)

  /** The thread inside goes: the last suspended signaller comes in, or nobody. */
  function Depart<D>(a: Spec<D>): Spec<D> {
    var n := |a.urgent|;
    if n == 0 then a.(inside := None) else a.(inside := Some(a.urgent[n - 1]), urgent := a.urgent[..n - 1])
  }

  /** A whole call at once.  A signal suspends the signaller and lets the first waiter in; without a waiter it does
      nothing.  The other steps of the calls change nothing that a client sees. */
  function Call<D>(a: Spec<D>, t: Thread, action: Action<D>): Spec<D> {
    match action
    case CallEnter => a.(entering := a.entering + {t})
    case Acquire => a.(entering := a.entering - {t}, inside := Some(t))
    case Write(d) => a.(shared := d)
    case CallWait(c, _) =>
      if 0 <= c < |a.waiting| then Depart(a.(waiting := a.waiting[c := a.waiting[c] + [t]])) else a
    case CallSignal(c) =>
      if 0 <= c < |a.waiting| && a.waiting[c] != [] then
        a.(inside := Some(a.waiting[c][0]), waiting := a.waiting[c := a.waiting[c][1..]], urgent := a.urgent + [t])
      else a
    case CallLeave => Depart(a)
    case _ => a
  }

  /** Who may call what: the one who is inside, and, when nobody is, one who has called `mutex_in`. */
  predicate May<D>(a: Spec<D>, t: Thread, action: Action<D>) {
    match action
    case CallEnter => a.inside != Some(t) && t !in a.entering
    case Acquire => a.inside == None && t in a.entering
    case Write(_) => a.inside == Some(t)
    case CallWait(c, _) => a.inside == Some(t) && 0 <= c < |a.waiting|
    case CallSignal(c) => a.inside == Some(t) && 0 <= c < |a.waiting|
    case CallLeave => a.inside == Some(t)
    case _ => true
  }

  function Calls<D>(a: Spec<D>, events: seq<Event<D>>): Spec<D> {
    if events == [] then a
    else
      var e := events[|events| - 1];
      Call(Calls(a, events[..|events| - 1]), e.thread, e.action)
  }

  /** A freshly constructed monitor. */
  function NewSpec<D>(conditions: nat, shared: D): Spec<D> {
    Spec({}, None, [], seq(conditions, _ => []), shared)
  }

  // ----- What the clients see of a state -----

  function CreatorOf<D>(s: State<D>, id: Sem): Thread { if id in s.creator then s.creator[id] else 0 }

  function Owners<D>(s: State<D>, q: seq<Sem>): seq<Thread> {
    seq(|q|, i requires 0 <= i < |q| => CreatorOf(s, q[i]))
  }

  function EnteringOf<D>(s: State<D>): set<Thread> { set t | t in s.pc && s.pc[t].Entering? }

  function WaitingOf<D>(s: State<D>): seq<seq<Thread>> {
    seq(|s.waiting|, c requires 0 <= c < |s.waiting| => Owners(s, s.waiting[c]))
  }

  /** A call counts from its first step: from then on somebody else is inside, or nobody. */
  function InsideOf<D>(s: State<D>, tok: Token): Option<Thread> {
    match tok
    case AtMutex => None
    case AtSem(id) => Some(CreatorOf(s, id))
    case AtThread(t) =>
      match PcOf(s, t)
      case WaitPushed(_, _) => if s.urgent == [] then None else Some(CreatorOf(s, s.urgent[|s.urgent| - 1]))
      case WaitFreeMutex(_, _) => None
      case WaitWakeUrgent(_, _, wake) => Some(CreatorOf(s, wake))
      case SignalPopped(ws) => Some(CreatorOf(s, ws))
      case SignalPushed(ws, _) => Some(CreatorOf(s, ws))
      case LeaveFreeMutex => None
      case LeaveWakeUrgent(wake) => Some(CreatorOf(s, wake))
      case _ => Some(t)
  }

  function UrgentOf<D>(s: State<D>, tok: Token): seq<Thread> {
    var all := Owners(s, s.urgent);
    if !tok.AtThread? then all
    else
      match PcOf(s, tok.t)
      case WaitPushed(_, _) => if all == [] then [] else all[..|all| - 1]
      case SignalPopped(_) => all + [tok.t]
      case _ => all
  }

  function SpecOf<D>(s: State<D>, tok: Token): Spec<D> {
    Spec(EnteringOf(s), InsideOf(s, tok), UrgentOf(s, tok), WaitingOf(s), s.shared)
  }

  // ----- The steps refine the calls -----

  /** No step changes the creator of a queued or suspended semaphore. */
  lemma QueuedKeepCreator<D>(s: State<D>, t: Thread, a: Action<D>, tok: Token)
    requires InvAt(s, tok) && Enabled(s, t, a)
    ensures forall c, id | 0 <= c < |s.waiting| && id in s.waiting[c] ::
            CreatorOf(Apply(s, t, a), id) == CreatorOf(s, id)
    ensures forall id | id in s.urgent :: CreatorOf(Apply(s, t, a), id) == CreatorOf(s, id)
  {
    assert s.pc[t] == PcOf(s, t);
    OwnSemaphore(s.pc[t]);
  }

  lemma OwnersStay<D>(s: State<D>, after: State<D>, q: seq<Sem>)
    requires forall id | id in q :: CreatorOf(after, id) == CreatorOf(s, id)
    ensures Owners(after, q) == Owners(s, q)
  {
  }

  lemma SameOwners<D>(s: State<D>, after: State<D>, q: seq<Sem>)
    requires after.creator == s.creator
    ensures Owners(after, q) == Owners(s, q) && forall id :: CreatorOf(after, id) == CreatorOf(s, id)
  {
  }

  lemma OwnersPush<D>(s: State<D>, q: seq<Sem>, id: Sem)
    ensures Owners(s, q + [id]) == Owners(s, q) + [CreatorOf(s, id)]
  {
  }

  lemma OwnersPop<D>(s: State<D>, q: seq<Sem>)
    requires q != []
    ensures Owners(s, q[1..]) == Owners(s, q)[1..] && Owners(s, q[..|q| - 1]) == Owners(s, q)[..|q| - 1]
    ensures Owners(s, q)[0] == CreatorOf(s, q[0]) && Owners(s, q)[|q| - 1] == CreatorOf(s, q[|q| - 1])
  {
  }

  lemma PassingEntering<D>(s: State<D>, t: Thread, a: Action<D>)
    requires Enabled(s, t, a) && IsPassing(a)
    ensures EnteringOf(Apply(s, t, a)) ==
            if a.CallEnter? then EnteringOf(s) + {t} else if a.Acquire? then EnteringOf(s) - {t} else EnteringOf(s)
  {
    var after := Apply(s, t, a);
    assert after.pc.Keys == s.pc.Keys && forall u | u in s.pc && u != t :: after.pc[u] == s.pc[u];
  }

  lemma OtherEntering<D>(s: State<D>, t: Thread, a: Action<D>)
    requires Enabled(s, t, a) && !IsPassing(a)
    ensures EnteringOf(Apply(s, t, a)) == EnteringOf(s)
  {
    var after := Apply(s, t, a);
    assert after.pc.Keys == s.pc.Keys && forall u | u in s.pc && u != t :: after.pc[u] == s.pc[u];
    assert !s.pc[t].Entering? && !after.pc[t].Entering?;
  }

  lemma WaitingStep<D>(s: State<D>, t: Thread, a: Action<D>, tok: Token)
    requires InvAt(s, tok) && Enabled(s, t, a)
    ensures WaitingOf(Apply(s, t, a)) ==
            match a
            case CallWait(c, _) => WaitingOf(s)[c := WaitingOf(s)[c] + [t]]
            case CallSignal(c) => if s.waiting[c] == [] then WaitingOf(s) else WaitingOf(s)[c := WaitingOf(s)[c][1..]]
            case _ => WaitingOf(s)
  {
    var after := Apply(s, t, a);
    QueuedKeepCreator(s, t, a, tok);
    QueuesOf(s, after);
    if a.CallWait? {
      OwnersPush(after, s.waiting[a.c], a.sem);
    } else if a.CallSignal? && s.waiting[a.c] != [] {
      OwnersPop(after, s.waiting[a.c]);
    }
  }

  lemma QueuesOf<D>(s: State<D>, after: State<D>)
    requires forall c, id | 0 <= c < |s.waiting| && id in s.waiting[c] :: CreatorOf(after, id) == CreatorOf(s, id)
    ensures forall c | 0 <= c < |s.waiting| :: Owners(after, s.waiting[c]) == WaitingOf(s)[c]
  {
    forall c | 0 <= c < |s.waiting| ensures Owners(after, s.waiting[c]) == WaitingOf(s)[c] {
      OwnersStay(s, after, s.waiting[c]);
    }
  }

  /** Who is inside and who is suspended after a step, as the clients see it. */
  ghost predicate Agrees<D>(s: State<D>, t: Thread, a: Action<D>, tok: Token)
    requires Enabled(s, t, a)
  {
    var after, next := Apply(s, t, a), NextToken(s, t, a, tok);
    InsideOf(after, next) == Call(SpecOf(s, tok), t, a).inside &&
    UrgentOf(after, next) == Call(SpecOf(s, tok), t, a).urgent
  }

  lemma CallEnterAgrees<D>(s: State<D>, t: Thread, a: Action<D>, tok: Token)
    requires InvAt(s, tok) && Enabled(s, t, a) && a.CallEnter?
    ensures Agrees(s, t, a, tok)
  {
    OthersStay(s, t, a);
    var after := Apply(s, t, a);
    assert after.creator == s.creator;
    SameOwners(s, after, after.urgent);
  }

  lemma AcquireAgrees<D>(s: State<D>, t: Thread, a: Action<D>, tok: Token)
    requires InvAt(s, tok) && Enabled(s, t, a) && a.Acquire?
    ensures Agrees(s, t, a, tok)
  {
    OthersStay(s, t, a);
    var after := Apply(s, t, a);
    assert after.creator == s.creator;
    SameOwners(s, after, after.urgent);
  }

  lemma WriteAgrees<D>(s: State<D>, t: Thread, a: Action<D>, tok: Token)
    requires InvAt(s, tok) && Enabled(s, t, a) && a.Write?
    ensures Agrees(s, t, a, tok)
  {
    assert tok == AtThread(t) && PcOf(s, t) == s.pc[t];
    var after := Apply(s, t, a);
    assert after.creator == s.creator;
    SameOwners(s, after, after.urgent);
  }

  lemma LeaveWakes<D>(s: State<D>, t: Thread)
    requires t in s.pc && s.urgent != []
    ensures var after := Goto(s.(urgent := Popped(s.urgent)), t, LeaveWakeUrgent(Top(s.urgent)));
      var all := Owners(s, s.urgent);
      UrgentOf(after, AtThread(t)) == all[..|all| - 1] && InsideOf(after, AtThread(t)) == Some(all[|all| - 1])
  {
    var after := Goto(s.(urgent := Popped(s.urgent)), t, LeaveWakeUrgent(Top(s.urgent)));
    SameOwners(s, after, after.urgent);
    OwnersPop(s, s.urgent);
  }

  lemma CallLeaveAgrees<D>(s: State<D>, t: Thread, a: Action<D>, tok: Token)
    requires InvAt(s, tok) && Enabled(s, t, a) && a.CallLeave?
    ensures Agrees(s, t, a, tok)
  {
    assert tok == AtThread(t) && PcOf(s, t) == s.pc[t];
    if s.urgent != [] {
      LeaveWakes(s, t);
    } else {
      SameOwners(s, Goto(s, t, LeaveFreeMutex), s.urgent);
    }
  }

  lemma LeaveReleaseAgrees<D>(s: State<D>, t: Thread, a: Action<D>, tok: Token)
    requires InvAt(s, tok) && Enabled(s, t, a) && a.LeaveRelease?
    ensures Agrees(s, t, a, tok)
  {
    assert tok == AtThread(t) && PcOf(s, t) == s.pc[t];
    var after := Apply(s, t, a);
    assert after.creator == s.creator;
    SameOwners(s, after, after.urgent);
  }

  lemma WaitDeparts<D>(s: State<D>, after: State<D>, t: Thread, c: Cond, ws: Sem)
    requires after.urgent == s.urgent && PcOf(after, t) == WaitPushed(c, ws)
    requires forall id | id in s.urgent :: CreatorOf(after, id) == CreatorOf(s, id)
    ensures var all := Owners(s, s.urgent);
      && UrgentOf(after, AtThread(t)) == (if all == [] then [] else all[..|all| - 1])
      && InsideOf(after, AtThread(t)) == if all == [] then None else Some(all[|all| - 1])
  {
    OwnersStay(s, after, s.urgent);
    if s.urgent != [] { OwnersPop(s, s.urgent); }
  }

  lemma CallWaitAgrees<D>(s: State<D>, t: Thread, a: Action<D>, tok: Token)
    requires InvAt(s, tok) && Enabled(s, t, a) && a.CallWait?
    ensures Agrees(s, t, a, tok)
  {
    assert tok == AtThread(t) && PcOf(s, t) == s.pc[t];
    QueuedKeepCreator(s, t, a, tok);
    WaitDeparts(s, Apply(s, t, a), t, a.c, a.sem);
  }

  lemma WaitWakes<D>(s: State<D>, t: Thread, c: Cond, ws: Sem)
    requires t in s.pc && s.urgent != [] && s.pc[t] == WaitPushed(c, ws)
    ensures var after := Goto(s.(urgent := Popped(s.urgent)), t, WaitWakeUrgent(c, ws, Top(s.urgent)));
      && UrgentOf(after, AtThread(t)) == UrgentOf(s, AtThread(t))
      && InsideOf(after, AtThread(t)) == InsideOf(s, AtThread(t))
  {
    var after := Goto(s.(urgent := Popped(s.urgent)), t, WaitWakeUrgent(c, ws, Top(s.urgent)));
    SameOwners(s, after, after.urgent);
    OwnersPop(s, s.urgent);
  }

  lemma WaitTestAgrees<D>(s: State<D>, t: Thread, a: Action<D>, tok: Token)
    requires InvAt(s, tok) && Enabled(s, t, a) && a.WaitTest?
    ensures Agrees(s, t, a, tok)
  {
    assert tok == AtThread(t) && PcOf(s, t) == s.pc[t];
    if s.urgent != [] {
      WaitWakes(s, t, s.pc[t].c, s.pc[t].ws);
    } else {
      SameOwners(s, Goto(s, t, WaitFreeMutex(s.pc[t].c, s.pc[t].ws)), s.urgent);
    }
  }

  lemma WaitReleaseAgrees<D>(s: State<D>, t: Thread, a: Action<D>, tok: Token)
    requires InvAt(s, tok) && Enabled(s, t, a) && a.WaitRelease?
    ensures Agrees(s, t, a, tok)
  {
    assert tok == AtThread(t) && PcOf(s, t) == s.pc[t];
    var after := Apply(s, t, a);
    assert after.creator == s.creator;
    SameOwners(s, after, after.urgent);
  }

  lemma CallSignalAgrees<D>(s: State<D>, t: Thread, a: Action<D>, tok: Token)
    requires InvAt(s, tok) && Enabled(s, t, a) && a.CallSignal?
    ensures Agrees(s, t, a, tok)
  {
    assert tok == AtThread(t) && PcOf(s, t) == s.pc[t];
    var after := Apply(s, t, a);
    assert after.creator == s.creator;
    SameOwners(s, after, after.urgent);
    if s.waiting[a.c] != [] { OwnersPop(s, s.waiting[a.c]); }
  }

  lemma SignalPushAgrees<D>(s: State<D>, t: Thread, a: Action<D>, tok: Token)
    requires InvAt(s, tok) && Enabled(s, t, a) && a.SignalPush?
    ensures Agrees(s, t, a, tok)
  {
    assert tok == AtThread(t) && PcOf(s, t) == s.pc[t];
    ActorFacts(s, t, tok);
    QueuedKeepCreator(s, t, a, tok);
    OwnersStay(s, Apply(s, t, a), s.urgent);
    OwnersPush(Apply(s, t, a), s.urgent, a.sem);
  }

  lemma SignalVAgrees<D>(s: State<D>, t: Thread, a: Action<D>, tok: Token)
    requires InvAt(s, tok) && Enabled(s, t, a) && a.SignalV?
    ensures Agrees(s, t, a, tok)
  {
    assert tok == AtThread(t) && PcOf(s, t) == s.pc[t];
    var after := Apply(s, t, a);
    assert after.creator == s.creator;
    SameOwners(s, after, after.urgent);
  }

  lemma WaitPAgrees<D>(s: State<D>, t: Thread, a: Action<D>, tok: Token)
    requires InvAt(s, tok) && Enabled(s, t, a) && a.WaitP?
    ensures Agrees(s, t, a, tok)
  {
    OthersStay(s, t, a);
    ActorFacts(s, t, tok);
    QueuedKeepCreator(s, t, a, tok);
    OwnersStay(s, Apply(s, t, a), s.urgent);
  }

  lemma WaitDeleteAgrees<D>(s: State<D>, t: Thread, a: Action<D>, tok: Token)
    requires InvAt(s, tok) && Enabled(s, t, a) && a.WaitDelete?
    ensures Agrees(s, t, a, tok)
  {
    assert tok == AtThread(t) && PcOf(s, t) == s.pc[t];
    ActorFacts(s, t, tok);
    QueuedKeepCreator(s, t, a, tok);
    OwnersStay(s, Apply(s, t, a), s.urgent);
  }

  lemma SignalPAgrees<D>(s: State<D>, t: Thread, a: Action<D>, tok: Token)
    requires InvAt(s, tok) && Enabled(s, t, a) && a.SignalP?
    ensures Agrees(s, t, a, tok)
  {
    OthersStay(s, t, a);
    ActorFacts(s, t, tok);
    QueuedKeepCreator(s, t, a, tok);
    OwnersStay(s, Apply(s, t, a), s.urgent);
  }

  lemma SignalDeleteAgrees<D>(s: State<D>, t: Thread, a: Action<D>, tok: Token)
    requires InvAt(s, tok) && Enabled(s, t, a) && a.SignalDelete?
    ensures Agrees(s, t, a, tok)
  {
    assert tok == AtThread(t) && PcOf(s, t) == s.pc[t];
    ActorFacts(s, t, tok);
    QueuedKeepCreator(s, t, a, tok);
    OwnersStay(s, Apply(s, t, a), s.urgent);
  }

  lemma StepAgrees<D>(s: State<D>, t: Thread, a: Action<D>, tok: Token)
    requires InvAt(s, tok) && Enabled(s, t, a)
    ensures Agrees(s, t, a, tok)
  {
    match a {
      case CallEnter => CallEnterAgrees(s, t, a, tok);
      case Acquire => AcquireAgrees(s, t, a, tok);
      case Write(_) => WriteAgrees(s, t, a, tok);
      case CallLeave => CallLeaveAgrees(s, t, a, tok);
      case LeaveRelease => LeaveReleaseAgrees(s, t, a, tok);
      case CallWait(_, _) => CallWaitAgrees(s, t, a, tok);
      case WaitTest => WaitTestAgrees(s, t, a, tok);
      case WaitRelease => WaitReleaseAgrees(s, t, a, tok);
      case CallSignal(_) => CallSignalAgrees(s, t, a, tok);
      case SignalPush(_) => SignalPushAgrees(s, t, a, tok);
      case SignalV => SignalVAgrees(s, t, a, tok);
      case WaitP => WaitPAgrees(s, t, a, tok);
      case WaitDelete => WaitDeleteAgrees(s, t, a, tok);
      case SignalP => SignalPAgrees(s, t, a, tok);
      case SignalDelete => SignalDeleteAgrees(s, t, a, tok);
    }
  }

  /** Whoever counts as inside is in a call or inside. */
  lemma InsideIsBusy<D>(s: State<D>, tok: Token)
    requires InvAt(s, tok) && InsideOf(s, tok).Some?
    ensures var pc := PcOf(s, InsideOf(s, tok).value); !pc.Outside? && !pc.Entering?
  {
    if tok.AtThread? {
      ActorFacts(s, tok.t, tok);
      if s.urgent != [] { assert Top(s.urgent) in s.urgent; }
    }
  }

  lemma StepMay<D>(s: State<D>, t: Thread, a: Action<D>, tok: Token)
    requires InvAt(s, tok) && Enabled(s, t, a)
    ensures May(SpecOf(s, tok), t, a)
  {
    if a.CallEnter? && InsideOf(s, tok).Some? { InsideIsBusy(s, tok); }
  }

  /** One step of any thread is one step of the clients' monitor, or none. */
  lemma StepRefines<D>(s: State<D>, t: Thread, a: Action<D>, tok: Token)
    requires InvAt(s, tok) && Enabled(s, t, a)
    ensures SpecOf(Apply(s, t, a), NextToken(s, t, a, tok)) == Call(SpecOf(s, tok), t, a)
    ensures May(SpecOf(s, tok), t, a)
  {
    StepMay(s, t, a, tok);
    if IsPassing(a) { PassingEntering(s, t, a); } else { OtherEntering(s, t, a); }
    WaitingStep(s, t, a, tok);
    StepAgrees(s, t, a, tok);
    SharedStep(s, t, a, tok);
  }

  lemma SharedStep<D>(s: State<D>, t: Thread, a: Action<D>, tok: Token)
    requires InvAt(s, tok) && Enabled(s, t, a)
    ensures Apply(s, t, a).shared == Call(SpecOf(s, tok), t, a).shared
  {
  }

  /** Every run, whatever the interleaving, refines the monitor whose calls take effect at once: entering, waiting,
      signalling and leaving change who is inside, who is suspended and who waits exactly as the calls say, every
      call is made by the one inside, and the data is what was written last. */
  lemma {:induction false} RunRefines<D>(states: seq<State<D>>, events: seq<Event<D>>, i: nat) returns (tok: Token)
    requires IsRun(states, events) && i <= |events|
    ensures InvAt(states[i], tok)
    ensures SpecOf(states[i], tok) == Calls(NewSpec(|states[0].waiting|, states[0].shared), events[..i])
    ensures i < |events| ==>
              var a := Calls(NewSpec(|states[0].waiting|, states[0].shared), events[..i]);
              May(a, events[i].thread, events[i].action)
  {
    if i == 0 {
      InitInv(states[0]);
      InitSpec(states[0]);
      tok := AtMutex;
    } else {
      var before := RunRefines(states, events, i - 1);
      assert StepAt(states, events, i - 1);
      var e := events[i - 1];
      StepKeepsInv(states[i - 1], e.thread, e.action, before);
      StepRefines(states[i - 1], e.thread, e.action, before);
      tok := NextToken(states[i - 1], e.thread, e.action, before);
      assert events[..i][..i - 1] == events[..i - 1];
    }
    if i < |events| {
      assert StepAt(states, events, i);
      StepMay(states[i], events[i].thread, events[i].action, tok);
    }
  }

  lemma InitSpec<D>(s: State<D>)
    requires Init(s)
    ensures SpecOf(s, AtMutex) == NewSpec(|s.waiting|, s.shared)
  {
    assert forall c | 0 <= c < |s.waiting| :: Owners(s, s.waiting[c]) == [];
    assert WaitingOf(s) == NewSpec(|s.waiting|, s.shared).waiting;
    assert Owners(s, s.urgent) == NewSpec(|s.waiting|, s.shared).urgent;
    assert forall t | t in s.pc :: !s.pc[t].Entering?;
  }

  /** A thread that executes its own code inside is the one that the calls have let in; nobody else is inside then,
      nor about to be. */
  lemma InsideIsTheOne<D>(states: seq<State<D>>, events: seq<Event<D>>, i: nat, t: Thread)
    requires IsRun(states, events) && i <= |events| && PcOf(states[i], t).Inside?
    ensures var a := Calls(NewSpec(|states[0].waiting|, states[0].shared), events[..i]);
      a.inside == Some(t) && a.shared == states[i].shared
  {
    var _ := RunRefines(states, events, i);
  }

  /** A signal on a condition that nobody waits for leaves everything as it is, the signaller inside included. */
  lemma SignalWithoutWaiter<D>(states: seq<State<D>>, events: seq<Event<D>>, i: nat)
    requires IsRun(states, events) && i < |events| && events[i].action.CallSignal?
    requires 0 <= events[i].action.c < |states[i].waiting| && states[i].waiting[events[i].action.c] == []
    ensures var s, after := states[i], states[i + 1];
      && after.mutex == s.mutex && after.sems == s.sems && after.creator == s.creator && after.urgent == s.urgent
      && after.waiting == s.waiting && after.pc == s.pc && after.shared == s.shared && after.fault == s.fault
      && PcOf(after, events[i].thread) == Inside
  {
    assert StepAt(states, events, i);
  }

  /** A write sets the protected data, and no other step changes it. */
  lemma DataIsLastWrite<D>(states: seq<State<D>>, events: seq<Event<D>>, i: nat)
    requires IsRun(states, events) && i <= |events|
    ensures states[i].shared == LastWrite(events[..i], states[0].shared)
  {
    if i > 0 {
      DataIsLastWrite(states, events, i - 1);
      assert StepAt(states, events, i - 1);
      assert events[..i][..i - 1] == events[..i - 1];
    }
  }

  function LastWrite<D>(events: seq<Event<D>>, first: D): D {
    if events == [] then first
    else
      match events[|events| - 1].action
      case Write(d) => d
      case _ => LastWrite(events[..|events| - 1], first)
  }

  // ----- Hand-off -----

  /** While the permission is in a private semaphore, all that others can do is call `mutex_in`. */
  lemma OthersCanOnlyEnter<D>(s: State<D>, e: Event<D>, id: Sem)
    requires InvAt(s, AtSem(id)) && Enabled(s, e.thread, e.action)
    requires id in s.creator && e.thread != s.creator[id]
    ensures e.action.CallEnter?
  {
    ActorFacts(s, e.thread, AtSem(id));
    assert !Holds(s.pc[e.thread]);
  }

  /** Once the permission is in a private semaphore, nothing protected changes until its owner moves. */
  lemma {:induction false} PermissionWaits<D>(states: seq<State<D>>, events: seq<Event<D>>, i: nat, j: nat, id: Sem)
    requires IsRun(states, events) && i <= j <= |events|
    requires InvAt(states[i], AtSem(id)) && id in states[i].creator
    requires forall k | i <= k < j :: events[k].thread != states[i].creator[id]
    ensures InvAt(states[j], AtSem(id)) && states[j].creator == states[i].creator
    ensures states[j].shared == states[i].shared && states[j].waiting == states[i].waiting
    ensures states[j].urgent == states[i].urgent
  {
    if i < j {
      PermissionWaits(states, events, i, j - 1, id);
      assert StepAt(states, events, j - 1);
      var s, e := states[j - 1], events[j - 1];
      OthersCanOnlyEnter(s, e, id);
      StepKeepsInv(s, e.thread, e.action, AtSem(id));
    }
  }

  /** The semaphore a step passes the permission to, if it passes it to one. */
  predicate Resumes<D>(s: State<D>, e: Event<D>, id: Sem) {
    Enabled(s, e.thread, e.action) &&
    match e.action
    case SignalV => s.pc[e.thread].ws == id
    case WaitRelease => s.pc[e.thread].WaitWakeUrgent? && s.pc[e.thread].wake == id
    case LeaveRelease => s.pc[e.thread].LeaveWakeUrgent? && s.pc[e.thread].wake == id
    case _ => false
  }

  lemma ResumePassesPermission<D>(s: State<D>, e: Event<D>, tok: Token, id: Sem)
    requires InvAt(s, tok) && Resumes(s, e, id)
    ensures id in s.creator && id in s.sems && e.thread != s.creator[id]
    ensures OwnerPc(s, id) == SignalBlocked(id) || (OwnerPc(s, id).WaitBlocked? && OwnerPc(s, id).ws == id)
    ensures NextToken(s, e.thread, e.action, tok) == AtSem(id)
    ensures var after := Apply(s, e.thread, e.action);
            after.shared == s.shared && after.waiting == s.waiting && after.urgent == s.urgent &&
            after.creator == s.creator
  {
    ActorFacts(s, e.thread, tok);
    assert Owns(OwnerPc(s, id), id);
  }

  /** The only step of a blocked thread takes the permission and changes nothing protected. */
  lemma OwnerTakesPermission<D>(s: State<D>, e: Event<D>, id: Sem)
    requires InvAt(s, AtSem(id)) && Enabled(s, e.thread, e.action)
    requires id in s.creator && e.thread == s.creator[id]
    ensures e.action.WaitP? || e.action.SignalP?
    ensures var after := Apply(s, e.thread, e.action);
            after.shared == s.shared && after.waiting == s.waiting && after.urgent == s.urgent &&
            ThreadsInside(after) == {e.thread}
  {
    assert Owns(OwnerPc(s, id), id);
    StepKeepsInv(s, e.thread, e.action, AtSem(id));
    InsideIsToken(Apply(s, e.thread, e.action), AtThread(e.thread));
  }

  /** Hoare hand-off: every `V` on a private semaphore goes to a blocked thread, and that thread finds
      the protected state exactly as its resumer left it.
      `i` is the resumer's `V`, `j` the next step of the thread that owns the semaphore. */
  lemma HandOff<D>(states: seq<State<D>>, events: seq<Event<D>>, i: nat, j: nat, id: Sem)
    requires IsRun(states, events) && i < j < |events|
    requires Resumes(states[i], events[i], id)
    ensures id in states[i].creator
    ensures OwnerPc(states[i], id).WaitBlocked? || OwnerPc(states[i], id).SignalBlocked?
    ensures events[j].thread == states[i].creator[id] &&
            (forall k | i < k < j :: events[k].thread != states[i].creator[id]) ==>
              (events[j].action.WaitP? || events[j].action.SignalP?) &&
              states[j + 1].shared == states[i].shared &&
              states[j + 1].waiting == states[i].waiting && states[j + 1].urgent == states[i].urgent &&
              ThreadsInside(states[j + 1]) == {events[j].thread}
  {
    var tok := RunKeepsInv(states, events, i);
    assert StepAt(states, events, i) && StepAt(states, events, j);
    ResumePassesPermission(states[i], events[i], tok, id);
    StepKeepsInv(states[i], events[i].thread, events[i].action, tok);
    if events[j].thread == states[i].creator[id] && forall k | i < k < j :: events[k].thread != states[i].creator[id] {
      PermissionWaits(states, events, i + 1, j, id);
      OwnerTakesPermission(states[j], events[j], id);
    }
  }

  /** A suspended signaller keeps newcomers out: the mutex is not free until it has been resumed. */
  lemma SignallersBeforeNewcomers<D>(states: seq<State<D>>, events: seq<Event<D>>, i: nat, t: Thread)
    requires IsRun(states, events) && i <= |events|
    requires PcOf(states[i], t).SignalBlocked?
    ensures states[i].mutex == 0
    ensures i < |events| ==> !events[i].action.Acquire?
  {
    var tok := RunKeepsInv(states, events, i);
    assert SignalsWith(PcOf(states[i], t), PcOf(states[i], t).s);
    if i < |events| { assert StepAt(states, events, i); }
  }

  /** `a` stands before `b` in the queue. */
  ghost predicate Before(q: seq<Sem>, a: Sem, b: Sem) {
    exists k, l :: 0 <= k < l < |q| && q[k] == a && q[l] == b
  }

  lemma BeforePush(q: seq<Sem>, a: Sem, b: Sem, id: Sem)
    requires Before(q, a, b)
    ensures Before(q + [id], a, b)
  {
    var k, l :| 0 <= k < l < |q| && q[k] == a && q[l] == b;
    assert (q + [id])[k] == a && (q + [id])[l] == b;
  }

  /** Popping the top of the stack leaves the lower element; it may remove the upper one. */
  lemma BeforePopTop(q: seq<Sem>, a: Sem, b: Sem)
    requires Before(q, a, b) && Distinct(q)
    ensures if Top(q) == b then a in Popped(q) && b !in Popped(q) else Before(Popped(q), a, b)
  {
    var k, l :| 0 <= k < l < |q| && q[k] == a && q[l] == b;
    PopDistinct(q);
    assert Popped(q)[k] == a;
    if Top(q) != b { assert Popped(q)[l] == b; }
  }

  lemma BeforePopFront(q: seq<Sem>, a: Sem, b: Sem)
    requires Before(q, a, b) && Distinct(q)
    ensures if q[0] == a then b in q[1..] && a !in q[1..] else Before(q[1..], a, b)
  {
    var k, l :| 0 <= k < l < |q| && q[k] == a && q[l] == b;
    PopDistinct(q);
    assert q[1..][l - 1] == b;
    if q[0] != a { assert q[1..][k - 1] == a; }
  }

  /** The call that owns a stacked semaphore is suspended on it and keeps owning it after a step that
      leaves it on the stack. */
  lemma StackedOwnerStays<D>(s: State<D>, e: Event<D>, tok: Token, id: Sem)
    requires InvAt(s, tok) && Enabled(s, e.thread, e.action)
    requires id in s.urgent && id in Apply(s, e.thread, e.action).urgent
    ensures id in s.creator && id in Apply(s, e.thread, e.action).creator
    ensures Apply(s, e.thread, e.action).creator[id] == s.creator[id]
    ensures SignalsWith(PcOf(s, s.creator[id]), id)
    ensures SignalsWith(PcOf(Apply(s, e.thread, e.action), s.creator[id]), id)
  {
    OthersStay(s, e.thread, e.action);
    StepKeepsInv(s, e.thread, e.action, tok);
  }

  /** The lower signaller is on the stack, under the upper one or after the upper one was popped. */
  ghost predicate UnderOnStack<D>(s: State<D>, low: Sem, high: Sem) {
    low in s.urgent && (high in s.urgent ==> Before(s.urgent, low, high))
  }

  lemma UnderOnStackStep<D>(s: State<D>, e: Event<D>, tok: Token, low: Sem, high: Sem, t: Thread)
    requires InvAt(s, tok) && Enabled(s, e.thread, e.action)
    requires SignalsWith(PcOf(s, t), high)
    requires UnderOnStack(s, low, high)
    ensures UnderOnStack(Apply(s, e.thread, e.action), low, high)
  {
    var after := Apply(s, e.thread, e.action);
    WaitersAreOwners(s);
    ActorFacts(s, e.thread, tok);
    if e.action.SignalPush? {
      assert high in s.sems by { assert Owns(PcOf(s, t), high); }
      if high in s.urgent { BeforePush(s.urgent, low, high, e.action.sem); }
    } else if after.urgent != s.urgent {
      assert Holds(s.pc[e.thread]) && HolderPc(s, tok) == s.pc[e.thread];
      BeforePopTop(s.urgent, low, high);
    }
  }

  lemma LifoStart<D>(s: State<D>, tok: Token, low: Sem, high: Sem)
    requires InvAt(s, tok) && Before(s.urgent, low, high)
    ensures UnderOnStack(s, low, high) && low in s.creator && SignalsWith(PcOf(s, s.creator[low]), low)
  {
  }

  lemma LifoStep<D>(s: State<D>, e: Event<D>, tok: Token, low: Sem, high: Sem, t: Thread)
    requires InvAt(s, tok) && Enabled(s, e.thread, e.action)
    requires SignalsWith(PcOf(s, t), high) && UnderOnStack(s, low, high) && low in s.creator
    ensures var after := Apply(s, e.thread, e.action);
            UnderOnStack(after, low, high) && low in after.creator && after.creator[low] == s.creator[low] &&
            SignalsWith(PcOf(after, s.creator[low]), low)
  {
    UnderOnStackStep(s, e, tok, low, high, t);
    StackedOwnerStays(s, e, tok, low);
  }

  lemma StepOfRun<D>(states: seq<State<D>>, events: seq<Event<D>>, i: nat) returns (tok: Token)
    requires IsRun(states, events) && i < |events|
    ensures InvAt(states[i], tok) && Enabled(states[i], events[i].thread, events[i].action)
    ensures states[i + 1] == Apply(states[i], events[i].thread, events[i].action)
  {
    tok := RunKeepsInv(states, events, i);
    assert StepAt(states, events, i);
  }

  lemma LifoFirst<D>(states: seq<State<D>>, events: seq<Event<D>>, i: nat, low: Sem, high: Sem)
    requires IsRun(states, events) && i <= |events| && Before(states[i].urgent, low, high)
    ensures UnderOnStack(states[i], low, high) && low in states[i].creator
    ensures SignalsWith(PcOf(states[i], states[i].creator[low]), low)
  {
    var tok := RunKeepsInv(states, events, i);
    LifoStart(states[i], tok, low, high);
  }

  lemma LifoNext<D>(states: seq<State<D>>, events: seq<Event<D>>, i: nat, low: Sem, high: Sem, t: Thread)
    requires IsRun(states, events) && i < |events|
    requires SignalsWith(PcOf(states[i], t), high) && UnderOnStack(states[i], low, high) && low in states[i].creator
    ensures UnderOnStack(states[i + 1], low, high)
    ensures low in states[i + 1].creator && states[i + 1].creator[low] == states[i].creator[low]
    ensures SignalsWith(PcOf(states[i + 1], states[i].creator[low]), low)
  {
    var tok := StepOfRun(states, events, i);
    LifoStep(states[i], events[i], tok, low, high, t);
  }

  /** Suspended signallers resume last in, first out: as long as the upper one is suspended,
      so is the lower one. */
  lemma {:induction false} SignallersResumeLifo<D>(
    states: seq<State<D>>, events: seq<Event<D>>, i: nat, j: nat, low: Sem, high: Sem, t: Thread)
    requires IsRun(states, events) && i <= j <= |events|
    requires Before(states[i].urgent, low, high) && low in states[i].creator
    requires forall k | i <= k <= j :: SignalsWith(PcOf(states[k], t), high)
    ensures UnderOnStack(states[j], low, high)
    ensures low in states[j].creator && states[j].creator[low] == states[i].creator[low]
    ensures SignalsWith(PcOf(states[j], states[i].creator[low]), low)
  {
    if i < j {
      SignallersResumeLifo(states, events, i, j - 1, low, high, t);
      LifoNext(states, events, j - 1, low, high, t);
    } else {
      LifoFirst(states, events, j, low, high);
    }
  }

  /** Waiters of one condition: the later one is still queued while the earlier one is not resumed. */
  ghost predicate BehindInQueue<D>(s: State<D>, c: Cond, first: Sem, second: Sem) {
    0 <= c < |s.waiting| && second in s.waiting[c] &&
    (first in s.waiting[c] ==> Before(s.waiting[c], first, second))
  }

  lemma BehindInQueueStep<D>(s: State<D>, e: Event<D>, tok: Token, c: Cond, first: Sem, second: Sem, t: Thread)
    requires InvAt(s, tok) && Enabled(s, e.thread, e.action)
    requires WaitsOn(PcOf(s, t), c, first)
    requires BehindInQueue(s, c, first, second)
    ensures BehindInQueue(Apply(s, e.thread, e.action), c, first, second)
  {
    var after := Apply(s, e.thread, e.action);
    WaitersAreOwners(s);
    ActorFacts(s, e.thread, tok);
    if e.action.CallWait? && e.action.c == c {
      assert first in s.sems by { assert Owns(PcOf(s, t), first); }
      if first in s.waiting[c] { BeforePush(s.waiting[c], first, second, e.action.sem); }
    } else if after.waiting[c] != s.waiting[c] {
      assert Holds(s.pc[e.thread]) && HolderPc(s, tok) == s.pc[e.thread];
      BeforePopFront(s.waiting[c], first, second);
    }
  }

  lemma BehindInQueueNext<D>(
    states: seq<State<D>>, events: seq<Event<D>>, i: nat, c: Cond, first: Sem, second: Sem, t: Thread)
    requires IsRun(states, events) && i < |events| && WaitsOn(PcOf(states[i], t), c, first)
    requires BehindInQueue(states[i], c, first, second)
    ensures BehindInQueue(states[i + 1], c, first, second)
  {
    var tok := StepOfRun(states, events, i);
    BehindInQueueStep(states[i], events[i], tok, c, first, second, t);
  }

  /** Waiters of one condition are resumed first in, first out: as long as the earlier one has not been
      resumed, the later one has not even been signalled. */
  lemma {:induction false} WaitersResumeFifo<D>(
    states: seq<State<D>>, events: seq<Event<D>>, i: nat, j: nat, c: Cond, first: Sem, second: Sem, t: Thread)
    requires IsRun(states, events) && i <= j <= |events| && 0 <= c < |states[i].waiting|
    requires Before(states[i].waiting[c], first, second)
    requires forall k | i <= k <= j :: WaitsOn(PcOf(states[k], t), c, first)
    ensures BehindInQueue(states[j], c, first, second)
  {
    if i < j {
      WaitersResumeFifo(states, events, i, j - 1, c, first, second, t);
      BehindInQueueNext(states, events, j - 1, c, first, second, t);
    }
  }

  // ----- Deadlock -----

  lemma FreshSem(sems: map<Sem, nat>) returns (id: Sem)
    ensures id !in sems && forall x | x in sems :: x < id
    decreases |sems|
  {
    if exists x :: x in sems {
      var x :| x in sems;
      var y := FreshSem(sems - {x});
      id := if x < y then y else x + 1;
      assert forall z | z in sems :: z == x || z in sems - {x};
    } else {
      id := 0;
    }
  }

  /** No call of the monitor can make a step. */
  ghost predicate Stuck<D(!new)>(s: State<D>) {
    forall t, a: Action<D> {:trigger Enabled(s, t, a)} | t in s.pc && !s.pc[t].Outside? :: !Enabled(s, t, a)
  }

  /** Nobody can step exactly when the mutex is free and every call is a `waitCond` that nobody has
      signalled yet; then no signaller is suspended. */
  lemma StuckOnlyOnConditions<D(!new)>(states: seq<State<D>>, events: seq<Event<D>>, i: nat)
    requires IsRun(states, events) && i <= |events|
    ensures var s := states[i];
            Stuck(s) <==>
            s.mutex == 1 &&
            forall t | t in s.pc && !s.pc[t].Outside? ::
              s.pc[t].WaitBlocked? && 0 <= s.pc[t].c < |s.waiting| && s.pc[t].ws in s.waiting[s.pc[t].c]
    ensures Stuck(states[i]) ==> states[i].urgent == []
  {
    var tok := RunKeepsInv(states, events, i);
    var s := states[i];
    if Stuck(s) {
      if tok != AtMutex {
        var t, a := PermissionCanMove(s, tok);
        assert false;
      }
      forall t | t in s.pc && !s.pc[t].Outside?
        ensures s.pc[t].WaitBlocked? && 0 <= s.pc[t].c < |s.waiting| && s.pc[t].ws in s.waiting[s.pc[t].c]
      {
        assert !Enabled(s, t, Acquire);
        if s.pc[t].SignalBlocked? { assert SignalsWith(PcOf(s, t), s.pc[t].s); }
        if s.pc[t].WaitBlocked? { assert WaitsOn(PcOf(s, t), s.pc[t].c, s.pc[t].ws); }
      }
    }
  }

  /** Unless the mutex is free, some call can step. */
  lemma PermissionCanMove<D>(s: State<D>, tok: Token) returns (t: Thread, a: Action<D>)
    requires InvAt(s, tok) && tok != AtMutex
    ensures t in s.pc && !s.pc[t].Outside? && Enabled(s, t, a)
  {
    if tok.AtThread? {
      t := tok.t;
      var id := FreshSem(s.sems);
      a := match s.pc[t]
           case WaitPushed(_, _) => WaitTest
           case WaitResumed(_) => WaitDelete
           case SignalPopped(_) => SignalPush(id)
           case SignalPushed(_, _) => SignalV
           case SignalResumed(_) => SignalDelete
           case Inside => CallLeave
           case LeaveFreeMutex => LeaveRelease
           case LeaveWakeUrgent(_) => LeaveRelease
           case _ => WaitRelease;
    } else {
      assert Owns(OwnerPc(s, tok.id), tok.id);
      t := s.creator[tok.id];
      a := if s.pc[t].WaitBlocked? then WaitP else SignalP;
    }
  }

  // ----- The methods of the class -----

  /** Several steps of one thread with no other thread in between. */
  ghost predicate StepsOf<D>(s: State<D>, t: Thread, actions: seq<Action<D>>, after: State<D>)
    decreases |actions|
  {
    if actions == [] then after == s
    else Enabled(s, t, actions[0]) && StepsOf(Apply(s, t, actions[0]), t, actions[1..], after)
  }

  lemma {:induction false} StepsKeepInv<D>(s: State<D>, t: Thread, actions: seq<Action<D>>, after: State<D>)
    requires Inv(s) && StepsOf(s, t, actions, after)
    ensures Inv(after)
    decreases |actions|
  {
    if actions != [] {
      var tok :| InvAt(s, tok);
      StepKeepsInv(s, t, actions[0], tok);
      StepsKeepInv(Apply(s, t, actions[0]), t, actions[1..], after);
    }
  }

  /** The object: `mutex`, `urgent` and `waiting` are its fields, `sems` the private semaphores on the
      heap.  Each method is the straight-line code between two points where a thread can block. */
  class Monitor<D> {
    var mutex: nat
    var sems: map<Sem, nat>
    var urgent: seq<Sem>
    var waiting: seq<seq<Sem>>
    var shared: D
    ghost var creator: map<Sem, Thread>
    ghost var pc: map<Thread, PC>
    ghost var fault: bool

    ghost function Value(): State<D>
      reads this
    {
      State(mutex, sems, creator, urgent, waiting, pc, shared, fault)
    }

    constructor (conditions: nat, initial: D, ghost threads: set<Thread>)
      ensures Init(Value()) && Inv(Value())
      ensures |waiting| == conditions && shared == initial && pc.Keys == threads
    {
      mutex, sems, urgent, shared := 1, map[], [], initial;
      waiting := seq(conditions, _ => []);
      creator, pc, fault := map[], map t | t in threads :: Outside, false;
      new;
      InitInv(Value());
    }

    /** `mutex.P`, once the mutex lets the thread through. */
    method MutexIn(ghost t: Thread)
      requires Inv(Value()) && Enabled(Value(), t, Acquire)
      modifies this
      ensures StepsOf(old(Value()), t, [Acquire], Value()) && Inv(Value())
      ensures Does(old(Value()), Value(), t, Acquire)
    {
      mutex := mutex - 1;
      pc := pc[t := Inside];
      StepsKeepInv(old(Value()), t, [Acquire], Value());
      FirstCounts(old(Value()), t, [Acquire], Value());
    }

    /** Passes the permission to the last suspended signaller, or frees the mutex. */
    method Release()
      requires forall id | id in urgent :: id in sems
      modifies this`mutex, this`urgent, this`sems
      ensures old(urgent) == [] ==> mutex == old(mutex) + 1 && urgent == [] && sems == old(sems)
      ensures old(urgent) != [] ==>
                mutex == old(mutex) && urgent == Popped(old(urgent)) && Top(old(urgent)) in old(sems) &&
                sems == old(sems)[Top(old(urgent)) := old(sems)[Top(old(urgent))] + 1]
    {
      if urgent == [] {
        mutex := mutex + 1;
      } else {
        var s := urgent[|urgent| - 1];
        assert s in urgent;
        urgent := urgent[..|urgent| - 1];
        sems := sems[s := sems[s] + 1];
      }
    }

    /** `waitCond` up to the point where the thread blocks in `ws->P`. */
    method WaitCond(ghost t: Thread, c: Cond, ws: Sem)
      requires Inv(Value()) && Enabled(Value(), t, CallWait(c, ws))
      modifies this
      ensures StepsOf(old(Value()), t, [CallWait(c, ws), WaitTest, WaitRelease], Value()) && Inv(Value())
      ensures Does(old(Value()), Value(), t, CallWait(c, ws))
    {
      UrgentIsAllocated(Value());
      sems := sems[ws := 0];
      creator := creator[ws := t];
      waiting := waiting[c := waiting[c] + [ws]];
      Release();
      pc := pc[t := WaitBlocked(c, ws)];
      WaitCondDone(old(Value()), t, c, ws, Value());
    }

    /** `waitCond` from `ws->P` to its return. */
    method WaitCondResume(ghost t: Thread, ws: Sem)
      requires Inv(Value()) && Enabled(Value(), t, WaitP) && pc[t].ws == ws && ws in sems
      modifies this
      ensures StepsOf(old(Value()), t, [WaitP, WaitDelete], Value()) && Inv(Value())
      ensures Does(old(Value()), Value(), t, WaitP)
    {
      sems := sems[ws := sems[ws] - 1];
      sems := sems - {ws};
      creator := creator - {ws};
      pc := pc[t := Inside];
      ResumeDone(old(Value()), t, ws, WaitP, WaitDelete, Value());
    }

    /** `signalCond` up to the point where the thread blocks in `s->P`, or to its return. */
    method SignalCond(ghost t: Thread, c: Cond, s: Sem) returns (blocked: bool)
      requires Inv(Value()) && Enabled(Value(), t, CallSignal(c)) && s !in sems
      modifies this
      ensures blocked <==> old(waiting)[c] != []
      ensures var steps := if blocked then [CallSignal(c), SignalPush(s), SignalV] else [CallSignal(c)];
        StepsOf(old(Value()), t, steps, Value())
      ensures !blocked ==> Value() == old(Value())
      ensures Does(old(Value()), Value(), t, CallSignal(c))
      ensures Inv(Value())
    {
      blocked := waiting[c] != [];
      if blocked {
        var ws := waiting[c][0];
        WaitingIsAllocated(Value(), c, ws);
        waiting := waiting[c := waiting[c][1..]];
        sems := sems[s := 0];
        creator := creator[s := t];
        urgent := urgent + [s];
        sems := sems[ws := sems[ws] + 1];
        pc := pc[t := SignalBlocked(s)];
        SignalCondDone(old(Value()), t, c, s, Value());
      } else {
        SignalNothingDone(old(Value()), t, c);
      }
    }

    /** `signalCond` from `s->P` to its return. */
    method SignalCondResume(ghost t: Thread, s: Sem)
      requires Inv(Value()) && Enabled(Value(), t, SignalP) && pc[t].s == s && s in sems
      modifies this
      ensures StepsOf(old(Value()), t, [SignalP, SignalDelete], Value()) && Inv(Value())
      ensures Does(old(Value()), Value(), t, SignalP)
    {
      sems := sems[s := sems[s] - 1];
      sems := sems - {s};
      creator := creator - {s};
      pc := pc[t := Inside];
      ResumeDone(old(Value()), t, s, SignalP, SignalDelete, Value());
    }

    method MutexOut(ghost t: Thread)
      requires Inv(Value()) && Enabled(Value(), t, CallLeave)
      modifies this
      ensures StepsOf(old(Value()), t, [CallLeave, LeaveRelease], Value()) && Inv(Value())
      ensures Does(old(Value()), Value(), t, CallLeave)
    {
      UrgentIsAllocated(Value());
      Release();
      pc := pc[t := Outside];
      MutexOutDone(old(Value()), t, Value());
    }
  }

  /** The calls that the clients' monitor sees when a thread makes some steps. */
  function CallAll<D>(a: Spec<D>, t: Thread, actions: seq<Action<D>>): Spec<D>
    decreases |actions|
  {
    if actions == [] then a else CallAll(Call(a, t, actions[0]), t, actions[1..])
  }

  /** What a method does, the clients' monitor does at once: all its steps but one are invisible. */
  lemma {:induction false} StepsRefine<D>(s: State<D>, t: Thread, actions: seq<Action<D>>, after: State<D>, tok: Token)
    returns (tok': Token)
    requires InvAt(s, tok) && StepsOf(s, t, actions, after)
    ensures InvAt(after, tok') && SpecOf(after, tok') == CallAll(SpecOf(s, tok), t, actions)
    decreases |actions|
  {
    if actions == [] {
      tok' := tok;
    } else {
      StepKeepsInv(s, t, actions[0], tok);
      StepRefines(s, t, actions[0], tok);
      tok' := StepsRefine(Apply(s, t, actions[0]), t, actions[1..], after, NextToken(s, t, actions[0], tok));
    }
  }

  /** The clients' monitor sees exactly one call. */
  ghost predicate Does<D>(s: State<D>, after: State<D>, t: Thread, action: Action<D>) {
    forall tok {:trigger InvAt(s, tok)} | InvAt(s, tok) ::
      exists tok' :: InvAt(after, tok') && SpecOf(after, tok') == Call(SpecOf(s, tok), t, action)
  }

  /** Steps that no client sees. */
  predicate Invisible<D>(a: Action<D>) {
    a.WaitTest? || a.WaitRelease? || a.WaitP? || a.WaitDelete? || a.SignalPush? || a.SignalV? || a.SignalP? ||
    a.SignalDelete? || a.LeaveRelease?
  }

  lemma {:induction false} InvisibleAll<D>(a: Spec<D>, t: Thread, actions: seq<Action<D>>)
    requires forall k | 0 <= k < |actions| :: Invisible(actions[k])
    ensures CallAll(a, t, actions) == a
    decreases |actions|
  {
    if actions != [] {
      assert Invisible(actions[0]);
      InvisibleAll(a, t, actions[1..]);
    }
  }

  lemma FirstCounts<D>(s: State<D>, t: Thread, actions: seq<Action<D>>, after: State<D>)
    requires actions != [] && StepsOf(s, t, actions, after)
    requires forall k | 1 <= k < |actions| :: Invisible(actions[k])
    ensures Does(s, after, t, actions[0])
  {
    forall tok | InvAt(s, tok)
      ensures exists tok' :: InvAt(after, tok') && SpecOf(after, tok') == Call(SpecOf(s, tok), t, actions[0])
    {
      var tok' := StepsRefine(s, t, actions, after, tok);
      InvisibleAll(Call(SpecOf(s, tok), t, actions[0]), t, actions[1..]);
    }
  }

  lemma UrgentIsAllocated<D>(s: State<D>)
    requires Inv(s)
    ensures forall id | id in s.urgent :: id in s.sems
  {
  }

  lemma WaitingIsAllocated<D>(s: State<D>, c: Cond, id: Sem)
    requires Inv(s) && 0 <= c < |s.waiting| && id in s.waiting[c]
    ensures id in s.sems
  {
  }

  lemma OneMore<D>(s: State<D>, t: Thread, a: Action<D>, mid: State<D>, rest: seq<Action<D>>, after: State<D>)
    requires Enabled(s, t, a) && Apply(s, t, a) == mid && StepsOf(mid, t, rest, after)
    ensures StepsOf(s, t, [a] + rest, after)
  {
  }

  function PushedWait<D>(s: State<D>, t: Thread, c: Cond, ws: Sem): State<D>
    requires 0 <= c < |s.waiting|
  {
    Goto(New(s.(waiting := s.waiting[c := s.waiting[c] + [ws]]), t, ws), t, WaitPushed(c, ws))
  }

  function TestedWait<D>(s: State<D>, t: Thread, c: Cond, ws: Sem): State<D> {
    if s.urgent == [] then Goto(s, t, WaitFreeMutex(c, ws))
    else Goto(s.(urgent := Popped(s.urgent)), t, WaitWakeUrgent(c, ws, Top(s.urgent)))
  }

  function ReleasedWait<D>(s: State<D>, t: Thread, c: Cond, ws: Sem): State<D> {
    if s.urgent == [] then Goto(s.(mutex := s.mutex + 1), t, WaitBlocked(c, ws))
    else Goto(V(s.(urgent := Popped(s.urgent)), Top(s.urgent)), t, WaitBlocked(c, ws))
  }

  lemma WaitTestStep<D>(s: State<D>, t: Thread, c: Cond, ws: Sem)
    requires t in s.pc && s.pc[t] == WaitPushed(c, ws)
    ensures StepsOf(s, t, [WaitTest, WaitRelease], ReleasedWait(s, t, c, ws))
  {
    var mid, after := TestedWait(s, t, c, ws), ReleasedWait(s, t, c, ws);
    WaitReleaseStep(s, t, c, ws);
    OneMore(s, t, WaitTest, mid, [WaitRelease], after);
    assert [Action<D>.WaitTest] + [WaitRelease] == [WaitTest, WaitRelease];
  }

  lemma WaitReleaseStep<D>(s: State<D>, t: Thread, c: Cond, ws: Sem)
    requires t in s.pc
    ensures StepsOf(TestedWait(s, t, c, ws), t, [WaitRelease], ReleasedWait(s, t, c, ws))
  {
    var mid, after := TestedWait(s, t, c, ws), ReleasedWait(s, t, c, ws);
    if s.urgent == [] {
      GotoTwice(s.(mutex := s.mutex + 1), t, WaitFreeMutex(c, ws), ws, WaitBlocked(c, ws));
    } else {
      var popped := s.(urgent := Popped(s.urgent));
      GotoTwice(popped, t, WaitWakeUrgent(c, ws, Top(s.urgent)), Top(s.urgent), WaitBlocked(c, ws));
    }
    OneMore(mid, t, WaitRelease, after, [], after);
    assert [Action<D>.WaitRelease] + [] == [WaitRelease];
  }

  lemma ReleasedIs<D>(s: State<D>, t: Thread, c: Cond, ws: Sem, after: State<D>)
    requires 0 <= c < |s.waiting|
    requires after == (
      var pushed := s.(sems := s.sems[ws := 0], creator := s.creator[ws := t],
                       waiting := s.waiting[c := s.waiting[c] + [ws]], pc := s.pc[t := WaitBlocked(c, ws)]);
      if s.urgent == [] then pushed.(mutex := s.mutex + 1)
      else V(pushed.(urgent := Popped(s.urgent)), Top(s.urgent)))
    ensures ReleasedWait(PushedWait(s, t, c, ws), t, c, ws) == after
  {
    assert s.pc[t := WaitPushed(c, ws)][t := WaitBlocked(c, ws)] == s.pc[t := WaitBlocked(c, ws)];
  }

  lemma WaitCondSteps<D>(s: State<D>, t: Thread, c: Cond, ws: Sem, after: State<D>)
    requires Enabled(s, t, CallWait(c, ws))
    requires after == (
      var pushed := s.(sems := s.sems[ws := 0], creator := s.creator[ws := t],
                       waiting := s.waiting[c := s.waiting[c] + [ws]], pc := s.pc[t := WaitBlocked(c, ws)]);
      if s.urgent == [] then pushed.(mutex := s.mutex + 1)
      else V(pushed.(urgent := Popped(s.urgent)), Top(s.urgent)))
    ensures StepsOf(s, t, [CallWait(c, ws), WaitTest, WaitRelease], after)
  {
    var s1 := PushedWait(s, t, c, ws);
    assert Apply(s, t, CallWait(c, ws)) == s1;
    WaitTestStep(s1, t, c, ws);
    ReleasedIs(s, t, c, ws, after);
    OneMore(s, t, CallWait(c, ws), s1, [WaitTest, WaitRelease], after);
    assert [Action<D>.CallWait(c, ws)] + [WaitTest, WaitRelease] == [CallWait(c, ws), WaitTest, WaitRelease];
  }

  /** Moving a thread twice is moving it once, whatever `V` did in between. */
  lemma GotoTwice<D>(s: State<D>, t: Thread, first: PC, id: Sem, second: PC)
    ensures Goto(V(Goto(s, t, first), id), t, second) == Goto(V(s, id), t, second)
    ensures Goto(Goto(s, t, first), t, second) == Goto(s, t, second)
  {
    assert s.pc[t := first][t := second] == s.pc[t := second];
  }

  lemma SignalPushStep<D>(s: State<D>, t: Thread, ws: Sem, id: Sem)
    requires t in s.pc && s.pc[t] == SignalPopped(ws) && id !in s.sems
    ensures StepsOf(s, t, [SignalPush(id), SignalV],
              Goto(V(New(s.(urgent := s.urgent + [id]), t, id), ws), t, SignalBlocked(id)))
  {
    var mid := Goto(New(s.(urgent := s.urgent + [id]), t, id), t, SignalPushed(ws, id));
    var after := Goto(V(New(s.(urgent := s.urgent + [id]), t, id), ws), t, SignalBlocked(id));
    GotoTwice(New(s.(urgent := s.urgent + [id]), t, id), t, SignalPushed(ws, id), ws, SignalBlocked(id));
    OneMore(mid, t, SignalV, after, [], after);
    assert [Action<D>.SignalV] + [] == [SignalV];
    OneMore(s, t, SignalPush(id), mid, [SignalV], after);
    assert [Action<D>.SignalPush(id)] + [SignalV] == [SignalPush(id), SignalV];
  }

  lemma SignalAfter<D>(s: State<D>, t: Thread, waiting: seq<seq<Sem>>, id: Sem, ws: Sem)
    ensures var s1 := Goto(s.(waiting := waiting), t, SignalPopped(ws));
      Goto(V(New(s1.(urgent := s1.urgent + [id]), t, id), ws), t, SignalBlocked(id)) ==
      V(s.(sems := s.sems[id := 0], creator := s.creator[id := t], urgent := s.urgent + [id],
           waiting := waiting, pc := s.pc[t := SignalBlocked(id)]), ws)
  {
    assert s.pc[t := SignalPopped(ws)][t := SignalBlocked(id)] == s.pc[t := SignalBlocked(id)];
  }

  lemma SignalCondSteps<D>(s: State<D>, t: Thread, c: Cond, id: Sem, after: State<D>)
    requires Enabled(s, t, CallSignal(c)) && s.waiting[c] != [] && id !in s.sems
    requires after == V(s.(sems := s.sems[id := 0], creator := s.creator[id := t], urgent := s.urgent + [id],
                           waiting := s.waiting[c := s.waiting[c][1..]], pc := s.pc[t := SignalBlocked(id)]),
                      s.waiting[c][0])
    ensures StepsOf(s, t, [CallSignal(c), SignalPush(id), SignalV], after)
  {
    var s1 := Goto(s.(waiting := s.waiting[c := s.waiting[c][1..]]), t, SignalPopped(s.waiting[c][0]));
    SignalPushStep(s1, t, s.waiting[c][0], id);
    SignalAfter(s, t, s.waiting[c := s.waiting[c][1..]], id, s.waiting[c][0]);
    OneMore(s, t, CallSignal(c), s1, [SignalPush(id), SignalV], after);
    assert [Action<D>.CallSignal(c)] + [SignalPush(id), SignalV] == [CallSignal(c), SignalPush(id), SignalV];
  }

  lemma ResumeSteps<D>(s: State<D>, t: Thread, id: Sem, first: Action<D>, second: Action<D>, after: State<D>)
    requires id in s.sems && Enabled(s, t, first)
    requires (first == WaitP && second == WaitDelete && s.pc[t].ws == id) ||
             (first == SignalP && second == SignalDelete && s.pc[t].s == id)
    requires after == s.(sems := s.sems - {id}, creator := s.creator - {id}, pc := s.pc[t := Inside])
    ensures StepsOf(s, t, [first, second], after)
  {
    var s1 := Apply(s, t, first);
    var s2 := Apply(s1, t, second);
    assert s2.sems == after.sems && s2.pc == after.pc;
    assert StepsOf(s2, t, [], after);
    assert StepsOf(s1, t, [second], after);
  }

  lemma MutexOutSteps<D>(s: State<D>, t: Thread, after: State<D>)
    requires Enabled(s, t, CallLeave)
    requires after == (
      var out := s.(pc := s.pc[t := Outside]);
      if s.urgent == [] then out.(mutex := s.mutex + 1) else V(out.(urgent := Popped(s.urgent)), Top(s.urgent)))
    ensures StepsOf(s, t, [CallLeave, LeaveRelease], after)
  {
    var s1 := Apply(s, t, CallLeave);
    var s2 := Apply(s1, t, LeaveRelease);
    assert s2.pc == after.pc;
    assert StepsOf(s2, t, [], after);
    assert StepsOf(s1, t, [LeaveRelease], after);
  }

  // ----- Whole methods -----

  lemma StepsDone<D>(s: State<D>, t: Thread, actions: seq<Action<D>>, after: State<D>)
    requires Inv(s) && actions != [] && StepsOf(s, t, actions, after)
    requires forall k | 1 <= k < |actions| :: Invisible(actions[k])
    ensures Inv(after) && Does(s, after, t, actions[0])
  {
    StepsKeepInv(s, t, actions, after);
    FirstCounts(s, t, actions, after);
  }

  lemma WaitCondDone<D>(s: State<D>, t: Thread, c: Cond, ws: Sem, after: State<D>)
    requires Inv(s) && Enabled(s, t, CallWait(c, ws))
    requires after == (
      var pushed := s.(sems := s.sems[ws := 0], creator := s.creator[ws := t],
                       waiting := s.waiting[c := s.waiting[c] + [ws]], pc := s.pc[t := WaitBlocked(c, ws)]);
      if s.urgent == [] then pushed.(mutex := s.mutex + 1)
      else V(pushed.(urgent := Popped(s.urgent)), Top(s.urgent)))
    ensures StepsOf(s, t, [CallWait(c, ws), WaitTest, WaitRelease], after)
    ensures Inv(after) && Does(s, after, t, CallWait(c, ws))
  {
    WaitCondSteps(s, t, c, ws, after);
    StepsDone(s, t, [CallWait(c, ws), WaitTest, WaitRelease], after);
  }

  lemma SignalCondDone<D>(s: State<D>, t: Thread, c: Cond, id: Sem, after: State<D>)
    requires Inv(s) && Enabled(s, t, CallSignal(c)) && s.waiting[c] != [] && id !in s.sems
    requires after == V(s.(sems := s.sems[id := 0], creator := s.creator[id := t], urgent := s.urgent + [id],
                           waiting := s.waiting[c := s.waiting[c][1..]], pc := s.pc[t := SignalBlocked(id)]),
                      s.waiting[c][0])
    ensures StepsOf(s, t, [CallSignal(c), SignalPush(id), SignalV], after)
    ensures Inv(after) && Does(s, after, t, CallSignal(c))
  {
    SignalCondSteps(s, t, c, id, after);
    StepsDone(s, t, [CallSignal(c), SignalPush(id), SignalV], after);
  }

  lemma SignalNothingDone<D>(s: State<D>, t: Thread, c: Cond)
    requires Inv(s) && Enabled(s, t, CallSignal(c)) && s.waiting[c] == []
    ensures StepsOf(s, t, [CallSignal(c)], s) && Does(s, s, t, CallSignal(c))
  {
    StepsDone(s, t, [CallSignal(c)], s);
  }

  lemma ResumeDone<D>(s: State<D>, t: Thread, id: Sem, first: Action<D>, second: Action<D>, after: State<D>)
    requires Inv(s) && id in s.sems && Enabled(s, t, first)
    requires (first == WaitP && second == WaitDelete && s.pc[t].ws == id) ||
             (first == SignalP && second == SignalDelete && s.pc[t].s == id)
    requires after == s.(sems := s.sems - {id}, creator := s.creator - {id}, pc := s.pc[t := Inside])
    ensures StepsOf(s, t, [first, second], after)
    ensures Inv(after) && Does(s, after, t, first)
  {
    ResumeSteps(s, t, id, first, second, after);
    StepsDone(s, t, [first, second], after);
  }

  lemma MutexOutDone<D>(s: State<D>, t: Thread, after: State<D>)
    requires Inv(s) && Enabled(s, t, CallLeave)
    requires after == (
      var out := s.(pc := s.pc[t := Outside]);
      if s.urgent == [] then out.(mutex := s.mutex + 1) else V(out.(urgent := Popped(s.urgent)), Top(s.urgent)))
    ensures StepsOf(s, t, [CallLeave, LeaveRelease], after)
    ensures Inv(after) && Does(s, after, t, CallLeave)
  {
    MutexOutSteps(s, t, after);
    StepsDone(s, t, [CallLeave, LeaveRelease], after);
  }
}
