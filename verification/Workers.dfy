/** Admission control of one worker: EDF.cpp. */
module Workers {
  import opened IntervalTrees
  import opened Options

  const UINT32: nat := 0x1_0000_0000

  datatype Task = Task(priority: nat, providedTime: nat, duration: nat, deadline: nat, job: int)

  datatype PriorityComputation = DeadlinePriority | DeadlineWithOriginalOne

  /** The fields are 32-bit unsigned integers. */
  predicate FitsTask(t: Task) {
    t.providedTime < UINT32 && t.duration < UINT32 && t.deadline < UINT32
  }

  function Max(a: nat, b: nat): nat { if a < b then b else a }

  /** The end of the job: a 32-bit sum, which may wrap around. */
  function EndOf(t: Task, now: nat): nat {
    Max(t.deadline, (t.duration + now) % UINT32)
  }

  function IntervalFor(t: Task, now: nat): Interval {
    MakeInterval(now as real, EndOf(t, now) as real, 0)
  }

  function Stamped(t: Task, how: PriorityComputation, now: nat): Task {
    var priority := match how
      case DeadlinePriority => t.deadline
      case DeadlineWithOriginalOne => (UINT32 - 1) * UINT32 + t.deadline;
    t.(providedTime := now, priority := priority)
  }

  /** A worker: its flags, what its tree holds in order of insertion, and its queue. */
  datatype Worker =
    Worker(started: bool, terminating: bool, terminated: bool, accepted: seq<Interval>, queue: multiset<Task>)

  predicate Active(w: Worker) {
    w.started && !w.terminating && !w.terminated
  }

  predicate Free(accepted: seq<Interval>, i: Interval) {
    forall k | 0 <= k < |accepted| :: !IsOverlapping(accepted[k], i)
  }

  predicate Admits(w: Worker, t: Task, now: nat) {
    Active(w) && Free(w.accepted, IntervalFor(t, now))
  }

  function Place(w: Worker, t: Task, how: PriorityComputation, now: nat): Worker {
    w.(accepted := w.accepted + [IntervalFor(t, now)], queue := w.queue + multiset{Stamped(t, how, now)})
  }

  /** `submitJob` on values: the worker afterwards and the answer. */
  function Submit(w: Worker, t: Task, force: bool, how: PriorityComputation, now: nat): (Worker, bool) {
    if Active(w) && (force || Admits(w, t, now)) then (Place(w, t, how, now), true) else (w, false)
  }

  // ----- Whole runs of one worker -----

  datatype Request = Request(task: Task, force: bool, how: PriorityComputation, now: nat)

  function Serve(w: Worker, requests: seq<Request>): Worker {
    if requests == [] then w
    else
      var r := requests[|requests| - 1];
      Submit(Serve(w, requests[..|requests| - 1]), r.task, r.force, r.how, r.now).0
  }

  predicate PairwiseDisjoint(s: seq<Interval>) {
    forall j, k | 0 <= j < k < |s| :: !IsOverlapping(s[j], s[k])
  }

  /** A worker that is never forced only ever accepts intervals that are pairwise disjoint. */
  lemma {:induction false} AcceptedAreDisjoint(w: Worker, requests: seq<Request>)
    requires PairwiseDisjoint(w.accepted)
    requires forall k | 0 <= k < |requests| :: !requests[k].force
    ensures PairwiseDisjoint(Serve(w, requests).accepted)
  {
    if requests != [] {
      AcceptedAreDisjoint(w, requests[..|requests| - 1]);
    }
  }

  predicate ClockNeverDecreases(requests: seq<Request>) {
    forall j, k | 0 <= j <= k < |requests| :: requests[j].now <= requests[k].now
  }

  function MaxEnd(accepted: seq<Interval>): real
    requires accepted != []
  {
    if |accepted| == 1 then accepted[0].high
    else
      var rest := MaxEnd(accepted[..|accepted| - 1]);
      var last := accepted[|accepted| - 1].high;
      if rest < last then last else rest
  }

  lemma {:induction false} MaxEndIsMax(accepted: seq<Interval>)
    requires accepted != []
    ensures forall k | 0 <= k < |accepted| :: accepted[k].high <= MaxEnd(accepted)
    ensures exists k :: 0 <= k < |accepted| && accepted[k].high == MaxEnd(accepted)
  {
    var n := |accepted| - 1;
    if n > 0 {
      MaxEndIsMax(accepted[..n]);
      var k :| 0 <= k < n && accepted[..n][k].high == MaxEnd(accepted[..n]);
      assert accepted[k].high == MaxEnd(accepted[..n]) && accepted[n].high <= MaxEnd(accepted);
    } else {
      assert accepted[0].high == MaxEnd(accepted);
    }
  }

  lemma {:induction false} LowsAreInThePast(w: Worker, requests: seq<Request>, now: nat)
    requires w.accepted == [] && ClockNeverDecreases(requests)
    requires forall k | 0 <= k < |requests| :: requests[k].now <= now
    ensures forall x | x in Serve(w, requests).accepted :: x.low <= now as real
  {
    if requests != [] {
      LowsAreInThePast(w, requests[..|requests| - 1], now);
    }
  }

  /** With a clock that never goes back, the tree test compares one number: the start of the new interval
      with the largest accepted end, forced insertions included. */
  lemma TreeTestIsMaxEndTest(w: Worker, requests: seq<Request>, t: Task, now: nat)
    requires w.accepted == [] && ClockNeverDecreases(requests)
    requires forall k | 0 <= k < |requests| :: requests[k].now <= now
    ensures var accepted := Serve(w, requests).accepted;
            var i := IntervalFor(t, now);
            Free(accepted, i) <==> accepted == [] || i.low > MaxEnd(accepted)
  {
    LowsAreInThePast(w, requests, now);
    var accepted, i := Serve(w, requests).accepted, IntervalFor(t, now);
    if accepted != [] {
      MaxEndIsMax(accepted);
      var k :| 0 <= k < |accepted| && accepted[k].high == MaxEnd(accepted);
      assert accepted[k] in accepted;
    }
  }

  /** That start is the submission time exactly when the deadline has not passed or the end does not wrap
      below the submission time. */
  lemma StartIsNow(t: Task, now: nat)
    requires now < UINT32 && FitsTask(t)
    ensures IntervalFor(t, now).low == now as real <==> t.deadline >= now || t.duration + now < UINT32
  {
    SumWraps(t, now);
  }

  lemma SumWraps(t: Task, now: nat)
    requires now < UINT32 && FitsTask(t)
    ensures (t.duration + now) % UINT32 ==
            if t.duration + now < UINT32 then t.duration + now else t.duration + now - UINT32
  {
  }

  /** A job submitted after every accepted end is refused exactly when its end, wrapped around, is not after
      all of them. */
  lemma LateJobIsRefusedIff(w: Worker, requests: seq<Request>, t: Task, now: nat)
    requires w.accepted == [] && ClockNeverDecreases(requests)
    requires forall k | 0 <= k < |requests| :: requests[k].now <= now
    requires var accepted := Serve(w, requests).accepted; accepted != [] && MaxEnd(accepted) < now as real
    ensures var accepted := Serve(w, requests).accepted;
            !Free(accepted, IntervalFor(t, now)) <==> EndOf(t, now) as real <= MaxEnd(accepted)
    ensures FitsTask(t) && now < UINT32 ==>
              var latest := MaxEnd(Serve(w, requests).accepted);
              !Free(Serve(w, requests).accepted, IntervalFor(t, now)) <==>
              t.duration + now >= UINT32 && t.deadline as real <= latest &&
              (t.duration + now - UINT32) as real <= latest
  {
    TreeTestIsMaxEndTest(w, requests, t, now);
    if FitsTask(t) && now < UINT32 { EndAgainst(t, now, MaxEnd(Serve(w, requests).accepted)); }
  }

  lemma EndAgainst(t: Task, now: nat, latest: real)
    requires FitsTask(t) && now < UINT32 && latest < now as real
    ensures EndOf(t, now) as real <= latest <==>
            t.duration + now >= UINT32 && t.deadline as real <= latest && (t.duration + now - UINT32) as real <= latest
  {
    SumWraps(t, now);
  }

  /** This happens: when the end wraps, a job submitted after every accepted end can be refused. */
  lemma WrappedEndIsRefused() returns (w: Worker, requests: seq<Request>, t: Task, now: nat)
    ensures w.accepted == [] && ClockNeverDecreases(requests) && FitsTask(t) && now < UINT32
    ensures forall k | 0 <= k < |requests| :: requests[k].now <= now && FitsTask(requests[k].task)
    ensures var accepted := Serve(w, requests).accepted;
            accepted != [] && now as real > MaxEnd(accepted) && !Free(accepted, IntervalFor(t, now))
  {
    w := Worker(true, false, false, [], multiset{});
    var first := Request(Task(0, 0, 2, 0, 0), false, DeadlinePriority, 5);
    requests, t, now := [first], Task(0, 0, UINT32 - 7, 0, 1), 10;
    assert requests[..0] == [] && Serve(w, []) == w;
    var accepted := Serve(w, requests).accepted;
    assert accepted == [Interval(5.0, 7.0, 0)];
    assert IntervalFor(t, now) == Interval(3.0, 10.0, 0);
    assert IsOverlapping(accepted[0], IntervalFor(t, now));
  }

  // ----- The worker as its clients see it -----

  /** The time that a job takes up. */
  datatype Span = Span(low: int, high: int)

  /** From now to the deadline or the end of the job, whichever is later.  When that end does not fit into 32 bits,
      it comes out too early by 2^32, and the later of it and the deadline may then lie before now. */
  function SpanOf(t: Task, now: nat): Span {
    var end := t.duration + now;
    if end < 0x1_0000_0000 then Span(now, if t.deadline > end then t.deadline else end)
    else
      var wrapped := end - 0x1_0000_0000;
      var last := if t.deadline > wrapped then t.deadline else wrapped;
      if last < now then Span(last, now) else Span(now, last)
  }

  /** The spans have a time in common. */
  predicate Meet(a: Span, b: Span) { !(a.high < b.low) && !(b.high < a.low) }

  function SpanOfRequest(r: Request): Span { SpanOf(r.task, r.now) }

  /** The requests that a started worker grants: those by force, and those whose span meets no granted one. */
  function Granted(requests: seq<Request>): seq<Request> {
    if requests == [] then []
    else
      var r, before := requests[|requests| - 1], Granted(requests[..|requests| - 1]);
      if r.force || forall k | 0 <= k < |before| :: !Meet(SpanOfRequest(before[k]), SpanOfRequest(r)) then before + [r]
      else before
  }

  function StampedTasks(granted: seq<Request>): multiset<Task> {
    if granted == [] then multiset{}
    else
      var r := granted[|granted| - 1];
      StampedTasks(granted[..|granted| - 1]) + multiset{Stamped(r.task, r.how, r.now)}
  }

  ghost predicate AllFit(requests: seq<Request>) {
    forall k | 0 <= k < |requests| :: FitsTask(requests[k].task) && requests[k].now < UINT32
  }

  /** The accepted interval of a job is its span. */
  lemma IntervalIsSpan(t: Task, now: nat)
    requires now < UINT32 && FitsTask(t)
    ensures IntervalFor(t, now) == Interval(SpanOf(t, now).low as real, SpanOf(t, now).high as real, 0)
  {
    SumWraps(t, now);
  }

  /** Two intervals overlap exactly when their spans meet. */
  lemma OverlapIsMeeting(a: Request, b: Request)
    requires FitsTask(a.task) && a.now < UINT32 && FitsTask(b.task) && b.now < UINT32
    ensures IsOverlapping(IntervalFor(a.task, a.now), IntervalFor(b.task, b.now)) <==>
            Meet(SpanOfRequest(a), SpanOfRequest(b))
  {
    IntervalIsSpan(a.task, a.now);
    IntervalIsSpan(b.task, b.now);
  }

  /** What a worker holds: the spans and the stamped tasks of exactly the granted requests. */
  ghost predicate Holds(w: Worker, granted: seq<Request>) {
    && Active(w) && |w.accepted| == |granted| && w.queue == StampedTasks(granted)
    && forall k | 0 <= k < |granted| :: w.accepted[k] == IntervalFor(granted[k].task, granted[k].now)
  }

  lemma FreeIff(w: Worker, granted: seq<Request>, r: Request)
    requires Holds(w, granted) && AllFit(granted) && FitsTask(r.task) && r.now < UINT32
    ensures Free(w.accepted, IntervalFor(r.task, r.now)) <==>
            forall k | 0 <= k < |granted| :: !Meet(SpanOfRequest(granted[k]), SpanOfRequest(r))
  {
    forall k | 0 <= k < |granted|
      ensures IsOverlapping(w.accepted[k], IntervalFor(r.task, r.now)) <==>
              Meet(SpanOfRequest(granted[k]), SpanOfRequest(r))
    {
      OverlapIsMeeting(granted[k], r);
    }
  }

  lemma {:induction false} ServeHolds(w: Worker, requests: seq<Request>)
    requires Active(w) && w.accepted == [] && w.queue == multiset{} && AllFit(requests)
    ensures Holds(Serve(w, requests), Granted(requests)) && AllFit(Granted(requests))
  {
    if requests != [] {
      var front, r := requests[..|requests| - 1], requests[|requests| - 1];
      ServeHolds(w, front);
      FreeIff(Serve(w, front), Granted(front), r);
      assert (Granted(front) + [r])[..|Granted(front)|] == Granted(front);
    }
  }

  /** Over any sequence of requests to a started worker: its tree holds the spans of the granted requests, its queue
      holds their tasks, stamped, and the next request is granted if and only if it comes by force or its span meets
      none of theirs. */
  lemma ServeIsGreedy(w: Worker, requests: seq<Request>, r: Request)
    requires Active(w) && w.accepted == [] && w.queue == multiset{} && AllFit(requests + [r])
    ensures var after, granted := Serve(w, requests), Granted(requests);
      && |after.accepted| == |granted| && after.queue == StampedTasks(granted)
      && (forall k | 0 <= k < |granted| ::
            var span := SpanOfRequest(granted[k]);
            after.accepted[k] == Interval(span.low as real, span.high as real, 0))
      && (Submit(after, r.task, r.force, r.how, r.now).1 <==>
          r.force || forall k | 0 <= k < |granted| :: !Meet(SpanOfRequest(granted[k]), SpanOfRequest(r)))
  {
    assert (requests + [r])[|requests|] == r && forall k | 0 <= k < |requests| :: (requests + [r])[k] == requests[k];
    ServeHolds(w, requests);
    var after, granted := Serve(w, requests), Granted(requests);
    FreeIff(after, granted, r);
    forall k | 0 <= k < |granted|
      ensures after.accepted[k] ==
              Interval(SpanOfRequest(granted[k]).low as real, SpanOfRequest(granted[k]).high as real, 0)
    {
      IntervalIsSpan(granted[k].task, granted[k].now);
    }
  }

  /** A worker that has not been started, or is to terminate, refuses everything and stays as it is. */
  lemma {:induction false} InactiveRefuses(w: Worker, requests: seq<Request>, r: Request)
    requires !(w.started && !w.terminating && !w.terminated)
    ensures Serve(w, requests) == w && !Submit(w, r.task, r.force, r.how, r.now).1
  {
    if requests != [] { InactiveRefuses(w, requests[..|requests| - 1], r); }
  }

  /** What the stamp changes, and the order of the queue: every delayed task comes before every other one, and among
      tasks of one kind the later deadline comes first. */
  lemma StampedOrder(a: Task, h: PriorityComputation, now: nat, b: Task, g: PriorityComputation, later: nat)
    requires FitsTask(a) && FitsTask(b)
    ensures Stamped(a, h, now).(priority := a.priority) == a.(providedTime := now)
    ensures Stamped(a, h, now).priority > Stamped(b, g, later).priority <==>
            (h != DeadlinePriority && g == DeadlinePriority) || (h == g && a.deadline > b.deadline)
  {
  }

  // ----- The class -----

  class EDF {
    const it: IntervalTree
    var isStarted: bool
    var terminateCmd: bool
    var haveAllTerminated: bool
    var taskQueue: multiset<Task>
    ghost var Repr: set<object>

    ghost predicate Valid()
      reads this, Repr
      ensures Valid() ==> this in Repr && it in Repr
    {
      this in Repr && it in Repr && (it.root != null ==> it.root in Repr) && it.Nodes() <= Repr && it.Valid()
    }

    ghost function Value(): Worker
      reads this, it
    {
      Worker(isStarted, terminateCmd, haveAllTerminated, it.inserted, taskQueue)
    }

    constructor (key: real -> real)
      ensures Valid() && fresh(Repr)
      ensures Value() == Worker(false, false, false, [], multiset{})
    {
      it := new IntervalTree(key);
      isStarted, terminateCmd, haveAllTerminated, taskQueue := false, false, false, multiset{};
      Repr := {this, it};
    }

    /** The flag that `start` sets; a worker that was told to terminate does not start again. */
    method Start()
      requires Valid()
      modifies this`isStarted
      ensures Valid()
      ensures Value() == old(Value()).(started := old(isStarted) || (!terminateCmd && !haveAllTerminated))
    {
      if !haveAllTerminated && !terminateCmd && !isStarted {
        isStarted := true;
      }
    }

    /** The accepting branch of `submitJob`. */
    method Accept(task: Task, how: PriorityComputation, now: nat)
      requires Valid()
      modifies Repr
      ensures Valid() && fresh(Repr - old(Repr))
      ensures Value() == Place(old(Value()), task, how, now)
    {
      var _ := it.InsertInterval(IntervalFor(task, now));
      taskQueue := taskQueue + multiset{Stamped(task, how, now)};
      Repr := Repr + it.Nodes();
    }

    /** The admission test on the tree. */
    method IsFree(i: Interval) returns (free: bool)
      requires Valid()
      ensures free <==> Free(it.inserted, i)
    {
      var hit := it.Lookup(i);
      free := hit == None;
    }

    method SubmitJob(task: Task, forceInsertion: bool, how: PriorityComputation, now: nat) returns (ok: bool)
      requires Valid()
      modifies Repr
      ensures Valid() && fresh(Repr - old(Repr))
      ensures (Value(), ok) == Submit(old(Value()), task, forceInsertion, how, now)
    {
      ok := false;
      if !(haveAllTerminated || terminateCmd || !isStarted) {
        var free := IsFree(IntervalFor(task, now));
        if forceInsertion || free {
          Accept(task, how, now);
          ok := true;
        }
      }
    }
  }
}
