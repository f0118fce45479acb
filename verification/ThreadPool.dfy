/** Placement of tasks on the workers of ThreadPool.h. */
module ThreadPools {
  import opened Workers

  /** Workers 0 .. |workers| - late - 1 are the normal ones, the last `late` ones take delayed tasks. */
  datatype Pool = Pool(workers: seq<Worker>, late: nat, lateCursor: nat, normalCursor: nat)

  function Normal(p: Pool): int { |p.workers| - p.late }

  /** What the class needs: at least one worker of each kind, and cursors that name one. */
  predicate Sound(p: Pool) {
    0 < p.late < |p.workers| && p.lateCursor < p.late && p.normalCursor < Normal(p)
  }

  predicate AllActive(p: Pool) {
    forall w | w in p.workers :: Active(w)
  }

  /** The first clock reading at which the worker admits the task, or |clock|. */
  function FirstAdmitted(w: Worker, t: Task, clock: seq<nat>): (k: nat)
    ensures k <= |clock|
    ensures forall j | 0 <= j < k :: !Admits(w, t, clock[j])
    ensures k < |clock| ==> Admits(w, t, clock[k])
  {
    if clock == [] || Admits(w, t, clock[0]) then 0 else 1 + FirstAdmitted(w, t, clock[1..])
  }

  /** The cursor after attempt `i` of a round that started at `cursor`. */
  function NextCursor(i: nat, cursor: nat, n: nat): (next: nat)
    requires n > 0
    ensures next < n
  {
    ((i + cursor) % n + 1) % n
  }

  /** The pool in which one worker has taken a task. */
  function Given(p: Pool, idx: nat, t: Task, how: PriorityComputation, now: nat): Pool
    requires idx < |p.workers|
  {
    p.(workers := p.workers[idx := Place(p.workers[idx], t, how, now)])
  }

  /** `forceComputationThatWillBeDelayedNevertheless`: every attempt goes to the same worker, the last
      one by force.  `clock` holds the readings of the attempts. */
  function Force(p: Pool, t: Task, clock: seq<nat>): (Pool, bool)
    requires Sound(p) && |clock| == p.late + 1
  {
    var idx := Normal(p) + p.lateCursor;
    var k := FirstAdmitted(p.workers[idx], t, clock[..p.late]);
    if k < p.late then
      (p.(workers := p.workers[idx := Place(p.workers[idx], t, DeadlineWithOriginalOne, clock[k])],
          lateCursor := NextCursor(k, p.lateCursor, p.late)), true)
    else
      var (w, ok) := Submit(p.workers[idx], t, true, DeadlineWithOriginalOne, clock[p.late]);
      (p.(workers := p.workers[idx := w], lateCursor := (p.lateCursor + 1) % p.late), ok)
  }

  /** `submitJob(task)`. */
  function SubmitAny(p: Pool, t: Task, clock: seq<nat>): (Pool, bool)
    requires Sound(p) && |clock| == |p.workers| + 1
  {
    var n, idx := Normal(p), p.normalCursor;
    var k := FirstAdmitted(p.workers[idx], t, clock[..n]);
    if k < n then
      (p.(workers := p.workers[idx := Place(p.workers[idx], t, DeadlinePriority, clock[k])],
          normalCursor := NextCursor(k, p.normalCursor, n)), true)
    else (Force(p, t, clock[n..]).0, false)
  }

  /** `submitJob(idx, task)`. */
  function SubmitTo(p: Pool, idx: nat, t: Task, clock: seq<nat>): (Pool, bool)
    requires Sound(p) && |clock| == p.late + 2
  {
    if idx >= Normal(p) then (p, false)
    else if Admits(p.workers[idx], t, clock[0]) then
      (p.(workers := p.workers[idx := Place(p.workers[idx], t, DeadlinePriority, clock[0])]), true)
    else Force(p, t, clock[1..])
  }

  // ----- Exactly-once placement -----

  /** How worker `idx` computes priorities. */
  function HowAt(p: Pool, idx: nat): PriorityComputation {
    if idx < Normal(p) then DeadlinePriority else DeadlineWithOriginalOne
  }

  /** The late worker whose turn it is. */
  function LateWorker(p: Pool): int { Normal(p) + p.lateCursor }

  /** Worker `idx`, and no other, received `t` once, read at `now`; a normal worker was not forced. */
  ghost predicate PlacedOnceAt(p: Pool, after: Pool, t: Task, idx: nat, now: nat) {
    && idx < |p.workers| == |after.workers| && after.late == p.late
    && after.workers[idx] == Place(p.workers[idx], t, HowAt(p, idx), now)
    && (idx < Normal(p) ==> Admits(p.workers[idx], t, now))
    && (forall k | 0 <= k < |p.workers| && k != idx :: after.workers[k] == p.workers[k])
  }

  /** Attempt `k` is the one that succeeds: the first at which the worker admits the task, or the last one. */
  ghost predicate ServedAt(w: Worker, t: Task, clock: seq<nat>, k: int) {
    && 0 <= k < |clock| && (forall j | 0 <= j < k :: !Admits(w, t, clock[j]))
    && (Admits(w, t, clock[k]) || k == |clock| - 1)
  }

  /** ... at the reading of that attempt. */
  ghost predicate PlacedOnce(p: Pool, after: Pool, t: Task, idx: int, clock: seq<nat>) {
    0 <= idx < |p.workers| &&
    exists k :: ServedAt(p.workers[idx], t, clock, k) && PlacedOnceAt(p, after, t, idx, clock[k])
  }

  /** A delayed task goes to the late worker whose turn it is, at the first attempt at which that worker admits it or
      by force at the last one. */
  lemma ForcePlacesOnce(p: Pool, t: Task, clock: seq<nat>)
    requires Sound(p) && AllActive(p) && |clock| == p.late + 1
    ensures Sound(Force(p, t, clock).0) && Force(p, t, clock).1
    ensures PlacedOnce(p, Force(p, t, clock).0, t, LateWorker(p), clock)
  {
    var idx := LateWorker(p);
    var k := FirstAdmitted(p.workers[idx], t, clock[..p.late]);
    assert p.workers[idx] in p.workers;
    assert forall j | 0 <= j < p.late :: clock[..p.late][j] == clock[j];
    assert ServedAt(p.workers[idx], t, clock, k);
    assert PlacedOnceAt(p, Force(p, t, clock).0, t, idx, clock[k]);
  }

  /** On a started pool, every task goes to exactly one worker's queue, and both cursors stay in range.  The answer
      is true exactly when the normal worker under the cursor admits the task at one of the readings; then the task
      went to that worker, at the first of these readings.  Otherwise it went to the late worker whose turn it is. */
  lemma SubmitPlacesOnce(p: Pool, t: Task, clock: seq<nat>)
    requires Sound(p) && AllActive(p) && |clock| == |p.workers| + 1
    ensures var (after, ok) := SubmitAny(p, t, clock);
      Sound(after) && PlacedOnce(p, after, t, AnyTarget(p, t, clock), AnyAttempts(p, t, clock))
    ensures SubmitAny(p, t, clock).1 <==>
            exists k | 0 <= k < Normal(p) :: Admits(p.workers[p.normalCursor], t, clock[k])
  {
    var n, idx := Normal(p), p.normalCursor;
    var k := FirstAdmitted(p.workers[idx], t, clock[..n]);
    assert forall j | 0 <= j < n :: clock[..n][j] == clock[j];
    if k < n {
      assert ServedAt(p.workers[idx], t, clock[..n], k);
      assert PlacedOnceAt(p, SubmitAny(p, t, clock).0, t, idx, clock[..n][k]);
    } else {
      assert forall j | 0 <= j < n :: !Admits(p.workers[idx], t, clock[j]);
      ForcePlacesOnce(p, t, clock[n..]);
    }
  }

  /** Where a task for any worker goes. */
  function AnyTarget(p: Pool, t: Task, clock: seq<nat>): int
    requires Sound(p) && |clock| == |p.workers| + 1
  {
    if SubmitAny(p, t, clock).1 then p.normalCursor else LateWorker(p)
  }

  /** The readings of the attempts on that worker. */
  function AnyAttempts(p: Pool, t: Task, clock: seq<nat>): seq<nat>
    requires Sound(p) && |clock| == |p.workers| + 1
  {
    if SubmitAny(p, t, clock).1 then clock[..Normal(p)] else clock[Normal(p)..]
  }

  /** Where a task for worker `idx` goes. */
  function Target(p: Pool, idx: nat, t: Task, clock: seq<nat>): int
    requires |clock| > 0
  {
    if idx < |p.workers| && Admits(p.workers[idx], t, clock[0]) then idx else LateWorker(p)
  }

  /** A task for one worker is refused for a late one; otherwise it goes to that worker if it admits the task at the
      first reading, and to the late worker whose turn it is if not. */
  lemma SubmitToPlacesOnce(p: Pool, idx: nat, t: Task, clock: seq<nat>)
    requires Sound(p) && AllActive(p) && |clock| == p.late + 2
    ensures Sound(SubmitTo(p, idx, t, clock).0)
    ensures SubmitTo(p, idx, t, clock).1 <==> idx < Normal(p)
    ensures if idx < Normal(p) then
              PlacedOnce(p, SubmitTo(p, idx, t, clock).0, t, Target(p, idx, t, clock), Attempts(p, idx, t, clock))
            else SubmitTo(p, idx, t, clock).0 == p
  {
    if idx < Normal(p) {
      if Admits(p.workers[idx], t, clock[0]) {
        assert ServedAt(p.workers[idx], t, [clock[0]], 0);
        assert PlacedOnceAt(p, SubmitTo(p, idx, t, clock).0, t, idx, [clock[0]][0]);
      } else {
        ForcePlacesOnce(p, t, clock[1..]);
      }
    }
  }

  /** The readings of the attempts on the worker that gets the task. */
  function Attempts(p: Pool, idx: nat, t: Task, clock: seq<nat>): seq<nat>
    requires |clock| > 0
  {
    if Target(p, idx, t, clock) == idx then [clock[0]] else clock[1..]
  }

  /** The tasks of all queues. */
  function AllQueued(workers: seq<Worker>): multiset<Task> {
    if workers == [] then multiset{} else AllQueued(workers[..|workers| - 1]) + workers[|workers| - 1].queue
  }

  lemma {:induction false} AllQueuedUpdate(workers: seq<Worker>, idx: nat, w: Worker, t: Task)
    requires idx < |workers| && w.queue == workers[idx].queue + multiset{t}
    ensures AllQueued(workers[idx := w]) == AllQueued(workers) + multiset{t}
  {
    var n := |workers| - 1;
    if idx < n {
      AllQueuedUpdate(workers[..n], idx, w, t);
      assert workers[idx := w][..n] == workers[..n][idx := w];
    } else {
      assert workers[idx := w][..n] == workers[..n];
    }
  }

  /** Nothing is lost or duplicated: the queues together gain the task once, stamped with a reading. */
  lemma PlacementConserves(p: Pool, after: Pool, t: Task, idx: nat, clock: seq<nat>)
    requires idx < |p.workers| && PlacedOnce(p, after, t, idx, clock)
    ensures exists k :: ServedAt(p.workers[idx], t, clock, k) &&
              AllQueued(after.workers) == AllQueued(p.workers) + multiset{Stamped(t, HowAt(p, idx), clock[k])}
  {
    var k :| ServedAt(p.workers[idx], t, clock, k) && PlacedOnceAt(p, after, t, idx, clock[k]);
    assert after.workers == p.workers[idx := after.workers[idx]];
    AllQueuedUpdate(p.workers, idx, after.workers[idx], Stamped(t, HowAt(p, idx), clock[k]));
  }

  // ----- Whole runs of the pool -----

  datatype Job = Anywhere(task: Task, clock: seq<nat>) | OnWorker(idx: nat, task: Task, clock: seq<nat>)

  predicate Readings(p: Pool, j: Job) {
    |j.clock| == if j.Anywhere? then |p.workers| + 1 else p.late + 2
  }

  /** The pool after one job. */
  function After(p: Pool, j: Job): (after: Pool)
    requires Sound(p) && AllActive(p) && Readings(p, j)
    ensures Sound(after) && AllActive(after) && |after.workers| == |p.workers| && after.late == p.late
  {
    match j
    case Anywhere(t, clock) =>
      SubmitPlacesOnce(p, t, clock);
      PlacedStaysActive(p, SubmitAny(p, t, clock).0, t, AnyTarget(p, t, clock), AnyAttempts(p, t, clock));
      SubmitAny(p, t, clock).0
    case OnWorker(idx, t, clock) =>
      SubmitToPlacesOnce(p, idx, t, clock);
      if idx < Normal(p) then
        PlacedStaysActive(p, SubmitTo(p, idx, t, clock).0, t, Target(p, idx, t, clock), Attempts(p, idx, t, clock));
        SubmitTo(p, idx, t, clock).0
      else SubmitTo(p, idx, t, clock).0
  }

  function Run(p: Pool, jobs: seq<Job>): (after: Pool)
    requires Sound(p) && AllActive(p) && forall j | j in jobs :: Readings(p, j)
    ensures Sound(after) && AllActive(after) && |after.workers| == |p.workers| && after.late == p.late
  {
    if jobs == [] then p
    else
      var before, j := Run(p, jobs[..|jobs| - 1]), jobs[|jobs| - 1];
      assert j in jobs && Readings(p, j);
      After(before, j)
  }

  lemma PlacedStaysActive(p: Pool, after: Pool, t: Task, idx: int, clock: seq<nat>)
    requires AllActive(p) && PlacedOnce(p, after, t, idx, clock)
    ensures AllActive(after)
  {
    var k :| ServedAt(p.workers[idx], t, clock, k) && PlacedOnceAt(p, after, t, idx, clock[k]);
    forall k | 0 <= k < |after.workers| ensures Active(after.workers[k]) { assert p.workers[k] in p.workers; }
  }

  ghost predicate NormalDisjoint(p: Pool) {
    forall k | 0 <= k < Normal(p) && k < |p.workers| :: PairwiseDisjoint(p.workers[k].accepted)
  }

  lemma PlacementKeepsDisjoint(p: Pool, after: Pool, t: Task, idx: int, clock: seq<nat>)
    requires NormalDisjoint(p) && PlacedOnce(p, after, t, idx, clock)
    ensures NormalDisjoint(after)
  {
    var k :| ServedAt(p.workers[idx], t, clock, k) && PlacedOnceAt(p, after, t, idx, clock[k]);
  }

  /** Admission safety: whatever is submitted to a pool, the intervals that a normal worker has accepted
      are always pairwise disjoint. */
  lemma {:induction false} NormalWorkersStayDisjoint(p: Pool, jobs: seq<Job>)
    requires Sound(p) && AllActive(p) && NormalDisjoint(p) && forall j | j in jobs :: Readings(p, j)
    ensures NormalDisjoint(Run(p, jobs))
  {
    if jobs != [] {
      assert jobs[|jobs| - 1] in jobs;
      NormalWorkersStayDisjoint(p, jobs[..|jobs| - 1]);
      AfterStaysDisjoint(Run(p, jobs[..|jobs| - 1]), jobs[|jobs| - 1]);
    }
  }

  lemma AfterStaysDisjoint(p: Pool, j: Job)
    requires Sound(p) && AllActive(p) && NormalDisjoint(p) && Readings(p, j)
    ensures NormalDisjoint(After(p, j))
  {
    match j
    case Anywhere(t, clock) =>
      SubmitPlacesOnce(p, t, clock);
      PlacementKeepsDisjoint(p, SubmitAny(p, t, clock).0, t, AnyTarget(p, t, clock), AnyAttempts(p, t, clock));
    case OnWorker(idx, t, clock) =>
      SubmitToPlacesOnce(p, idx, t, clock);
      if idx < Normal(p) {
        PlacementKeepsDisjoint(
          p, SubmitTo(p, idx, t, clock).0, t, Target(p, idx, t, clock), Attempts(p, idx, t, clock));
      }
  }

  /** Every task is admitted by the worker under the cursor at the first attempt. */
  ghost predicate AdmittedAtOnce(p: Pool, jobs: seq<Job>)
    requires Sound(p) && AllActive(p) && forall j | j in jobs :: Readings(p, j)
  {
    jobs != [] ==>
      var rest, j := jobs[..|jobs| - 1], jobs[|jobs| - 1];
      j in jobs && AdmittedAtOnce(p, rest) && j.Anywhere? && j.clock != [] &&
      Admits(Run(p, rest).workers[Run(p, rest).normalCursor], j.task, j.clock[0])
  }

  /** The next of `n` workers. */
  function Following(cursor: nat, n: nat): nat { if cursor + 1 == n then 0 else cursor + 1 }

  /** The cursor after `k` turns. */
  function Turn(cursor: nat, k: nat, n: nat): nat {
    if k == 0 then cursor else Following(Turn(cursor, k - 1, n), n)
  }

  lemma {:induction false} TurnIsRemainder(cursor: nat, k: nat, n: nat) returns (q: nat)
    requires cursor < n
    ensures Turn(cursor, k, n) < n && cursor + k == q * n + Turn(cursor, k, n)
  {
    if k == 0 {
      q := 0;
    } else {
      q := TurnIsRemainder(cursor, k - 1, n);
      if Turn(cursor, k, n) == 0 {
        AtLeast(q + 1, q, n);
        q := q + 1;
      }
    }
  }

  /** After `k` turns the cursor has advanced by `k`, modulo the number of workers. */
  lemma TurnIs(cursor: nat, k: nat, n: nat)
    requires cursor < n
    ensures Turn(cursor, k, n) == (cursor + k) % n
  {
    var q := TurnIsRemainder(cursor, k, n);
    ModUnique(cursor + k, q, Turn(cursor, k, n), n);
  }

  /** A task that the normal worker under the cursor admits at attempt `k` and not before turns the normal cursor
      `k + 1` times, and leaves the other one alone. */
  lemma NormalTurns(p: Pool, t: Task, clock: seq<nat>, k: nat)
    requires Sound(p) && |clock| == |p.workers| + 1 && k < Normal(p)
    requires Admits(p.workers[p.normalCursor], t, clock[k])
    requires forall j | 0 <= j < k :: !Admits(p.workers[p.normalCursor], t, clock[j])
    ensures SubmitAny(p, t, clock).0.normalCursor == Turn(p.normalCursor, k + 1, Normal(p))
    ensures SubmitAny(p, t, clock).0.lateCursor == p.lateCursor
  {
    var n := Normal(p);
    assert forall j | 0 <= j < n :: clock[..n][j] == clock[j];
    assert FirstAdmitted(p.workers[p.normalCursor], t, clock[..n]) == k;
    NextIsTurn(k, p.normalCursor, n);
  }

  /** A delayed task that the late worker admits at attempt `k` and not before turns the late cursor `k + 1` times;
      one that comes to force turns it once.  The normal cursor stays. */
  lemma LateTurns(p: Pool, t: Task, clock: seq<nat>, k: nat)
    requires Sound(p) && AllActive(p) && |clock| == p.late + 1
    requires ServedAt(p.workers[LateWorker(p)], t, clock, k)
    ensures Force(p, t, clock).0.lateCursor == Turn(p.lateCursor, if k < p.late then k + 1 else 1, p.late)
    ensures Force(p, t, clock).0.normalCursor == p.normalCursor
  {
    assert forall j | 0 <= j < p.late :: clock[..p.late][j] == clock[j];
    assert FirstAdmitted(p.workers[LateWorker(p)], t, clock[..p.late]) == k;
    if k < p.late { NextIsTurn(k, p.lateCursor, p.late); } else { TurnOnce(p.lateCursor, p.late); }
  }

  lemma TurnOnce(cursor: nat, n: nat)
    requires cursor < n
    ensures Turn(cursor, 1, n) == (cursor + 1) % n
  {
    TurnIs(cursor, 1, n);
  }

  /** Tasks that are admitted at once go round the normal workers, one after the other. */
  lemma {:induction false} RoundRobin(p: Pool, jobs: seq<Job>)
    requires Sound(p) && AllActive(p) && forall j | j in jobs :: Readings(p, j)
    requires AdmittedAtOnce(p, jobs)
    ensures Run(p, jobs).normalCursor == Turn(p.normalCursor, |jobs|, Normal(p))
    ensures Run(p, jobs).lateCursor == p.lateCursor
  {
    if jobs != [] {
      var rest, j := jobs[..|jobs| - 1], jobs[|jobs| - 1];
      RoundRobin(p, rest);
      RunAnywhere(p, jobs);
      OneRound(Run(p, rest), j.task, j.clock);
    }
  }

  /** The readings that are left for the late worker. */
  function Window(p: Pool, j: Job): seq<nat> {
    if j.Anywhere? then if 0 <= Normal(p) <= |j.clock| then j.clock[Normal(p)..] else []
    else if j.clock == [] then [] else j.clock[1..]
  }

  /** The normal worker that is asked admits the task at none of its readings, and the late worker whose turn it is
      takes it at its first attempt or by force. */
  ghost predicate Delayed(p: Pool, j: Job) {
    && Sound(p) && Readings(p, j)
    && (match j
        case Anywhere(t, clock) => forall k | 0 <= k < Normal(p) :: !Admits(p.workers[p.normalCursor], t, clock[k])
        case OnWorker(idx, t, clock) => idx < Normal(p) && !Admits(p.workers[idx], t, clock[0]))
    && (ServedAt(p.workers[LateWorker(p)], j.task, Window(p, j), 0) ||
        ServedAt(p.workers[LateWorker(p)], j.task, Window(p, j), p.late))
  }

  ghost predicate AllDelayed(p: Pool, jobs: seq<Job>)
    requires Sound(p) && AllActive(p) && forall j | j in jobs :: Readings(p, j)
  {
    jobs != [] ==>
      AllDelayed(p, jobs[..|jobs| - 1]) && Delayed(Run(p, jobs[..|jobs| - 1]), jobs[|jobs| - 1])
  }

  lemma DelayedIsForced(p: Pool, j: Job)
    requires Sound(p) && AllActive(p) && Delayed(p, j)
    ensures |Window(p, j)| == p.late + 1 && After(p, j) == Force(p, j.task, Window(p, j)).0
  {
    if j.Anywhere? {
      var n := Normal(p);
      assert forall k | 0 <= k < n :: j.clock[..n][k] == j.clock[k];
      assert FirstAdmitted(p.workers[p.normalCursor], j.task, j.clock[..n]) == n;
    }
  }

  lemma OneLateTurn(p: Pool, j: Job)
    requires Sound(p) && AllActive(p) && Delayed(p, j)
    ensures var after := After(p, j);
      && after.lateCursor == Following(p.lateCursor, p.late) && after.normalCursor == p.normalCursor
      && PlacedOnce(p, after, j.task, LateWorker(p), Window(p, j))
  {
    var clock := Window(p, j);
    DelayedIsForced(p, j);
    ForcePlacesOnce(p, j.task, clock);
    LateTurns(p, j.task, clock, if ServedAt(p.workers[LateWorker(p)], j.task, clock, 0) then 0 else p.late);
    assert Turn(p.lateCursor, 1, p.late) == Following(Turn(p.lateCursor, 0, p.late), p.late);
  }

  /** Delayed tasks go round the late workers, one after the other: the cursor takes one turn for each of them ... */
  lemma {:induction false} LateRoundRobin(p: Pool, jobs: seq<Job>)
    requires Sound(p) && AllActive(p) && forall j | j in jobs :: Readings(p, j)
    requires AllDelayed(p, jobs)
    ensures Run(p, jobs).lateCursor == Turn(p.lateCursor, |jobs|, p.late)
    ensures Run(p, jobs).normalCursor == p.normalCursor
  {
    if jobs != [] {
      LateRoundRobin(p, jobs[..|jobs| - 1]);
      OneLateTurn(Run(p, jobs[..|jobs| - 1]), jobs[|jobs| - 1]);
    }
  }

  /** ... and the next delayed task goes to the late worker that many turns on. */
  lemma LateTaskGoesRound(p: Pool, jobs: seq<Job>, j: Job)
    requires Sound(p) && AllActive(p) && forall j | j in jobs :: Readings(p, j)
    requires AllDelayed(p, jobs) && Delayed(Run(p, jobs), j)
    ensures var before := Run(p, jobs);
      && LateWorker(before) == Normal(p) + Turn(p.lateCursor, |jobs|, p.late)
      && PlacedOnce(before, After(before, j), j.task, LateWorker(before), Window(before, j))
  {
    LateRoundRobin(p, jobs);
    OneLateTurn(Run(p, jobs), j);
  }

  lemma RunAnywhere(p: Pool, jobs: seq<Job>)
    requires Sound(p) && AllActive(p) && forall j | j in jobs :: Readings(p, j)
    requires jobs != [] && AdmittedAtOnce(p, jobs)
    ensures var rest, j := jobs[..|jobs| - 1], jobs[|jobs| - 1];
      && j.Anywhere? && |j.clock| == |p.workers| + 1
      && Admits(Run(p, rest).workers[Run(p, rest).normalCursor], j.task, j.clock[0])
      && Run(p, jobs) == SubmitAny(Run(p, rest), j.task, j.clock).0
  {
    assert jobs[|jobs| - 1] in jobs;
  }

  lemma OneRound(p: Pool, t: Task, clock: seq<nat>)
    requires Sound(p) && |clock| == |p.workers| + 1 && Admits(p.workers[p.normalCursor], t, clock[0])
    ensures SubmitAny(p, t, clock).0.normalCursor == Following(p.normalCursor, Normal(p))
    ensures SubmitAny(p, t, clock).0.lateCursor == p.lateCursor
  {
    var n := Normal(p);
    NextIsTurn(0, p.normalCursor, n);
    assert clock[..n][0] == clock[0];
    assert FirstAdmitted(p.workers[p.normalCursor], t, clock[..n]) == 0;
  }

  /** The next cursor after attempt `i` is `i + 1` turns on. */
  lemma NextIsTurn(i: nat, cursor: nat, n: nat)
    requires i < n && cursor < n
    ensures NextCursor(i, cursor, n) == Turn(cursor, i + 1, n)
  {
    TurnIs(cursor, i, n);
    TurnBelow(cursor, i, n);
    NextOf(i, cursor, n, Turn(cursor, i, n));
  }

  lemma NextOf(i: nat, cursor: nat, n: nat, c: nat)
    requires c < n && c == (cursor + i) % n
    ensures NextCursor(i, cursor, n) == Following(c, n)
  {
    assert i + cursor == cursor + i;
    if c + 1 < n { SmallMod(c + 1, n); }
  }

  lemma TurnBelow(cursor: nat, k: nat, n: nat)
    requires cursor < n
    ensures Turn(cursor, k, n) < n
  {
    var _ := TurnIsRemainder(cursor, k, n);
  }

  lemma SmallMod(a: nat, n: nat)
    requires a < n
    ensures a % n == a
  {
  }

  lemma ModUnique(a: nat, q: nat, r: nat, n: nat)
    requires r < n && a == q * n + r
    ensures a % n == r
  {
    var k, m := a / n, a % n;
    assert a == k * n + m;
    if k > q { AtLeast(k, q, n); } else if k < q { AtLeast(q, k, n); }
  }

  lemma AtLeast(k: nat, q: nat, n: nat)
    requires k > q
    ensures k * n >= q * n + n
  {
    var d: nat := k - q - 1;
    assert k * n == (q + 1 + d) * n == q * n + n + d * n;
  }

  /** `submitJob(task)` asks one normal worker only: a task can go to a late worker although another normal worker
      would admit it at every reading. */
  lemma IdleWorkerIsIgnored() returns (p: Pool, t: Task, clock: seq<nat>)
    ensures Sound(p) && AllActive(p) && |clock| == |p.workers| + 1
    ensures !SubmitAny(p, t, clock).1 && PlacedOnce(p, SubmitAny(p, t, clock).0, t, LateWorker(p), clock[Normal(p)..])
    ensures exists k | 0 <= k < Normal(p) :: forall now | now in clock :: Admits(p.workers[k], t, now)
  {
    var idle := Worker(true, false, false, [], multiset{});
    t, clock := Task(0, 0, 1, 0, 0), [5, 5, 5, 5];
    var busy := Place(idle, t, DeadlinePriority, 5);
    p := Pool([busy, idle, idle], 1, 0, 0);
    assert busy.accepted[0] == IntervalFor(t, 5);
    assert !Admits(busy, t, 5) && Admits(idle, t, 5);
    assert forall k | 0 <= k < 2 :: clock[k] == 5;
    SubmitPlacesOnce(p, t, clock);
    assert Normal(p) == 2 && p.workers[1] == idle && forall now | now in clock :: Admits(p.workers[1], t, now);
  }

  // ----- The class -----

  class ThreadPool {
    const t: seq<EDF>
    const lateThreads: nat
    var roundRobinLates: nat
    var roundRobinNormies: nat
    ghost var Repr: set<object>

    ghost var model: Pool

    /** The workers are valid and apart from each other. */
    ghost predicate Apart()
      reads this, Repr
      ensures Apart() ==> this in Repr
    {
      && this in Repr
      && (forall k {:trigger t[k]} | 0 <= k < |t| ::
            t[k] in Repr && t[k].Repr <= Repr && this !in t[k].Repr && t[k].Valid())
      && (forall j, k {:trigger t[j], t[k]} | 0 <= j < k < |t| :: t[j].Repr !! t[k].Repr)
    }

    /** `model` is the value that the workers and the cursors represent. */
    ghost predicate Valid()
      reads this, Repr
      ensures Valid() ==> this in Repr
    {
      && Apart() && |model.workers| == |t|
      && (forall k {:trigger t[k]} | 0 <= k < |t| :: model.workers[k] == t[k].Value())
      && model.late == lateThreads && model.lateCursor == roundRobinLates && model.normalCursor == roundRobinNormies
    }

    /** `t[idx].submitJob`. */
    method AskWorker(idx: nat, task: Task, force: bool, how: PriorityComputation, now: nat) returns (ok: bool)
      requires Apart() && idx < |t|
      modifies Repr
      ensures Apart() && fresh(Repr - old(Repr)) && model == old(model)
      ensures roundRobinLates == old(roundRobinLates) && roundRobinNormies == old(roundRobinNormies)
      ensures (t[idx].Value(), ok) == Submit(old(t[idx].Value()), task, force, how, now)
      ensures forall k {:trigger t[k]} | 0 <= k < |t| && k != idx :: t[k].Value() == old(t[k].Value())
    {
      assert forall k {:trigger t[k]} | 0 <= k < |t| && k != idx :: t[k].Repr !! t[idx].Repr;
      ok := t[idx].SubmitJob(task, force, how, now);
      Repr := Repr + t[idx].Repr;
    }

    /** The same, seen from the pool. */
    method Ask(idx: nat, task: Task, force: bool, how: PriorityComputation, now: nat) returns (ok: bool)
      requires Valid() && idx < |t|
      modifies Repr
      ensures Valid() && fresh(Repr - old(Repr))
      ensures ok == Submit(old(model).workers[idx], task, force, how, now).1
      ensures model == old(model).(workers := model.workers)
      ensures var was := old(model).workers;
        model.workers == if ok then was[idx := Place(was[idx], task, how, now)] else was
    {
      ok := AskWorker(idx, task, force, how, now);
      model := model.(workers := model.workers[idx := t[idx].Value()]);
      assert !ok ==> model.workers == old(model).workers;
    }

    constructor (n: nat, lateThreads: nat, key: real -> real)
      requires 0 < lateThreads < n
      ensures Valid() && fresh(Repr) && Sound(model)
      ensures model == Pool(seq(n, _ => Worker(false, false, false, [], multiset{})), lateThreads, 0, 0)
    {
      var workers: seq<EDF> := [];
      ghost var repr: set<object> := {};
      while |workers| < n
        invariant |workers| <= n
        invariant forall k {:trigger workers[k]} | 0 <= k < |workers| ::
                    workers[k] in repr && workers[k].Repr <= repr && workers[k].Valid() &&
                    workers[k].Value() == Worker(false, false, false, [], multiset{})
        invariant forall j, k {:trigger workers[j], workers[k]} | 0 <= j < k < |workers| ::
                  workers[j].Repr !! workers[k].Repr
        invariant fresh(repr)
        modifies {}
      {
        var w := new EDF(key);
        workers := workers + [w];
        repr := repr + w.Repr;
      }
      t, this.lateThreads, roundRobinLates, roundRobinNormies := workers, lateThreads, 0, 0;
      Repr := repr + {this};
      model := Pool(seq(n, _ => Worker(false, false, false, [], multiset{})), lateThreads, 0, 0);
    }

    /** The loop of both round robins: it asks the same worker at every reading until the worker admits the
        task, and returns the number of refusals. */
    method AskRepeatedly(idx: nat, task: Task, how: PriorityComputation, clock: seq<nat>) returns (k: nat)
      requires Valid() && idx < |t|
      modifies Repr
      ensures Valid() && fresh(Repr - old(Repr))
      ensures k == FirstAdmitted(old(model).workers[idx], task, clock)
      ensures model == if k < |clock| then Given(old(model), idx, task, how, clock[k]) else old(model)
    {
      k := 0;
      while k < |clock|
        invariant k <= |clock| && Valid() && fresh(Repr - old(Repr)) && model == old(model)
        invariant forall j | 0 <= j < k :: !Admits(model.workers[idx], task, clock[j])
      {
        var taken := Ask(idx, task, false, how, clock[k]);
        if taken {
          return;
        }
        k := k + 1;
      }
    }

    method MoveLateCursor(next: nat)
      requires Valid()
      modifies this`roundRobinLates, this`model
      ensures Valid() && model == old(model).(lateCursor := next)
    {
      roundRobinLates := next;
      model := model.(lateCursor := next);
    }

    method MoveNormalCursor(next: nat)
      requires Valid()
      modifies this`roundRobinNormies, this`model
      ensures Valid() && model == old(model).(normalCursor := next)
    {
      roundRobinNormies := next;
      model := model.(normalCursor := next);
    }

    method ForceComputationThatWillBeDelayedNevertheless(task: Task, clock: seq<nat>) returns (result: bool)
      requires Valid() && Sound(model) && |clock| == lateThreads + 1
      modifies Repr
      ensures Valid() && fresh(Repr - old(Repr))
      ensures (model, result) == Force(old(model), task, clock)
    {
      var idx := |t| - lateThreads + roundRobinLates;
      var k := AskRepeatedly(idx, task, DeadlineWithOriginalOne, clock[..lateThreads]);
      if k < lateThreads {
        MoveLateCursor(NextCursor(k, roundRobinLates, lateThreads));
        result := true;
      } else {
        MoveLateCursor((roundRobinLates + 1) % lateThreads);
        result := Ask(idx, task, true, DeadlineWithOriginalOne, clock[lateThreads]);
        assert !result ==> model.workers == model.workers[idx := model.workers[idx]];
      }
    }

    method SubmitJob(task: Task, clock: seq<nat>) returns (result: bool)
      requires Valid() && Sound(model) && |clock| == |t| + 1
      modifies Repr
      ensures Valid() && fresh(Repr - old(Repr))
      ensures (model, result) == SubmitAny(old(model), task, clock)
    {
      var normal := |t| - lateThreads;
      var k := AskRepeatedly(roundRobinNormies, task, DeadlinePriority, clock[..normal]);
      result := k < normal;
      if result {
        MoveNormalCursor(NextCursor(k, roundRobinNormies, normal));
      } else {
        var _ := ForceComputationThatWillBeDelayedNevertheless(task, clock[normal..]);
      }
    }

    method SubmitJobTo(idx: nat, task: Task, clock: seq<nat>) returns (result: bool)
      requires Valid() && Sound(model) && |clock| == lateThreads + 2
      modifies Repr
      ensures Valid() && fresh(Repr - old(Repr))
      ensures (model, result) == SubmitTo(old(model), idx, task, clock)
    {
      if idx >= |t| - lateThreads {
        result := false;
      } else {
        result := Ask(idx, task, false, DeadlinePriority, clock[0]);
        if !result {
          result := ForceComputationThatWillBeDelayedNevertheless(task, clock[1..]);
        }
      }
    }
  }
}
