/** The thread pool: workers that take tasks off one queue until the pool is shut down.

    Sections under a mutex are one step, and any enabled step may come next, on any thread.  The
    pool's mutex does not guard the queue: tasks are pushed while a worker holds it.  Tasks are
    numbered in the order of their submission.
 */
module ThreadPool {
  import opened Threads
  import opened Wrappers

  type Task = nat

  class WorkQueue<T> {
    var q: seq<T>

    constructor ()
      ensures q == []
    {
      q := [];
    }

    method Empty() returns (empty: bool)
      ensures empty <==> q == []
    {
      empty := |q| == 0;
    }

    method Push(elem: T)
      modifies this
      ensures q == old(q) + [elem]
    {
      q := q + [elem];
    }

    method Pop() returns (r: Option<T>)
      modifies this
      ensures r == First(old(q)) && q == Rest(old(q))
    {
      if |q| == 0 {
        return None;
      }
      r := Some(q[0]);
      q := q[1..];
    }
  }

  function First<T>(q: seq<T>): Option<T> {
    if q == [] then None else Some(q[0])
  }

  function Rest<T>(q: seq<T>): seq<T> {
    if q == [] then q else q[1..]
  }

  datatype WorkerPc =
    | Testing               // before the test of isRunning_
    | Entering              // before the lock
    | Waiting               // in the condition variable's wait
    | Popping(seen: bool)   // holds the lock; whether it found the queue nonempty
    | Running(task: Task)
    | Exited

  datatype State = State(
    queue: seq<Task>,
    running: bool,
    workers: seq<WorkerPc>,
    joined: bool,
    submitted: nat,
    popped: seq<Task>,
    done: multiset<Task>
  )

  datatype Step =
    | Submit
    | Test(w: nat) | Lock(w: nat) | Wake(w: nat) | Pop(w: nat) | Finish(w: nat)
    | Shutdown | Join

  function Init(n: nat): State {
    State([], true, seq(n, _ => Testing), false, 0, [], multiset{})
  }

  predicate LockFree(s: State) {
    forall w :: 0 <= w < |s.workers| ==> !s.workers[w].Popping?
  }

  /** A waiting worker may wake at any time; that covers both notifications and stray wake-ups. */
  predicate Enabled(s: State, step: Step) {
    match step
    case Submit => true
    case Test(w) => w < |s.workers| && s.workers[w].Testing?
    case Lock(w) => w < |s.workers| && s.workers[w].Entering? && LockFree(s)
    case Wake(w) => w < |s.workers| && s.workers[w].Waiting? && LockFree(s)
    case Pop(w) => w < |s.workers| && s.workers[w].Popping?
    case Finish(w) => w < |s.workers| && s.workers[w].Running?
    case Shutdown => s.running
    case Join => !s.running && forall w :: 0 <= w < |s.workers| ==> s.workers[w].Exited?
  }

  function Do(s: State, step: Step): State
    requires Enabled(s, step)
  {
    match step
    case Submit => s.(queue := s.queue + [s.submitted], submitted := s.submitted + 1)
    case Test(w) => s.(workers := s.workers[w := if s.running then Entering else Exited])
    case Lock(w) => s.(workers := s.workers[w := if s.queue == [] then Waiting else Popping(true)])
    case Wake(w) => s.(workers := s.workers[w := Popping(false)])
    case Pop(w) =>
      (match First(s.queue)
       case None => s.(workers := s.workers[w := Testing])
       case Some(task) =>
         s.(workers := s.workers[w := Running(task)], queue := Rest(s.queue), popped := s.popped + [task]))
    case Finish(w) => s.(workers := s.workers[w := Testing], done := s.done + multiset{s.workers[w].task})
    case Shutdown => s.(running := false)
    case Join => s.(joined := true)
  }

  // ----- what every reachable state satisfies -----

  function Busy(pc: WorkerPc): multiset<Task> {
    if pc.Running? then multiset{pc.task} else multiset{}
  }

  /** Taken out in the order of submission; what was taken out is done or being run. */
  ghost predicate Queued(s: State) {
    && s.popped + s.queue == Numbers(s.submitted)
    && multiset(s.popped) == s.done + Held(Busy, s.workers)
  }

  /** One worker at most holds the lock, and while it does nobody else empties the queue. */
  ghost predicate Locked(s: State) {
    && (forall v, w :: 0 <= v < |s.workers| && 0 <= w < |s.workers| && s.workers[v].Popping? && s.workers[w].Popping? ==> v == w)
    && (forall w :: 0 <= w < |s.workers| && s.workers[w] == Popping(true) ==> s.queue != [])
  }

  ghost predicate Ended(s: State) {
    && (forall w :: 0 <= w < |s.workers| && s.workers[w].Exited? ==> !s.running)
    && (s.joined ==> !s.running && forall w :: 0 <= w < |s.workers| ==> s.workers[w].Exited?)
  }

  ghost predicate Inv(s: State) {
    Queued(s) && Locked(s) && Ended(s)
  }

  lemma InitInv(n: nat)
    ensures Inv(Init(n))
  {
    NothingHeld(Busy, Init(n).workers);
  }

  /** A worker that neither takes nor finishes a task. */
  lemma MoveQueued(s: State, w: nat, pc: WorkerPc)
    requires Queued(s) && w < |s.workers| && !s.workers[w].Running? && !pc.Running?
    ensures Queued(s.(workers := s.workers[w := pc]))
  {
    hide Held, Numbers;
    HeldUpdate(Busy, s.workers, w, pc);
  }

  lemma SubmitQueued(s: State)
    requires Queued(s)
    ensures Queued(Do(s, Submit))
  {
    hide Held;
    assert s.popped + (s.queue + [s.submitted]) == (s.popped + s.queue) + [s.submitted];
  }

  lemma {:induction false} PopQueued(s: State, w: nat)
    requires Queued(s) && w < |s.workers| && s.workers[w].Popping? && s.queue != []
    ensures Queued(Do(s, Pop(w)))
  {
    hide Held, Numbers;
    var task := s.queue[0];
    HeldUpdate(Busy, s.workers, w, Running(task));
    assert (s.popped + [task]) + s.queue[1..] == s.popped + s.queue;
  }

  lemma {:induction false} FinishQueued(s: State, w: nat)
    requires Queued(s) && w < |s.workers| && s.workers[w].Running?
    ensures Queued(Do(s, Finish(w)))
  {
    hide Held, Numbers;
    HeldUpdate(Busy, s.workers, w, Testing);
  }

  lemma QueuedKept(s: State, step: Step)
    requires Queued(s) && Enabled(s, step)
    ensures Queued(Do(s, step))
  {
    match step
    case Submit => SubmitQueued(s);
    case Finish(w) => FinishQueued(s, w);
    case Pop(w) =>
      if s.queue == [] {
        hide Queued;
        MoveQueued(s, w, Testing);
      } else {
        PopQueued(s, w);
      }
    case Test(w) => hide Queued; MoveQueued(s, w, if s.running then Entering else Exited);
    case Lock(w) => hide Queued; MoveQueued(s, w, if s.queue == [] then Waiting else Popping(true));
    case Wake(w) => hide Queued; MoveQueued(s, w, Popping(false));
    case _ => hide Held, Numbers, LockFree;
  }

  lemma LockedKept(s: State, step: Step)
    requires Locked(s) && Enabled(s, step)
    ensures Locked(Do(s, step))
  {
  }

  lemma EndedKept(s: State, step: Step)
    requires Ended(s) && Enabled(s, step)
    ensures Ended(Do(s, step))
  {
    hide LockFree;
  }

  lemma {:induction false} StepKeepsInv(s: State, step: Step)
    requires Inv(s) && Enabled(s, step)
    ensures Inv(Do(s, step))
  {
    hide Queued, Locked, Ended, Do, Enabled;
    QueuedKept(s, step);
    LockedKept(s, step);
    EndedKept(s, step);
  }

  // ----- runs -----

  predicate CanRun(n: nat, steps: seq<Step>)
    decreases |steps|, 0
  {
    steps == [] ||
    (var m := |steps| - 1;
     CanRun(n, steps[..m]) && Enabled(Exec(n, steps[..m]), steps[m]))
  }

  function Exec(n: nat, steps: seq<Step>): State
    requires CanRun(n, steps)
    decreases |steps|, 1
  {
    if steps == [] then Init(n)
    else var m := |steps| - 1; Do(Exec(n, steps[..m]), steps[m])
  }

  lemma {:induction false} RunKeepsInv(n: nat, steps: seq<Step>)
    requires CanRun(n, steps)
    ensures Inv(Exec(n, steps))
  {
    hide Inv, Do, Enabled;
    if steps == [] {
      InitInv(n);
    } else {
      RunKeepsInv(n, steps[..|steps| - 1]);
      StepKeepsInv(Exec(n, steps[..|steps| - 1]), steps[|steps| - 1]);
    }
  }

  /** How many tasks a run has submitted; this numbers them. */
  function Submitted(steps: seq<Step>): nat {
    if steps == [] then 0 else Submitted(steps[..|steps| - 1]) + if steps[|steps| - 1].Submit? then 1 else 0
  }

  lemma {:induction false} SubmissionsAreRecorded(n: nat, steps: seq<Step>)
    requires CanRun(n, steps)
    ensures Exec(n, steps).submitted == Submitted(steps) && (Exec(n, steps).running <==> Shutdown !in steps)
  {
    hide Do, Enabled;
    if steps != [] {
      var m := |steps| - 1;
      SubmissionsAreRecorded(n, steps[..m]);
      RecordsStep(Exec(n, steps[..m]), steps[m]);
      assert steps == steps[..m] + [steps[m]];
    }
  }

  lemma RecordsStep(s: State, step: Step)
    requires Enabled(s, step)
    ensures Do(s, step).submitted == s.submitted + if step.Submit? then 1 else 0
    ensures Do(s, step).running <==> s.running && step != Shutdown
  {
    hide LockFree;
  }

  /** A worker that finds the queue nonempty does not wait: it takes the first task that is there. */
  lemma WorkIsTaken(s: State, w: nat)
    requires Enabled(s, Lock(w)) && s.queue != []
    ensures Enabled(Do(s, Lock(w)), Pop(w))
    ensures var t := Do(Do(s, Lock(w)), Pop(w));
            t.popped == s.popped + [s.queue[0]] && t.queue == s.queue[1..] && t.workers[w] == Running(s.queue[0])
  {
    hide LockFree;
  }

  /** A worker that wakes looks at neither the flag nor the queue again: it takes the first task that is there,
      also after the shutdown, or goes back to its test with nothing. */
  lemma WokenTakesWhatIsThere(s: State, w: nat)
    requires Enabled(s, Wake(w))
    ensures Enabled(Do(s, Wake(w)), Pop(w))
    ensures var t := Do(Do(s, Wake(w)), Pop(w));
            if s.queue == [] then t == s.(workers := s.workers[w := Testing])
            else t == s.(workers := s.workers[w := Running(s.queue[0])], queue := s.queue[1..],
                         popped := s.popped + [s.queue[0]])
  {
    assert s.workers[w := Popping(false)][w := Testing] == s.workers[w := Testing];
    if s.queue != [] {
      var pc := Running(s.queue[0]);
      assert s.workers[w := Popping(false)][w := pc] == s.workers[w := pc];
    }
  }

  /** In every run the tasks taken so far are the first ones submitted, in order; the others wait in order;
      and every submitted task is in the queue, or with one worker, or done once. */
  lemma {:induction false} TakenInOrderAndOnce(n: nat, steps: seq<Step>, task: Task)
    requires CanRun(n, steps)
    ensures var s := Exec(n, steps);
            && |s.popped| <= Submitted(steps)
            && s.popped == Numbers(|s.popped|)
            && s.queue == Numbers(Submitted(steps))[|s.popped|..]
            && Held(Busy, s.workers)[task] + s.done[task] == (if task < |s.popped| then 1 else 0)
            && multiset(s.queue)[task] == (if |s.popped| <= task < Submitted(steps) then 1 else 0)
            && Submitted(steps) == |s.queue| + |Held(Busy, s.workers)| + |s.done|
  {
    RunKeepsInv(n, steps);
    SubmissionsAreRecorded(n, steps);
    var s := Exec(n, steps);
    hide Exec, CanRun, Submitted, Locked, Ended, Held;
    var all := s.popped + s.queue;
    assert s.popped == all[..|s.popped|] && s.queue == all[|s.popped|..];
    NumbersOnce(|s.popped|, task);
    NumbersOnce(Submitted(steps), task);
    assert multiset(all) == multiset(s.popped) + multiset(s.queue);
    assert |multiset(s.popped)| == |s.popped|;
  }

  lemma NothingLeftToDo(s: State)
    requires Inv(s) && s.joined
    ensures s.done == multiset(s.popped) && forall w :: !Enabled(s, Pop(w))
  {
    hide Held, Numbers;
    NothingHeld(Busy, s.workers);
  }

  /** A pool that has joined its workers has run the first tasks to their end and abandoned exactly the
      rest of the queue. */
  lemma ShutdownAbandonsTheRest(n: nat, steps: seq<Step>)
    requires CanRun(n, steps) && Exec(n, steps).joined
    ensures var s := Exec(n, steps);
            && |s.popped| <= Submitted(steps)
            && s.done == multiset(Numbers(|s.popped|))
            && s.queue == Numbers(Submitted(steps))[|s.popped|..]
            && forall w :: !Enabled(s, Pop(w))
  {
    RunKeepsInv(n, steps);
    TakenInOrderAndOnce(n, steps, 0);
    hide Submitted, Inv, CanRun, Exec, Enabled, Held;
    NothingLeftToDo(Exec(n, steps));
  }

  /** A worker that finds nothing to take has been waiting. */
  lemma EmptyHandedAfterWaiting(n: nat, steps: seq<Step>, w: nat)
    requires CanRun(n, steps) && Enabled(Exec(n, steps), Pop(w)) && First(Exec(n, steps).queue).None?
    ensures Exec(n, steps).workers[w] == Popping(false)
  {
    RunKeepsInv(n, steps);
  }

  // ----- after the shutdown -----

  /** A worker on its way to the queue. */
  function Underway(pc: WorkerPc): nat {
    if pc.Entering? || pc.Waiting? || pc.Popping? then 1 else 0
  }

  lemma StoppedStep(s: State, step: Step)
    requires !s.running && Enabled(s, step)
    ensures var t := Do(s, step);
            && !t.running
            && |t.popped| + Total(Underway, t.workers) <= |s.popped| + Total(Underway, s.workers)
  {
    hide Total, LockFree;
    match step
    case Test(w) => TotalUpdate(Underway, s.workers, w, Exited);
    case Lock(w) => TotalUpdate(Underway, s.workers, w, if s.queue == [] then Waiting else Popping(true));
    case Wake(w) => TotalUpdate(Underway, s.workers, w, Popping(false));
    case Pop(w) => TotalUpdate(Underway, s.workers, w, if s.queue == [] then Testing else Running(s.queue[0]));
    case Finish(w) => TotalUpdate(Underway, s.workers, w, Testing);
    case _ =>
  }

  /** Once the pool is being shut down the workers together take no more tasks than there are workers past
      the test of isRunning_. */
  lemma {:induction false} AfterShutdown(n: nat, steps: seq<Step>, m: nat)
    requires CanRun(n, steps) && m <= |steps| && CanRun(n, steps[..m]) && !Exec(n, steps[..m]).running
    ensures var s, t := Exec(n, steps[..m]), Exec(n, steps);
            && !t.running
            && |t.popped| + Total(Underway, t.workers) <= |s.popped| + Total(Underway, s.workers)
            && |t.popped| - |s.popped| <= |s.workers|
    decreases |steps|
  {
    hide Do, Enabled, Underway;
    if m == |steps| {
      assert steps[..m] == steps;
    } else {
      var k := |steps| - 1;
      assert steps[..k][..m] == steps[..m];
      AfterShutdown(n, steps[..k], m);
      StoppedStep(Exec(n, steps[..k]), steps[k]);
    }
    UnderwayBound(Exec(n, steps[..m]));
  }

  lemma UnderwayBound(s: State)
    ensures Total(Underway, s.workers) <= |s.workers|
  {
    TotalBound(Underway, s.workers);
  }

  /** How many tasks worker w has taken in a run. */
  function Takes(n: nat, steps: seq<Step>, w: nat): nat
    requires CanRun(n, steps)
  {
    if steps == [] then 0
    else
      var m := |steps| - 1;
      Takes(n, steps[..m], w) + if steps[m] == Pop(w) && Exec(n, steps[..m]).queue != [] then 1 else 0
  }

  lemma WorkerStopped(s: State, step: Step, w: nat)
    requires !s.running && Enabled(s, step) && w < |s.workers|
    ensures var t := Do(s, step);
            && !t.running && |t.workers| == |s.workers|
            && (if step == Pop(w) && s.queue != [] then 1 else 0) + Underway(t.workers[w]) <= Underway(s.workers[w])
  {
    hide LockFree;
  }

  /** Once the pool is being shut down, each worker takes one more task at most, and one that is not past the
      test of isRunning_ takes none. */
  lemma {:induction false} EachTakesOneMoreAtMost(n: nat, steps: seq<Step>, m: nat, w: nat)
    requires CanRun(n, steps) && m <= |steps| && CanRun(n, steps[..m]) && !Exec(n, steps[..m]).running
    requires w < |Exec(n, steps[..m]).workers|
    ensures var s, t := Exec(n, steps[..m]), Exec(n, steps);
            && !t.running && |t.workers| == |s.workers|
            && Takes(n, steps, w) + Underway(t.workers[w]) <= Takes(n, steps[..m], w) + Underway(s.workers[w])
            && Takes(n, steps, w) <= Takes(n, steps[..m], w) + 1
    decreases |steps|
  {
    hide Do, Enabled;
    if m == |steps| {
      assert steps[..m] == steps;
    } else {
      var k := |steps| - 1;
      assert steps[..k][..m] == steps[..m];
      EachTakesOneMoreAtMost(n, steps[..k], m, w);
      WorkerStopped(Exec(n, steps[..k]), steps[k], w);
    }
  }
}
