/** The coroutine event loop: one thread that swaps the queue for an empty one and drains what it took.

    Sections under the mutex are one step, and any enabled step may come next.  Tasks may be posted at
    any time, also while a task runs, and by it.  They are numbered in the order of posting; an empty
    std::function is a task that cannot be called.
 */
module EventLoop {
  import opened Threads

  type Task = nat

  datatype LoopPc =
    | Outside                                  // not in run
    | Testing                                  // before the test of running_
    | Waiting                                  // in the wait, queue_ not swapped yet
    | Draining(local: seq<Task>, calling: bool)

  datatype State = State(
    queue: seq<Task>,
    running: bool,
    loop: LoopPc,
    posted: seq<bool>,     // whether the task can be called
    popped: seq<Task>,
    called: seq<Task>
  )

  datatype Step = Post(callable: bool) | Run | Test | Swap | Call | Pop | Drained | Stop

  function Init(): State {
    State([], false, Outside, [], [], [])
  }

  predicate Callable(s: State, task: Task) {
    task < |s.posted| && s.posted[task]
  }

  predicate Enabled(s: State, step: Step) {
    match step
    case Post(_) => true
    case Run => s.loop.Outside?
    case Test => s.loop.Testing?
    case Swap => s.loop.Waiting? && (s.queue != [] || !s.running)
    case Call => s.loop.Draining? && !s.loop.calling && s.loop.local != [] && Callable(s, s.loop.local[0])
    case Pop => s.loop.Draining? && s.loop.local != [] && (s.loop.calling || !Callable(s, s.loop.local[0]))
    case Drained => s.loop.Draining? && s.loop.local == []
    case Stop => true
  }

  function Do(s: State, step: Step): State
    requires Enabled(s, step)
  {
    match step
    case Post(callable) => s.(queue := s.queue + [|s.posted|], posted := s.posted + [callable])
    case Run => s.(running := true, loop := Testing)
    case Test => s.(loop := if s.running then Waiting else Outside)
    case Swap => s.(loop := Draining(s.queue, false), queue := [])
    case Call => s.(loop := s.loop.(calling := true), called := s.called + [s.loop.local[0]])
    case Pop => s.(loop := Draining(s.loop.local[1..], false), popped := s.popped + [s.loop.local[0]])
    case Drained => s.(loop := Testing)
    case Stop => s.(running := false)
  }

  // ----- what every reachable state satisfies -----

  /** The numbers below n of the tasks that can be called. */
  function Calls(posted: seq<bool>, n: nat): seq<Task>
    requires n <= |posted|
  {
    if n == 0 then [] else Calls(posted, n - 1) + if posted[n - 1] then [n - 1] else []
  }

  lemma {:induction false} CallsOfPrefix(posted: seq<bool>, callable: bool, n: nat)
    requires n <= |posted|
    ensures Calls(posted + [callable], n) == Calls(posted, n)
  {
    if n > 0 {
      CallsOfPrefix(posted, callable, n - 1);
    }
  }

  /** The batch the loop is draining. */
  function Local(s: State): seq<Task> {
    if s.loop.Draining? then s.loop.local else []
  }

  predicate Calling(s: State) {
    s.loop.Draining? && s.loop.calling
  }

  /** How many tasks the loop is through with or working on. */
  function Reached(s: State): nat {
    |s.popped| + if Calling(s) then 1 else 0
  }

  /** The tasks leave in the order of posting, and each one that can be called is called when it is its
      turn. */
  ghost predicate Inv(s: State) {
    && s.popped + Local(s) + s.queue == Numbers(|s.posted|)
    && (Calling(s) ==> Local(s) != [] && Callable(s, Local(s)[0]))
    && Reached(s) <= |s.posted| && s.called == Calls(s.posted, Reached(s))
    && (s.running ==> !s.loop.Outside?)
  }

  lemma NextIsNumbered(s: State)
    requires s.popped + Local(s) + s.queue == Numbers(|s.posted|) && Local(s) != []
    ensures Local(s)[0] == |s.popped| < |s.posted|
  {
    assert (s.popped + Local(s) + s.queue)[|s.popped|] == Local(s)[0];
  }

  lemma PostKeepsInv(s: State, callable: bool)
    requires Inv(s)
    ensures Inv(Do(s, Post(callable)))
  {
    hide Calls;
    assert s.popped + Local(s) + (s.queue + [|s.posted|]) == (s.popped + Local(s) + s.queue) + [|s.posted|];
    CallsOfPrefix(s.posted, callable, Reached(s));
  }

  lemma CallKeepsInv(s: State)
    requires Inv(s) && Enabled(s, Call)
    ensures Inv(Do(s, Call))
  {
    NextIsNumbered(s);
  }

  lemma PopKeepsInv(s: State)
    requires Inv(s) && Enabled(s, Pop)
    ensures Inv(Do(s, Pop))
  {
    NextIsNumbered(s);
    var l := s.loop.local;
    assert (s.popped + [l[0]]) + l[1..] + s.queue == s.popped + l + s.queue;
  }

  lemma StepKeepsInv(s: State, step: Step)
    requires Inv(s) && Enabled(s, step)
    ensures Inv(Do(s, step))
  {
    match step
    case Post(callable) => hide Inv; PostKeepsInv(s, callable);
    case Call => hide Inv; CallKeepsInv(s);
    case Pop => hide Inv; PopKeepsInv(s);
    case _ => hide Calls, Numbers;
  }

  // ----- runs -----

  predicate CanRun(steps: seq<Step>)
    decreases |steps|, 0
  {
    steps == [] ||
    (var n := |steps| - 1;
     CanRun(steps[..n]) && Enabled(Exec(steps[..n]), steps[n]))
  }

  function Exec(steps: seq<Step>): State
    requires CanRun(steps)
    decreases |steps|, 1
  {
    if steps == [] then Init()
    else var n := |steps| - 1; Do(Exec(steps[..n]), steps[n])
  }

  lemma {:induction false} RunKeepsInv(steps: seq<Step>)
    requires CanRun(steps)
    ensures Inv(Exec(steps))
  {
    if steps != [] {
      hide Inv, Do, Enabled;
      RunKeepsInv(steps[..|steps| - 1]);
      StepKeepsInv(Exec(steps[..|steps| - 1]), steps[|steps| - 1]);
    }
  }

  /** The tasks a run has posted, by whether they can be called. */
  function Posts(steps: seq<Step>): seq<bool> {
    if steps == [] then []
    else
      Posts(steps[..|steps| - 1]) +
      match steps[|steps| - 1]
      case Post(callable) => [callable]
      case _ => []
  }

  lemma {:induction false} PostsAreRecorded(steps: seq<Step>)
    requires CanRun(steps)
    ensures Exec(steps).posted == Posts(steps)
  {
    if steps != [] {
      PostsAreRecorded(steps[..|steps| - 1]);
    }
  }

  /** In every run the tasks popped are the first ones posted, the batch holds the next ones and the queue
      the rest; the tasks called are, in order and once each, those that can be called among the first. */
  lemma {:induction false} DrainedInOrder(steps: seq<Step>)
    requires CanRun(steps)
    ensures var s, n := Exec(steps), |Posts(steps)|;
            var k, m := |s.popped|, |s.popped| + |Local(s)|;
            && k <= Reached(s) <= m <= n
            && s.popped == Numbers(n)[..k]
            && Local(s) == Numbers(n)[k..m]
            && s.queue == Numbers(n)[m..]
            && s.called == Calls(Posts(steps), Reached(s))
  {
    RunKeepsInv(steps);
    PostsAreRecorded(steps);
    var s := Exec(steps);
    var all := s.popped + Local(s) + s.queue;
    var k, m := |s.popped|, |s.popped| + |Local(s)|;
    hide Exec, CanRun, Posts, Numbers, Calls;
    assert s.popped == all[..k] && Local(s) == all[k..m] && s.queue == all[m..];
  }

  predicate Rising(tasks: seq<Task>, n: nat) {
    && (forall i, j :: 0 <= i < j < |tasks| ==> tasks[i] < tasks[j])
    && (forall i :: 0 <= i < |tasks| ==> tasks[i] < n)
  }

  /** A task is called exactly when it can be and its turn has come, in order. */
  lemma {:induction false} CallsAreExact(posted: seq<bool>, n: nat, task: Task)
    requires n <= |posted|
    ensures task in Calls(posted, n) <==> task < n && posted[task]
    ensures Rising(Calls(posted, n), n)
  {
    if n > 0 {
      var before := Calls(posted, n - 1);
      CallsAreExact(posted, n - 1, task);
      assert Calls(posted, n) == before + if posted[n - 1] then [n - 1] else [];
      hide Calls;
      OneMoreCall(before, n);
      assert before + [] == before;
    }
  }

  lemma OneMoreCall(before: seq<Task>, n: nat)
    requires n > 0 && Rising(before, n - 1)
    ensures Rising(before, n) && Rising(before + [n - 1], n)
  {
  }

  // ----- how run ends -----

  /** A run that was asked to stop and has swapped the queue: the batch it is in is the last. */
  predicate LastBatch(s: State) {
    !s.running && !s.loop.Waiting?
  }

  lemma LastBatchStep(s: State, step: Step)
    requires LastBatch(s) && Enabled(s, step) && step != Run
    ensures LastBatch(Do(s, step)) && Do(s, step).popped + Local(Do(s, step)) == s.popped + Local(s)
  {
    if step == Pop {
      var l := s.loop.local;
      assert (s.popped + [l[0]]) + l[1..] == s.popped + l;
    }
  }

  /** After stop the loop finishes the batch it is in and takes no other: when run has returned, exactly
      that batch has been popped, and what was posted behind it stays in the queue. */
  lemma {:induction false} StopEndsWithTheBatch(steps: seq<Step>, n: nat)
    requires CanRun(steps) && n <= |steps| && CanRun(steps[..n]) && LastBatch(Exec(steps[..n]))
    requires forall k :: n <= k < |steps| ==> steps[k] != Run
    ensures var s, t := Exec(steps[..n]), Exec(steps);
            && LastBatch(t) && t.popped + Local(t) == s.popped + Local(s)
            && (t.loop.Outside? ==> t.popped == s.popped + Local(s))
    decreases |steps|
  {
    if n == |steps| {
      assert steps[..n] == steps;
    } else {
      var m := |steps| - 1;
      assert steps[..m][..n] == steps[..n];
      StopEndsWithTheBatch(steps[..m], n);
      hide Do, Enabled, LastBatch;
      LastBatchStep(Exec(steps[..m]), steps[m]);
    }
  }

  /** The latest call of run or stop was a call of run. */
  predicate Unstopped(steps: seq<Step>) {
    steps != [] &&
    match steps[|steps| - 1]
    case Run => true
    case Stop => false
    case _ => Unstopped(steps[..|steps| - 1])
  }

  lemma {:induction false} RunningMeansUnstopped(steps: seq<Step>)
    requires CanRun(steps)
    ensures Exec(steps).running <==> Unstopped(steps)
  {
    if steps != [] {
      RunningMeansUnstopped(steps[..|steps| - 1]);
    }
  }

  /** The loop can do nothing more by itself. */
  ghost predicate Over(s: State) {
    forall step: Step :: !step.Post? && !step.Run? && !step.Stop? ==> !Enabled(s, step)
  }

  /** run does not return when the queue is empty: a loop that can do nothing more has returned exactly
      when stop was called after run.  A stop that came before run is lost. */
  lemma ReturnsExactlyWhenStopped(steps: seq<Step>)
    requires CanRun(steps) && Over(Exec(steps))
    ensures Exec(steps).loop.Outside? <==> !Unstopped(steps)
    ensures Unstopped(steps) ==> Exec(steps).loop.Waiting? && Exec(steps).popped == Numbers(|Exec(steps).posted|)
  {
    RunKeepsInv(steps);
    RunningMeansUnstopped(steps);
    var s := Exec(steps);
    assert !Enabled(s, Test) && !Enabled(s, Swap) && !Enabled(s, Call) && !Enabled(s, Pop) && !Enabled(s, Drained);
    assert s.loop.Waiting? ==> s.popped + Local(s) + s.queue == s.popped;
  }

  /** The states of such a run: stop finds nothing to stop, and the loop comes to wait for a post. */
  lemma StopFindsNothing() returns (testing: State, waiting: State)
    ensures Enabled(Init(), Stop) && Do(Init(), Stop) == Init()
    ensures Enabled(Init(), Run) && Do(Init(), Run) == testing
    ensures Enabled(testing, Test) && Do(testing, Test) == waiting
    ensures Over(waiting) && waiting.loop.Waiting?
  {
    testing := Init().(running := true, loop := Testing);
    waiting := testing.(loop := Waiting);
  }

  lemma NoSteps()
    ensures CanRun([]) && Exec([]) == Init()
  {
  }

  /** Such a run exists: stop is called first, and the loop waits with nothing to do. */
  lemma {:induction false} StopBeforeRunIsLost()
    ensures var steps := [Stop, Run, Test];
            CanRun(steps) && Over(Exec(steps)) && Exec(steps).loop.Waiting?
  {
    hide CanRun, Exec, Do, Enabled, Over, Init;
    var testing, waiting := StopFindsNothing();
    NoSteps();
    Extend([], Stop);
    assert [] + [Stop] == [Stop];
    Extend([Stop], Run);
    assert [Stop] + [Run] == [Stop, Run];
    Extend([Stop, Run], Test);
    assert [Stop, Run] + [Test] == [Stop, Run, Test];
  }

  lemma Extend(steps: seq<Step>, step: Step)
    requires CanRun(steps) && Enabled(Exec(steps), step)
    ensures CanRun(steps + [step]) && Exec(steps + [step]) == Do(Exec(steps), step)
  {
    hide Do, Enabled;
    assert (steps + [step])[..|steps|] == steps;
  }

  // ----- every loop gets to its end -----

  /** The steps of the loop's own thread inside run. */
  predicate Internal(step: Step) {
    !step.Post? && !step.Run? && !step.Stop?
  }

  function Count(steps: seq<Step>, internal: bool): nat {
    if steps == [] then 0
    else Count(steps[..|steps| - 1], internal) + if Internal(steps[|steps| - 1]) == internal then 1 else 0
  }

  /** The work left before run returns or waits for a post. */
  function Left(s: State): nat {
    8 * |s.queue| +
    match s.loop
    case Outside => 0
    case Testing => 2
    case Waiting => if s.running then 1 else 4
    case Draining(local, calling) => 4 * |local| + 3 - if calling && local != [] then 1 else 0
  }

  /** A step of the loop uses up work; a post brings 8, a stop at most 3. */
  lemma LoopUsesUp(s: State, step: Step)
    requires Enabled(s, step) && step != Run && (Calling(s) ==> Local(s) != [])
    ensures Left(Do(s, step)) <= if Internal(step) then Left(s) - 1 else Left(s) + 8
  {
  }

  /** Between two calls of run the loop takes at most as many steps as there was work at the start, and eight
      more for each post or stop. */
  lemma {:induction false} LoopIsBounded(steps: seq<Step>, n: nat)
    requires CanRun(steps) && n <= |steps| && CanRun(steps[..n])
    requires forall k :: n <= k < |steps| ==> steps[k] != Run
    ensures Count(steps[n..], true) + Left(Exec(steps)) <= Left(Exec(steps[..n])) + 8 * Count(steps[n..], false)
    decreases |steps|
  {
    hide Do, Enabled, Left;
    if n == |steps| {
      assert steps[..n] == steps && steps[n..] == [];
    } else {
      var m := |steps| - 1;
      assert steps[..m][..n] == steps[..n];
      assert steps[n..][..m - n] == steps[..m][n..];
      LoopIsBounded(steps[..m], n);
      RunKeepsInv(steps[..m]);
      LoopUsesUp(Exec(steps[..m]), steps[m]);
    }
  }

  /** The work left in the last batch. */
  function BatchLeft(s: State): nat {
    match s.loop
    case Draining(local, calling) => 2 * |local| + 2 - if calling && local != [] then 1 else 0
    case Testing => 1
    case _ => 0
  }

  lemma LastBatchUsesUp(s: State, step: Step)
    requires LastBatch(s) && Enabled(s, step) && step != Run && (Calling(s) ==> Local(s) != [])
    ensures BatchLeft(Do(s, step)) <= BatchLeft(s) - if Internal(step) then 1 else 0
  {
  }

  /** A loop that was asked to stop in its last batch returns after at most two steps for each task of the
      batch and two more, whatever is posted meanwhile. */
  lemma {:induction false} LastBatchIsBounded(steps: seq<Step>, n: nat)
    requires CanRun(steps) && n <= |steps| && CanRun(steps[..n]) && LastBatch(Exec(steps[..n]))
    requires forall k :: n <= k < |steps| ==> steps[k] != Run
    ensures Count(steps[n..], true) + BatchLeft(Exec(steps)) <= BatchLeft(Exec(steps[..n])) <= 2 * |Local(Exec(steps[..n]))| + 2
    decreases |steps|
  {
    hide Do, Enabled;
    if n == |steps| {
      assert steps[..n] == steps && steps[n..] == [];
    } else {
      var m := |steps| - 1;
      assert steps[..m][..n] == steps[..n];
      assert steps[n..][..m - n] == steps[..m][n..];
      LastBatchIsBounded(steps[..m], n);
      StopEndsWithTheBatch(steps[..m], n);
      RunKeepsInv(steps[..m]);
      hide LastBatch, BatchLeft;
      LastBatchUsesUp(Exec(steps[..m]), steps[m]);
    }
  }
}
