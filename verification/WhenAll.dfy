/** The when_all countdown: N task wrappers and the awaiting coroutine, step by step.

    Every atomic access and every store is one step, and any enabled step may come next, on any
    thread.  The steps are sequentially consistent.  The fields `last`, `lookSaw` and `checkSaw`
    record what was read and steer nothing.
 */
module WhenAll {
  import opened Threads
  import opened Wrappers

  /** What a load of `remaining` or of `continuation` returned. */
  datatype Sight = Unread | Zero | NonZero

  function See(nonzero: bool): Sight {
    if nonzero then NonZero else Zero
  }

  /** Where a launch_wrapper coroutine stands. */
  datatype WrapperPc =
    | Fresh                 // created, not resumed yet
    | Running               // awaiting its task
    | Stored                // result or exception is stored
    | Counted(prev: nat)    // fetch_sub has returned prev
    | Looked(seen: Sight)   // get_continuation has been loaded
    | Ended

  /** Where the when_all coroutine stands. */
  datatype CallerPc =
    | Launching(next: nat)
    | Checking              // before await_ready's load
    | Arming                // before set_continuation
    | Suspended
    | Passing               // in await_resume
    | Returned(results: seq<Option<int>>)
    | Rethrew(e: int)
  {
    predicate Past() {
      Passing? || Returned? || Rethrew?
    }
  }

  datatype State = State(
    wrappers: seq<WrapperPc>,
    results: seq<Option<int>>,
    exception: Option<int>,
    remaining: nat,
    continuation: bool,
    resumes: nat,             // threads spawned to resume the caller that have not run yet
    caller: CallerPc,
    last: Option<nat>,        // the wrapper that saw prev == 1
    lookSaw: Sight,           // what its load of continuation returned
    checkSaw: Sight           // what await_ready's load of remaining returned
  )

  datatype Step =
    | Start(i: nat) | Launched
    | Store(i: nat) | Count(i: nat) | Skip(i: nat) | Look(i: nat) | Spawn(i: nat)
    | Check | Arm | Wake | Finish

  /** An empty task list returns at once. */
  function Init(outs: seq<Outcome>): State {
    var n := |outs|;
    State(seq(n, _ => Fresh), seq(n, _ => None), None, n, false, 0,
          if n == 0 then Returned([]) else Launching(0), None, Unread, Unread)
  }

  predicate Enabled(s: State, step: Step) {
    match step
    case Start(i) => s.caller == Launching(i) && i < |s.wrappers|
    case Launched => s.caller == Launching(|s.wrappers|)
    case Store(i) => i < |s.wrappers| && s.wrappers[i] == Running
    case Count(i) => i < |s.wrappers| && s.wrappers[i] == Stored && s.remaining > 0
    case Skip(i) => i < |s.wrappers| && s.wrappers[i].Counted? && s.wrappers[i].prev != 1
    case Look(i) => i < |s.wrappers| && s.wrappers[i] == Counted(1)
    case Spawn(i) => i < |s.wrappers| && s.wrappers[i].Looked?
    case Check => s.caller == Checking
    case Arm => s.caller == Arming
    case Wake => s.caller == Suspended && s.resumes > 0
    case Finish => s.caller == Passing
  }

  function Do(outs: seq<Outcome>, s: State, step: Step): State
    requires Enabled(s, step) && |outs| == |s.wrappers| == |s.results|
  {
    match step
    case Start(i) => s.(wrappers := s.wrappers[i := Running], caller := Launching(i + 1))
    case Launched => s.(caller := Checking)
    case Store(i) =>
      var w := s.wrappers[i := Stored];
      (match outs[i]
       case Value(v) => s.(wrappers := w, results := s.results[i := Some(v)])
       case Exn(e) => s.(wrappers := w, exception := Some(e)))
    case Count(i) =>
      s.(wrappers := s.wrappers[i := Counted(s.remaining)], remaining := s.remaining - 1,
         last := if s.remaining == 1 then Some(i) else s.last)
    case Skip(i) => s.(wrappers := s.wrappers[i := Ended])
    case Look(i) => s.(wrappers := s.wrappers[i := Looked(See(s.continuation))], lookSaw := See(s.continuation))
    case Spawn(i) =>
      s.(wrappers := s.wrappers[i := Ended], resumes := if s.wrappers[i].seen.NonZero? then s.resumes + 1 else s.resumes)
    case Check => s.(caller := if s.remaining == 0 then Passing else Arming, checkSaw := See(s.remaining != 0))
    case Arm => s.(caller := Suspended, continuation := true)
    case Wake => s.(caller := Passing, resumes := s.resumes - 1)
    case Finish =>
      s.(caller := match s.exception case Some(e) => Rethrew(e) case None => Returned(s.results))
  }

  predicate IsUncounted(pc: WrapperPc) {
    pc.Fresh? || pc.Running? || pc.Stored?
  }

  function One(pc: WrapperPc): nat {
    if IsUncounted(pc) then 1 else 0
  }

  /** How many wrappers have not been subtracted yet. */
  function Uncounted(w: seq<WrapperPc>): nat {
    Total(One, w)
  }

  lemma {:induction false} UncountedZero(w: seq<WrapperPc>)
    ensures Uncounted(w) == 0 <==> forall i :: 0 <= i < |w| ==> !IsUncounted(w[i])
  {
    if w != [] {
      UncountedZero(w[..|w| - 1]);
      assert forall i :: 0 <= i < |w| - 1 ==> w[..|w| - 1][i] == w[i];
    }
  }

  // ----- what every reachable state satisfies -----

  /** The counter is exact, and once it is zero exactly one wrapper has seen it fall from 1. */
  ghost predicate Counting(outs: seq<Outcome>, s: State) {
    && |s.wrappers| == |s.results| == |outs|
    && s.remaining == Uncounted(s.wrappers)
    && (s.last.Some? <==> s.remaining == 0 && outs != [])
    && (s.last.Some? ==>
          && s.last.value < |outs|
          && (s.wrappers[s.last.value] == Counted(1) || s.wrappers[s.last.value].Looked?
              || s.wrappers[s.last.value].Ended?))
    && (forall i :: 0 <= i < |outs| && s.last != Some(i) ==> s.wrappers[i] != Counted(1) && !s.wrappers[i].Looked?)
  }

  /** A wrapper stores before it counts, in its own slot. */
  ghost predicate Storing(outs: seq<Outcome>, s: State)
    requires |s.wrappers| == |s.results| == |outs|
  {
    && (forall i :: 0 <= i < |outs| ==>
          s.results[i] == if s.wrappers[i].Fresh? || s.wrappers[i].Running? || outs[i].Exn? then None else Some(outs[i].v))
    && (s.exception.Some? ==> exists i :: 0 <= i < |outs| && outs[i] == Exn(s.exception.value))
    && (s.exception.None? ==> forall i :: 0 <= i < |outs| ==>
          s.wrappers[i].Fresh? || s.wrappers[i].Running? || outs[i].Value?)
  }

  /** The wrappers are started in order, before anything is awaited. */
  ghost predicate Starting(s: State) {
    forall i :: 0 <= i < |s.wrappers| ==>
      (s.wrappers[i].Fresh? <==> s.caller.Launching? && s.caller.next <= i)
  }

  /** Who has read what of the two atomics, and what follows for the caller. */
  ghost predicate Handing(s: State) {
    && (s.caller.Launching? ==> s.caller.next <= |s.wrappers|)
    && (s.caller.Launching? || s.caller.Checking? <==> s.checkSaw.Unread?)
    && (s.caller.Arming? || s.caller.Suspended? ==> s.checkSaw.NonZero?)
    && (s.continuation <==> s.caller.Suspended? || (s.caller.Past() && s.checkSaw.NonZero?))
    && (!s.lookSaw.Unread? <==> s.last.Some? && s.last.value < |s.wrappers| && s.wrappers[s.last.value] != Counted(1))
    && (forall i :: 0 <= i < |s.wrappers| && s.wrappers[i].Looked? ==> s.lookSaw == s.wrappers[i].seen && !s.lookSaw.Unread?)
    && (s.lookSaw.NonZero? ==> s.continuation)
    && (s.caller.Past() ==> s.remaining == 0)
    && (s.caller.Past() && s.checkSaw.NonZero? ==>
          s.lookSaw.NonZero? && s.wrappers[s.last.value].Ended?)
    && s.resumes == if s.caller.Suspended? && s.lookSaw.NonZero? && s.wrappers[s.last.value].Ended? then 1 else 0
  }

  /** The caller's result is every task's value, or an exception that some task raised. */
  ghost predicate Ending(outs: seq<Outcome>, s: State) {
    match s.caller
    case Returned(rs) =>
      |rs| == |outs| && forall i :: 0 <= i < |outs| ==> outs[i].Value? && rs[i] == Some(outs[i].v)
    case Rethrew(e) => exists i :: 0 <= i < |outs| && outs[i] == Exn(e)
    case _ => true
  }

  ghost predicate Inv(outs: seq<Outcome>, s: State) {
    outs != [] && Counting(outs, s) && Storing(outs, s) && Starting(s) && Handing(s) && Ending(outs, s)
  }

  lemma InitInv(outs: seq<Outcome>)
    requires outs != []
    ensures Inv(outs, Init(outs))
  {
    FreshUncounted(|outs|);
  }

  lemma {:induction false} FreshUncounted(n: nat)
    ensures Uncounted(seq(n, _ => Fresh)) == n
  {
    if n > 0 {
      FreshUncounted(n - 1);
      assert seq(n, _ => Fresh)[..n - 1] == seq(n - 1, _ => Fresh);
    }
  }

  lemma CountingKept(outs: seq<Outcome>, s: State, step: Step)
    requires Inv(outs, s) && Enabled(s, step)
    ensures Counting(outs, Do(outs, s, step))
  {
    hide Storing, Handing, Ending, Total;
    match step
    case Start(i) => TotalUpdate(One, s.wrappers, i, Running);
    case Store(i) => TotalUpdate(One, s.wrappers, i, Stored);
    case Count(i) => TotalUpdate(One, s.wrappers, i, Counted(s.remaining));
    case Skip(i) => TotalUpdate(One, s.wrappers, i, Ended);
    case Look(i) => TotalUpdate(One, s.wrappers, i, Looked(See(s.continuation)));
    case Spawn(i) => TotalUpdate(One, s.wrappers, i, Ended);
    case _ =>
  }

  lemma StoreKeepsStoring(outs: seq<Outcome>, s: State, i: nat)
    requires |s.wrappers| == |s.results| == |outs| && Storing(outs, s) && Enabled(s, Store(i))
    ensures Storing(outs, Do(outs, s, Store(i)))
  {
    assert outs[i].Exn? ==> outs[i] == Exn(outs[i].e);
  }

  lemma StoringKept(outs: seq<Outcome>, s: State, step: Step)
    requires Inv(outs, s) && Enabled(s, step)
    ensures |Do(outs, s, step).wrappers| == |Do(outs, s, step).results| == |outs|
    ensures Storing(outs, Do(outs, s, step))
  {
    hide Handing, Ending, Uncounted;
    match step
    case Store(i) => StoreKeepsStoring(outs, s, i);
    case Start(i) =>
    case Count(i) =>
    case Skip(i) =>
    case Look(i) =>
    case Spawn(i) =>
    case _ =>
  }

  lemma StartingKept(outs: seq<Outcome>, s: State, step: Step)
    requires Inv(outs, s) && Enabled(s, step)
    ensures Starting(Do(outs, s, step))
  {
    hide Storing, Ending;
  }

  lemma HandingKept(outs: seq<Outcome>, s: State, step: Step)
    requires Inv(outs, s) && Enabled(s, step)
    ensures Handing(Do(outs, s, step))
  {
    hide Storing, Ending, Uncounted;
    match step
    case Start(i) =>
    case Launched =>
    case Store(i) =>
    case Count(i) =>
    case Skip(i) =>
    case Look(i) =>
    case Spawn(i) =>
    case Check =>
    case Arm =>
    case Wake =>
    case Finish =>
  }

  /** The caller leaves the await only when every wrapper has stored what its task ended with. */
  lemma EndingKept(outs: seq<Outcome>, s: State, step: Step)
    requires Inv(outs, s) && Enabled(s, step)
    ensures Ending(outs, Do(outs, s, step))
  {
    hide Starting;
    UncountedZero(s.wrappers);
  }

  lemma StepKeepsInv(outs: seq<Outcome>, s: State, step: Step)
    requires Inv(outs, s) && Enabled(s, step)
    ensures Inv(outs, Do(outs, s, step))
  {
    hide Counting, Storing, Starting, Handing, Ending, Do;
    CountingKept(outs, s, step);
    StoringKept(outs, s, step);
    StartingKept(outs, s, step);
    HandingKept(outs, s, step);
    EndingKept(outs, s, step);
  }

  // ----- runs -----

  /** The states a sequence of steps goes through, when each of them is enabled in turn. */
  predicate CanRun(outs: seq<Outcome>, steps: seq<Step>)
    decreases |steps|, 0
  {
    steps == [] ||
    (var n := |steps| - 1;
     CanRun(outs, steps[..n]) && Enabled(Exec(outs, steps[..n]), steps[n]))
  }

  function Exec(outs: seq<Outcome>, steps: seq<Step>): (s: State)
    requires CanRun(outs, steps)
    ensures |s.wrappers| == |s.results| == |outs|
    decreases |steps|, 1
  {
    if steps == [] then Init(outs)
    else var n := |steps| - 1; Do(outs, Exec(outs, steps[..n]), steps[n])
  }

  lemma {:induction false} RunKeepsInv(outs: seq<Outcome>, steps: seq<Step>)
    requires outs != [] && CanRun(outs, steps)
    ensures Inv(outs, Exec(outs, steps))
  {
    if steps == [] {
      InitInv(outs);
    } else {
      RunKeepsInv(outs, steps[..|steps| - 1]);
      StepKeepsInv(outs, Exec(outs, steps[..|steps| - 1]), steps[|steps| - 1]);
    }
  }

  /** In every run the counter counts the wrappers that have not subtracted yet, at most one wrapper
      has seen it fall from 1, and the caller is past its await only when no wrapper is left; it then
      holds every task's value in that task's slot, or an exception that some task raised. */
  lemma SafeInEveryRun(outs: seq<Outcome>, steps: seq<Step>)
    requires outs != [] && CanRun(outs, steps)
    ensures var s := Exec(outs, steps);
            && s.remaining == Uncounted(s.wrappers)
            && (forall i, j :: 0 <= i < |outs| && 0 <= j < |outs| && i != j ==>
                  !((s.wrappers[i] == Counted(1) || s.wrappers[i].Looked?) &&
                    (s.wrappers[j] == Counted(1) || s.wrappers[j].Looked?)))
            && (s.caller.Past() ==> s.remaining == 0)
            && Ending(outs, s)
  {
    RunKeepsInv(outs, steps);
  }

  /** The exception of the last task in a run that has stored one. */
  function LastRaised(outs: seq<Outcome>, steps: seq<Step>): Option<int> {
    if steps == [] then None
    else
      match steps[|steps| - 1]
      case Store(i) => if i < |outs| && outs[i].Exn? then Some(outs[i].e) else LastRaised(outs, steps[..|steps| - 1])
      case _ => LastRaised(outs, steps[..|steps| - 1])
  }

  /** Later exceptions overwrite earlier ones, and none comes once the caller is past its await. */
  lemma {:induction false} RethrowsTheLast(outs: seq<Outcome>, steps: seq<Step>)
    requires outs != [] && CanRun(outs, steps)
    ensures Exec(outs, steps).exception == LastRaised(outs, steps)
    ensures Exec(outs, steps).caller.Rethrew? ==> LastRaised(outs, steps) == Some(Exec(outs, steps).caller.e)
    ensures Exec(outs, steps).caller.Returned? ==> LastRaised(outs, steps) == None
  {
    hide Inv, Do, Enabled;
    if steps != [] {
      var n := |steps| - 1;
      RethrowsTheLast(outs, steps[..n]);
      RunKeepsInv(outs, steps[..n]);
      RaisedStep(outs, Exec(outs, steps[..n]), steps[n]);
    }
  }

  /** What a step does to the stored exception and to what the caller has ended with. */
  lemma RaisedStep(outs: seq<Outcome>, s: State, step: Step)
    requires Inv(outs, s) && Enabled(s, step)
    requires s.caller.Rethrew? ==> s.exception == Some(s.caller.e)
    requires s.caller.Returned? ==> s.exception == None
    ensures var t := Do(outs, s, step);
            && t.exception == (match step
                               case Store(i) => if i < |outs| && outs[i].Exn? then Some(outs[i].e) else s.exception
                               case _ => s.exception)
            && (t.caller.Rethrew? ==> t.exception == Some(t.caller.e))
            && (t.caller.Returned? ==> t.exception == None)
  {
    hide Storing, Starting, Ending, Uncounted;
    UncountedZero(s.wrappers);
  }

  /** With no task there is nothing to wait for: the caller has returned an empty list before any step. */
  lemma {:induction false} NoTasksNoSteps(steps: seq<Step>)
    requires CanRun([], steps)
    ensures steps == [] && Exec([], steps).caller == Returned([]) && Over(Exec([], steps))
    decreases |steps|
  {
    assert Init([]).wrappers == [] && Over(Init([]));
    if steps != [] {
      NoTasksNoSteps(steps[..|steps| - 1]);
    }
  }

  function Passes(outs: seq<Outcome>, steps: seq<Step>): nat
    requires CanRun(outs, steps)
  {
    if steps == [] then 0
    else
      var n := |steps| - 1;
      Passes(outs, steps[..n]) +
      if Exec(outs, steps).caller.Passing? && !Exec(outs, steps[..n]).caller.Passing? then 1 else 0
  }

  /** The caller gets past its await at most once, and has done so exactly when it is past it. */
  lemma {:induction false} PassesOnce(outs: seq<Outcome>, steps: seq<Step>)
    requires outs != [] && CanRun(outs, steps)
    ensures Passes(outs, steps) == if Exec(outs, steps).caller.Past() then 1 else 0
  {
    if steps != [] {
      PassesOnce(outs, steps[..|steps| - 1]);
    }
  }

  function Looks(steps: seq<Step>): nat {
    if steps == [] then 0 else Looks(steps[..|steps| - 1]) + if steps[|steps| - 1].Look? then 1 else 0
  }

  /** One wrapper at most, the one that saw the counter fall from 1, ever loads the continuation. */
  lemma {:induction false} LooksOnce(outs: seq<Outcome>, steps: seq<Step>)
    requires outs != [] && CanRun(outs, steps)
    ensures Looks(steps) == if Exec(outs, steps).lookSaw.Unread? then 0 else 1
  {
    if steps != [] {
      LooksOnce(outs, steps[..|steps| - 1]);
      RunKeepsInv(outs, steps[..|steps| - 1]);
      LookReadsFirst(outs, Exec(outs, steps[..|steps| - 1]), steps[|steps| - 1]);
    }
  }

  lemma LookReadsFirst(outs: seq<Outcome>, s: State, step: Step)
    requires Inv(outs, s) && Enabled(s, step)
    ensures step.Look? ==> s.lookSaw.Unread? && !Do(outs, s, step).lookSaw.Unread?
    ensures !step.Look? ==> Do(outs, s, step).lookSaw == s.lookSaw
  {
    hide Storing, Starting, Ending, Uncounted;
  }

  // ----- where runs end -----

  /** No thread has anything left to do; in particular every task has finished. */
  ghost predicate Over(s: State) {
    forall step: Step :: !Enabled(s, step)
  }

  /** The wake-up is lost: the caller saw a nonzero count and went to sleep, but the last wrapper had
      already looked for its continuation and found none. */
  predicate Lost(s: State) {
    s.checkSaw.NonZero? && s.lookSaw.Zero?
  }

  lemma NotLaunching(s: State)
    requires Handing(s) && Over(s)
    ensures !s.caller.Launching?
  {
    if s.caller.Launching? {
      var step := if s.caller.next < |s.wrappers| then Start(s.caller.next) else Launched;
      assert Enabled(s, step);
      assert false;
    }
  }

  /** A run that is over leaves the caller suspended exactly when the wake-up was lost; otherwise the
      caller has returned or rethrown. */
  lemma OverMeans(outs: seq<Outcome>, s: State)
    requires Inv(outs, s) && Over(s)
    ensures forall i :: 0 <= i < |outs| ==> s.wrappers[i].Ended?
    ensures s.caller.Suspended? <==> Lost(s)
    ensures s.caller.Returned? || s.caller.Rethrew? <==> !Lost(s)
  {
    hide Storing, Ending, Uncounted;
    NotLaunching(s);
    assert !Enabled(s, Check) && !Enabled(s, Arm) && !Enabled(s, Wake) && !Enabled(s, Finish);
    UncountedZero(s.wrappers);
    forall i | 0 <= i < |outs| ensures s.wrappers[i].Ended? {
      assert !Enabled(s, Store(i)) && !Enabled(s, Count(i)) && !Enabled(s, Skip(i)) && !Enabled(s, Look(i)) && !Enabled(s, Spawn(i));
    }
    assert forall i :: 0 <= i < |s.wrappers| ==> !IsUncounted(s.wrappers[i]);
    assert s.remaining == 0 && !s.lookSaw.Unread?;
  }

  /** In a run that is over exactly one wrapper has seen the counter fall from 1 and looked for the
      continuation. */
  lemma {:induction false} LooksExactlyOnce(outs: seq<Outcome>, steps: seq<Step>)
    requires outs != [] && CanRun(outs, steps) && Over(Exec(outs, steps))
    ensures Looks(steps) == 1 && Exec(outs, steps).last.Some?
  {
    LooksOnce(outs, steps);
    RunKeepsInv(outs, steps);
    OverMeans(outs, Exec(outs, steps));
    UncountedZero(Exec(outs, steps).wrappers);
    hide CanRun, Exec, Over, Storing, Starting, Ending, Uncounted;
  }

  /** Some load of await_ready in the run returned a nonzero count. */
  predicate SawNonzero(outs: seq<Outcome>, steps: seq<Step>)
    requires CanRun(outs, steps)
  {
    steps != [] &&
    (var n := |steps| - 1;
     SawNonzero(outs, steps[..n]) || (steps[n] == Check && Exec(outs, steps[..n]).remaining != 0))
  }

  /** Some load of get_continuation in the run came before set_continuation. */
  predicate LookedTooEarly(steps: seq<Step>) {
    steps != [] &&
    (var n := |steps| - 1;
     LookedTooEarly(steps[..n]) || (steps[n].Look? && Arm !in steps[..n]))
  }

  lemma {:induction false} ReadsAreRecorded(outs: seq<Outcome>, steps: seq<Step>)
    requires outs != [] && CanRun(outs, steps)
    ensures Exec(outs, steps).checkSaw.NonZero? <==> SawNonzero(outs, steps)
    ensures Exec(outs, steps).lookSaw.Zero? <==> LookedTooEarly(steps)
    ensures Exec(outs, steps).continuation <==> Arm in steps
  {
    hide Inv, Do, Enabled;
    if steps != [] {
      var n := |steps| - 1;
      ReadsAreRecorded(outs, steps[..n]);
      RunKeepsInv(outs, steps[..n]);
      assert steps == steps[..n] + [steps[n]];
      RecordedStep(outs, Exec(outs, steps[..n]), steps[n]);
    }
  }

  lemma RecordedStep(outs: seq<Outcome>, s: State, step: Step)
    requires Inv(outs, s) && Enabled(s, step)
    ensures Do(outs, s, step).continuation <==> s.continuation || step == Arm
    ensures Do(outs, s, step).checkSaw.NonZero? <==>
            s.checkSaw.NonZero? || (step == Check && s.remaining != 0)
    ensures Do(outs, s, step).lookSaw.Zero? <==>
            s.lookSaw.Zero? || (step.Look? && !s.continuation)
  {
    hide Storing, Starting, Ending, Uncounted;
  }

  /** A run in which all tasks finish can end with the caller still suspended only when await_ready saw a
      nonzero count and the last wrapper looked for the continuation before it was stored, and then it
      does; every other run ends with the caller resumed. */
  lemma SleepsForeverExactlyWhenLost(outs: seq<Outcome>, steps: seq<Step>)
    requires outs != [] && CanRun(outs, steps) && Over(Exec(outs, steps))
    ensures Exec(outs, steps).caller.Suspended? <==> SawNonzero(outs, steps) && LookedTooEarly(steps)
    ensures !(SawNonzero(outs, steps) && LookedTooEarly(steps)) <==>
            Exec(outs, steps).caller.Returned? || Exec(outs, steps).caller.Rethrew?
  {
    RunKeepsInv(outs, steps);
    OverMeans(outs, Exec(outs, steps));
    ReadsAreRecorded(outs, steps);
  }

  /** Such a run exists: the only task finishes between the caller's load and its store. */
  lemma AWakeUpCanBeLost(v: int)
    ensures var outs := [Value(v)];
            var steps := [Start(0), Launched, Check, Store(0), Count(0), Look(0), Spawn(0), Arm];
            CanRun(outs, steps) && Exec(outs, steps).caller == Suspended && Over(Exec(outs, steps))
  {
    var outs := [Value(v)];
    assert Init(outs).wrappers == [Fresh] && Init(outs).results == [None];
    var r1 := [] + [Start(0)];
    Extend(outs, [], Start(0));
    var r2 := r1 + [Launched];
    Extend(outs, r1, Launched);
    var r3 := r2 + [Check];
    Extend(outs, r2, Check);
    var r4 := r3 + [Store(0)];
    Extend(outs, r3, Store(0));
    var r5 := r4 + [Count(0)];
    Extend(outs, r4, Count(0));
    var r6 := r5 + [Look(0)];
    Extend(outs, r5, Look(0));
    var r7 := r6 + [Spawn(0)];
    Extend(outs, r6, Spawn(0));
    Extend(outs, r7, Arm);
    assert r7 + [Arm] == [Start(0), Launched, Check, Store(0), Count(0), Look(0), Spawn(0), Arm];
  }

  lemma Extend(outs: seq<Outcome>, steps: seq<Step>, step: Step)
    requires CanRun(outs, steps) && Enabled(Exec(outs, steps), step)
    ensures CanRun(outs, steps + [step]) && Exec(outs, steps + [step]) == Do(outs, Exec(outs, steps), step)
  {
    assert (steps + [step])[..|steps|] == steps;
  }

  // ----- every run ends -----

  function Weight(pc: WrapperPc): nat {
    match pc
    case Fresh => 7
    case Running => 6
    case Stored => 5
    case Counted(_) => 4
    case Looked(_) => 2
    case Ended => 0
  }

  function Left(s: State): int {
    Total(Weight, s.wrappers) + s.resumes +
    match s.caller
    case Launching(i) => 5 + |s.wrappers| - i
    case Checking => 4
    case Arming => 3
    case Suspended => 2
    case Passing => 1
    case _ => 0
  }

  lemma StepUsesUp(outs: seq<Outcome>, s: State, step: Step)
    requires |outs| == |s.wrappers| == |s.results| && Starting(s) && Enabled(s, step)
    ensures Left(Do(outs, s, step)) < Left(s)
  {
    hide Total;
    match step
    case Start(i) => TotalUpdate(Weight, s.wrappers, i, Running);
    case Store(i) => TotalUpdate(Weight, s.wrappers, i, Stored);
    case Count(i) => TotalUpdate(Weight, s.wrappers, i, Counted(s.remaining));
    case Skip(i) => TotalUpdate(Weight, s.wrappers, i, Ended);
    case Look(i) => TotalUpdate(Weight, s.wrappers, i, Looked(See(s.continuation)));
    case Spawn(i) => TotalUpdate(Weight, s.wrappers, i, Ended);
    case _ =>
  }

  /** No run is longer than the work there is at the start: whatever the schedule, it gets to a state
      that is over. */
  lemma {:induction false} RunsAreBounded(outs: seq<Outcome>, steps: seq<Step>)
    requires outs != [] && CanRun(outs, steps)
    ensures 0 <= Left(Exec(outs, steps)) <= Left(Init(outs)) - |steps|
  {
    if steps != [] {
      var n := |steps| - 1;
      RunsAreBounded(outs, steps[..n]);
      RunKeepsInv(outs, steps[..n]);
      StepUsesUp(outs, Exec(outs, steps[..n]), steps[n]);
    }
    RunKeepsInv(outs, steps);
  }

  // ----- the await, seen from the state before await_ready -----

  /** The caller has seen, or is about to see, that nothing remains. */
  predicate SeesZero(s: State) {
    s.remaining == 0 && (s.caller.Checking? || (s.caller.Past() && !s.checkSaw.NonZero?))
  }

  lemma SeesZeroKept(outs: seq<Outcome>, s: State, step: Step)
    requires Inv(outs, s) && SeesZero(s) && Enabled(s, step)
    ensures SeesZero(Do(outs, s, step))
  {
    hide Storing, Starting, Ending, Uncounted;
  }

  lemma {:induction false} RunSeesZero(outs: seq<Outcome>, steps: seq<Step>, n: nat)
    requires outs != [] && CanRun(outs, steps) && n <= |steps| && CanRun(outs, steps[..n])
    requires SeesZero(Exec(outs, steps[..n]))
    ensures SeesZero(Exec(outs, steps))
    decreases |steps|
  {
    hide Do, Enabled, Inv;
    if n == |steps| {
      assert steps[..n] == steps;
    } else {
      var m := |steps| - 1;
      assert steps[..m][..n] == steps[..n];
      RunSeesZero(outs, steps[..m], n);
      RunKeepsInv(outs, steps[..m]);
      SeesZeroKept(outs, Exec(outs, steps[..m]), steps[m]);
    }
  }

  ghost predicate AllEnded(s: State) {
    forall i :: 0 <= i < |s.wrappers| ==> s.wrappers[i].Ended?
  }

  /** A caller that has seen a nonzero count and not armed itself yet: while a wrapper is left, one can move,
      and the caller stays where it is. */
  lemma WrapperCanMove(outs: seq<Outcome>, s: State) returns (step: Step)
    requires Inv(outs, s) && s.caller.Arming? && !AllEnded(s)
    ensures |outs| == |s.wrappers| == |s.results| && Enabled(s, step)
    ensures Do(outs, s, step).caller.Arming? && 0 <= Left(Do(outs, s, step)) < Left(s)
  {
    var i: nat :| i < |s.wrappers| && !s.wrappers[i].Ended?;
    UncountedZero(s.wrappers);
    step := match s.wrappers[i]
            case Stored => Count(i)
            case Counted(prev) => if prev == 1 then Look(i) else Skip(i)
            case Looked(_) => Spawn(i)
            case _ => Store(i);
    hide Counting, Storing, Handing, Ending, Uncounted, Total;
    StepUsesUp(outs, s, step);
  }

  /** All wrappers end before the caller arms itself. */
  lemma {:induction false} WrappersEnd(outs: seq<Outcome>, steps: seq<Step>) returns (more: seq<Step>)
    requires outs != [] && CanRun(outs, steps) && Exec(outs, steps).caller.Arming? && 0 <= Left(Exec(outs, steps))
    ensures CanRun(outs, steps + more) && Exec(outs, steps + more).caller.Arming?
    ensures AllEnded(Exec(outs, steps + more))
    decreases Left(Exec(outs, steps))
  {
    hide CanRun, Exec, Enabled, Do, Inv, Left, AllEnded;
    if AllEnded(Exec(outs, steps)) {
      more := [];
      assert steps + [] == steps;
    } else {
      RunKeepsInv(outs, steps);
      var step := WrapperCanMove(outs, Exec(outs, steps));
      Extend(outs, steps, step);
      var rest := WrappersEnd(outs, steps + [step]);
      more := [step] + rest;
      assert steps + more == steps + [step] + rest;
    }
  }

  lemma ArmedTooLate(outs: seq<Outcome>, s: State)
    requires Inv(outs, s) && s.caller.Arming? && AllEnded(s)
    ensures |outs| == |s.wrappers| == |s.results| && Enabled(s, Arm)
    ensures Over(Do(outs, s, Arm)) && Do(outs, s, Arm).caller.Suspended?
  {
    hide Storing, Starting, Ending, Uncounted;
  }

  lemma ChecksNonzero(outs: seq<Outcome>, s: State)
    requires |outs| == |s.wrappers| == |s.results| && s.caller.Checking? && s.remaining != 0
    ensures Enabled(s, Check) && Do(outs, s, Check).caller.Arming? && 0 <= Left(Do(outs, s, Check))
  {
  }

  /** When await_ready is about to see a nonzero count, some run leaves the caller asleep. */
  lemma {:induction false} AwaitMaySleep(outs: seq<Outcome>, before: seq<Step>) returns (after: seq<Step>)
    requires outs != [] && CanRun(outs, before)
    requires Exec(outs, before).caller.Checking? && Exec(outs, before).remaining != 0
    ensures CanRun(outs, before + after)
    ensures Over(Exec(outs, before + after)) && Exec(outs, before + after).caller.Suspended?
  {
    hide CanRun, Exec, Over, Inv, Enabled, Do, Left, AllEnded;
    ChecksNonzero(outs, Exec(outs, before));
    Extend(outs, before, Check);
    var checked := before + [Check];
    var more := WrappersEnd(outs, checked);
    RunKeepsInv(outs, checked + more);
    ArmedTooLate(outs, Exec(outs, checked + more));
    Extend(outs, checked + more, Arm);
    after := [Check] + more + [Arm];
    assert before + after == checked + more + [Arm];
  }

  /** The caller is sure to get past its await exactly when nothing remains as it asks, as when all tasks have
      run synchronously. */
  lemma {:induction false} AwaitIsSureToPassExactlyWhen(outs: seq<Outcome>, before: seq<Step>)
    requires outs != [] && CanRun(outs, before) && Exec(outs, before).caller.Checking?
    ensures Exec(outs, before).remaining == 0 <==>
            forall after: seq<Step> :: CanRun(outs, before + after) && Over(Exec(outs, before + after)) ==>
              Exec(outs, before + after).caller.Returned? || Exec(outs, before + after).caller.Rethrew?
  {
    hide CanRun, Exec, Over, Inv;
    if Exec(outs, before).remaining == 0 {
      forall after: seq<Step> | CanRun(outs, before + after) && Over(Exec(outs, before + after))
        ensures Exec(outs, before + after).caller.Returned? || Exec(outs, before + after).caller.Rethrew?
      {
        assert (before + after)[..|before|] == before;
        RunSeesZero(outs, before + after, |before|);
        RunKeepsInv(outs, before + after);
        OverMeans(outs, Exec(outs, before + after));
      }
    } else {
      var after := AwaitMaySleep(outs, before);
    }
  }
}
