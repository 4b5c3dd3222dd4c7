/** The event bus: four workers on one task queue, a timer thread on a heap of deadlines, and Stop.

    Sections under a mutex are one step, and any enabled step may come next, on any thread.  Events
    are numbered in the order of their publication.  The fields from `published` on are history and
    steer nothing, except that an event's deadline is looked up there.
 */
module EventBus {
  import opened Orders
  import opened Threads
  import opened Wrappers

  type Event = nat

  // ----- the task queue -----

  datatype Tasks = Tasks(queue: seq<Event>, stopped: bool)

  /** A stopped queue drops what is pushed. */
  function Pushed(q: Tasks, e: Event): Tasks {
    if q.stopped then q else q.(queue := q.queue + [e])
  }

  /** What Pop waits for. */
  predicate Ready(q: Tasks) {
    q.queue != [] || q.stopped
  }

  /** None tells the worker to exit. */
  function Front(q: Tasks): Option<Event>
    requires Ready(q)
  {
    if q.queue == [] then None else Some(q.queue[0])
  }

  function Popped(q: Tasks): Tasks {
    if q.queue == [] then q else q.(queue := q.queue[1..])
  }

  class TaskQueue {
    var queue: seq<Event>
    var stopped: bool

    ghost function Abs(): Tasks
      reads this
    {
      Tasks(queue, stopped)
    }

    constructor ()
      ensures Abs() == Tasks([], false)
    {
      queue, stopped := [], false;
    }

    method Push(e: Event)
      modifies this
      ensures Abs() == Pushed(old(Abs()), e)
    {
      if stopped {
        return;
      }
      queue := queue + [e];
    }

    /** Pop, from the moment its wait is over. */
    method Pop() returns (task: Option<Event>)
      requires Ready(Abs())
      modifies this
      ensures task == Front(old(Abs())) && Abs() == Popped(old(Abs()))
    {
      if queue == [] && stopped {
        return None;
      }
      task := Some(queue[0]);
      queue := queue[1..];
    }

    method Stop()
      modifies this
      ensures Abs() == old(Abs()).(stopped := true)
    {
      stopped := true;
    }
  }

  // ----- the bus -----

  datatype WorkerPc = Idle | Working(e: Event) | Exited

  datatype TimerPc =
    | Testing                               // before the test of stop_
    | Entering                              // before the lock
    | Timed(read: int)                      // holds the lock, has read the clock
    | Handing(e: Event)                     // has popped a timer and released the lock
    | Asleep(timed: bool, notified: bool)
    | Gone

  /** How far Stop has come. */
  datatype StopPc = Open | Flagged | Closed | Joined | Notified | Finished

  datatype Publication = Async | Delayed(due: int)

  datatype State = State(
    now: int,
    tasks: Tasks,
    workers: seq<WorkerPc>,
    pending: multiset<Event>,      // the timer heap
    timer: TimerPc,
    stop: StopPc,
    published: seq<Publication>,
    accepted: seq<Event>,          // let into the task queue
    dropped: multiset<Event>,      // turned away by it
    fired: seq<Event>,             // popped off the timer heap
    started: seq<Event>,
    done: multiset<Event>
  )

  datatype Step =
    | PublishAsync
    | PublishDelayed(read: int, delay: nat)  // the clock is read before the lock is taken
    | Tick(t: int)
    | Take(w: nat) | Finish(w: nat)
    | Test | Lock | Decide(e: Event) | HandOver | Wake | StrayWake
    | CallStop | CloseQueue | JoinWorkers | NotifyTimer | JoinTimer

  function Init(t: int): State {
    State(t, Tasks([], false), [Idle, Idle, Idle, Idle], multiset{}, Testing, Open,
          [], [], multiset{}, [], [], multiset{})
  }

  function Due(s: State, e: Event): int {
    if e < |s.published| && s.published[e].Delayed? then s.published[e].due else 0
  }

  /** TimerTask::operator<: the later deadline is the smaller task. */
  predicate Less(s: State, a: Event, b: Event) {
    Due(s, a) > Due(s, b)
  }

  function Order(s: State): (Event, Event) -> bool {
    (a: Event, b: Event) => Less(s, a, b)
  }

  /** A top of the heap: no pending task is greater. */
  ghost predicate OnTop(s: State, e: Event) {
    IsTop(Order(s), s.pending, e)
  }

  ghost predicate Enabled(s: State, step: Step) {
    match step
    case PublishAsync => true
    case PublishDelayed(read, _) => read <= s.now && !s.timer.Timed?
    case Tick(t) => s.now <= t
    case Take(w) => w < |s.workers| && s.workers[w].Idle? && Ready(s.tasks)
    case Finish(w) => w < |s.workers| && s.workers[w].Working?
    case Test => s.timer.Testing?
    case Lock => s.timer.Entering?
    case Decide(e) => s.timer.Timed? && OnTop(s, e)
    case HandOver => s.timer.Handing?
    case Wake => s.timer.Asleep? && (s.timer.timed || s.timer.notified)
    case StrayWake => s.timer.Asleep?
    case CallStop => s.stop.Open?
    case CloseQueue => s.stop.Flagged?
    case JoinWorkers => s.stop.Closed? && forall w :: 0 <= w < |s.workers| ==> s.workers[w].Exited?
    case NotifyTimer => s.stop.Joined?
    case JoinTimer => s.stop.Notified? && s.timer.Gone?
  }

  function Notify(timer: TimerPc): TimerPc {
    if timer.Asleep? then timer.(notified := true) else timer
  }

  /** An event arrives at the task queue. */
  function Arrive(s: State, e: Event): State {
    if s.tasks.stopped then s.(tasks := Pushed(s.tasks, e), dropped := s.dropped + multiset{e})
    else s.(tasks := Pushed(s.tasks, e), accepted := s.accepted + [e])
  }

  ghost function Do(s: State, step: Step): State
    requires Enabled(s, step)
  {
    match step
    case PublishAsync => Arrive(s.(published := s.published + [Async]), |s.published|)
    case PublishDelayed(read, delay) =>
      s.(published := s.published + [Delayed(read + delay)], pending := s.pending + multiset{|s.published|},
         timer := Notify(s.timer))
    case Tick(t) => s.(now := t)
    case Take(w) =>
      (match Front(s.tasks)
       case None => s.(tasks := Popped(s.tasks), workers := s.workers[w := Exited])
       case Some(e) => s.(tasks := Popped(s.tasks), workers := s.workers[w := Working(e)], started := s.started + [e]))
    case Finish(w) => s.(workers := s.workers[w := Idle], done := s.done + multiset{s.workers[w].e})
    case Test => s.(timer := if s.stop.Open? then Entering else Gone)
    case Lock => s.(timer := if s.pending == multiset{} then Asleep(false, false) else Timed(s.now))
    case Decide(e) =>
      if s.timer.read >= Due(s, e) then s.(pending := s.pending - multiset{e}, timer := Handing(e), fired := s.fired + [e])
      else s.(timer := Asleep(true, false))
    case HandOver => Arrive(s.(timer := Testing), s.timer.e)
    case Wake => s.(timer := Testing)
    case StrayWake => s.(timer := Testing)
    case CallStop => s.(stop := Flagged)
    case CloseQueue => s.(stop := Closed, tasks := s.tasks.(stopped := true))
    case JoinWorkers => s.(stop := Joined)
    case NotifyTimer => s.(stop := Notified, timer := Notify(s.timer))
    case JoinTimer => s.(stop := Finished)
  }

  // ----- what every reachable state satisfies -----

  /** The numbers below n, each once. */
  function Below(n: nat): (m: multiset<Event>)
    ensures forall e: Event :: m[e] == if e < n then 1 else 0
  {
    if n == 0 then multiset{} else Below(n - 1) + multiset{n - 1}
  }

  lemma BelowNext(n: nat)
    ensures Below(n + 1) == Below(n) + multiset{n}
  {
  }

  /** The event the timer thread has popped and not handed over yet. */
  function InHand(timer: TimerPc): multiset<Event> {
    if timer.Handing? then multiset{timer.e} else multiset{}
  }

  function Busy(pc: WorkerPc): multiset<Event> {
    if pc.Working? then multiset{pc.e} else multiset{}
  }

  /** Every published event is in one place. */
  ghost predicate Placed(s: State) {
    Below(|s.published|) == (s.pending + InHand(s.timer)) + (multiset(s.accepted) + s.dropped)
  }

  /** First in, first out; what was taken out is done or being worked on. */
  ghost predicate Queued(s: State) {
    && s.accepted == s.started + s.tasks.queue
    && multiset(s.started) == s.done + Held(Busy, s.workers)
  }

  /** A delayed event that is no longer pending is due. */
  ghost predicate OnTime(s: State) {
    && (forall e :: 0 <= e < |s.published| && s.published[e].Delayed? ==> e in s.pending || s.published[e].due <= s.now)
    && (s.timer.Timed? ==> s.timer.read <= s.now && s.pending != multiset{})
  }

  /** What Stop's progress tells about the threads. */
  ghost predicate Stopping(s: State) {
    && (s.tasks.stopped <==> !s.stop.Open? && !s.stop.Flagged?)
    && (s.dropped != multiset{} ==> s.tasks.stopped)
    && (forall w :: 0 <= w < |s.workers| && s.workers[w].Exited? ==> s.tasks == Tasks([], true))
    && (s.stop.Joined? || s.stop.Notified? || s.stop.Finished? ==>
          forall w :: 0 <= w < |s.workers| ==> s.workers[w].Exited?)
    && (s.timer.Gone? ==> !s.stop.Open?)
    && (s.stop.Finished? ==> s.timer.Gone?)
    && |s.workers| == 4
  }

  ghost predicate Inv(s: State) {
    Placed(s) && Queued(s) && OnTime(s) && Stopping(s)
  }

  lemma ArriveKeeps(s: State, e: Event)
    ensures var t := Arrive(s, e);
            && multiset(t.accepted) + t.dropped == (multiset(s.accepted) + s.dropped) + multiset{e}
            && (s.accepted == s.started + s.tasks.queue ==> t.accepted == t.started + t.tasks.queue)
            && t == s.(tasks := t.tasks, accepted := t.accepted, dropped := t.dropped)
            && t.tasks.stopped == s.tasks.stopped && (s.tasks.stopped ==> t.tasks == s.tasks)
            && (t.dropped == s.dropped || s.tasks.stopped)
  {
    assert s.started + (s.tasks.queue + [e]) == s.started + s.tasks.queue + [e];
  }

  lemma PublishAsyncPlaces(s: State, step: Step)
    requires Placed(s) && Enabled(s, step) && step.PublishAsync?
    ensures Placed(Do(s, step))
  {
    hide Arrive, Less, Due, Below, Ready, Front, Popped, Notify;
    BelowNext(|s.published|);
    ArriveKeeps(s.(published := s.published + [Async]), |s.published|);
  }

  lemma PublishDelayedPlaces(s: State, step: Step)
    requires Placed(s) && Enabled(s, step) && step.PublishDelayed?
    ensures Placed(Do(s, step))
  {
    hide Arrive, Less, Due, Below;
    BelowNext(|s.published|);
  }

  lemma HandOverPlaces(s: State, step: Step)
    requires Placed(s) && Enabled(s, step) && step.HandOver?
    ensures Placed(Do(s, step))
  {
    var empty := s.(timer := Testing);
    assert Do(s, step) == Arrive(empty, s.timer.e);
    hide Arrive, Below, Do, Enabled;
    ArriveKeeps(empty, s.timer.e);
  }

  lemma DecidePlaces(s: State, step: Step)
    requires Placed(s) && Enabled(s, step) && step.Decide?
    ensures Placed(Do(s, step))
  {
    hide Arrive, Less, Due, Below, Ready, Front, Popped, Notify;
  }

  /** The other steps move no event. */
  lemma MovesNothing(s: State, step: Step)
    requires Enabled(s, step)
    requires !step.PublishAsync? && !step.PublishDelayed? && !step.HandOver? && !step.Decide?
    ensures var t := Do(s, step);
            && t.pending == s.pending && t.accepted == s.accepted && t.dropped == s.dropped
            && t.published == s.published && InHand(t.timer) == InHand(s.timer)
  {
    hide Arrive, Less, Due, OnTop, Ready, Front, Popped;
    if step.NotifyTimer? {
    } else {
      hide Notify;
    }
  }

  lemma {:induction false} PlacedKept(s: State, step: Step)
    requires Placed(s) && Enabled(s, step)
    ensures Placed(Do(s, step))
  {
    hide Do, InHand, Below, Enabled;
    match step
    case PublishAsync => PublishAsyncPlaces(s, step);
    case PublishDelayed(_, _) => PublishDelayedPlaces(s, step);
    case HandOver => HandOverPlaces(s, step);
    case Decide(_) => DecidePlaces(s, step);
    case _ => MovesNothing(s, step);
  }

  lemma TakeMoves(started: seq<Event>, queue: seq<Event>, done: multiset<Event>, held: multiset<Event>)
    requires queue != [] && multiset(started) == done + held
    ensures (started + [queue[0]]) + queue[1..] == started + queue
    ensures multiset(started + [queue[0]]) == done + (held + multiset{queue[0]})
  {
  }

  lemma TakeQueued(s: State, w: nat)
    requires Queued(s) && Enabled(s, Take(w)) && s.tasks.queue != []
    ensures Queued(Do(s, Take(w)))
  {
    var e := s.tasks.queue[0];
    var t := Do(s, Take(w));
    assert t == s.(tasks := t.tasks, workers := s.workers[w := Working(e)], started := s.started + [e]);
    assert t.tasks.queue == s.tasks.queue[1..];
    HeldUpdate(Busy, s.workers, w, Working(e));
    assert Busy(s.workers[w]) == multiset{} && Busy(Working(e)) == multiset{e};
    hide Held, Do, Enabled, Busy;
    assert Held(Busy, t.workers) == Held(Busy, s.workers) + multiset{e};
    TakeMoves(s.started, s.tasks.queue, s.done, Held(Busy, s.workers));
  }

  lemma ExitQueued(s: State, w: nat)
    requires Queued(s) && Enabled(s, Take(w)) && s.tasks.queue == []
    ensures Queued(Do(s, Take(w)))
  {
    hide Held;
    HeldUpdate(Busy, s.workers, w, Exited);
  }

  lemma FinishQueued(s: State, w: nat)
    requires Queued(s) && Enabled(s, Finish(w))
    ensures Queued(Do(s, Finish(w)))
  {
    hide Held;
    HeldUpdate(Busy, s.workers, w, Idle);
  }

  lemma WorkKeeps(s: State, step: Step)
    requires OnTime(s) && Stopping(s) && Enabled(s, step) && (step.Take? || step.Finish?)
    ensures OnTime(Do(s, step)) && Stopping(Do(s, step))
  {
  }

  lemma ArrivalKeeps(s: State, step: Step)
    requires Queued(s) && OnTime(s) && Stopping(s) && Enabled(s, step) && (step.PublishAsync? || step.HandOver?)
    ensures Queued(Do(s, step)) && OnTime(Do(s, step)) && Stopping(Do(s, step))
  {
    hide Arrive, Less, Due, OnTop, Held, Notify, Ready, Front, Popped, Pushed;
    if step.PublishAsync? {
      ArriveKeeps(s.(published := s.published + [Async]), |s.published|);
    } else {
      ArriveKeeps(s.(timer := Testing), s.timer.e);
    }
  }

  predicate IsOther(step: Step) {
    !step.PublishAsync? && !step.HandOver? && !step.Take? && !step.Finish?
  }

  lemma DecideOnTime(s: State, step: Step)
    requires OnTime(s) && Enabled(s, step) && step.Decide?
    ensures OnTime(Do(s, step))
  {
    hide Less;
  }

  lemma OtherOnTime(s: State, step: Step)
    requires OnTime(s) && Enabled(s, step) && IsOther(step) && !step.Decide?
    ensures OnTime(Do(s, step))
  {
    hide Arrive, Ready, Front, Popped, OnTop, Less, Due;
  }

  lemma OtherQueued(s: State, step: Step)
    requires Queued(s) && Enabled(s, step) && IsOther(step)
    ensures Queued(Do(s, step))
  {
    hide Arrive, Less, Due, OnTop, Held, Ready, Front, Popped, Notify;
  }

  lemma TimerStopping(s: State, step: Step)
    requires Stopping(s) && Enabled(s, step)
    requires step.Test? || step.Lock? || step.Decide? || step.Wake? || step.StrayWake? || step.Tick? || step.PublishDelayed?
    ensures Stopping(Do(s, step))
  {
    var t := Do(s, step);
    assert t == s.(now := t.now, pending := t.pending, timer := t.timer, fired := t.fired, published := t.published);
    assert t.timer.Gone? ==> s.timer.Gone? || !s.stop.Open?;
    hide Do, Enabled;
  }

  lemma StopStopping(s: State, step: Step)
    requires Stopping(s) && Enabled(s, step)
    requires step.CallStop? || step.CloseQueue? || step.JoinWorkers? || step.NotifyTimer? || step.JoinTimer?
    ensures Stopping(Do(s, step))
  {
    hide Arrive, Less, Due, OnTop, Ready, Front, Popped;
    assert Do(s, step).workers == s.workers;
  }

  lemma {:induction false} StepKeepsInv(s: State, step: Step)
    requires Inv(s) && Enabled(s, step)
    ensures Inv(Do(s, step))
  {
    hide Placed, Queued, OnTime, Stopping, Do, Enabled;
    PlacedKept(s, step);
    if step.Take? || step.Finish? {
      match step {
        case Finish(w) => FinishQueued(s, w);
        case Take(w) => if s.tasks.queue == [] { ExitQueued(s, w); } else { TakeQueued(s, w); }
      }
      WorkKeeps(s, step);
    } else if step.PublishAsync? || step.HandOver? {
      ArrivalKeeps(s, step);
    } else {
      if step.Decide? { DecideOnTime(s, step); } else { OtherOnTime(s, step); }
      OtherQueued(s, step);
      if step.CallStop? || step.CloseQueue? || step.JoinWorkers? || step.NotifyTimer? || step.JoinTimer? {
        StopStopping(s, step);
      } else {
        TimerStopping(s, step);
      }
    }
  }

  lemma InitInv(t: int)
    ensures Inv(Init(t))
  {
    NothingHeld(Busy, Init(t).workers);
    hide Held;
  }

  // ----- runs -----

  ghost predicate CanRun(t: int, steps: seq<Step>)
    decreases |steps|, 0
  {
    steps == [] ||
    (var n := |steps| - 1;
     CanRun(t, steps[..n]) && Enabled(Exec(t, steps[..n]), steps[n]))
  }

  ghost function Exec(t: int, steps: seq<Step>): State
    requires CanRun(t, steps)
    decreases |steps|, 1
  {
    if steps == [] then Init(t)
    else var n := |steps| - 1; Do(Exec(t, steps[..n]), steps[n])
  }

  lemma {:induction false} RunKeepsInv(t: int, steps: seq<Step>)
    requires CanRun(t, steps)
    ensures Inv(Exec(t, steps))
  {
    hide Inv, Do, Enabled;
    if steps == [] {
      InitInv(t);
    } else {
      RunKeepsInv(t, steps[..|steps| - 1]);
      StepKeepsInv(Exec(t, steps[..|steps| - 1]), steps[|steps| - 1]);
    }
  }

  // ----- the order of deadlines -----

  lemma FiresTheEarliest(s: State, e: Event, x: Event)
    requires Enabled(s, Decide(e)) && x in s.pending
    ensures Due(s, e) <= Due(s, x)
    ensures var t := Do(s, Decide(e));
            if Due(s, e) <= s.timer.read then t.timer == Handing(e) && t.pending == s.pending - multiset{e}
            else t.timer == Asleep(true, false) && t.pending == s.pending
  {
    assert !Order(s)(e, x);
  }

  /** Deadlines belong to published events only. */
  ghost predicate Dated(s: State) {
    && (forall e :: e in s.pending ==> e < |s.published| && s.published[e].Delayed?)
    && (forall i :: 0 <= i < |s.fired| ==> s.fired[i] < |s.published| && s.published[s.fired[i]].Delayed?)
  }

  /** From position b on the fired events are ordered by deadline, and not later than any pending one. */
  ghost predicate Ordered(s: State, b: nat) {
    && b <= |s.fired|
    && (forall i, j :: b <= i < j < |s.fired| ==> Due(s, s.fired[i]) <= Due(s, s.fired[j]))
    && (forall i, x :: b <= i < |s.fired| && x in s.pending ==> Due(s, s.fired[i]) <= Due(s, x))
  }

  lemma DatedKept(s: State, step: Step)
    requires Dated(s) && Enabled(s, step)
    ensures Dated(Do(s, step))
  {
    hide Due, Less, Ready, Front, Popped, Pushed, Notify;
    if step.Decide? {
      DecideDates(s, step);
    }
  }

  lemma DecideOrdered(s: State, b: nat, step: Step)
    requires Ordered(s, b) && Enabled(s, step) && step.Decide?
    ensures Ordered(Do(s, step), b)
  {
    forall x | x in s.pending ensures Due(s, step.e) <= Due(s, x) {
      FiresTheEarliest(s, step.e, x);
    }
    DecideDates(s, step);
    hide OnTop, Less, Due, Do;
  }

  lemma DecideDates(s: State, step: Step)
    requires Enabled(s, step) && step.Decide?
    ensures forall e :: Due(Do(s, step), e) == Due(s, e)
    ensures var t := Do(s, step);
            && (t.fired == s.fired || t.fired == s.fired + [step.e]) && t.published == s.published
            && step.e in s.pending && forall x :: x in t.pending ==> x in s.pending
  {
  }

  /** Every other step keeps the deadlines of published events and fires nothing. */
  lemma KeepsDates(s: State, step: Step)
    requires Enabled(s, step) && !step.PublishDelayed? && !step.Decide?
    ensures var t := Do(s, step);
            && t.fired == s.fired && t.pending == s.pending
            && forall e :: 0 <= e < |s.published| ==> Due(t, e) == Due(s, e)
  {
    hide OnTop, Less, Ready, Front, Popped, Pushed, Notify;
  }

  lemma {:induction false} OrderedKept(s: State, b: nat, step: Step)
    requires Dated(s) && Ordered(s, b) && Enabled(s, step) && !step.PublishDelayed?
    ensures Ordered(Do(s, step), b)
  {
    hide Do, Enabled, Due;
    if step.Decide? {
      DecideOrdered(s, b, step);
    } else {
      KeepsDates(s, step);
    }
  }

  lemma {:induction false} RunKeepsDates(t: int, steps: seq<Step>)
    requires CanRun(t, steps)
    ensures Dated(Exec(t, steps))
  {
    hide Do, Enabled;
    if steps != [] {
      RunKeepsDates(t, steps[..|steps| - 1]);
      DatedKept(Exec(t, steps[..|steps| - 1]), steps[|steps| - 1]);
    }
  }

  lemma {:induction false} PrefixRuns(t: int, steps: seq<Step>, n: nat)
    requires CanRun(t, steps) && n <= |steps|
    ensures CanRun(t, steps[..n])
    decreases |steps|
  {
    if n < |steps| {
      assert steps[..|steps| - 1][..n] == steps[..n];
      PrefixRuns(t, steps[..|steps| - 1], n);
    } else {
      assert steps[..n] == steps;
    }
  }

  lemma {:induction false} StaysOrdered(t: int, steps: seq<Step>, n: nat)
    requires CanRun(t, steps) && n <= |steps| && forall k :: n <= k < |steps| ==> !steps[k].PublishDelayed?
    ensures CanRun(t, steps[..n]) && Ordered(Exec(t, steps), |Exec(t, steps[..n]).fired|)
    decreases |steps|
  {
    PrefixRuns(t, steps, n);
    if n == |steps| {
      assert steps[..n] == steps;
    } else {
      var m := |steps| - 1;
      assert steps[..m][..n] == steps[..n];
      StaysOrdered(t, steps[..m], n);
      RunKeepsDates(t, steps[..m]);
      hide Do, Enabled, Ordered, Dated;
      OrderedKept(Exec(t, steps[..m]), |Exec(t, steps[..n]).fired|, steps[m]);
    }
  }

  // ----- what the steps of a run say -----

  /** How many events have been published; this numbers them. */
  function Published(steps: seq<Step>): nat {
    if steps == [] then 0
    else
      var last := steps[|steps| - 1];
      Published(steps[..|steps| - 1]) + if last.PublishAsync? || last.PublishDelayed? then 1 else 0
  }

  /** The time the clock shows, when it showed t at the start. */
  function Clock(t: int, steps: seq<Step>): int {
    if steps == [] then t
    else if steps[|steps| - 1].Tick? then steps[|steps| - 1].t
    else Clock(t, steps[..|steps| - 1])
  }

  /** The time the timer thread has read when it last took the lock. */
  function LastRead(t: int, steps: seq<Step>): int {
    if steps == [] then t
    else if steps[|steps| - 1].Lock? then Clock(t, steps[..|steps| - 1])
    else LastRead(t, steps[..|steps| - 1])
  }

  /** When event e may reach the task queue: the time its publisher has read plus the delay asked for. */
  function Deadline(steps: seq<Step>, e: Event): Option<int> {
    if steps == [] then None
    else
      var n := |steps| - 1;
      match steps[n]
      case PublishDelayed(read, delay) =>
        if e == Published(steps[..n]) then Some(read + delay) else Deadline(steps[..n], e)
      case _ => Deadline(steps[..n], e)
  }

  function Recorded(deadline: Option<int>): Publication {
    match deadline
    case Some(d) => Delayed(d)
    case None => Async
  }

  lemma {:induction false} NotPublishedYet(steps: seq<Step>, e: Event)
    requires e >= Published(steps)
    ensures Deadline(steps, e) == None
  {
    if steps != [] {
      NotPublishedYet(steps[..|steps| - 1], e);
    }
  }

  /** What the state records is what the steps have said. */
  lemma {:induction false} RunRecords(t: int, steps: seq<Step>)
    requires CanRun(t, steps)
    ensures var s := Exec(t, steps);
            && s.now == Clock(t, steps)
            && |s.published| == Published(steps)
            && (s.timer.Timed? ==> s.timer.read == LastRead(t, steps))
            && (s.tasks.stopped <==> CloseQueue in steps)
            && forall e :: 0 <= e < |s.published| ==> s.published[e] == Recorded(Deadline(steps, e))
  {
    if steps != [] {
      var n := |steps| - 1;
      RunRecords(t, steps[..n]);
      RecordsStep(Exec(t, steps[..n]), steps[n]);
      InLast(steps, CloseQueue);
      NotPublishedYet(steps[..n], Published(steps[..n]));
      hide Do, Enabled;
    }
  }

  lemma RecordsStep(s: State, step: Step)
    requires Enabled(s, step)
    ensures var t := Do(s, step);
            && t.now == (if step.Tick? then step.t else s.now)
            && t.published == s.published + (match step
                                             case PublishAsync => [Async]
                                             case PublishDelayed(read, delay) => [Delayed(read + delay)]
                                             case _ => [])
            && (t.timer.Timed? ==> t.timer == if step.Lock? then Timed(s.now) else s.timer)
            && (t.tasks.stopped <==> s.tasks.stopped || step == CloseQueue)
  {
    hide Arrive, Less, Due, OnTop, Ready, Front;
    match step
    case PublishAsync => ArriveKeeps(s.(published := s.published + [Async]), |s.published|);
    case HandOver => ArriveKeeps(s.(timer := Testing), s.timer.e);
    case _ => assert s.published + [] == s.published;
  }

  lemma InLast(steps: seq<Step>, step: Step)
    requires steps != []
    ensures step in steps <==> step in steps[..|steps| - 1] || step == steps[|steps| - 1]
  {
    assert steps == steps[..|steps| - 1] + [steps[|steps| - 1]];
  }

  lemma {:induction false} DeadlineOfStep(steps: seq<Step>, k: nat)
    requires k < |steps| && steps[k].PublishDelayed?
    ensures Published(steps[..k]) < Published(steps)
    ensures Deadline(steps, Published(steps[..k])) == Some(steps[k].read + steps[k].delay)
    decreases |steps|
  {
    var n := |steps| - 1;
    if k < n {
      assert steps[..n][..k] == steps[..k];
      DeadlineOfStep(steps[..n], k);
    }
  }

  /** The events the task queue has let in, in order. */
  ghost function LetIn(t: int, steps: seq<Step>): seq<Event>
    requires CanRun(t, steps)
  {
    if steps == [] then []
    else
      var n := |steps| - 1;
      LetIn(t, steps[..n]) +
      match steps[n]
      case PublishAsync => if CloseQueue in steps[..n] then [] else [Published(steps[..n])]
      case HandOver => if CloseQueue in steps[..n] then [] else [Exec(t, steps[..n]).timer.e]
      case _ => []
  }

  lemma {:induction false} LettingInIsRecorded(t: int, steps: seq<Step>)
    requires CanRun(t, steps)
    ensures Exec(t, steps).accepted == LetIn(t, steps)
  {
    if steps != [] {
      var n := |steps| - 1;
      LettingInIsRecorded(t, steps[..n]);
      RunRecords(t, steps[..n]);
      LettingInStep(Exec(t, steps[..n]), steps[n]);
      hide Do, Enabled;
    }
  }

  lemma LettingInStep(s: State, step: Step)
    requires Enabled(s, step)
    ensures Do(s, step).accepted == s.accepted +
            match step
            case PublishAsync => if s.tasks.stopped then [] else [|s.published|]
            case HandOver => if s.tasks.stopped then [] else [s.timer.e]
            case _ => []
  {
    hide Less, Due, OnTop, Ready, Front, Popped, Notify, Pushed;
    assert s.accepted + [] == s.accepted;
  }

  /** The events the timer thread has taken off the heap, in order. */
  ghost function FiredIn(t: int, steps: seq<Step>): seq<Event>
    requires CanRun(t, steps)
  {
    if steps == [] then []
    else
      var n := |steps| - 1;
      FiredIn(t, steps[..n]) +
      match steps[n]
      case Decide(e) => if Exec(t, steps).timer == Handing(e) then [e] else []
      case _ => []
  }

  lemma {:induction false} FiringIsRecorded(t: int, steps: seq<Step>)
    requires CanRun(t, steps)
    ensures Exec(t, steps).fired == FiredIn(t, steps)
  {
    if steps != [] {
      var n := |steps| - 1;
      FiringIsRecorded(t, steps[..n]);
      FiringStep(Exec(t, steps[..n]), steps[n]);
      hide Do, Enabled;
    }
  }

  lemma FiringStep(s: State, step: Step)
    requires Enabled(s, step)
    ensures Do(s, step).fired == s.fired +
            match step
            case Decide(e) => if Do(s, step).timer == Handing(e) then [e] else []
            case _ => []
  {
    hide Less, Due, OnTop, Ready, Front, Popped, Notify, Pushed;
    assert s.fired + [] == s.fired;
  }

  // ----- what every run keeps -----

  function B2n(b: bool): nat {
    if b then 1 else 0
  }

  /** In every run each published event is in exactly one place, pending, in the timer thread's hand,
      accepted once or dropped once, and events are dropped only by a stopped queue. */
  lemma {:induction false} OneFate(t: int, steps: seq<Step>, e: Event)
    requires CanRun(t, steps) && e < Published(steps)
    ensures var s := Exec(t, steps);
            && B2n(e in s.pending) + B2n(s.timer == Handing(e)) + B2n(e in s.accepted) + B2n(e in s.dropped) == 1
            && multiset(s.accepted)[e] <= 1 && s.dropped[e] <= 1
            && (e in s.dropped ==> s.tasks.stopped)
  {
    RunKeepsInv(t, steps);
    RunRecords(t, steps);
    var s := Exec(t, steps);
    hide Exec, CanRun;
    assert Below(|s.published|)[e] == 1;
    assert e in s.accepted <==> e in multiset(s.accepted);
  }

  /** In every run the started events are a prefix of those the task queue has let in, in that order; each
      was started once, and is being worked on by exactly one worker or done. */
  lemma StartedInOrderAndOnce(t: int, steps: seq<Step>, e: Event)
    requires CanRun(t, steps)
    ensures var s := Exec(t, steps);
            && s.accepted == LetIn(t, steps) && s.started <= LetIn(t, steps)
            && multiset(s.started)[e] <= 1
            && Held(Busy, s.workers)[e] + s.done[e] == multiset(s.started)[e]
  {
    RunKeepsInv(t, steps);
    LettingInIsRecorded(t, steps);
    var s := Exec(t, steps);
    hide Exec, CanRun, LetIn;
    assert multiset(s.accepted)[e] <= Below(|s.published|)[e];
    assert multiset(s.accepted) == multiset(s.started) + multiset(s.tasks.queue);
  }

  /** In every run a delayed event that has reached the task queue, or is on its way, was published the delay
      it asked for ago. */
  lemma {:induction false} NeverEarly(t: int, steps: seq<Step>, k: nat)
    requires CanRun(t, steps) && k < |steps| && steps[k].PublishDelayed?
    requires var s, e := Exec(t, steps), Published(steps[..k]);
             e in s.accepted || e in s.dropped || s.timer == Handing(e)
    ensures steps[k].read + steps[k].delay <= Clock(t, steps)
  {
    var e := Published(steps[..k]);
    DeadlineOfStep(steps, k);
    OneFate(t, steps, e);
    RunKeepsInv(t, steps);
    RunRecords(t, steps);
    hide Exec, CanRun, Placed, Queued, Stopping;
  }

  /** The timer thread takes an event off the heap exactly when the time it has read has reached the event's
      deadline, which is the earliest of all pending ones; otherwise it goes to sleep until that deadline. */
  lemma {:induction false} FiresExactlyWhenDue(t: int, steps: seq<Step>, e: Event, x: Event)
    requires CanRun(t, steps) && Enabled(Exec(t, steps), Decide(e)) && x in Exec(t, steps).pending
    ensures Deadline(steps, e).Some? && Deadline(steps, x).Some?
    ensures Deadline(steps, e).value <= Deadline(steps, x).value
    ensures var s, s' := Exec(t, steps), Do(Exec(t, steps), Decide(e));
            if Deadline(steps, e).value <= LastRead(t, steps)
            then s'.timer == Handing(e) && s'.pending == s.pending - multiset{e}
            else s'.timer == Asleep(true, false) && s'.pending == s.pending
  {
    RunKeepsDates(t, steps);
    RunRecords(t, steps);
    var s := Exec(t, steps);
    hide Exec, CanRun;
    FiresTheEarliest(s, e, x);
    FiresTheEarliest(s, e, e);
  }

  /** While nothing delayed is published, the timers fire in the order of their deadlines, and before all that
      are still pending. */
  lemma {:induction false} TimersFireInOrder(t: int, steps: seq<Step>, n: nat, i: nat, j: nat, x: Event)
    requires CanRun(t, steps) && n <= |steps| && forall k :: n <= k < |steps| ==> !steps[k].PublishDelayed?
    requires CanRun(t, steps[..n]) && |FiredIn(t, steps[..n])| <= i < j < |FiredIn(t, steps)|
    ensures var f := FiredIn(t, steps);
            && Deadline(steps, f[i]).Some? && Deadline(steps, f[j]).Some?
            && Deadline(steps, f[i]).value <= Deadline(steps, f[j]).value
            && (x in Exec(t, steps).pending ==>
                  Deadline(steps, x).Some? && Deadline(steps, f[j]).value <= Deadline(steps, x).value)
  {
    StaysOrdered(t, steps, n);
    FiringIsRecorded(t, steps);
    FiringIsRecorded(t, steps[..n]);
    RunKeepsDates(t, steps);
    RunRecords(t, steps);
    var s := Exec(t, steps);
    hide Exec, CanRun, FiredIn;
    assert Due(s, s.fired[i]) <= Due(s, s.fired[j]);
    assert x in s.pending ==> Due(s, s.fired[j]) <= Due(s, x);
  }

  // ----- after Stop -----

  /** The steps the bus takes by itself. */
  predicate Internal(step: Step) {
    !step.PublishAsync? && !step.PublishDelayed? && !step.Tick?
  }

  function Weight(pc: WorkerPc): nat {
    match pc
    case Idle => 1
    case Working(_) => 2
    case Exited => 0
  }

  function TimerWeight(pc: TimerPc): nat {
    match pc
    case Entering => 4
    case Timed(_) => 3
    case Handing(_) => 2
    case Asleep(_, _) => 2
    case Testing => 1
    case Gone => 0
  }

  function StopWeight(pc: StopPc): nat {
    match pc
    case Open => 5
    case Flagged => 4
    case Closed => 3
    case Joined => 2
    case Notified => 1
    case Finished => 0
  }

  /** The work that is left once the task queue has been stopped. */
  function Left(s: State): nat {
    2 * |s.tasks.queue| + Total(Weight, s.workers) + TimerWeight(s.timer) + StopWeight(s.stop)
  }

  /** Stop has closed the task queue. */
  predicate Shut(s: State) {
    s.tasks.stopped && !s.stop.Open?
  }

  /** What a step does once the task queue is stopped: nothing is accepted, and a step of the bus uses up
      work. */
  predicate UsesUp(s: State, t: State, step: Step) {
    && Shut(t) && t.accepted == s.accepted
    && Left(t) <= Left(s) - (if Internal(step) then 1 else 0)
  }

  lemma ShutWork(s: State, step: Step)
    requires Shut(s) && Enabled(s, step) && (step.Take? || step.Finish?)
    ensures UsesUp(s, Do(s, step), step)
  {
    hide Total;
    match step
    case Take(w) => TotalUpdate(Weight, s.workers, w, if s.tasks.queue == [] then Exited else Working(s.tasks.queue[0]));
    case Finish(w) => TotalUpdate(Weight, s.workers, w, Idle);
  }

  lemma ShutTimer(s: State, step: Step)
    requires Shut(s) && Enabled(s, step)
    requires step.Test? || step.Lock? || step.Decide? || step.HandOver? || step.Wake? || step.StrayWake?
    ensures UsesUp(s, Do(s, step), step)
  {
    hide Total, Due, Less, OnTop, StopWeight;
  }

  lemma ShutOther(s: State, step: Step)
    requires Shut(s) && Enabled(s, step)
    requires step.CallStop? || step.CloseQueue? || step.JoinWorkers? || step.NotifyTimer? || step.JoinTimer? || !Internal(step)
    ensures UsesUp(s, Do(s, step), step)
  {
    hide Total, Due, Less, OnTop, Ready, Front, Popped;
  }

  lemma ShutStep(s: State, step: Step)
    requires Shut(s) && Enabled(s, step)
    ensures UsesUp(s, Do(s, step), step)
  {
    hide Do, Enabled, UsesUp;
    match step
    case Take(_) => ShutWork(s, step);
    case Finish(_) => ShutWork(s, step);
    case Test => ShutTimer(s, step);
    case Lock => ShutTimer(s, step);
    case Decide(_) => ShutTimer(s, step);
    case HandOver => ShutTimer(s, step);
    case Wake => ShutTimer(s, step);
    case StrayWake => ShutTimer(s, step);
    case _ => ShutOther(s, step);
  }

  function InternalSteps(steps: seq<Step>): nat {
    if steps == [] then 0 else InternalSteps(steps[..|steps| - 1]) + if Internal(steps[|steps| - 1]) then 1 else 0
  }

  /** In every continuation of a run whose task queue is stopped nothing more is accepted, and the bus
      takes no more steps than there is work left. */
  lemma {:induction false} AfterStop(t: int, steps: seq<Step>, n: nat)
    requires CanRun(t, steps) && n <= |steps| && CanRun(t, steps[..n]) && Shut(Exec(t, steps[..n]))
    ensures Shut(Exec(t, steps)) && Exec(t, steps).accepted == Exec(t, steps[..n]).accepted
    ensures Left(Exec(t, steps)) + InternalSteps(steps[n..]) <= Left(Exec(t, steps[..n]))
    decreases |steps|
  {
    hide Do, Enabled, Left, Internal, Shut;
    if n == |steps| {
      assert steps[..n] == steps && steps[n..] == [];
    } else {
      var m := |steps| - 1;
      assert steps[..m][..n] == steps[..n];
      assert steps[n..][..m - n] == steps[..m][n..];
      AfterStop(t, steps[..m], n);
      ShutStep(Exec(t, steps[..m]), steps[m]);
    }
  }

  /** What the task queue has not let in by the time it is stopped never starts. */
  lemma LateEventsNeverStart(t: int, steps: seq<Step>, n: nat, e: Event)
    requires CanRun(t, steps) && n <= |steps| && CanRun(t, steps[..n]) && Exec(t, steps[..n]).tasks.stopped
    requires e !in Exec(t, steps[..n]).accepted
    ensures e !in Exec(t, steps).started
  {
    RunKeepsInv(t, steps[..n]);
    AfterStop(t, steps, n);
    RunKeepsInv(t, steps);
    hide Exec, CanRun, Left, InternalSteps;
  }

  /** Nothing is left to do but waiting: for publishers, for the clock or for a stray wake-up. */
  ghost predicate Over(s: State) {
    forall step: Step :: Internal(step) && !step.StrayWake? ==> !Enabled(s, step)
  }

  lemma TimedCanDecide(s: State)
    requires OnTime(s) && s.timer.Timed?
    ensures exists e :: Enabled(s, Decide(e))
  {
    TopExists(Order(s), s.pending);
    var e: Event :| IsTop(Order(s), s.pending, e);
    assert Enabled(s, Decide(e));
  }

  lemma TimerOver(s: State)
    requires OnTime(s) && Over(s)
    ensures s.timer == Gone || s.timer == Asleep(false, false)
  {
    hide OnTop;
    assert !Enabled(s, Test) && !Enabled(s, Lock) && !Enabled(s, HandOver) && !Enabled(s, Wake);
    if s.timer.Timed? {
      TimedCanDecide(s);
      assert false;
    }
  }

  lemma WorkersOver(s: State)
    requires Stopping(s) && Over(s) && !s.stop.Open?
    ensures s.tasks == Tasks([], true) && forall w :: 0 <= w < |s.workers| ==> s.workers[w].Exited?
  {
    hide OnTop;
    assert !Enabled(s, CloseQueue);
    forall w | 0 <= w < |s.workers| ensures s.workers[w].Exited? {
      assert !Enabled(s, Take(w)) && !Enabled(s, Finish(w));
    }
    assert s.workers[0].Exited?;
  }

  predicate HasNotified(s: State) {
    s.stop.Notified? || s.stop.Finished?
  }

  lemma StopOver(s: State)
    requires Stopping(s) && Over(s) && !s.stop.Open?
    ensures HasNotified(s) && (s.stop.Finished? <==> s.timer.Gone?)
  {
    hide OnTop;
    WorkersOver(s);
    assert !Enabled(s, CloseQueue) && !Enabled(s, JoinWorkers);
    assert !Enabled(s, NotifyTimer) && !Enabled(s, JoinTimer);
  }

  /** The timer thread sleeps without a deadline only while there is no timer, or it is about to wake. */
  lemma {:induction false} NoTimerNoDeadline(t: int, steps: seq<Step>)
    requires CanRun(t, steps)
    ensures Exec(t, steps).timer == Asleep(false, false) ==> Exec(t, steps).pending == multiset{}
  {
    if steps != [] {
      var n := |steps| - 1;
      NoTimerNoDeadline(t, steps[..n]);
      NoTimerStep(Exec(t, steps[..n]), steps[n]);
      hide Do, Enabled;
    }
  }

  lemma NoTimerStep(s: State, step: Step)
    requires Enabled(s, step) && (s.timer == Asleep(false, false) ==> s.pending == multiset{})
    ensures Do(s, step).timer == Asleep(false, false) ==> Do(s, step).pending == multiset{}
  {
    hide Due, Less, OnTop, Ready, Front, Popped, Pushed;
  }

  /** A run that is over although Stop was not called has overlooked nothing: every event that was published
      is done, and everybody waits. */
  lemma {:induction false} NothingIsOverlooked(t: int, steps: seq<Step>)
    requires CanRun(t, steps)
    requires var s := Exec(t, steps); s.stop.Open? && Over(s)
    ensures var s := Exec(t, steps);
            && s.pending == multiset{} && s.tasks.queue == [] && s.dropped == multiset{}
            && s.done == multiset(LetIn(t, steps)) == Below(Published(steps))
            && forall w :: 0 <= w < |s.workers| ==> s.workers[w].Idle?
  {
    RunKeepsInv(t, steps);
    RunRecords(t, steps);
    LettingInIsRecorded(t, steps);
    NoTimerNoDeadline(t, steps);
    var s := Exec(t, steps);
    TimerOver(s);
    WorkersIdle(s);
    hide Exec, CanRun, Held, Over, LetIn, Published, Below;
    NothingHeld(Busy, s.workers);
    assert s.accepted == s.started;
  }

  lemma WorkersIdle(s: State)
    requires Stopping(s) && Over(s) && s.stop.Open?
    ensures s.tasks.queue == [] && s.timer != Gone && forall w :: 0 <= w < |s.workers| ==> s.workers[w].Idle?
  {
    hide OnTop;
    forall w | 0 <= w < |s.workers| ensures s.workers[w].Idle? && s.tasks.queue == [] {
      assert !Enabled(s, Take(w)) && !Enabled(s, Finish(w));
    }
    assert s.workers[0].Idle?;
  }

  /** A run that is over after Stop was called leaves an empty queue: what was accepted has been started
      in order and is done, and Stop has returned unless the timer thread sleeps without a deadline. */
  lemma {:induction false} StopDrains(t: int, steps: seq<Step>)
    requires CanRun(t, steps)
    requires var s := Exec(t, steps); !s.stop.Open? && Over(s)
    ensures var s := Exec(t, steps);
            && s.tasks.queue == [] && s.started == s.accepted && s.done == multiset(s.accepted)
            && (forall w :: 0 <= w < |s.workers| ==> s.workers[w].Exited?)
            && (s.stop.Finished? <==> s.timer != Asleep(false, false))
  {
    RunKeepsInv(t, steps);
    var s := Exec(t, steps);
    hide Exec, CanRun, Held, Over, Placed;
    WorkersOver(s);
    TimerOver(s);
    StopOver(s);
    NothingHeld(Busy, s.workers);
    assert s.accepted == s.started;
  }

  /** The timer thread found no timer and went to sleep behind Stop's notify_all, and nothing delayed has
      been published and nothing has woken it since. */
  ghost predicate Overslept(t: int, steps: seq<Step>)
    requires CanRun(t, steps)
  {
    steps != [] &&
    var n := |steps| - 1;
    match steps[n]
    case Lock => Exec(t, steps[..n]).pending == multiset{} && NotifyTimer in steps[..n]
    case Wake => false
    case StrayWake => false
    case PublishDelayed(_, _) => false
    case _ => Overslept(t, steps[..n])
  }

  lemma NotifiedStep(s: State, step: Step)
    requires Enabled(s, step)
    ensures HasNotified(Do(s, step)) <==> HasNotified(s) || step == NotifyTimer
  {
    hide Arrive, Due, Less, OnTop, Ready, Front, Popped, Notify;
    match step
    case PublishAsync => ArriveKeeps(s.(published := s.published + [Async]), |s.published|);
    case HandOver => ArriveKeeps(s.(timer := Testing), s.timer.e);
    case _ =>
  }

  lemma NapStep(s: State, step: Step)
    requires Enabled(s, step)
    ensures Do(s, step).timer == Asleep(false, false) && HasNotified(Do(s, step)) <==>
            match step
            case Lock => s.pending == multiset{} && HasNotified(s)
            case Wake => false
            case StrayWake => false
            case PublishDelayed(_, _) => false
            case _ => s.timer == Asleep(false, false) && HasNotified(s)
  {
    NotifiedStep(s, step);
    if step.NotifyTimer? {
      assert Do(s, step).timer != Asleep(false, false);
    } else {
      hide HasNotified, Due, Less, OnTop, Ready, Front, Popped, Pushed;
    }
  }

  lemma {:induction false} NapsAreRecorded(t: int, steps: seq<Step>)
    requires CanRun(t, steps)
    ensures HasNotified(Exec(t, steps)) <==> NotifyTimer in steps
    ensures Overslept(t, steps) <==>
            Exec(t, steps).timer == Asleep(false, false) && HasNotified(Exec(t, steps))
  {
    if steps != [] {
      hide Do, Enabled, HasNotified;
      var n := |steps| - 1;
      NapsAreRecorded(t, steps[..n]);
      NotifiedStep(Exec(t, steps[..n]), steps[n]);
      NapStep(Exec(t, steps[..n]), steps[n]);
      InLast(steps, NotifyTimer);
    }
  }

  /** Stop hangs exactly when the timer thread overslept; every other run that is over has returned
      from it. */
  lemma {:induction false} StopHangsExactlyWhenOverslept(t: int, steps: seq<Step>)
    requires CanRun(t, steps)
    requires var s := Exec(t, steps); !s.stop.Open? && Over(s)
    ensures Exec(t, steps).stop.Finished? <==> !Overslept(t, steps)
  {
    RunKeepsInv(t, steps);
    NapsAreRecorded(t, steps);
    StopDrains(t, steps);
    StopOver(Exec(t, steps));
  }

  // ----- Stop, seen from the state it is called in -----

  /** The call can be missed: the timer thread has found stop_ unset and not taken the lock yet, and there is
      no timer for it to find. */
  ghost predicate CanMissStop(s: State) {
    s.timer.Entering? && s.pending == multiset{}
  }

  /** What a call that is not missed leads to: the timer thread never sleeps unnotified behind notify_all. */
  ghost predicate Wakeful(s: State) {
    && !s.stop.Open?
    && !CanMissStop(s)
    && (s.timer == Asleep(false, false) ==> !HasNotified(s))
  }

  /** Only firing takes a timer off the heap, and it leaves the timer thread elsewhere than before the lock. */
  lemma EnteringStep(s: State, step: Step)
    requires Enabled(s, step) && !s.stop.Open?
    ensures !Do(s, step).stop.Open?
    ensures CanMissStop(Do(s, step)) ==> CanMissStop(s)
  {
    hide Due, Less, Ready, Front, Popped, Pushed;
  }

  lemma WakefulKept(s: State, step: Step)
    requires Wakeful(s) && Enabled(s, step)
    ensures Wakeful(Do(s, step))
  {
    EnteringStep(s, step);
    NapStep(s, step);
    NotifiedStep(s, step);
    assert step.Lock? ==> s.pending != multiset{};
    hide Do, CanMissStop, HasNotified;
  }

  lemma {:induction false} StaysWakeful(t: int, steps: seq<Step>, n: nat)
    requires CanRun(t, steps) && n <= |steps| && CanRun(t, steps[..n]) && Wakeful(Exec(t, steps[..n]))
    ensures Wakeful(Exec(t, steps))
    decreases |steps|
  {
    hide Do, Enabled, Wakeful;
    if n == |steps| {
      assert steps[..n] == steps;
    } else {
      var m := |steps| - 1;
      assert steps[..m][..n] == steps[..n];
      StaysWakeful(t, steps[..m], n);
      WakefulKept(Exec(t, steps[..m]), steps[m]);
    }
  }

  /** Stop returns from every run that is over when, at its call, the timer thread was not between its test
      and its lock, or some delayed event was pending. */
  lemma {:induction false} StopReturns(t: int, before: seq<Step>, after: seq<Step>)
    requires CanRun(t, before) && Exec(t, before).stop.Open? && !CanMissStop(Exec(t, before))
    requires CanRun(t, before + [CallStop] + after) && Over(Exec(t, before + [CallStop] + after))
    ensures Exec(t, before + [CallStop] + after).stop.Finished?
  {
    var steps, n := before + [CallStop] + after, |before| + 1;
    assert steps[..n] == before + [CallStop];
    CalledWakeful(Exec(t, before));
    Extend(t, before, CallStop);
    hide CanRun, Exec, Over, Wakeful;
    StaysWakeful(t, steps, n);
    WakefulIsOver(t, steps);
  }

  lemma CalledWakeful(s: State)
    requires s.stop.Open? && !CanMissStop(s)
    ensures Enabled(s, CallStop) && Wakeful(Do(s, CallStop))
  {
  }

  lemma {:induction false} WakefulIsOver(t: int, steps: seq<Step>)
    requires CanRun(t, steps) && Wakeful(Exec(t, steps)) && Over(Exec(t, steps))
    ensures Exec(t, steps).stop.Finished?
  {
    RunKeepsInv(t, steps);
    var s := Exec(t, steps);
    hide CanRun, Exec, Over, Placed, Queued;
    TimerOver(s);
    StopOver(s);
  }

  lemma Extend(t: int, steps: seq<Step>, step: Step)
    requires CanRun(t, steps) && Enabled(Exec(t, steps), step)
    ensures CanRun(t, steps + [step]) && Exec(t, steps + [step]) == Do(Exec(t, steps), step)
  {
    hide Do, Enabled;
    assert (steps + [step])[..|steps|] == steps;
  }

  /** The timer thread is on its way into the trap: the task queue is closed, notify_all still to come. */
  ghost predicate Trapped(s: State) {
    s.stop.Closed? && s.tasks.stopped && CanMissStop(s)
  }

  lemma TrappedWork(s: State, step: Step)
    requires Trapped(s) && Enabled(s, step) && (step.Take? || step.Finish?)
    ensures Trapped(Do(s, step)) && Left(Do(s, step)) < Left(s)
  {
    ShutWork(s, step);
    hide Left;
  }

  /** While a worker is there one can take a step. */
  lemma WorkersCanLeave(s: State) returns (step: Step)
    requires Trapped(s) && !Enabled(s, JoinWorkers)
    ensures Enabled(s, step) && Trapped(Do(s, step)) && Left(Do(s, step)) < Left(s)
  {
    var w :| 0 <= w < |s.workers| && !s.workers[w].Exited?;
    step := if s.workers[w].Working? then Finish(w) else Take(w);
    assert Enabled(s, step);
    hide Left, Do, Enabled, Trapped;
    TrappedWork(s, step);
  }

  /** The workers drain the queue and leave, and the timer thread has not moved. */
  lemma {:induction false} WorkersLeave(t: int, steps: seq<Step>) returns (more: seq<Step>)
    requires CanRun(t, steps) && Trapped(Exec(t, steps))
    ensures CanRun(t, steps + more) && Trapped(Exec(t, steps + more))
    ensures Enabled(Exec(t, steps + more), JoinWorkers)
    decreases Left(Exec(t, steps))
  {
    hide CanRun, Exec, Enabled, Do, Trapped, Left;
    if Enabled(Exec(t, steps), JoinWorkers) {
      more := [];
      assert steps + [] == steps;
    } else {
      var step := WorkersCanLeave(Exec(t, steps));
      Extend(t, steps, step);
      var rest := WorkersLeave(t, steps + [step]);
      more := [step] + rest;
      assert steps + more == steps + [step] + rest;
    }
  }

  /** Behind the join, notify_all finds nobody asleep; then the timer thread goes to sleep. */
  lemma TrapCloses(s: State) returns (joined: State, notified: State, hung: State)
    requires Trapped(s) && Enabled(s, JoinWorkers)
    ensures joined == Do(s, JoinWorkers) && Enabled(joined, NotifyTimer)
    ensures notified == Do(joined, NotifyTimer) && Enabled(notified, Lock)
    ensures hung == Do(notified, Lock) && Over(hung) && hung.stop.Notified?
  {
    joined := s.(stop := Joined);
    notified := joined.(stop := Notified);
    hung := notified.(timer := Asleep(false, false));
  }

  lemma {:induction false} TrappedHangs(t: int, steps: seq<Step>) returns (more: seq<Step>)
    requires CanRun(t, steps) && Trapped(Exec(t, steps))
    ensures CanRun(t, steps + more) && Over(Exec(t, steps + more)) && Exec(t, steps + more).stop == Notified
  {
    hide CanRun, Exec, Enabled, Do, Trapped, Over;
    var leave := WorkersLeave(t, steps);
    var gone := steps + leave;
    var joined, notified, hung := TrapCloses(Exec(t, gone));
    Extend(t, gone, JoinWorkers);
    Extend(t, gone + [JoinWorkers], NotifyTimer);
    Extend(t, gone + [JoinWorkers] + [NotifyTimer], Lock);
    more := leave + [JoinWorkers, NotifyTimer, Lock];
    assert steps + more == gone + [JoinWorkers] + [NotifyTimer] + [Lock];
  }

  lemma TrapIsSet(s: State) returns (called: State, shut: State)
    requires s.stop.Open? && CanMissStop(s)
    ensures Enabled(s, CallStop) && called == Do(s, CallStop)
    ensures Enabled(called, CloseQueue) && shut == Do(called, CloseQueue) && Trapped(shut)
  {
    called := s.(stop := Flagged);
    shut := Do(called, CloseQueue);
  }

  /** From every other state Stop can be called in, some run hangs. */
  lemma {:induction false} StopMayHang(t: int, before: seq<Step>) returns (after: seq<Step>)
    requires CanRun(t, before) && Exec(t, before).stop.Open? && CanMissStop(Exec(t, before))
    ensures CanRun(t, before + [CallStop] + after) && Over(Exec(t, before + [CallStop] + after))
    ensures Exec(t, before + [CallStop] + after).stop == Notified
  {
    var called, shut := TrapIsSet(Exec(t, before));
    hide CanRun, Exec, Enabled, Do, Trapped, Over, CanMissStop;
    Extend(t, before, CallStop);
    Extend(t, before + [CallStop], CloseQueue);
    var closed := before + [CallStop] + [CloseQueue];
    var rest := TrappedHangs(t, closed);
    after := [CloseQueue] + rest;
    assert before + [CallStop] + after == closed + rest;
  }

  /** Whether Stop is sure to return is decided by the state it is called in. */
  lemma {:induction false} StopIsSureToReturnExactlyWhen(t: int, before: seq<Step>)
    requires CanRun(t, before) && Exec(t, before).stop.Open?
    ensures !CanMissStop(Exec(t, before)) <==>
            forall after: seq<Step> ::
              CanRun(t, before + [CallStop] + after) && Over(Exec(t, before + [CallStop] + after)) ==>
                Exec(t, before + [CallStop] + after).stop.Finished?
  {
    hide CanRun, Exec, Over, CanMissStop;
    if CanMissStop(Exec(t, before)) {
      var after := StopMayHang(t, before);
    } else {
      forall after: seq<Step> | CanRun(t, before + [CallStop] + after) && Over(Exec(t, before + [CallStop] + after))
        ensures Exec(t, before + [CallStop] + after).stop.Finished?
      {
        StopReturns(t, before, after);
      }
    }
  }

  /** It can hang from the start: the timer thread has tested stop_ when Stop is called. */
  lemma {:induction false} StopCanHang(t: int) returns (steps: seq<Step>)
    ensures CanRun(t, steps) && Exec(t, steps).stop == Notified && Over(Exec(t, steps))
  {
    Extend(t, [], Test);
    var after := StopMayHang(t, [] + [Test]);
    steps := [] + [Test] + [CallStop] + after;
  }
}
