/** The coroutine Task runtime: frames linked by continuation handles, driven by symmetric transfer.

    `Meaning` is what a reader of the coroutines has in mind: awaiting a task calls it, and its value
    or exception comes back to the await; `Eval` adds the events of such a run, in order.
    `Runtime.Resume` is what the promise and awaiter types do: frames start suspended, an await stores
    its caller as the task's continuation and transfers to the task, and a finished frame transfers to
    its continuation.
 */
module TaskMachine {

  import opened Wrappers

  /** A point in the text of a coroutine, with the values of its parameters and local variables there; or
      one of the points of sync_await's waiter. */
  datatype Point =
    | At(pc: nat, locals: seq<int>)
    | Waiter(task: Point)
    | Store(x: int)
    | Stored
    | Uncaught(e: int)

  /** What a coroutine does at a point.  `Jump` is any computation on the locals, branches and loops
      included; `Out` any side effect; `Signal` the statements `result = x; event.set();` of sync_await's
      waiter.  `Await` starts the coroutine `task` and goes on at the point `rest` gives for its outcome;
      an exception that is not caught leads to a `Throw` there. */
  datatype Action =
    | Return(v: int)
    | Throw(e: int)
    | Jump(next: Point)
    | Out(x: int, next: Point)
    | Signal(x: int, next: Point)
    | Await(task: Point, rest: Outcome -> Point)

  /** A program, in which every run from every point ends: the rank of a point falls with every step and
      towards every task.  Recursion and loops may depend on data in any way that ends. */
  datatype Text = Text(at: Point -> Action, ghost rank: Point -> ORDINAL)

  ghost predicate Falls(p: Text, c: Point) {
    match p.at(c)
    case Jump(n) => p.rank(n) < p.rank(c)
    case Out(_, n) => p.rank(n) < p.rank(c)
    case Signal(_, n) => p.rank(n) < p.rank(c)
    case Await(t, rest) => p.rank(t) < p.rank(c) && forall o: Outcome :: p.rank(rest(o)) < p.rank(c)
    case _ => true
  }

  ghost predicate Terminates(p: Text) {
    forall c: Point :: Falls(p, c)
  }

  datatype Event =
    | Started(id: nat)
    | Emitted(x: int)
    | Set(x: int)
    | Finished(id: nat, outcome: Outcome)
    | Resumed(id: nat, child: nat)

  /** A complete run: its outcome, its events in order, the next free frame number, its length. */
  datatype Run = Run(outcome: Outcome, log: seq<Event>, next: nat, steps: nat)

  /** Direct recursive evaluation from point c in frame `self`; new frames are numbered from `next`. */
  ghost function Eval(p: Text, c: Point, self: nat, next: nat): Run
    requires Terminates(p)
    decreases p.rank(c)
  {
    assert Falls(p, c);
    match p.at(c)
    case Return(v) => Run(Value(v), [Finished(self, Value(v))], next, 1)
    case Throw(e) => Run(Exn(e), [Finished(self, Exn(e))], next, 1)
    case Jump(n) => Before([], 1, Eval(p, n, self, next))
    case Out(x, n) => Before([Emitted(x)], 1, Eval(p, n, self, next))
    case Signal(x, n) => Before([Set(x)], 1, Eval(p, n, self, next))
    case Await(t, rest) =>
      var a := Eval(p, t, next, next + 1);
      Before([Started(next)] + a.log + [Resumed(self, next)], a.steps + 2, Eval(p, rest(a.outcome), self, a.next))
  }

  function Before(log: seq<Event>, steps: nat, r: Run): Run {
    Run(r.outcome, log + r.log, r.next, steps + r.steps)
  }

  /** The outcome and the side effects from a point on when an await is read as a plain call. */
  ghost function Meaning(p: Text, c: Point): (Outcome, seq<int>)
    requires Terminates(p)
    decreases p.rank(c)
  {
    assert Falls(p, c);
    match p.at(c)
    case Return(v) => (Value(v), [])
    case Throw(e) => (Exn(e), [])
    case Jump(n) => Meaning(p, n)
    case Out(x, n) => var m := Meaning(p, n); (m.0, [x] + m.1)
    case Signal(_, n) => Meaning(p, n)
    case Await(t, rest) =>
      var a := Meaning(p, t);
      var b := Meaning(p, rest(a.0));
      (b.0, a.1 + b.1)
  }

  function Effects(log: seq<Event>): seq<int> {
    if log == [] then []
    else if log[0].Emitted? then [log[0].x] + Effects(log[1..])
    else Effects(log[1..])
  }

  lemma {:induction false} EffectsConcat(a: seq<Event>, b: seq<Event>)
    ensures Effects(a + b) == Effects(a) + Effects(b)
  {
    if a == [] {
      assert a + b == b;
    } else {
      assert (a + b)[1..] == a[1..] + b;
      EffectsConcat(a[1..], b);
    }
  }

  lemma EffectsOfAwait(task: seq<Event>, rest: seq<Event>, self: nat, child: nat)
    ensures Effects([Started(child)] + task + [Resumed(self, child)] + rest) == Effects(task) + Effects(rest)
  {
    EffectsConcat([Started(child)], task);
    EffectsConcat([Started(child)] + task, [Resumed(self, child)]);
    EffectsConcat([Started(child)] + task + [Resumed(self, child)], rest);
  }

  /** The events of a run add nothing to its meaning, whatever numbers the frames carry. */
  lemma {:induction false} EvalMeans(p: Text, c: Point, self: nat, next: nat)
    requires Terminates(p)
    ensures Eval(p, c, self, next).outcome == Meaning(p, c).0
    ensures Effects(Eval(p, c, self, next).log) == Meaning(p, c).1
    decreases p.rank(c)
  {
    assert Falls(p, c);
    match p.at(c)
    case Return(_) =>
    case Throw(_) =>
    case Jump(n) =>
      EvalMeans(p, n, self, next);
      assert [] + Eval(p, n, self, next).log == Eval(p, n, self, next).log;
    case Out(x, n) =>
      EvalMeans(p, n, self, next);
      EffectsConcat([Emitted(x)], Eval(p, n, self, next).log);
    case Signal(x, n) =>
      EvalMeans(p, n, self, next);
      EffectsConcat([Set(x)], Eval(p, n, self, next).log);
    case Await(t, rest) =>
      var a := Eval(p, t, next, next + 1);
      EvalMeans(p, t, next, next + 1);
      EvalMeans(p, rest(a.outcome), self, a.next);
      EffectsOfAwait(a.log, Eval(p, rest(a.outcome), self, a.next).log, self, next);
  }

  /** What a suspended frame will do with the outcome of the task it awaits. */
  datatype Kont = Kont(rest: Outcome -> Point, self: nat, child: nat)

  /** The rest of the run once the innermost of the suspended frames gets its outcome. */
  ghost function Plug(p: Text, r: Run, ks: seq<Kont>): Run
    requires Terminates(p)
    decreases |ks|
  {
    if ks == [] then r
    else
      var k := ks[|ks| - 1];
      var s := Eval(p, k.rest(r.outcome), k.self, r.next);
      Plug(p, Before(r.log + [Resumed(k.self, k.child)], r.steps + 1, s), ks[..|ks| - 1])
  }

  lemma {:induction false} PlugTakesTime(p: Text, r: Run, ks: seq<Kont>)
    requires Terminates(p)
    ensures r.steps + |ks| <= Plug(p, r, ks).steps
    decreases |ks|
  {
    if ks != [] {
      var k := ks[|ks| - 1];
      var s := Eval(p, k.rest(r.outcome), k.self, r.next);
      PlugTakesTime(p, Before(r.log + [Resumed(k.self, k.child)], r.steps + 1, s), ks[..|ks| - 1]);
    }
  }

  lemma BeforeBefore(l1: seq<Event>, s1: nat, l2: seq<Event>, s2: nat, r: Run)
    ensures Before(l1, s1, Before(l2, s2, r)) == Before(l1 + l2, s1 + s2, r)
  {
    assert l1 + (l2 + r.log) == l1 + l2 + r.log;
  }

  // ----- what a run contains -----

  datatype Kind = Start | Finish | Resumption

  predicate Concerns(e: Event, kind: Kind, id: nat) {
    match kind
    case Start => e == Started(id)
    case Finish => e.Finished? && e.id == id
    case Resumption => e.Resumed? && e.child == id
  }

  function Count(log: seq<Event>, kind: Kind, id: nat): nat {
    if log == [] then 0 else (if Concerns(log[0], kind, id) then 1 else 0) + Count(log[1..], kind, id)
  }

  lemma {:induction false} CountConcat(a: seq<Event>, b: seq<Event>, kind: Kind, id: nat)
    ensures Count(a + b, kind, id) == Count(a, kind, id) + Count(b, kind, id)
  {
    if a == [] {
      assert a + b == b;
    } else {
      assert (a + b)[1..] == a[1..] + b;
      CountConcat(a[1..], b, kind, id);
    }
  }

  /** Every task awaited during a run is started once, finishes once, and its continuation is resumed
      once; the frame whose body runs finishes once. */
  lemma {:induction false} OnceEach(p: Text, c: Point, self: nat, next: nat, kind: Kind, id: nat)
    requires Terminates(p) && self < next
    ensures next <= Eval(p, c, self, next).next
    ensures Count(Eval(p, c, self, next).log, kind, id) ==
            if next <= id < Eval(p, c, self, next).next || (id == self && kind == Finish) then 1 else 0
    decreases p.rank(c), 1
  {
    assert Falls(p, c);
    match p.at(c)
    case Return(_) =>
    case Throw(_) =>
    case Jump(n) =>
      hide Count, Concerns;
      OnceEach(p, n, self, next, kind, id);
      assert [] + Eval(p, n, self, next).log == Eval(p, n, self, next).log;
    case Out(x, n) =>
      OnceEach(p, n, self, next, kind, id);
      CountConcat([Emitted(x)], Eval(p, n, self, next).log, kind, id);
    case Signal(x, n) =>
      OnceEach(p, n, self, next, kind, id);
      CountConcat([Set(x)], Eval(p, n, self, next).log, kind, id);
    case Await(t, rest) =>
      OnceEachAwait(p, c, self, next, kind, id);
  }

  lemma {:induction false} OnceEachAwait(p: Text, c: Point, self: nat, next: nat, kind: Kind, id: nat)
    requires Terminates(p) && p.at(c).Await? && self < next
    ensures var r := Eval(p, c, self, next);
            && next <= r.next
            && Count(r.log, kind, id) == if next <= id < r.next || (id == self && kind == Finish) then 1 else 0
    decreases p.rank(c), 0
  {
    hide Count, Concerns;
    assert Falls(p, c);
    var t, rest := p.at(c).task, p.at(c).rest;
    var a := Eval(p, t, next, next + 1);
    OnceEach(p, t, next, next + 1, kind, id);
    OnceEach(p, rest(a.outcome), self, a.next, kind, id);
    CountAwait(a.log, Eval(p, rest(a.outcome), self, a.next).log, self, next, kind, id);
  }

  lemma CountAwait(task: seq<Event>, rest: seq<Event>, self: nat, child: nat, kind: Kind, id: nat)
    ensures Count([Started(child)] + task + [Resumed(self, child)] + rest, kind, id) ==
            Count(task, kind, id) + Count(rest, kind, id) + if child == id && !kind.Finish? then 1 else 0
  {
    CountConcat([Started(child)], task, kind, id);
    CountConcat([Started(child)] + task, [Resumed(self, child)], kind, id);
    CountConcat([Started(child)] + task + [Resumed(self, child)], rest, kind, id);
  }

  /** The log of a machine that resumes a fresh task: of the task itself and of every task started on its way
      it holds one start and one finish, and of each of the latter one resumption of its continuation. */
  lemma {:induction false} LogOnceEach(p: Text, log: seq<Event>, c: Point, self: nat, next: nat, kind: Kind, id: nat)
    requires Terminates(p) && self < next
    ensures var r := Before(log + [Started(self)], 0, Eval(p, c, self, next));
            Count(r.log, kind, id) ==
            Count(log, kind, id) + if next <= id < r.next || (id == self && kind != Resumption) then 1 else 0
  {
    CountConcat(log + [Started(self)], Eval(p, c, self, next).log, kind, id);
    CountConcat(log, [Started(self)], kind, id);
    OnceEach(p, c, self, next, kind, id);
    assert [Started(self)][1..] == [];
    hide Eval;
  }

  // ----- one transition of the machine, seen on the run that is left -----

  /** What a body ends with. */
  function EndOf(a: Action): Outcome
    requires a.Return? || a.Throw?
  {
    if a.Return? then Value(a.v) else Exn(a.e)
  }

  lemma ReturnUnfolds(p: Text, log: seq<Event>, done: nat, c: Point, self: nat, next: nat)
    requires Terminates(p) && (p.at(c).Return? || p.at(c).Throw?)
    ensures var o := EndOf(p.at(c));
            Before(log, done, Eval(p, c, self, next)) == Run(o, log + [Finished(self, o)], next, done + 1)
  {
  }

  /** What a statement that neither awaits nor returns adds to the log, and where it leads. */
  function LocalEvents(a: Action): seq<Event> {
    match a
    case Out(x, _) => [Emitted(x)]
    case Signal(x, _) => [Set(x)]
    case _ => []
  }

  lemma LocalUnfolds(p: Text, log: seq<Event>, done: nat, c: Point, self: nat, next: nat)
    requires Terminates(p) && (p.at(c).Jump? || p.at(c).Out? || p.at(c).Signal?)
    ensures Before(log, done, Eval(p, c, self, next)) ==
            Before(log + LocalEvents(p.at(c)), done + 1, Eval(p, p.at(c).next, self, next))
  {
    BeforeBefore(log, done, LocalEvents(p.at(c)), 1, Eval(p, p.at(c).next, self, next));
  }

  lemma AwaitUnfolds(p: Text, log: seq<Event>, done: nat, c: Point, self: nat, next: nat, ks: seq<Kont>)
    requires Terminates(p) && p.at(c).Await?
    ensures Plug(p, Before(log, done, Eval(p, c, self, next)), ks) ==
            Plug(p, Before(log + [Started(next)], done + 1, Eval(p, p.at(c).task, next, next + 1)),
                 ks + [Kont(p.at(c).rest, self, next)])
  {
    var k := Kont(p.at(c).rest, self, next);
    var a := Eval(p, p.at(c).task, next, next + 1);
    var s := Eval(p, k.rest(a.outcome), self, a.next);
    assert (ks + [k])[..|ks|] == ks;
    assert log + ([Started(next)] + a.log + [Resumed(self, next)] + s.log) ==
           log + [Started(next)] + a.log + [Resumed(self, next)] + s.log;
  }

  lemma ResumeUnfolds(p: Text, o: Outcome, log: seq<Event>, next: nat, done: nat, ks: seq<Kont>, k: Kont)
    requires Terminates(p)
    ensures Plug(p, Run(o, log, next, done), ks + [k]) ==
            Plug(p, Before(log + [Resumed(k.self, k.child)], done + 1, Eval(p, k.rest(o), k.self, next)), ks)
  {
    assert (ks + [k])[..|ks|] == ks;
  }

  /** The promise of a Task together with the coroutine it belongs to. */
  class Frame {
    const id: nat
    var continuation: Frame?
    var value: Option<int>
    var exception: Option<int>
    var code: Point
    var awaiting: Frame?

    constructor (id: nat, code: Point)
      ensures this.id == id && this.code == code
      ensures continuation == null && awaiting == null && value == None && exception == None
    {
      this.id, this.code := id, code;
      continuation, awaiting, value, exception := null, null, None, None;
    }

    ghost predicate HasOutcome(o: Outcome)
      reads this
    {
      match o
      case Value(v) => exception == None && value == Some(v)
      case Exn(e) => exception == Some(e)
    }

    /** Task::await_suspend: remember the caller and transfer to the task. */
    method AwaitSuspend(caller: Frame?) returns (next: Frame)
      modifies this`continuation
      ensures continuation == caller && next == this
    {
      continuation := caller;
      return this;
    }

    /** FinalAwaiter::await_suspend: transfer to the continuation, or to the no-op coroutine. */
    method FinalSuspend() returns (next: Frame?)
      ensures next == continuation
    {
      if continuation != null {
        return continuation;
      }
      return null;
    }

    method ReturnValue(v: int)
      modifies this`value
      ensures value == Some(v)
    {
      value := Some(v);
    }

    method UnhandledException(e: int)
      modifies this`exception
      ensures exception == Some(e)
    {
      exception := Some(e);
    }

    /** co_return, or an exception that leaves the body: the promise takes the outcome. */
    method Settle(end: Action) returns (ghost o: Outcome)
      requires (end.Return? || end.Throw?) && exception == None
      modifies this`value, this`exception
      ensures o == EndOf(end) && HasOutcome(o)
    {
      o := EndOf(end);
      if end.Return? {
        ReturnValue(end.v);
      } else {
        UnhandledException(end.e);
      }
    }

    /** promise_type::result: rethrow, or hand over the value. */
    method Result() returns (o: Outcome)
      requires exception.Some? || value.Some?
      ensures HasOutcome(o)
    {
      if exception.Some? {
        return Exn(exception.value);
      }
      return Value(value.value);
    }
  }

  /** The suspended frames, outermost first: each awaits the next one, which holds it as continuation,
      and the last one awaits `top`. */
  ghost predicate Chained(p: Text, stack: seq<Frame>, ks: seq<Kont>, top: Frame)
    reads stack
  {
    && |stack| == |ks| && top !in stack
    && forall i :: 0 <= i < |ks| ==> Stands(p, stack, ks, top, i)
  }

  ghost predicate Stands(p: Text, stack: seq<Frame>, ks: seq<Kont>, top: Frame, i: nat)
    requires i < |stack| == |ks|
    reads stack
  {
    && stack[i] !in stack[..i]
    && stack[i].exception == None
    && stack[i].continuation == Caller(stack[..i])
    && Suspends(p, stack[i], ks[i], if i + 1 < |stack| then stack[i + 1] else top)
  }

  /** The frame to which control returns when the frame above these finishes. */
  ghost function Caller(stack: seq<Frame>): Frame? {
    if stack == [] then null else stack[|stack| - 1]
  }

  /** The outermost frame. */
  ghost function Bottom(stack: seq<Frame>, top: Frame): Frame {
    if stack == [] then top else stack[0]
  }

  lemma Push(p: Text, stack: seq<Frame>, ks: seq<Kont>, f: Frame, k: Kont, top: Frame)
    requires Chained(p, stack, ks, f) && top !in stack && top != f
    requires f.exception == None && f.continuation == Caller(stack) && Suspends(p, f, k, top)
    ensures Chained(p, stack + [f], ks + [k], top)
  {
    var stack', ks' := stack + [f], ks + [k];
    forall i | 0 <= i < |ks'| ensures Stands(p, stack', ks', top, i) {
      assert stack'[..i] == stack[..i];
      if i < |ks| {
        assert Stands(p, stack, ks, f, i);
      }
    }
  }

  lemma Pop(p: Text, stack: seq<Frame>, ks: seq<Kont>, top: Frame)
    requires Chained(p, stack, ks, top) && ks != []
    ensures var n := |ks| - 1;
            && Chained(p, stack[..n], ks[..n], stack[n])
            && stack[n].exception == None && stack[n].continuation == Caller(stack[..n])
            && Suspends(p, stack[n], ks[n], top)
  {
    var n := |ks| - 1;
    assert Stands(p, stack, ks, top, n);
    forall i | 0 <= i < n ensures Stands(p, stack[..n], ks[..n], stack[n], i) {
      assert Stands(p, stack, ks, top, i);
      assert stack[..n][..i] == stack[..i];
    }
  }

  /** Frame f is suspended at an await of task t, to go on as k says. */
  ghost predicate Suspends(p: Text, f: Frame, k: Kont, t: Frame)
    reads f
  {
    && f.awaiting == t
    && p.at(f.code).Await? && p.at(f.code).rest == k.rest
    && f.id == k.self && t.id == k.child
  }

  /** The value stored by the latest `event.set()` of a log. */
  ghost function LastSet(log: seq<Event>): Option<int> {
    if log == [] then None
    else if log[|log| - 1].Set? then Some(log[|log| - 1].x)
    else LastSet(log[..|log| - 1])
  }

  class Runtime {
    const text: Text
    ghost var log: seq<Event>
    var nextId: nat
    // what sync_await's waiter captures by reference
    var ready: bool
    var result: Option<int>

    constructor (text: Text)
      ensures this.text == text && log == [] && nextId == 0 && !ready && result == None
    {
      this.text, log, nextId, ready, result := text, [], 0, false, None;
    }

    /** The event is set exactly when some waiter has executed `event.set()`. */
    ghost predicate EventKept()
      reads this
    {
      result == LastSet(log) && ready == result.Some?
    }

    /** What is left to do from here makes up the run `total`: `cur` is either inside its body, or
        resumed by the frame it awaits, which has its outcome. */
    ghost predicate Under(cur: Frame, stack: seq<Frame>, ks: seq<Kont>, done: nat, total: Run)
      reads this, stack, cur, cur.awaiting
    {
      && Terminates(text) && Chained(text, stack, ks, cur)
      && cur !in stack && cur.continuation == Caller(stack) && cur.exception == None
      && (cur.awaiting == null ==>
            Plug(text, Before(log, done, Eval(text, cur.code, cur.id, nextId)), ks) == total)
      && (cur.awaiting != null ==>
            && cur.awaiting != cur && cur.awaiting !in stack && text.at(cur.code).Await?
            && (cur.awaiting.value.Some? || cur.awaiting.exception.Some?)
            && forall o :: cur.awaiting.HasOutcome(o) ==>
                 Plug(text, Run(o, log, nextId, done), ks + [KontOf(cur)]) == total)
    }

    ghost function KontOf(f: Frame): Kont
      reads f, f.awaiting
      requires text.at(f.code).Await? && f.awaiting != null
    {
      Kont(text.at(f.code).rest, f.id, f.awaiting.id)
    }

    /** await_resume: the outcome of the awaited task is read and the body goes on behind the await. */
    method AwaitResume(cur: Frame, ghost stack: seq<Frame>, ghost ks: seq<Kont>, ghost done: nat, ghost total: Run)
      requires Under(cur, stack, ks, done, total) && EventKept() && cur.awaiting != null
      modifies this`log, cur
      ensures Under(cur, stack, ks, done + 1, total) && cur.awaiting == null
      ensures log == old(log) + [Resumed(cur.id, old(cur.awaiting).id)] && EventKept()
    {
      hide Eval, Plug, Before, Chained;
      var o := cur.awaiting.Result();
      ghost var k := KontOf(cur);
      ResumeUnfolds(text, o, log, nextId, done, ks, k);
      log := log + [Resumed(cur.id, cur.awaiting.id)];
      cur.code := text.at(cur.code).rest(o);
      cur.awaiting := null;
    }

    /** A statement of the body that neither awaits nor returns. */
    method LocalStep(cur: Frame, ghost stack: seq<Frame>, ghost ks: seq<Kont>, ghost done: nat, ghost total: Run)
      requires Under(cur, stack, ks, done, total) && EventKept() && cur.awaiting == null
      requires var a := text.at(cur.code); a.Jump? || a.Out? || a.Signal?
      modifies this`log, this`ready, this`result, cur`code
      ensures Under(cur, stack, ks, done + 1, total) && EventKept() && cur.awaiting == null
    {
      hide Eval, Plug, Before, Chained;
      LocalUnfolds(text, log, done, cur.code, cur.id, nextId);
      match text.at(cur.code)
      case Out(x, n) =>
        log := log + [Emitted(x)];
        cur.code := n;
      case Signal(x, n) =>
        result := Some(x);
        ready := true;
        log := log + [Set(x)];
        cur.code := n;
      case Jump(n) =>
        assert log + [] == log;
        cur.code := n;
    }

    /** co_await of a fresh task: its frame is created suspended, takes the caller as continuation, and
        runs next. */
    method StartChild(cur: Frame, ghost stack: seq<Frame>, ghost ks: seq<Kont>, ghost done: nat, ghost total: Run)
      returns (next: Frame, ghost k: Kont)
      requires Under(cur, stack, ks, done, total) && EventKept() && cur.awaiting == null && text.at(cur.code).Await?
      modifies this`log, this`nextId, cur`awaiting
      ensures fresh(next) && next.awaiting == null
      ensures Under(next, stack + [cur], ks + [k], done + 1, total) && EventKept()
    {
      hide Eval, Plug, Before, Chained;
      var child := new Frame(nextId, text.at(cur.code).task);
      k := Kont(text.at(cur.code).rest, cur.id, child.id);
      AwaitUnfolds(text, log, done, cur.code, cur.id, nextId, ks);
      nextId := nextId + 1;
      log := log + [Started(child.id)];
      next := child.AwaitSuspend(cur);
      cur.awaiting := child;
      Push(text, stack, ks, cur, k, child);
    }

    /** The body has ended: the promise takes the outcome, and final_suspend transfers to the
        continuation. */
    method Finish(cur: Frame, ghost stack: seq<Frame>, ghost ks: seq<Kont>, ghost done: nat, ghost total: Run)
      returns (next: Frame?, ghost o: Outcome)
      requires Under(cur, stack, ks, done, total) && EventKept() && cur.awaiting == null
      requires text.at(cur.code).Return? || text.at(cur.code).Throw?
      modifies this`log, cur`value, cur`exception
      ensures EventKept() && cur.HasOutcome(o)
      ensures |stack| == |ks| && next == Caller(stack)
      ensures next == null ==> total == Run(o, log, nextId, done + 1)
      ensures next != null ==>
                && next.awaiting == cur
                && Under(next, stack[..|ks| - 1], ks[..|ks| - 1], done + 1, total)
    {
      hide Eval, Before;
      ReturnUnfolds(text, log, done, cur.code, cur.id, nextId);
      assert |stack| == |ks|;
      if ks != [] {
        Pop(text, stack, ks, cur);
        assert ks[..|ks| - 1] + [ks[|ks| - 1]] == ks;
      }
      hide Chained, Plug, LastSet, Under, KontOf, EndOf;
      o := cur.Settle(text.at(cur.code));
      log := log + [Finished(cur.id, o)];
      next := cur.FinalSuspend();
      if next != null {
        Reentered(next, stack[..|ks| - 1], ks[..|ks| - 1], done + 1, total, o);
      }
    }

    lemma Reentered(next: Frame, stack: seq<Frame>, ks: seq<Kont>, done: nat, total: Run, o: Outcome)
      requires Terminates(text) && Chained(text, stack, ks, next) && next.exception == None && next.continuation == Caller(stack)
      requires next.awaiting != null && next.awaiting != next && next.awaiting !in stack && text.at(next.code).Await?
      requires next.awaiting.HasOutcome(o)
      requires Plug(text, Run(o, log, nextId, done), ks + [KontOf(next)]) == total
      ensures Under(next, stack, ks, done, total)
    {
      hide Plug;
      assert forall o' :: next.awaiting.HasOutcome(o') ==> o' == o;
    }

    /** One transition of the machine.  At the end of the outermost frame there is nowhere to go. */
    method Transfer(cur: Frame, ghost stack: seq<Frame>, ghost ks: seq<Kont>, ghost done: nat, ghost total: Run)
      returns (next: Frame?, ghost stack': seq<Frame>, ghost ks': seq<Kont>, ghost o: Outcome)
      requires Under(cur, stack, ks, done, total) && EventKept()
      modifies this, cur
      ensures EventKept()
      ensures next != null ==>
                && Under(next, stack', ks', done + 1, total) && Bottom(stack', next) == Bottom(stack, cur)
                && (next == cur || next in stack || fresh(next))
      ensures forall i :: 0 <= i < |stack'| ==> stack'[i] == cur || stack'[i] in stack
      ensures next == null ==>
                stack == [] && total == Run(o, log, nextId, done + 1) && cur.HasOutcome(o)
    {
      hide Chained, Eval, Plug, Before, LastSet;
      next, stack', ks', o := cur, stack, ks, total.outcome;
      if cur.awaiting != null {
        AwaitResume(cur, stack, ks, done, total);
      } else if text.at(cur.code).Await? {
        ghost var k;
        next, k := StartChild(cur, stack, ks, done, total);
        stack', ks' := stack + [cur], ks + [k];
      } else if text.at(cur.code).Return? || text.at(cur.code).Throw? {
        next, o := Finish(cur, stack, ks, done, total);
        if next != null {
          stack', ks' := stack[..|ks| - 1], ks[..|ks| - 1];
        }
      } else {
        LocalStep(cur, stack, ks, done, total);
      }
    }

    /** `handle.resume()` on a task that was never started: frames transfer to each other until the
        no-op coroutine is reached. */
    method Resume(root: Frame, ghost total: Run)
      requires root.awaiting == null && root.continuation == null && root.exception == None
      requires EventKept() && Terminates(text)
      requires total == Before(log + [Started(root.id)], 0, Eval(text, root.code, root.id, nextId))
      modifies this, root
      ensures EventKept() && root.HasOutcome(total.outcome)
      ensures log == total.log && nextId == total.next
      ensures root.id < old(nextId) ==>
                forall kind: Kind, id: nat :: Count(log, kind, id) ==
                  Count(old(log), kind, id) +
                  if old(nextId) <= id < nextId || (id == root.id && kind != Resumption) then 1 else 0
    {
      if root.id < nextId {
        forall kind: Kind, id: nat {
          LogOnceEach(text, log, root.code, root.id, nextId, kind, id);
        }
      }
      log := log + [Started(root.id)];
      var cur: Frame? := root;
      ghost var stack: seq<Frame>, ks: seq<Kont>, done: nat := [], [], 0;
      ghost var o := total.outcome;
      assert Under(root, stack, ks, done, total);
      hide Under, Plug, Before, Eval, LastSet;
      StepsRemain(root, stack, ks, done, total);
      while cur != null
        invariant EventKept()
        invariant forall i :: 0 <= i < |stack| ==> stack[i] == root || fresh(stack[i])
        invariant cur != null ==> (cur == root || fresh(cur)) && Under(cur, stack, ks, done, total)
        invariant cur != null ==> Bottom(stack, cur) == root && done <= total.steps
        invariant cur == null ==> total == Run(o, log, nextId, done) && root.HasOutcome(o)
        decreases total.steps - done, cur != null
      {
        cur, stack, ks, o := Transfer(cur, stack, ks, done, total);
        done := done + 1;
        if cur != null {
          StepsRemain(cur, stack, ks, done, total);
        }
      }
    }

    lemma StepsRemain(cur: Frame, stack: seq<Frame>, ks: seq<Kont>, done: nat, total: Run)
      requires Under(cur, stack, ks, done, total)
      ensures done <= total.steps
    {
      if cur.awaiting == null {
        PlugTakesTime(text, Before(log, done, Eval(text, cur.code, cur.id, nextId)), ks);
      } else {
        var f := cur.awaiting;
        var o := if f.exception.Some? then Exn(f.exception.value) else Value(f.value.value);
        PlugTakesTime(text, Run(o, log, nextId, done), ks + [KontOf(cur)]);
      }
    }
  }

  // ----- sync_await -----

  /** Where the waiter goes on: `result = co_await t; event.set();`, with no handler of its own. */
  function Handled(o: Outcome): Point {
    match o
    case Value(v) => Store(v)
    case Exn(e) => Uncaught(e)
  }

  /** The program contains sync_await's waiter. */
  ghost predicate HasWaiter(p: Text) {
    && (forall t: Point :: p.at(Waiter(t)) == Await(t, Handled))
    && (forall x: int :: p.at(Store(x)) == Signal(x, Stored))
    && p.at(Stored) == Return(0)
    && (forall e: int :: p.at(Uncaught(e)) == Throw(e))
  }

  /** The tasks themselves leave the event alone: it is a local of the call of sync_await. */
  ghost predicate KeepsOff(p: Text, c: Point) {
    match p.at(c)
    case Jump(n) => n.At?
    case Out(_, n) => n.At?
    case Signal(_, _) => false
    case Await(t, rest) => t.At? && forall o: Outcome :: rest(o).At?
    case _ => true
  }

  ghost predicate NoSignal(p: Text) {
    forall c: Point :: c.At? ==> KeepsOff(p, c)
  }

  lemma {:induction false} LastSetConcat(a: seq<Event>, b: seq<Event>)
    ensures LastSet(a + b) == if LastSet(b).Some? then LastSet(b) else LastSet(a)
    decreases |b|
  {
    if b == [] {
      assert a + b == a;
    } else {
      assert (a + b)[..|a + b| - 1] == a + b[..|b| - 1];
      LastSetConcat(a, b[..|b| - 1]);
    }
  }

  lemma LastSetAwait(task: seq<Event>, rest: seq<Event>, self: nat, child: nat)
    ensures LastSet([Started(child)] + task + [Resumed(self, child)] + rest) ==
            if LastSet(rest).Some? then LastSet(rest) else LastSet(task)
  {
    LastSetConcat([Started(child)], task);
    LastSetConcat([Started(child)] + task, [Resumed(self, child)]);
    LastSetConcat([Started(child)] + task + [Resumed(self, child)], rest);
  }

  lemma {:induction false} NoSignalNoSet(p: Text, c: Point, self: nat, next: nat)
    requires Terminates(p) && NoSignal(p) && c.At?
    ensures LastSet(Eval(p, c, self, next).log) == None
    decreases p.rank(c)
  {
    assert Falls(p, c) && KeepsOff(p, c);
    match p.at(c)
    case Return(_) =>
    case Throw(_) =>
    case Jump(n) =>
      NoSignalNoSet(p, n, self, next);
      assert [] + Eval(p, n, self, next).log == Eval(p, n, self, next).log;
    case Out(x, n) =>
      NoSignalNoSet(p, n, self, next);
      LastSetConcat([Emitted(x)], Eval(p, n, self, next).log);
    case Await(t, rest) =>
      var a := Eval(p, t, next, next + 1);
      NoSignalNoSet(p, t, next, next + 1);
      NoSignalNoSet(p, rest(a.outcome), self, a.next);
      LastSetAwait(a.log, Eval(p, rest(a.outcome), self, a.next).log, self, next);
  }

  /** What the waiter does once its task has ended. */
  lemma WaiterEnds(p: Text, o: Outcome, self: nat, next: nat)
    requires Terminates(p) && HasWaiter(p)
    ensures LastSet(Eval(p, Handled(o), self, next).log) == match o case Value(v) => Some(v) case Exn(_) => None
  {
    match o
    case Value(v) =>
      assert Eval(p, Stored, self, next) == Run(Value(0), [Finished(self, Value(0))], next, 1);
      assert Eval(p, Store(v), self, next).log == [Set(v)] + [Finished(self, Value(0))];
      LastSetConcat([Set(v)], [Finished(self, Value(0))]);
    case Exn(e) =>
  }

  lemma WaiterSets(p: Text, task: Point, log: seq<Event>)
    requires Terminates(p) && HasWaiter(p) && NoSignal(p) && task.At? && LastSet(log) == None
    ensures LastSet(Before(log, 0, Eval(p, Waiter(task), 0, 1)).log) ==
            match Eval(p, task, 1, 2).outcome case Value(v) => Some(v) case Exn(_) => None
  {
    var a := Eval(p, task, 1, 2);
    var b := Eval(p, Handled(a.outcome), 0, a.next);
    assert p.at(Waiter(task)) == Await(task, Handled);
    assert Eval(p, Waiter(task), 0, 1).log == [Started(1)] + a.log + [Resumed(0, 1)] + b.log;
    hide Eval, LastSet;
    NoSignalNoSet(p, task, 1, 2);
    WaiterEnds(p, a.outcome, 0, a.next);
    LastSetAwait(a.log, b.log, 0, 1);
    LastSetConcat(log, Eval(p, Waiter(task), 0, 1).log);
  }

  datatype SyncResult = Returned(v: int) | BlocksForever

  /** `sync_await` hands back the task's value exactly when the task does not throw; when it throws, the
      waiter never reaches `event.set()` and the wait has nothing left that could end it. */
  method SyncAwait(p: Text, task: Point) returns (r: SyncResult)
    requires Terminates(p) && HasWaiter(p) && NoSignal(p) && task.At?
    ensures r == match Meaning(p, task).0 case Value(v) => Returned(v) case Exn(_) => BlocksForever
  {
    var rt := new Runtime(p);
    var waiter := new Frame(rt.nextId, Waiter(task));
    rt.nextId := rt.nextId + 1;
    WaiterSets(p, task, [Started(0)]);
    EvalMeans(p, task, 1, 2);
    assert [] + [Started(0)] == [Started(0)];
    rt.Resume(waiter, Before([Started(0)], 0, Eval(p, Waiter(task), 0, 1)));
    if rt.ready {
      r := Returned(rt.result.value);
    } else {
      r := BlocksForever;
    }
  }
}
