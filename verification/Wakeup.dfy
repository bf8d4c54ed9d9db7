/**
 The wakeup protocol of an event loop: one thread polls a context, in nested calls if need be,
 while any number of threads schedule bottom halves.  A step is one access to shared memory;
 steps of different threads interleave in any order.
 */
module Wakeup {
  datatype Bh = Bh(scheduled: bool, idle: bool, deleted: bool)

  /** Where a call of aio_poll stands: looking for scheduled bottom halves to find its timeout,
      with those still to look at; having found one scheduled and about to see whether it is idle;
      in poll(); back from poll(); or running handlers and callbacks. */
  datatype Pc = Scan(todo: set<nat>) | ScanIdle(todo: set<nat>, bh: nat) | Blocked | Returned | Dispatch

  datatype Frame = Frame(was: bool, pc: Pc)

  /** What a thread inside qemu_bh_schedule does next: clear idle, set scheduled, look at
      dispatching, set the notifier. */
  datatype Thread = ClearIdle(bh: nat) | SetScheduled(bh: nat) | LookAtDispatching(bh: nat) | SetNotifier(bh: nat)

  datatype State = State(dispatching: bool, notifier: bool, bhs: map<nat, Bh>, stack: seq<Frame>,
                         threads: map<nat, Thread>)

  datatype Step =
    // any thread
    | NewBh(bh: nat)
    | Begin(thread: nat, bh: nat)
    | Advance(thread: nat)
    | Cancel(bh: nat)
    | Delete(bh: nat)
    | SetIdle(bh: nat)
    | MarkIdle(bh: nat)
    // the polling thread
    | Callback(bh: nat, flags: Bh)
    | ClearNotifier
    | Poll(blocking: bool)
    | ScanNext(bh: nat)
    | ReadIdle
    | ScanDone
    | Wake
    | Return

  function Top(s: State): (pc: Pc)
    requires s.stack != []
  {
    s.stack[|s.stack| - 1].pc
  }

  /** The polling thread is between clearing `dispatching` and setting it again. */
  predicate Waiting(s: State)
  {
    s.stack != [] && !Top(s).Dispatch?
  }

  function Goto(s: State, pc: Pc): (s': State)
    requires s.stack != []
  {
    var n := |s.stack| - 1;
    s.(stack := s.stack[..n] + [s.stack[n].(pc := pc)])
  }

  function WithBh(s: State, b: nat, flags: Bh): (s': State)
  {
    s.(bhs := s.bhs[b := flags])
  }

  /** qemu_bh_schedule after its first test, one access at a time. */
  function AdvanceThread(s: State, t: nat): (s': State)
    requires t in s.threads
  {
    match s.threads[t]
    case ClearIdle(b) =>
      (if b in s.bhs then WithBh(s, b, s.bhs[b].(idle := false)) else s).(threads := s.threads[t := SetScheduled(b)])
    case SetScheduled(b) =>
      (if b in s.bhs then WithBh(s, b, s.bhs[b].(scheduled := true))
        else s).(threads := s.threads[t := LookAtDispatching(b)])
    case LookAtDispatching(b) =>
      s.(threads := if s.dispatching then s.threads - {t} else s.threads[t := SetNotifier(b)])
    case SetNotifier(b) =>
      s.(notifier := true, threads := s.threads - {t})
  }

  /** A step that is not enabled changes nothing. */
  function Next(s: State, step: Step): (s': State)
  {
    match step
    case NewBh(b) =>
      if b in s.bhs then s else WithBh(s, b, Bh(false, false, false))
    case Begin(t, b) =>
      if t in s.threads || b !in s.bhs || s.bhs[b].scheduled then s else s.(threads := s.threads[t := ClearIdle(b)])
    case Advance(t) =>
      if t in s.threads then AdvanceThread(s, t) else s
    case Cancel(b) =>
      if b in s.bhs then WithBh(s, b, s.bhs[b].(scheduled := false)) else s
    case Delete(b) =>
      if b in s.bhs then WithBh(s, b, s.bhs[b].(scheduled := false, deleted := true)) else s
    case SetIdle(b) =>
      if b in s.bhs && !s.bhs[b].scheduled then WithBh(s, b, s.bhs[b].(idle := true)) else s
    case MarkIdle(b) =>
      if b in s.bhs then WithBh(s, b, s.bhs[b].(scheduled := true)) else s
    case Callback(b, flags) =>
      if b in s.bhs && !Waiting(s) then WithBh(s, b, flags) else s
    case ClearNotifier =>
      if Waiting(s) then s else s.(notifier := false)
    case Poll(blocking) =>
      if Waiting(s) then s
      else s.(dispatching := !blocking,
        stack := s.stack + [Frame(s.dispatching, if blocking then Scan(s.bhs.Keys) else Dispatch)])
    case ScanNext(b) =>
      if s.stack != [] && Top(s).Scan? && b in Top(s).todo then
        var todo := Top(s).todo;
        if b !in s.bhs || s.bhs[b].deleted || !s.bhs[b].scheduled then Goto(s, Scan(todo - {b}))
          else Goto(s, ScanIdle(todo, b))
      else s
    case ReadIdle =>
      if s.stack != [] && Top(s).ScanIdle? then
        var b, todo := Top(s).bh, Top(s).todo;
        if b in s.bhs && s.bhs[b].idle then Goto(s, Scan(todo - {b})) else Goto(s, Returned)
      else s
    case ScanDone =>
      if s.stack != [] && Top(s).Scan? && Top(s).todo == {} then Goto(s, Blocked) else s
    case Wake =>
      if s.stack != [] && (Top(s).Blocked? || Top(s).Returned?) then Goto(s, Dispatch).(dispatching := true) else s
    case Return =>
      if s.stack != [] && Top(s).Dispatch? then
        var n := |s.stack| - 1;
        s.(dispatching := s.stack[n].was, stack := s.stack[..n])
      else s
  }

  // ---------- no lost wakeup ----------

  /** A bottom half that must run without delay. */
  predicate Ready(bh: Bh)
  {
    bh.scheduled && !bh.idle && !bh.deleted
  }

  /** A thread that has begun to schedule b and has not finished aio_notify. */
  predicate Pending(t: Thread, b: nat)
  {
    t.bh == b && !t.ClearIdle?
  }

  /** Not yet looked at, or not ready, or its wakeup is there or on its way. */
  ghost predicate Attended(s: State, todo: set<nat>, b: nat)
    requires b in s.bhs
  {
    b in todo || !Ready(s.bhs[b]) || s.notifier || exists t :: t in s.threads && Pending(s.threads[t], b)
  }

  function Todo(pc: Pc): (todo: set<nat>)
  {
    if pc.Scan? || pc.ScanIdle? then pc.todo else {}
  }

  /** The flag `dispatching` follows the stack of nested calls. */
  predicate Nested(s: State)
  {
    && (forall i :: 0 <= i < |s.stack| - 1 ==> s.stack[i].pc.Dispatch?)
    && (forall i :: 0 <= i < |s.stack| ==> s.stack[i].was == (i > 0))
    && s.dispatching == (s.stack != [] && Top(s).Dispatch?)
  }

  /** The poller looks for work before it blocks, or is blocked. */
  predicate Looking(s: State)
  {
    Waiting(s) && !Top(s).Returned?
  }

  ghost predicate Inv(s: State)
  {
    Nested(s) && (Looking(s) ==> forall b :: b in s.bhs ==> Attended(s, Todo(Top(s)), b))
  }

  predicate Initial(s: State)
  {
    !s.dispatching && s.stack == [] && s.threads == map[]
  }

  /** Marking b as scheduled would go unheard: the poller has looked at b or is past looking,
      `idle` has been cleared, and neither the notifier nor a thread will wake the poller. */
  ghost predicate Unheard(s: State, b: nat)
  {
    && Looking(s) && b in s.bhs && b !in Todo(Top(s)) && s.bhs[b] == Bh(false, false, false)
    && !s.notifier && forall t :: t in s.threads ==> !Pending(s.threads[t], b)
  }

  /** qemu_bh_schedule_idle is meant for the polling thread.  Called elsewhere, its last access
      must not be one that goes unheard. */
  ghost predicate Allowed(s: State, step: Step)
  {
    step.MarkIdle? ==> !Unheard(s, step.bh)
  }

  /** Blocked in poll() with a ready bottom half: the notifier is set, or a thread is about to. */
  lemma NoLostWakeup(s: State, b: nat)
    requires Inv(s) && s.stack != [] && Top(s).Blocked? && b in s.bhs && Ready(s.bhs[b])
    ensures s.notifier || exists t :: t in s.threads && Pending(s.threads[t], b)
  {
    assert Attended(s, {}, b);
  }

  lemma NestedGoto(s: State, pc: Pc)
    requires Nested(s) && s.stack != [] && !Top(s).Dispatch? && !pc.Dispatch?
    ensures Nested(Goto(s, pc)) && Top(Goto(s, pc)) == pc
  {
  }

  /** Looking at one more bottom half. */
  lemma ScanKeeps(s: State, b: nat)
    requires Inv(s)
    ensures Inv(Next(s, ScanNext(b)))
  {
    if s.stack != [] && Top(s).Scan? && b in Top(s).todo {
      var s' := Next(s, ScanNext(b));
      NestedGoto(s, Scan(Top(s).todo - {b}));
      NestedGoto(s, ScanIdle(Top(s).todo, b));
      forall c | c in s.bhs
        ensures Attended(s', Todo(Top(s')), c)
      {
        assert Attended(s, Todo(Top(s)), c);
      }
    }
  }

  lemma ReadIdleKeeps(s: State)
    requires Inv(s)
    ensures Inv(Next(s, ReadIdle))
  {
    if s.stack != [] && Top(s).ScanIdle? {
      var s', b, todo := Next(s, ReadIdle), Top(s).bh, Top(s).todo;
      NestedGoto(s, Scan(todo - {b}));
      NestedGoto(s, Returned);
      if b in s.bhs && s.bhs[b].idle {
        forall c | c in s.bhs
          ensures Attended(s', todo - {b}, c)
        {
          assert Attended(s, todo, c);
        }
      }
    }
  }

  lemma ScanDoneKeeps(s: State)
    requires Inv(s)
    ensures Inv(Next(s, ScanDone))
  {
    if s.stack != [] && Top(s).Scan? && Top(s).todo == {} {
      var s' := Next(s, ScanDone);
      NestedGoto(s, Blocked);
      forall c | c in s.bhs
        ensures Attended(s', {}, c)
      {
        assert Attended(s, {}, c);
      }
    }
  }

  /** Entering and leaving aio_poll, and what it does outside its wait. */
  lemma PollKeeps(s: State, step: Step)
    requires Inv(s) && (step.Callback? || step.ClearNotifier? || step.Poll? || step.Wake? || step.Return?)
    ensures Inv(Next(s, step))
  {
  }

  /** A change of one bottom half that is not ready afterwards, or somebody attends to it. */
  lemma ChangeKeeps(s: State, s': State, b: nat, flags: Bh)
    requires Inv(s) && s' == s.(bhs := s.bhs[b := flags], notifier := s'.notifier, threads := s'.threads)
    requires s.notifier ==> s'.notifier
    requires forall t, c :: t in s.threads && Pending(s.threads[t], c) ==>
               s'.notifier || !Waiting(s) || (t in s'.threads && Pending(s'.threads[t], c))
    requires Ready(flags) && Waiting(s) ==>
               s'.notifier || (b in s.bhs && Ready(s.bhs[b]))
               || exists t :: t in s'.threads && Pending(s'.threads[t], b)
    ensures Inv(s')
  {
    if Looking(s) {
      forall c | c in s'.bhs
        ensures Attended(s', Todo(Top(s')), c)
      {
        if c in s.bhs { assert Attended(s, Todo(Top(s)), c); }
        if c != b || (b in s.bhs && Ready(s.bhs[b])) {
          if t :| t in s.threads && Pending(s.threads[t], c) {
            assert t in s'.threads ==> Pending(s'.threads[t], c) || s'.notifier;
          }
        }
      }
    }
  }

  /** One access of a thread inside qemu_bh_schedule. */
  lemma AdvanceKeeps(s: State, t: nat)
    requires Inv(s) && t in s.threads
    ensures Inv(AdvanceThread(s, t))
  {
    var s', b := AdvanceThread(s, t), s.threads[t].bh;
    if b in s.bhs && (s.threads[t].ClearIdle? || s.threads[t].SetScheduled?) {
      assert Pending(s'.threads[t], b);
      ChangeKeeps(s, s', b, s'.bhs[b]);
    } else {
      OthersKeep(s, s', t);
    }
  }

  lemma OthersKeep(s: State, s': State, t: nat)
    requires Inv(s) && t in s.threads && s' == s.(notifier := s'.notifier, threads := s'.threads)
    requires s.notifier ==> s'.notifier
    requires forall u :: u in s.threads && u != t ==> u in s'.threads && s'.threads[u] == s.threads[u]
    requires s'.notifier || !Waiting(s) || s.threads[t].bh !in s.bhs
             || (t in s'.threads && Pending(s'.threads[t], s.threads[t].bh))
    ensures Inv(s')
  {
    if Looking(s) {
      forall c | c in s'.bhs
        ensures Attended(s', Todo(Top(s')), c)
      {
        assert Attended(s, Todo(Top(s)), c);
        if u :| u in s.threads && Pending(s.threads[u], c) {
          assert u != t ==> u in s'.threads && Pending(s'.threads[u], c);
        }
      }
    }
  }

  lemma StepKeeps(s: State, step: Step)
    requires Inv(s) && Allowed(s, step)
    ensures Inv(Next(s, step))
  {
    hide Inv, Nested;
    match step
    case NewBh(b) => if b !in s.bhs { FlagsKeep(s, b, Bh(false, false, false)); }
    case Begin(t, b) => BeginKeeps(s, t, b);
    case Advance(t) => if t in s.threads { AdvanceKeeps(s, t); }
    case Cancel(b) => if b in s.bhs { FlagsKeep(s, b, s.bhs[b].(scheduled := false)); }
    case Delete(b) => if b in s.bhs { FlagsKeep(s, b, s.bhs[b].(scheduled := false, deleted := true)); }
    case SetIdle(b) => if b in s.bhs && !s.bhs[b].scheduled { FlagsKeep(s, b, s.bhs[b].(idle := true)); }
    case MarkIdle(b) => MarkIdleExact(s, b);
    case ScanNext(b) => ScanKeeps(s, b);
    case ReadIdle => ReadIdleKeeps(s);
    case ScanDone => ScanDoneKeeps(s);
    case Callback(_, _) => PollKeeps(s, step);
    case ClearNotifier => PollKeeps(s, step);
    case Poll(_) => PollKeeps(s, step);
    case Wake => PollKeeps(s, step);
    case Return => PollKeeps(s, step);
  }

  /** The last access of qemu_bh_schedule_idle keeps the invariant if and only if it is heard. */
  lemma MarkIdleExact(s: State, b: nat)
    requires Inv(s)
    ensures Inv(Next(s, MarkIdle(b))) <==> !Unheard(s, b)
  {
    var s' := Next(s, MarkIdle(b));
    assert s'.stack == s.stack && s'.threads == s.threads;
    if Looking(s) && b in s.bhs {
      assert Attended(s, Todo(Top(s)), b);
      if Unheard(s, b) {
        assert !Attended(s', Todo(Top(s')), b);
      } else {
        forall c | c in s'.bhs
          ensures Attended(s', Todo(Top(s')), c)
        {
          assert Attended(s, Todo(Top(s)), c);
        }
      }
    }
  }

  /** Some ready bottom half is left to a blocked poller that nobody will wake. */
  ghost predicate WakeupLost(s: State)
  {
    && s.stack != [] && Top(s).Blocked? && !s.notifier
    && exists b :: b in s.bhs && Ready(s.bhs[b]) && forall t :: t in s.threads ==> !Pending(s.threads[t], b)
  }

  /** To a blocked poller that access loses a wakeup if and only if it goes unheard. */
  lemma MarkIdleLoses(s: State, b: nat)
    requires Inv(s) && s.stack != [] && Top(s).Blocked?
    ensures WakeupLost(Next(s, MarkIdle(b))) <==> Unheard(s, b)
  {
    var s' := Next(s, MarkIdle(b));
    MarkIdleExact(s, b);
    assert s'.stack == s.stack && s'.threads == s.threads;
    if Unheard(s, b) {
      assert Ready(s'.bhs[b]);
    } else if WakeupLost(s') {
      var c :| c in s'.bhs && Ready(s'.bhs[c]) && forall t :: t in s'.threads ==> !Pending(s'.threads[t], c);
      NoLostWakeup(s', c);
    }
  }

  lemma FlagsKeep(s: State, b: nat, flags: Bh)
    requires Inv(s) && (Ready(flags) ==> !Waiting(s) || (b in s.bhs && Ready(s.bhs[b])))
    ensures Inv(WithBh(s, b, flags))
  {
    ChangeKeeps(s, WithBh(s, b, flags), b, flags);
  }

  lemma BeginKeeps(s: State, t: nat, b: nat)
    requires Inv(s)
    ensures Inv(Next(s, Begin(t, b)))
  {
    var s' := Next(s, Begin(t, b));
    if s' != s { ChangeKeeps(s, s', b, s.bhs[b]); }
  }

  // ---------- whole runs ----------

  function Run(s: State, steps: seq<Step>): (s': State)
    decreases |steps|
  {
    if steps == [] then s else Run(Next(s, steps[0]), steps[1..])
  }

  ghost predicate AllAllowed(s: State, steps: seq<Step>)
    decreases |steps|
  {
    steps == [] || (Allowed(s, steps[0]) && AllAllowed(Next(s, steps[0]), steps[1..]))
  }

  lemma {:induction false} RunKeeps(s: State, steps: seq<Step>)
    requires Inv(s) && AllAllowed(s, steps)
    ensures Inv(Run(s, steps))
    decreases |steps|
  {
    if steps != [] {
      StepKeeps(s, steps[0]);
      RunKeeps(Next(s, steps[0]), steps[1..]);
    }
  }

  /** In every run, whenever the poller is blocked with a ready bottom half, its wakeup is there
      or on its way; and outside aio_poll other threads set the notifier. */
  lemma WakeupsArrive(s: State, steps: seq<Step>, b: nat)
    requires Initial(s) && AllAllowed(s, steps)
    ensures var s' := Run(s, steps);
            && (s'.stack != [] && Top(s').Blocked? && b in s'.bhs && Ready(s'.bhs[b]) ==>
                  s'.notifier || exists t :: t in s'.threads && Pending(s'.threads[t], b))
            && (s'.stack == [] ==> !s'.dispatching)
  {
    RunKeeps(s, steps);
    var s' := Run(s, steps);
    if s'.stack != [] && Top(s').Blocked? && b in s'.bhs && Ready(s'.bhs[b]) { NoLostWakeup(s', b); }
  }

  /** The wakeup that is on its way arrives: a pending thread, left to itself, sets the notifier
      while the poller is blocked. */
  lemma Arrives(s: State, t: nat, b: nat)
    requires Inv(s) && s.stack != [] && Top(s).Blocked? && t in s.threads && Pending(s.threads[t], b)
    ensures Run(s, [Advance(t), Advance(t), Advance(t)]).notifier
  {
    var s1 := Next(s, Advance(t));
    var s2 := Next(s1, Advance(t));
    assert [Advance(t), Advance(t), Advance(t)][1..] == [Advance(t), Advance(t)];
    assert [Advance(t), Advance(t)][1..] == [Advance(t)];
    assert [Advance(t)][1..] == [];
    assert Run(s2, [Advance(t)]) == Next(s2, Advance(t));
    assert Run(s1, [Advance(t), Advance(t)]) == Next(s2, Advance(t));
  }

  lemma {:induction false} RunAdd(s: State, a: seq<Step>, b: seq<Step>)
    ensures Run(s, a + b) == Run(Run(s, a), b)
    decreases |a|
  {
    hide Next;
    if a == [] {
      assert a + b == b;
    } else {
      RunAdd(Next(s, a[0]), a[1..], b);
      assert (a + b)[1..] == a[1..] + b;
    }
  }

  lemma RunFour(s: State, a: Step, b: Step, c: Step, d: Step)
    ensures Run(s, [a, b, c, d]) == Next(Next(Next(Next(s, a), b), c), d)
  {
    hide Next;
    assert [a, b, c, d] == [a, b] + [c, d];
    RunAdd(s, [a, b], [c, d]);
    RunTwo(s, a, b);
    RunTwo(Run(s, [a, b]), c, d);
  }

  lemma RunTwo(s: State, a: Step, b: Step)
    ensures Run(s, [a, b]) == Next(Next(s, a), b)
  {
    hide Next;
    assert [a, b][1..] == [b] && [b][1..] == [];
    assert Run(Next(s, a), [b]) == Next(Next(s, a), b);
  }

  // ---------- what the steps are for ----------

  /** Nothing but the flags of bottom half b differs. */
  predicate OnlyBh(s: State, s': State, b: nat)
  {
    && s' == s.(bhs := s'.bhs) && s'.bhs.Keys == s.bhs.Keys
    && forall c :: c in s.bhs && c != b ==> s'.bhs[c] == s.bhs[c]
  }

  /** A bottom half that was cancelled or deleted is not scheduled, and nothing else changes. */
  lemma CancelStops(s: State, b: nat)
    requires b in s.bhs
    ensures OnlyBh(s, Next(s, Cancel(b)), b) && OnlyBh(s, Next(s, Delete(b)), b)
    ensures Next(s, Cancel(b)).bhs[b] == s.bhs[b].(scheduled := false)
    ensures var flags := Next(s, Delete(b)).bhs[b]; !flags.scheduled && flags.deleted && !Ready(flags)
  {
  }

  /** qemu_bh_schedule by a thread of its own: the bottom half is scheduled and not idle, and unless the
      poller is going to look anyway the notifier is set. */
  lemma ScheduleDoes(s: State, t: nat, b: nat)
    requires t !in s.threads && b in s.bhs && !s.bhs[b].scheduled
    ensures var s' := Run(s, [Begin(t, b), Advance(t), Advance(t), Advance(t)] + [Advance(t)]);
            && OnlyBh(s.(notifier := s'.notifier), s', b) && s'.bhs[b] == Bh(true, false, s.bhs[b].deleted)
            && s'.notifier == (s.notifier || !s.dispatching)
  {
    hide Run;
    var four := [Begin(t, b), Advance(t), Advance(t), Advance(t)];
    RunAdd(s, four, [Advance(t)]);
    RunFour(s, Begin(t, b), Advance(t), Advance(t), Advance(t));
    var s1 := Next(s, Begin(t, b));
    var s2 := Next(s1, Advance(t));
    var s3 := Next(s2, Advance(t));
    var s4 := Next(s3, Advance(t));
    assert Run(s, four) == s4;
    RunOne(s4, Advance(t));
    assert s1.threads == s.threads[t := ClearIdle(b)];
    assert s2.threads == s.threads[t := SetScheduled(b)] && s2.bhs == s.bhs[b := s.bhs[b].(idle := false)];
    assert s3.threads == s.threads[t := LookAtDispatching(b)];
    if s.dispatching {
      assert s4.threads == s.threads;
    } else {
      assert s4.threads == s.threads[t := SetNotifier(b)];
      assert Next(s4, Advance(t)).threads == s.threads;
    }
  }

  lemma RunOne(s: State, a: Step)
    ensures Run(s, [a]) == Next(s, a)
  {
    hide Next;
    assert [a][1..] == [];
  }

  /** The poller's look at a list of bottom halves. */
  function Looks(order: seq<nat>): (steps: seq<Step>)
  {
    if order == [] then [] else [ScanNext(order[0]), ReadIdle] + Looks(order[1..])
  }

  ghost predicate SomeReady(s: State, order: seq<nat>)
  {
    exists b :: b in order && b in s.bhs && Ready(s.bhs[b])
  }

  lemma {:induction false} LooksReturned(s: State, order: seq<nat>)
    requires s.stack != [] && Top(s).Returned?
    ensures Run(s, Looks(order)) == s
  {
    if order != [] {
      RunAdd(s, [ScanNext(order[0]), ReadIdle], Looks(order[1..]));
      RunTwo(s, ScanNext(order[0]), ReadIdle);
      LooksReturned(s, order[1..]);
    }
  }

  /** One look: on to the next bottom half, or back at once if this one is ready. */
  lemma LookOnce(s: State, b: nat)
    requires s.stack != [] && Top(s).Scan? && b in Top(s).todo
    ensures Next(Next(s, ScanNext(b)), ReadIdle) ==
            Goto(s, if b in s.bhs && Ready(s.bhs[b]) then Returned else Scan(Top(s).todo - {b}))
  {
  }

  /** A scan that nobody disturbs goes on to block if and only if no bottom half is ready: idle ones that
      are scheduled do not keep the poller from it. */
  lemma {:induction false} ScanEnds(s: State, order: seq<nat>)
    requires s.stack != [] && Top(s).Scan? && Top(s).todo == (set b | b in order)
    requires forall i, j :: 0 <= i < j < |order| ==> order[i] != order[j]
    ensures Next(Run(s, Looks(order)), ScanDone) == Goto(s, if SomeReady(s, order) then Returned else Blocked)
    decreases |order|
  {
    hide Run, Next, Goto;
    if order == [] {
      NoSteps(s);
      ScanDoneIs(s);
    } else {
      var b, rest := order[0], order[1..];
      RunAdd(s, [ScanNext(b), ReadIdle], Looks(rest));
      RunTwo(s, ScanNext(b), ReadIdle);
      LookOnce(s, b);
      var s1 := Next(Next(s, ScanNext(b)), ReadIdle);
      assert order == [b] + rest;
      GotoTwice(s, Returned, Returned);
      GotoTwice(s, Scan(Top(s).todo - {b}), Returned);
      GotoTwice(s, Scan(Top(s).todo - {b}), Blocked);
      if b in s.bhs && Ready(s.bhs[b]) {
        LooksReturned(s1, rest);
        ScanDoneIs(s1);
      } else {
        assert b !in rest;
        assert (set c | c in order) - {b} == set c | c in rest;
        ScanEnds(s1, rest);
        assert SomeReady(s1, rest) <==> SomeReady(s, order);
      }
    }
  }

  lemma ScanDoneIs(s: State)
    requires s.stack != []
    ensures Next(s, ScanDone) == if Top(s).Scan? && Top(s).todo == {} then Goto(s, Blocked) else s
  {
  }

  lemma GotoTwice(s: State, pc: Pc, pc': Pc)
    requires s.stack != []
    ensures var s' := Goto(s, pc);
            s'.stack != [] && Top(s') == pc && s' == s.(stack := s'.stack) && Goto(s', pc') == Goto(s, pc')
  {
  }

  lemma NoSteps(s: State)
    ensures Looks([]) == [] && Run(s, []) == s
  {
  }

  lemma PollBegins(s: State)
    requires !Waiting(s)
    ensures var s' := Next(s, Poll(true));
            s'.stack != [] && Top(s') == Scan(s.bhs.Keys) && s' == s.(dispatching := false, stack := s'.stack)
  {
  }

  /** aio_poll(true) left to itself blocks if and only if no bottom half is ready. */
  lemma PollBlocks(s: State, order: seq<nat>)
    requires !Waiting(s) && (forall b :: b in s.bhs <==> b in order)
    requires forall i, j :: 0 <= i < j < |order| ==> order[i] != order[j]
    ensures var s1 := Next(s, Poll(true));
            && s1.stack != [] && !s1.dispatching && s1.bhs == s.bhs
            && Next(Run(s1, Looks(order)), ScanDone) == Goto(s1, if SomeReady(s, order) then Returned else Blocked)
  {
    hide Run, Next, Goto, Looks, SomeReady;
    var s1 := Next(s, Poll(true));
    PollBegins(s);
    KeysAre(s, order);
    ScanEnds(s1, order);
    SameReady(s, s1, order);
  }

  lemma KeysAre(s: State, order: seq<nat>)
    requires forall b :: b in s.bhs <==> b in order
    ensures s.bhs.Keys == set b | b in order
  {
  }

  lemma SameReady(s: State, s': State, order: seq<nat>)
    requires s'.bhs == s.bhs
    ensures SomeReady(s, order) <==> SomeReady(s', order)
  {
  }

  /** Back from poll() the poller dispatches, and at last everything about it is as it was. */
  lemma PollEnds(s: State, pc: Pc)
    requires !Waiting(s) && (pc.Blocked? || pc.Returned?)
    ensures var s1 := Next(s, Poll(true)); var s2 := Goto(s1, pc); var s3 := Next(s2, Wake);
            s3.stack != [] && s3.dispatching && Top(s3) == Dispatch && Next(s3, Return) == s
  {
    var n := |s.stack|;
    var s1 := Next(s, Poll(true));
    assert s1.stack[..n] == s.stack;
    var s3 := Next(Goto(s1, pc), Wake);
    assert s3.stack[..n] == s.stack && s3.stack[n].was == s.dispatching;
  }

  /** qemu_bh_schedule_idle in another thread sets `idle`, and a second thread schedules the same
      bottom half, clearing `idle` again. */
  const CLEARED: seq<Step> := [SetIdle(0), Begin(1, 0), Advance(1), Advance(1)]
  /** The bottom half runs. */
  const DONE: seq<Step> := [Advance(1), Advance(1), Callback(0, Bh(false, false, false)), ClearNotifier]
  /** The poller blocks, and only then does the first thread set `scheduled`. */
  const TOO_LATE: seq<Step> := [Poll(true), ScanNext(0), ScanDone, MarkIdle(0)]

  /** Scheduling idle from another thread can lose a wakeup: the poller is blocked with a ready
      bottom half, the notifier is clear and no thread is left to set it. */
  lemma IdleElsewhereLosesWakeup(s: State)
    requires Initial(s) && s.bhs == map[0 := Bh(false, false, false)]
    ensures var s' := Run(s, CLEARED + DONE + TOO_LATE);
            s'.stack != [] && Top(s').Blocked? && 0 in s'.bhs && Ready(s'.bhs[0]) && !s'.notifier && s'.threads == map[]
  {
    RunAdd(s, CLEARED + DONE, TOO_LATE);
    RunAdd(s, CLEARED, DONE);
    var s1 := Run(s, CLEARED);
    Cleared(s);
    var s2 := Run(s1, DONE);
    Done(s1);
    TooLate(s2);
  }

  lemma Cleared(s: State)
    requires Initial(s) && s.bhs == map[0 := Bh(false, false, false)]
    ensures var s' := Run(s, CLEARED);
            !s'.dispatching && s'.stack == [] && s'.threads == map[1 := LookAtDispatching(0)]
              && s'.bhs == map[0 := Bh(true, false, false)]
  {
    RunFour(s, SetIdle(0), Begin(1, 0), Advance(1), Advance(1));
    var s2 := Next(Next(s, SetIdle(0)), Begin(1, 0));
    assert s2.bhs == map[0 := Bh(false, true, false)] && s2.threads == map[1 := ClearIdle(0)];
    var s3 := Next(s2, Advance(1));
    assert s3.bhs == map[0 := Bh(false, false, false)] && s3.threads == map[1 := SetScheduled(0)];
  }

  lemma Done(s: State)
    requires !s.dispatching && s.stack == [] && s.threads == map[1 := LookAtDispatching(0)]
    requires s.bhs == map[0 := Bh(true, false, false)]
    ensures var s' := Run(s, DONE); Initial(s') && s'.bhs == map[0 := Bh(false, false, false)] && !s'.notifier
  {
    RunFour(s, Advance(1), Advance(1), Callback(0, Bh(false, false, false)), ClearNotifier);
    var s1 := Next(s, Advance(1));
    assert s1.threads == map[1 := SetNotifier(0)];
    var s2 := Next(s1, Advance(1));
    assert s2.threads == map[] && s2.bhs == s.bhs && s2.stack == [];
  }

  lemma TooLate(s: State)
    requires Initial(s) && s.bhs == map[0 := Bh(false, false, false)] && !s.notifier
    ensures var s' := Run(s, TOO_LATE);
            s'.stack != [] && Top(s').Blocked? && 0 in s'.bhs && Ready(s'.bhs[0]) && !s'.notifier && s'.threads == map[]
  {
    RunFour(s, Poll(true), ScanNext(0), ScanDone, MarkIdle(0));
    var s1 := Next(s, Poll(true));
    assert Top(s1) == Scan({0});
    var s2 := Next(s1, ScanNext(0));
    assert Top(s2) == Scan({0} - {0}) && {0} - {0} == {};
  }
}
