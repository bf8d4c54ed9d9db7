/**
 What one aio_poll does, as a function of what its callbacks do: which bottom halves and handlers it
 calls, in which order, and what the context looks like afterwards.  A callback may do anything that
 callbacks do, and poll again, to any depth.
 */
module Callbacks {
  import opened Basics

  /** What poll() reports for a descriptor. */
  datatype Events = Events(input: bool, hangup: bool, output: bool, error: bool)

  const NO_EVENTS := Events(false, false, false, false)

  /** What a callback does; a nested poll says what poll() reports, and what the callbacks do that it
      runs. */
  datatype Plan = Plan(actions: seq<Action>)

  datatype Action =
    | NewBh
    | ScheduleBh(bh: nat, idle: bool)
    | CancelBh(bh: nat)
    | DeleteBh(bh: nat)
    | SetHandler(fd: int, canRead: bool, canWrite: bool, notifier: bool)
    | Poll(plans: seq<Plan>, ready: map<int, Events>)

  datatype Bh = Bh(scheduled: bool, idle: bool, deleted: bool)

  /** `canRead` and `canWrite` say which callbacks are set, `notifier` that they are those of aio_notify. */
  datatype Handler = Handler(fd: int, canRead: bool, canWrite: bool, notifier: bool, revents: Events, deleted: bool)

  datatype Snapshot = Snapshot(bhList: seq<nat>, bhs: map<nat, Bh>, handlers: seq<nat>, nodes: map<nat, Handler>,
                               walkingBh: nat, walkingHandlers: nat, nextId: nat)

  // ---------- nesting ----------

  function Max(a: nat, b: nat): (m: nat)
  {
    if a < b then b else a
  }

  /** How deep the polls of a callback nest. */
  function Depth(p: Plan): (d: nat)
  {
    DepthOf(p.actions)
  }

  function DepthOf(actions: seq<Action>): (d: nat)
  {
    if actions == [] then 0 else Max(ActionDepth(actions[0]), DepthOf(actions[1..]))
  }

  function ActionDepth(a: Action): (d: nat)
  {
    if a.Poll? then 1 + PlansDepth(a.plans) else 0
  }

  function PlansDepth(plans: seq<Plan>): (d: nat)
  {
    if plans == [] then 0 else Max(Depth(plans[0]), PlansDepth(plans[1..]))
  }

  lemma {:induction false} DepthAt(actions: seq<Action>, i: nat)
    requires i < |actions|
    ensures ActionDepth(actions[i]) <= DepthOf(actions) && DepthOf(actions[..i]) <= DepthOf(actions)
  {
    if i > 0 {
      DepthAt(actions[1..], i - 1);
      assert actions[..i][1..] == actions[1..][..i - 1];
    }
  }

  lemma {:induction false} PlanAt(plans: seq<Plan>, i: nat)
    requires i < |plans|
    ensures Depth(plans[i]) <= PlansDepth(plans)
  {
    if i > 0 { PlanAt(plans[1..], i - 1); }
  }

  // ---------- lists ----------

  predicate Distinct(list: seq<nat>)
  {
    forall i, j :: 0 <= i < j < |list| ==> list[i] != list[j]
  }

  function Without(list: seq<nat>, node: nat): (rest: seq<nat>)
    ensures forall x :: x in rest <==> x in list && x != node
  {
    if list == [] then []
    else if list[0] == node then Without(list[1..], node)
    else [list[0]] + Without(list[1..], node)
  }

  /** The nodes of a list that are not marked deleted. */
  function Kept(list: seq<nat>, bhs: map<nat, Bh>): (rest: seq<nat>)
    ensures forall x :: x in rest <==> x in list && x in bhs && !bhs[x].deleted
  {
    if list == [] then []
    else if list[0] !in bhs || bhs[list[0]].deleted then Kept(list[1..], bhs)
    else [list[0]] + Kept(list[1..], bhs)
  }

  // ---------- what a callback can do ----------

  /** aio_bh_new. */
  function AddedBh(s: Snapshot): (s': Snapshot)
  {
    s.(bhList := [s.nextId] + s.bhList, bhs := s.bhs[s.nextId := Bh(false, false, false)], nextId := s.nextId + 1)
  }

  function BhSet(s: Snapshot, b: nat, bh: Bh): (s': Snapshot)
  {
    if b in s.bhs then s.(bhs := s.bhs[b := bh]) else s
  }

  /** qemu_bh_schedule and qemu_bh_schedule_idle. */
  function Scheduled(s: Snapshot, b: nat, idle: bool): (s': Snapshot)
  {
    if b in s.bhs && !s.bhs[b].scheduled then BhSet(s, b, Bh(true, idle, s.bhs[b].deleted)) else s
  }

  /** qemu_bh_cancel and qemu_bh_delete. */
  function Cancelled(s: Snapshot, b: nat, delete: bool): (s': Snapshot)
  {
    if b in s.bhs then BhSet(s, b, Bh(false, s.bhs[b].idle, s.bhs[b].deleted || delete)) else s
  }

  /** find_aio_handler. */
  function LiveHandler(list: seq<nat>, nodes: map<nat, Handler>, fd: int): (x: Option<nat>)
    ensures x.Some? ==> x.value in list && x.value in nodes && nodes[x.value].fd == fd && !nodes[x.value].deleted
    ensures x.None? ==> forall y :: y in list && y in nodes && nodes[y].fd == fd ==> nodes[y].deleted
  {
    if list == [] then None
    else if list[0] in nodes && nodes[list[0]].fd == fd && !nodes[list[0]].deleted then Some(list[0])
    else LiveHandler(list[1..], nodes, fd)
  }

  function NodeSet(s: Snapshot, x: nat, h: Handler): (s': Snapshot)
  {
    s.(nodes := s.nodes[x := h])
  }

  function Freed(s: Snapshot, x: nat): (s': Snapshot)
  {
    s.(handlers := Without(s.handlers, x), nodes := s.nodes - {x})
  }

  /** aio_set_fd_handler: while a walk is going on, a handler is only marked. */
  function FdSet(s: Snapshot, fd: int, canRead: bool, canWrite: bool, notifier: bool): (s': Snapshot)
  {
    match LiveHandler(s.handlers, s.nodes, fd)
    case Some(x) =>
      if canRead || canWrite then
        NodeSet(s, x, s.nodes[x].(canRead := canRead, canWrite := canWrite, notifier := notifier))
      else if s.walkingHandlers > 0 then
        NodeSet(s, x, s.nodes[x].(deleted := true, revents := NO_EVENTS))
      else
        Freed(s, x)
    case None =>
      if canRead || canWrite then
        s.(handlers := [s.nextId] + s.handlers, nextId := s.nextId + 1,
           nodes := s.nodes[s.nextId := Handler(fd, canRead, canWrite, notifier, NO_EVENTS, false)])
      else s
  }

  // ---------- what a poll does ----------

  datatype Call = BhCall(bh: nat) | ReadCall(handler: nat) | WriteCall(handler: nat)

  /** How far a dispatch has come: the callbacks it has called, how many of the plans they have carried
      out, and whether they count as progress. */
  datatype Walk = Walk(s: Snapshot, used: nat, progress: bool, calls: seq<Call>)

  /** A callback: it carries out the next plan, or does nothing. */
  function Called(plans: seq<Plan>, w: Walk, c: Call): (w': Walk)
    decreases PlansDepth(plans), 3, 0
  {
    if w.used < |plans| then
      PlanAt(plans, w.used);
      w.(s := AfterAll(plans[w.used].actions, w.s), used := w.used + 1, calls := w.calls + [c])
    else w.(calls := w.calls + [c])
  }

  predicate Ready(bh: Bh)
  {
    bh.scheduled && !bh.deleted
  }

  function VisitedBh(plans: seq<Plan>, w: Walk, b: nat): (w': Walk)
    decreases PlansDepth(plans), 4, 0
  {
    if b in w.s.bhs && Ready(w.s.bhs[b]) then
      var s1 := BhSet(w.s, b, Bh(false, false, false));
      Called(plans, w.(s := s1, progress := w.progress || !w.s.bhs[b].idle), BhCall(b))
    else w
  }

  function WalkedBhs(plans: seq<Plan>, w: Walk, list: seq<nat>): (w': Walk)
    decreases PlansDepth(plans), 5, |list|
  {
    if list == [] then w
    else VisitedBh(plans, WalkedBhs(plans, w, list[..|list| - 1]), list[|list| - 1])
  }

  lemma BhsNext(plans: seq<Plan>, w: Walk, list: seq<nat>, n: nat)
    requires n <= |list|
    ensures n == 0 ==> WalkedBhs(plans, w, list[..n]) == w
    ensures n < |list| ==>
              WalkedBhs(plans, w, list[..n + 1]) == VisitedBh(plans, WalkedBhs(plans, w, list[..n]), list[n])
  {
    hide VisitedBh;
    assert n < |list| ==> list[..n + 1][..n] == list[..n];
  }

  /** Frees the deleted bottom halves. */
  function Reaped(s: Snapshot): (s': Snapshot)
  {
    s.(bhList := Kept(s.bhList, s.bhs), bhs := map b | b in s.bhs && !s.bhs[b].deleted :: s.bhs[b])
  }

  function BhWalkEnds(s: Snapshot, walking: nat): (s': Snapshot)
  {
    if walking == 0 then Reaped(s.(walkingBh := 0)) else s.(walkingBh := walking)
  }

  /** aio_bh_poll. */
  function PolledBhs(plans: seq<Plan>, w: Walk): (w': Walk)
    decreases PlansDepth(plans), 6, 0
  {
    var w1 := WalkedBhs(plans, w.(s := w.s.(walkingBh := w.s.walkingBh + 1)), w.s.bhList);
    w1.(s := BhWalkEnds(w1.s, w.s.walkingBh))
  }

  /** The events that a handler has asked for, of those that were reported. */
  function Seen(h: Handler): (e: Events)
  {
    var r := h.revents;
    Events(h.canRead && r.input, h.canRead && r.hangup, h.canWrite && r.output, (h.canRead || h.canWrite) && r.error)
  }

  /** The read callback of a handler; that of aio_notify does not count as progress. */
  function ServedRead(plans: seq<Plan>, w: Walk, x: nat, e: Events): (w': Walk)
    decreases PlansDepth(plans), 4, 0
  {
    if x in w.s.nodes && !w.s.nodes[x].deleted && w.s.nodes[x].canRead && (e.input || e.hangup || e.error) then
      var w1 := Called(plans, w, ReadCall(x));
      w1.(progress := w1.progress || (x in w1.s.nodes && !w1.s.nodes[x].notifier))
    else w
  }

  function ServedWrite(plans: seq<Plan>, w: Walk, x: nat, e: Events): (w': Walk)
    decreases PlansDepth(plans), 4, 0
  {
    if x in w.s.nodes && !w.s.nodes[x].deleted && w.s.nodes[x].canWrite && (e.output || e.error) then
      Called(plans, w.(progress := true), WriteCall(x))
    else w
  }

  function HandlerLeft(s: Snapshot, x: nat, walking: nat): (s': Snapshot)
  {
    var s1 := s.(walkingHandlers := walking);
    if walking == 0 && x in s.nodes && s.nodes[x].deleted then Freed(s1, x) else s1
  }

  function VisitedHandler(plans: seq<Plan>, w: Walk, x: nat): (w': Walk)
    decreases PlansDepth(plans), 6, 0
  {
    if x in w.s.nodes then
      var h := w.s.nodes[x];
      var s1 := NodeSet(w.s, x, h.(revents := NO_EVENTS)).(walkingHandlers := w.s.walkingHandlers + 1);
      var w1 := ServedWrite(plans, ServedRead(plans, w.(s := s1), x, Seen(h)), x, Seen(h));
      w1.(s := HandlerLeft(w1.s, x, w.s.walkingHandlers))
    else w
  }

  /** The walk of aio_dispatch over the handlers. */
  function WalkedHandlers(plans: seq<Plan>, w: Walk, list: seq<nat>): (w': Walk)
    decreases PlansDepth(plans), 7, |list|
  {
    if list == [] then w
    else VisitedHandler(plans, WalkedHandlers(plans, w, list[..|list| - 1]), list[|list| - 1])
  }

  lemma HandlersNext(plans: seq<Plan>, w: Walk, list: seq<nat>, n: nat)
    requires n <= |list|
    ensures n == 0 ==> WalkedHandlers(plans, w, list[..n]) == w
    ensures n < |list| ==>
              WalkedHandlers(plans, w, list[..n + 1]) ==
              VisitedHandler(plans, WalkedHandlers(plans, w, list[..n]), list[n])
  {
    hide VisitedHandler;
    assert n < |list| ==> list[..n + 1][..n] == list[..n];
  }

  /** aio_dispatch, timers apart. */
  function Dispatched(plans: seq<Plan>, s: Snapshot): (w: Walk)
    decreases PlansDepth(plans), 8, 0
  {
    var w1 := PolledBhs(plans, Walk(s, 0, false, []));
    WalkedHandlers(plans, w1, w1.s.handlers)
  }

  function EventsOf(ready: map<int, Events>, fd: int): (e: Events)
  {
    if fd in ready then ready[fd] else NO_EVENTS
  }

  /** poll() reports something about a handler that is not deleted. */
  predicate SomeReady(nodes: map<nat, Handler>, ready: map<int, Events>)
  {
    exists x :: x in nodes && !nodes[x].deleted && EventsOf(ready, nodes[x].fd) != NO_EVENTS
  }

  function Told(h: Handler, ready: map<int, Events>): (h': Handler)
  {
    if h.deleted then h else h.(revents := EventsOf(ready, h.fd))
  }

  /** What poll() has reported is in the handlers. */
  function Reported(s: Snapshot, ready: map<int, Events>): (s': Snapshot)
  {
    if SomeReady(s.nodes, ready) then
      s.(nodes := map x | x in s.nodes :: Told(s.nodes[x], ready))
    else s
  }

  /** aio_poll. */
  function Polled(plans: seq<Plan>, ready: map<int, Events>, s: Snapshot): (w: Walk)
    decreases PlansDepth(plans), 9, 0
  {
    Dispatched(plans, Reported(s, ready))
  }

  function After(a: Action, s: Snapshot): (s': Snapshot)
    decreases ActionDepth(a), 1, 0
  {
    match a
    case NewBh => AddedBh(s)
    case ScheduleBh(b, idle) => Scheduled(s, b, idle)
    case CancelBh(b) => Cancelled(s, b, false)
    case DeleteBh(b) => Cancelled(s, b, true)
    case SetHandler(fd, canRead, canWrite, notifier) => FdSet(s, fd, canRead, canWrite, notifier)
    case Poll(plans, ready) => Polled(plans, ready, s).s
  }

  function AfterAll(actions: seq<Action>, s: Snapshot): (s': Snapshot)
    decreases DepthOf(actions), 2, |actions|
  {
    if actions == [] then s
    else
      var n := |actions| - 1;
      DepthAt(actions, n);
      After(actions[n], AfterAll(actions[..n], s))
  }
}
