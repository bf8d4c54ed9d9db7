/**
 Deferred reclamation in an event loop.  Callbacks may add and delete bottom halves and fd
 handlers and may poll again, to any depth; a node that was freed is no longer in the map of its
 list, so that every access to a node is checked.
 */
module Reclaim {
  import opened Basics
  import opened Callbacks

  // ---------- linked lists ----------

  /** `later` is `list` with more nodes before its head. */
  predicate Grown(list: seq<nat>, later: seq<nat>)
  {
    |list| <= |later| && later[|later| - |list|..] == list
  }

  lemma GrownAgain(a: seq<nat>, b: seq<nat>, c: seq<nat>)
    requires Grown(a, b) && Grown(b, c)
    ensures Grown(a, c)
  {
    assert c[|c| - |a|..] == c[|c| - |b|..][|b| - |a|..];
  }

  /** Counted from its end, a grown list has the same nodes in the same places. */
  lemma GrownAt(list: seq<nat>, later: seq<nat>, k: nat)
    requires Grown(list, later) && 0 < k <= |list|
    ensures later[|later| - k] == list[|list| - k]
  {
    assert later[|later| - |list|..][|list| - k] == later[|later| - k];
  }

  /** The pointer held by a walk that has k nodes left to visit. */
  predicate AtCursor(list: seq<nat>, k: nat, node: Option<nat>)
  {
    k <= |list| && if k == 0 then node.None? else node == Some(list[|list| - k])
  }

  /** Reading the next pointer of a node. */
  method NextOf(list: seq<nat>, node: nat, ghost k: nat) returns (next: Option<nat>)
    requires Distinct(list) && 0 < k && AtCursor(list, k, Some(node))
    ensures AtCursor(list, k - 1, next)
  {
    var i := 0;
    while list[i] != node
      invariant 0 <= i <= |list| - k
      decreases |list| - i
    {
      i := i + 1;
    }
    assert i == |list| - k;
    next := if i + 1 < |list| then Some(list[i + 1]) else None;
  }

  /** Unlinking a node that a walk has just passed leaves the rest of the walk as it was. */
  lemma {:induction false} WithoutPassed(list: seq<nat>, k: nat)
    requires Distinct(list) && k < |list|
    ensures var rest := Without(list, list[|list| - k - 1]);
            |rest| == |list| - 1 && rest[|rest| - k..] == list[|list| - k..]
  {
    var node := list[|list| - k - 1];
    if k + 1 == |list| {
      WithoutNone(list[1..], node);
    } else {
      WithoutPassed(list[1..], k);
      assert list[1..][|list| - 1 - k - 1] == node;
      var rest := Without(list[1..], node);
      assert ([list[0]] + rest)[|rest| + 1 - k..] == rest[|rest| - k..];
      assert list[1..][|list| - 1 - k..] == list[|list| - k..];
    }
  }

  lemma {:induction false} WithoutNone(list: seq<nat>, node: nat)
    requires node !in list
    ensures Without(list, node) == list
  {
    if list != [] { WithoutNone(list[1..], node); }
  }

  lemma {:induction false} WithoutDistinct(list: seq<nat>, node: nat)
    requires Distinct(list)
    ensures Distinct(Without(list, node))
  {
    if list != [] {
      WithoutDistinct(list[1..], node);
      assert list[0] !in list[1..];
    }
  }

  lemma {:induction false} KeptDistinct(list: seq<nat>, bhs: map<nat, Bh>)
    requires Distinct(list)
    ensures Distinct(Kept(list, bhs))
  {
    if list != [] {
      KeptDistinct(list[1..], bhs);
      assert list[0] !in list[1..];
    }
  }

  // ---------- the context ----------

  /** Every linked node is allocated, and every allocated node is linked once. */
  ghost predicate Linked<T>(list: seq<nat>, nodes: map<nat, T>, nextId: nat)
  {
    Distinct(list) && (forall x :: x in list <==> x in nodes) && (forall x :: x in nodes ==> x < nextId)
  }

  lemma LinkedNew<T>(list: seq<nat>, nodes: map<nat, T>, nextId: nat, x: T)
    requires Linked(list, nodes, nextId)
    ensures Linked([nextId] + list, nodes[nextId := x], nextId + 1) && Grown(list, [nextId] + list)
  {
    forall j | 0 <= j < |list|
      ensures list[j] < nextId
    {
      assert list[j] in list;
    }
  }

  lemma LinkedMore<T>(list: seq<nat>, nodes: map<nat, T>, nextId: nat)
    requires Linked(list, nodes, nextId)
    ensures Linked(list, nodes, nextId + 1)
  {
  }

  /** No two live handlers have the same fd. */
  ghost predicate OnePerFd(nodes: map<nat, Handler>)
  {
    forall x, y :: x in nodes && y in nodes && x != y && !nodes[x].deleted && !nodes[y].deleted ==>
      nodes[x].fd != nodes[y].fd
  }

  /** What callbacks leave behind: the walks are as before, a list that is being walked has only
      grown at its head, and identities are not used twice. */
  ghost predicate Later(w: Snapshot, v: Snapshot)
  {
    && v.walkingBh == w.walkingBh && v.walkingHandlers == w.walkingHandlers && v.nextId >= w.nextId
    && (w.walkingBh > 0 ==> Grown(w.bhList, v.bhList))
    && (w.walkingHandlers > 0 ==> Grown(w.handlers, v.handlers) && DeletedStay(w.nodes, v.nodes))
    && NewOnly(w.nodes, v.nodes, w.nextId)
  }

  lemma LaterNone(w: Snapshot)
    ensures Later(w, w)
  {
  }

  lemma LaterTwice(w: Snapshot, v: Snapshot, u: Snapshot)
    requires Later(w, v) && Later(v, u)
    ensures Later(w, u)
  {
    if w.walkingBh > 0 { GrownAgain(w.bhList, v.bhList, u.bhList); }
    if w.walkingHandlers > 0 { GrownAgain(w.handlers, v.handlers, u.handlers); }
  }

  ghost predicate NewOnly(nodes: map<nat, Handler>, nodes': map<nat, Handler>, nextId: nat)
  {
    forall x :: x in nodes' ==> x in nodes || x >= nextId
  }

  /** Handlers marked deleted stay marked, and stay linked. */
  ghost predicate DeletedStay(nodes: map<nat, Handler>, nodes': map<nat, Handler>)
  {
    forall x :: x in nodes && nodes[x].deleted ==> x in nodes' && nodes'[x].deleted
  }

  predicate SameTail(a: seq<nat>, b: seq<nat>, k: nat)
  {
    k <= |a| && k <= |b| && a[|a| - k..] == b[|b| - k..]
  }

  lemma TailAgain(a: seq<nat>, b: seq<nat>, c: seq<nat>, k: nat)
    requires 0 < k && SameTail(a, b, k) && SameTail(b, c, k - 1)
    ensures SameTail(a, c, k - 1)
  {
    assert a[|a| - (k - 1)..] == a[|a| - k..][1..];
    assert b[|b| - (k - 1)..] == b[|b| - k..][1..];
  }

  lemma TailFreed(a: seq<nat>, b: seq<nat>, k: nat, node: nat)
    requires 0 < k <= |b| && Distinct(b) && b[|b| - k] == node && SameTail(a, b, k - 1)
    ensures SameTail(a, Without(b, node), k - 1)
  {
    hide Without;
    WithoutPassed(b, k - 1);
  }

  lemma CursorStays(w: Snapshot, v: Snapshot, k: nat, node: Option<nat>)
    requires Later(w, v) && w.walkingBh > 0 && AtCursor(w.bhList, k, node)
    ensures AtCursor(v.bhList, k, node) && v.walkingBh == w.walkingBh
  {
    if k > 0 { GrownAt(w.bhList, v.bhList, k); }
  }

  lemma HandlerStays(w: Snapshot, v: Snapshot, k: nat, node: nat)
    requires Later(w, v) && w.walkingHandlers > 0 && 0 < k && AtCursor(w.handlers, k, Some(node))
    ensures AtCursor(v.handlers, k, Some(node)) && v.walkingHandlers == w.walkingHandlers
  {
    GrownAt(w.handlers, v.handlers, k);
  }

  lemma TailOfGrown(a: seq<nat>, b: seq<nat>, k: nat)
    requires Grown(a, b) && k <= |a|
    ensures b[|b| - k..] == a[|a| - k..]
  {
    assert b[|b| - k..] == b[|b| - |a|..][|a| - k..];
  }

  lemma VisitKept(w: Snapshot, v: Snapshot, node: nat, k: nat, doomed: set<nat>)
    requires Later(w.(walkingHandlers := w.walkingHandlers + 1), v) && 0 < k && AtCursor(w.handlers, k, Some(node))
    requires w.walkingHandlers == 0 ==> Left(doomed, w, k) && forall x :: x in doomed ==> x < w.nextId
    ensures SameTail(w.handlers, v.handlers, k - 1)
    ensures var u := v.(walkingHandlers := w.walkingHandlers);
            && Later(w, u)
            && (w.walkingHandlers == 0 ==>
                  Left(doomed, u, k) && (node in u.nodes && !u.nodes[node].deleted ==> Left(doomed, u, k - 1)))
  {
    TailOfGrown(w.handlers, v.handlers, k);
    GrownAt(w.handlers, v.handlers, k);
    hide Grown;
    TailAgain(w.handlers, v.handlers, v.handlers, k);
    var n := |v.handlers|;
    assert v.handlers[n - k..] == [v.handlers[n - k]] + v.handlers[n - (k - 1)..];
  }

  lemma VisitFreed(w: Snapshot, u: Snapshot, node: nat, k: nat, doomed: set<nat>, next: Option<nat>)
    requires Later(w, u) && w.walkingHandlers == 0 && Left(doomed, u, k) && 0 < k && Distinct(u.handlers)
    requires AtCursor(u.handlers, k, Some(node)) && AtCursor(u.handlers, k - 1, next)
    requires SameTail(w.handlers, u.handlers, k - 1)
    ensures var u' := u.(handlers := Without(u.handlers, node), nodes := u.nodes - {node});
            && Later(w, u') && Left(doomed, u', k - 1)
            && SameTail(w.handlers, u'.handlers, k - 1) && AtCursor(u'.handlers, k - 1, next)
  {
    hide Grown, DeletedStay, Without, SameTail;
    TailFreed(w.handlers, u.handlers, k, node);
    WithoutPassed(u.handlers, k - 1);
    var rest, n := Without(u.handlers, node), |u.handlers|;
    assert u.handlers[n - k..] == [u.handlers[n - k]] + u.handlers[n - (k - 1)..];
    if k > 1 {
      assert rest[|rest| - (k - 1)..][0] == rest[|rest| - (k - 1)];
      assert u.handlers[n - (k - 1)..][0] == u.handlers[n - (k - 1)];
    }
  }

  /** Of the doomed handlers, those that still exist are deleted and among the last k. */
  ghost predicate Left(doomed: set<nat>, w: Snapshot, k: nat)
  {
    k <= |w.handlers| && forall x :: x in doomed && x in w.nodes ==>
      w.nodes[x].deleted && x in w.handlers[|w.handlers| - k..]
  }

  lemma CursorIs(w: Snapshot, v: Snapshot, list: seq<nat>, k: nat, node: nat)
    requires Later(w, v) && w.walkingBh > 0 && w.bhList == list && 0 < k <= |list| && AtCursor(v.bhList, k, Some(node))
    ensures list[|list| - k] == node && list[..|list| - (k - 1)][..|list| - k] == list[..|list| - k]
  {
    GrownAt(w.bhList, v.bhList, k);
  }

  lemma TailNone(list: seq<nat>)
    ensures SameTail(list, list, |list|)
  {
  }

  lemma NoneLeft(doomed: set<nat>, w: Snapshot)
    requires Left(doomed, w, 0)
    ensures forall x :: x in doomed ==> x !in w.nodes
  {
  }

  lemma TailIs(list: seq<nat>, later: seq<nat>, k: nat, node: nat)
    requires SameTail(list, later, k) && 0 < k && AtCursor(later, k, Some(node))
    ensures list[|list| - k] == node && list[..|list| - (k - 1)][..|list| - k] == list[..|list| - k]
  {
    assert list[|list| - k..][0] == later[|later| - k..][0];
  }

  /** A callback that carries out no plan changes nothing. */
  lemma CalledKeeps(plans: seq<Plan>, w: Walk, c: Call)
    ensures plans == [] ==> Called(plans, w, c).s == w.s
    ensures Called(plans, w, c).progress == w.progress
  {
  }

  /** Handlers of other descriptors are as they were. */
  ghost predicate OthersLive(nodes: map<nat, Handler>, nodes': map<nat, Handler>, fd: int)
  {
    && (forall x :: x in nodes && nodes[x].fd != fd ==> x in nodes' && nodes'[x] == nodes[x])
    && (forall x :: x in nodes' && nodes'[x].fd != fd ==> x in nodes)
  }

  /** The descriptor has the callbacks it was given; none means no live handler. */
  ghost predicate HandlerSet(nodes: map<nat, Handler>, fd: int, canRead: bool, canWrite: bool)
  {
    if canRead || canWrite then
      exists x :: x in nodes && nodes[x].fd == fd && !nodes[x].deleted
                  && nodes[x].canRead == canRead && nodes[x].canWrite == canWrite
    else forall x :: x in nodes && nodes[x].fd == fd ==> nodes[x].deleted
  }

  lemma FdSetLater(s: Snapshot, fd: int, canRead: bool, canWrite: bool, notifier: bool)
    requires (forall x :: x in s.handlers <==> x in s.nodes) && (forall x :: x in s.nodes ==> x < s.nextId)
    ensures Later(s, FdSet(s, fd, canRead, canWrite, notifier))
  {
    hide LiveHandler, Without;
  }

  lemma FdSetOthers(s: Snapshot, fd: int, canRead: bool, canWrite: bool, notifier: bool)
    requires (forall x :: x in s.handlers <==> x in s.nodes) && (forall x :: x in s.nodes ==> x < s.nextId)
    ensures OthersLive(s.nodes, FdSet(s, fd, canRead, canWrite, notifier).nodes, fd)
  {
    hide LiveHandler, Without;
  }

  lemma FdSetSets(s: Snapshot, fd: int, canRead: bool, canWrite: bool, notifier: bool)
    requires (forall x :: x in s.handlers <==> x in s.nodes) && OnePerFd(s.nodes)
    ensures HandlerSet(FdSet(s, fd, canRead, canWrite, notifier).nodes, fd, canRead, canWrite)
  {
    hide LiveHandler, Without;
    var s' := FdSet(s, fd, canRead, canWrite, notifier);
    var node := LiveHandler(s.handlers, s.nodes, fd);
    if canRead || canWrite {
      var x := if node.Some? then node.value else s.nextId;
      assert x in s'.nodes && s'.nodes[x].fd == fd;
    }
  }

  /** Handlers differ in what poll() has reported at most. */
  ghost predicate SameButRevents(nodes: map<nat, Handler>, nodes': map<nat, Handler>)
  {
    && (forall x :: x in nodes' <==> x in nodes)
    && (forall x :: x in nodes ==> nodes'[x] == nodes[x].(revents := nodes'[x].revents))
  }

  lemma ReventsKeep(s: Snapshot, nodes': map<nat, Handler>)
    requires Linked(s.handlers, s.nodes, s.nextId) && OnePerFd(s.nodes) && SameButRevents(s.nodes, nodes')
    ensures Linked(s.handlers, nodes', s.nextId) && OnePerFd(nodes') && Later(s, s.(nodes := nodes'))
  {
  }

  /** The handlers in `seen` have been told what poll() has reported. */
  ghost predicate Collected(nodes: map<nat, Handler>, nodes': map<nat, Handler>, seen: seq<nat>,
                            ready: map<int, Events>)
  {
    && (forall x :: x in nodes' <==> x in nodes)
    && (forall x :: x in nodes ==> nodes'[x] == if x in seen then Told(nodes[x], ready) else nodes[x])
  }

  lemma CollectedNone(nodes: map<nat, Handler>, ready: map<int, Events>)
    ensures Collected(nodes, nodes, [], ready)
  {
  }

  lemma CollectedNext(nodes: map<nat, Handler>, nodes': map<nat, Handler>, seen: seq<nat>, x: nat,
                      ready: map<int, Events>)
    requires Collected(nodes, nodes', seen, ready) && x in nodes
    ensures x in nodes' && nodes'[x].fd == nodes[x].fd && nodes'[x].deleted == nodes[x].deleted
    ensures nodes[x].deleted ==> Collected(nodes, nodes', seen + [x], ready)
    ensures !nodes[x].deleted ==>
              Collected(nodes, nodes'[x := nodes'[x].(revents := EventsOf(ready, nodes[x].fd))], seen + [x], ready)
  {
  }

  lemma CollectedAll(s: Snapshot, nodes': map<nat, Handler>, ready: map<int, Events>)
    requires Collected(s.nodes, nodes', s.handlers, ready) && SomeReady(s.nodes, ready)
    requires forall x :: x in s.handlers <==> x in s.nodes
    ensures s.(nodes := nodes') == Reported(s, ready) && SameButRevents(s.nodes, nodes')
  {
    hide SomeReady;
    assert nodes' == Reported(s, ready).nodes;
  }

  /** The array for poll() has an entry for each handler that is not deleted. */
  ghost predicate SlotsOk(nodes: map<nat, Handler>, pollfds: seq<int>, slots: map<nat, nat>)
  {
    && (forall x :: x in slots <==> x in nodes && !nodes[x].deleted)
    && (forall x :: x in slots ==> slots[x] < |pollfds| && pollfds[slots[x]] == nodes[x].fd)
  }

  /** Nothing to run. */
  predicate Quiet(bh: Bh)
  {
    bh.scheduled ==> bh.deleted
  }

  /** Nothing to run before the last k bottom halves. */
  ghost predicate QuietBefore(list: seq<nat>, bhs: map<nat, Bh>, k: nat)
  {
    forall i :: 0 <= i < |list| - k ==> list[i] in bhs && Quiet(bhs[list[i]])
  }

  class Context {
    var bhList: seq<nat>
    var bhs: map<nat, Bh>
    var walkingBh: nat
    var handlers: seq<nat>
    var nodes: map<nat, Handler>
    var walkingHandlers: nat
    var nextId: nat

    ghost predicate Valid()
      reads this
    {
      Linked(bhList, bhs, nextId) && Linked(handlers, nodes, nextId) && OnePerFd(nodes)
    }

    ghost function Now(): Snapshot
      reads this
    {
      Snapshot(bhList, bhs, handlers, nodes, walkingBh, walkingHandlers, nextId)
    }

    constructor ()
      ensures Valid() && Now() == Snapshot([], map[], [], map[], 0, 0, 0)
    {
      bhList, bhs, walkingBh := [], map[], 0;
      handlers, nodes, walkingHandlers, nextId := [], map[], 0, 0;
    }

    // ---------- what callbacks can do ----------

    /** aio_bh_new. */
    method AddBh()
      requires Valid()
      modifies `bhList, `bhs, `nextId
      ensures Valid() && Now() == AddedBh(old(Now())) && Later(old(Now()), Now())
    {
      hide Linked;
      LinkedNew(bhList, bhs, nextId, Bh(false, false, false));
      LinkedMore(handlers, nodes, nextId);
      bhList := [nextId] + bhList;
      bhs := bhs[nextId := Bh(false, false, false)];
      nextId := nextId + 1;
    }

    /** qemu_bh_schedule and qemu_bh_schedule_idle. */
    method ScheduleBh(b: nat, idle: bool)
      requires Valid()
      modifies `bhs
      ensures Valid() && Now() == Scheduled(old(Now()), b, idle) && Later(old(Now()), Now())
    {
      if b in bhs && !bhs[b].scheduled {
        bhs := bhs[b := Bh(true, idle, bhs[b].deleted)];
      }
    }

    /** qemu_bh_cancel and qemu_bh_delete. */
    method CancelBh(b: nat, delete: bool)
      requires Valid()
      modifies `bhs
      ensures Valid() && Now() == Cancelled(old(Now()), b, delete) && Later(old(Now()), Now())
    {
      if b in bhs {
        bhs := bhs[b := Bh(false, bhs[b].idle, bhs[b].deleted || delete)];
      }
    }

    /** find_aio_handler. */
    method FindHandler(fd: int) returns (node: Option<nat>)
      requires Valid()
      ensures node == LiveHandler(handlers, nodes, fd)
    {
      var i := 0;
      assert handlers[0..] == handlers;
      while i < |handlers|
        invariant 0 <= i <= |handlers|
        invariant LiveHandler(handlers, nodes, fd) == LiveHandler(handlers[i..], nodes, fd)
      {
        var x := handlers[i];
        assert handlers[i..][1..] == handlers[i + 1..];
        if nodes[x].fd == fd && !nodes[x].deleted { return Some(x); }
        i := i + 1;
      }
      node := None;
    }

    /** Unlinks and frees a handler. */
    method FreeHandler(x: nat)
      requires Valid() && x in nodes
      modifies `handlers, `nodes
      ensures Valid() && Now() == Freed(old(Now()), x)
    {
      WithoutDistinct(handlers, x);
      handlers := Without(handlers, x);
      nodes := nodes - {x};
    }

    method AddHandler(h: Handler)
      requires Valid() && forall x :: x in nodes && nodes[x].fd == h.fd ==> nodes[x].deleted
      modifies `handlers, `nodes, `nextId
      ensures Valid() && handlers == [old(nextId)] + old(handlers) && nextId == old(nextId) + 1
      ensures nodes == old(nodes)[old(nextId) := h] && Grown(old(handlers), handlers) && old(nextId) !in old(nodes)
    {
      assert nextId !in nodes;
      hide Linked, Grown;
      LinkedNew(handlers, nodes, nextId, h);
      LinkedMore(bhList, bhs, nextId);
      handlers := [nextId] + handlers;
      nodes := nodes[nextId := h];
      nextId := nextId + 1;
    }

    /** A handler changes, but for its fd. */
    method SetNode(x: nat, h: Handler)
      requires Valid() && x in nodes && h.fd == nodes[x].fd && (nodes[x].deleted ==> h.deleted)
      modifies `nodes
      ensures Valid() && Now() == NodeSet(old(Now()), x, h) && Later(old(Now()), Now())
    {
      nodes := nodes[x := h];
    }

    /** aio_set_fd_handler: while a walk is going on, a handler is only marked. */
    method SetFd(fd: int, canRead: bool, canWrite: bool, notifier: bool)
      requires Valid()
      modifies `handlers, `nodes, `nextId
      ensures Valid() && Now() == FdSet(old(Now()), fd, canRead, canWrite, notifier) && Later(old(Now()), Now())
      ensures OthersLive(old(nodes), nodes, fd) && HandlerSet(nodes, fd, canRead, canWrite)
    {
      hide Linked, LiveHandler, OnePerFd, Later, OthersLive, HandlerSet, Without, Freed, NodeSet, Grown;
      var node := FindHandler(fd);
      InList();
      FdSetLater(Now(), fd, canRead, canWrite, notifier);
      FdSetOthers(Now(), fd, canRead, canWrite, notifier);
      FdSetSets(Now(), fd, canRead, canWrite, notifier);
      if !canRead && !canWrite {
        if node.Some? {
          if walkingHandlers > 0 {
            SetNode(node.value, nodes[node.value].(deleted := true, revents := NO_EVENTS));
          } else {
            FreeHandler(node.value);
          }
        }
      } else if node.None? {
        AddHandler(Handler(fd, canRead, canWrite, notifier, NO_EVENTS, false));
      } else {
        SetNode(node.value, nodes[node.value].(canRead := canRead, canWrite := canWrite, notifier := notifier));
      }
    }

    lemma InList()
      requires Valid()
      ensures (forall x :: x in handlers <==> x in nodes) && (forall x :: x in nodes ==> x < nextId)
    {
    }

    // ---------- callbacks and walks ----------

    /** A callback: whatever it does, a list that is being walked only grows at its head. */
    method Callback(plan: Plan)
      requires Valid()
      modifies this
      ensures Valid() && Later(old(Now()), Now()) && Now() == AfterAll(plan.actions, old(Now()))
      decreases Depth(plan), 2, 1
    {
      hide Valid, Later, After;
      ghost var w := Now();
      LaterNone(w);
      var i := 0;
      while i < |plan.actions|
        invariant 0 <= i <= |plan.actions| && Valid() && Later(w, Now()) && Now() == AfterAll(plan.actions[..i], w)
      {
        ghost var v := Now();
        DepthAt(plan.actions, i);
        Do(plan.actions[i]);
        LaterTwice(w, v, Now());
        assert plan.actions[..i + 1][..i] == plan.actions[..i];
        i := i + 1;
      }
      assert plan.actions[..i] == plan.actions;
    }

    method Do(a: Action)
      requires Valid()
      modifies this
      ensures Valid() && Later(old(Now()), Now()) && Now() == After(a, old(Now()))
      decreases ActionDepth(a), 1, 0
    {
      hide Valid, Later, Polled, FdSet;
      match a {
        case NewBh => AddBh();
        case ScheduleBh(b, idle) => ScheduleBh(b, idle);
        case CancelBh(b) => CancelBh(b, false);
        case DeleteBh(b) => CancelBh(b, true);
        case SetHandler(fd, canRead, canWrite, notifier) => SetFd(fd, canRead, canWrite, notifier);
        case Poll(plans, ready) => var progress, w := AioPoll(plans, ready);
      }
    }

    /** aio_poll: the n-th callback that it calls does what plans[n] says. */
    method AioPoll(plans: seq<Plan>, ready: map<int, Events>) returns (progress: bool, ghost w: Walk)
      requires Valid()
      modifies this
      ensures Valid() && Later(old(Now()), Now())
      ensures w == Polled(plans, ready, old(Now())) && Now() == w.s && progress == w.progress
      decreases PlansDepth(plans), 9, 0
    {
      hide Valid, Later, Reported, PolledBhs, WalkedHandlers;
      ghost var s0 := Now();
      Report(ready);
      ghost var s1 := Now();
      var used;
      used, progress, w := BhPoll(plans);
      ghost var s2 := Now();
      LaterTwice(s0, s1, s2);
      used, progress, w := WalkHandlers(plans, used, progress, w);
      LaterTwice(s0, s2, Now());
    }

    /** Fills the array for poll(): one entry for each handler that is not deleted. */
    method Fill(ready: map<int, Events>) returns (pollfds: seq<int>, slots: map<nat, nat>, any: bool)
      requires Valid()
      ensures SlotsOk(nodes, pollfds, slots) && (any <==> SomeReady(nodes, ready))
    {
      hide Linked, OnePerFd;
      InList();
      pollfds, slots, any := [], map[], false;
      var i := 0;
      while i < |handlers|
        invariant 0 <= i <= |handlers|
        invariant forall x :: x in slots <==> x in handlers[..i] && x in nodes && !nodes[x].deleted
        invariant forall x :: x in slots ==> slots[x] < |pollfds| && pollfds[slots[x]] == nodes[x].fd
        invariant any <==> exists x :: x in slots && EventsOf(ready, nodes[x].fd) != NO_EVENTS
      {
        var x := handlers[i];
        assert handlers[..i + 1] == handlers[..i] + [x];
        if !nodes[x].deleted {
          slots := slots[x := |pollfds|];
          pollfds := pollfds + [nodes[x].fd];
          any := any || EventsOf(ready, nodes[x].fd) != NO_EVENTS;
          assert x in slots;
        }
        i := i + 1;
      }
      assert handlers[..i] == handlers;
    }

    /** Polls, and stores what poll() has reported with the handlers. */
    method Report(ready: map<int, Events>)
      requires Valid()
      modifies `nodes
      ensures Valid() && Later(old(Now()), Now()) && Now() == Reported(old(Now()), ready)
    {
      hide SomeReady, Linked, OnePerFd, Later, SameButRevents;
      ghost var s := Now();
      LaterNone(s);
      var pollfds, slots, any := Fill(ready);
      if any {
        Collect(ready, pollfds, slots);
        ReventsKeep(s, nodes);
      }
    }

    /** The loop that copies the reported events, by the slot of each handler. */
    method Collect(ready: map<int, Events>, pollfds: seq<int>, slots: map<nat, nat>)
      requires Valid() && SlotsOk(nodes, pollfds, slots) && SomeReady(nodes, ready)
      modifies `nodes
      ensures Now() == Reported(old(Now()), ready) && SameButRevents(old(nodes), nodes)
    {
      hide Linked, OnePerFd, SomeReady, Collected, SameButRevents;
      InList();
      ghost var s := Now();
      CollectedNone(nodes, ready);
      assert handlers[..0] == [];
      var i := 0;
      while i < |handlers|
        invariant 0 <= i <= |handlers| && Collected(s.nodes, nodes, handlers[..i], ready)
      {
        var x := handlers[i];
        assert handlers[..i + 1] == handlers[..i] + [x];
        CollectedNext(s.nodes, nodes, handlers[..i], x, ready);
        if x in slots {
          nodes := nodes[x := nodes[x].(revents := EventsOf(ready, pollfds[slots[x]]))];
        }
        i := i + 1;
      }
      assert handlers[..i] == handlers;
      CollectedAll(s, nodes, ready);
    }

    method RunNext(plans: seq<Plan>, used: nat, ghost w: Walk, ghost c: Call) returns (used': nat, ghost w': Walk)
      requires Valid() && w.s == Now() && w.used == used
      modifies this
      ensures Valid() && Later(old(Now()), Now())
      ensures w' == Called(plans, w, c) && w'.s == Now() && w'.used == used'
      decreases PlansDepth(plans), 3, 0
    {
      hide Valid, Later, AfterAll;
      used' := used;
      if used < |plans| {
        PlanAt(plans, used);
        Callback(plans[used]);
        used' := used + 1;
      } else {
        LaterNone(Now());
      }
      w' := Called(plans, w, c);
    }

    /** aio_bh_poll: every pointer it follows is to a linked node; when the outermost walk ends, no
        deleted bottom half is left; and if callbacks do nothing, none is left to run. */
    method BhPoll(plans: seq<Plan>) returns (used: nat, progress: bool, ghost w: Walk)
      requires Valid()
      modifies this
      ensures Valid() && Later(old(Now()), Now())
      ensures w == PolledBhs(plans, Walk(old(Now()), 0, false, []))
      ensures w.s == Now() && w.used == used && w.progress == progress
      ensures old(walkingBh) == 0 ==> forall b :: b in bhs ==> !bhs[b].deleted
      ensures plans == [] ==> forall b :: b in bhs ==> Quiet(bhs[b])
      decreases PlansDepth(plans), 6, 0
    {
      hide WalkedBhs, Kept;
      ghost var before := Now();
      walkingBh := walkingBh + 1;
      used, progress, w := WalkBhs(plans);
      walkingBh := walkingBh - 1;
      if walkingBh == 0 {
        Reap();
      }
      w := w.(s := Now());
    }

    /** The walk itself. */
    method WalkBhs(plans: seq<Plan>) returns (used: nat, progress: bool, ghost w: Walk)
      requires Valid() && walkingBh > 0
      modifies this
      ensures Valid() && Later(old(Now()), Now())
      ensures w == WalkedBhs(plans, Walk(old(Now()), 0, false, []), old(bhList))
      ensures w.s == Now() && w.used == used && w.progress == progress
      ensures plans == [] ==> forall b :: b in bhs ==> Quiet(bhs[b])
      decreases PlansDepth(plans), 5, 0
    {
      hide Later, Distinct, VisitedBh, Linked, OnePerFd, Quiet, WalkedBhs, PlansDepth;
      ghost var s0, list := Now(), bhList;
      LaterNone(s0);
      ghost var k: nat := |bhList|;
      var bh := if bhList == [] then None else Some(bhList[0]);
      used, progress, w := 0, false, Walk(s0, 0, false, []);
      BhsNext(plans, w, list, 0);
      while bh.Some?
        invariant Valid() && Later(s0, Now()) && walkingBh > 0 && AtCursor(bhList, k, bh) && k <= |list|
        invariant w == WalkedBhs(plans, Walk(s0, 0, false, []), list[..|list| - k])
        invariant w.s == Now() && w.used == used && w.progress == progress
        invariant plans == [] ==> QuietBefore(bhList, bhs, k)
        decreases k
      {
        ghost var v := Now();
        CursorIs(s0, v, list, k, bh.value);
        BhsNext(plans, Walk(s0, 0, false, []), list, |list| - k);
        bh, used, progress, w := VisitBh(bh.value, plans, used, progress, w, k);
        LaterTwice(s0, v, Now());
        k := k - 1;
      }
      assert list[..|list| - k] == list;
      if plans == [] { AllQuiet(); }
    }

    lemma AllQuiet()
      requires Valid() && QuietBefore(bhList, bhs, 0)
      ensures forall b :: b in bhs ==> Quiet(bhs[b])
    {
    }

    /** One bottom half of the walk: called if it is scheduled and not deleted. */
    method VisitBh(b: nat, plans: seq<Plan>, used0: nat, progress0: bool, ghost w0: Walk, ghost k: nat)
      returns (next: Option<nat>, used: nat, progress: bool, ghost w: Walk)
      requires Valid() && walkingBh > 0 && 0 < k && AtCursor(bhList, k, Some(b))
      requires w0.s == Now() && w0.used == used0 && w0.progress == progress0
      modifies this
      ensures Valid() && Later(old(Now()), Now()) && AtCursor(bhList, k - 1, next) && walkingBh > 0
      ensures w == VisitedBh(plans, w0, b) && w.s == Now() && w.used == used && w.progress == progress
      ensures plans == [] && old(QuietBefore(bhList, bhs, k)) ==> QuietBefore(bhList, bhs, k - 1)
      decreases PlansDepth(plans), 4, 0
    {
      hide Later, Called, Linked, OnePerFd, Distinct;
      ghost var v := Now();
      LaterNone(v);
      BhInMap(b, k);
      next := NextOf(bhList, b, k);
      used, progress, w := used0, progress0, w0;
      if !bhs[b].deleted && bhs[b].scheduled {
        if !bhs[b].idle { progress := true; }
        ClearBh(b);
        ghost var u := Now();
        ghost var before := w.(s := u, progress := progress);
        used, w := RunNext(plans, used, before, BhCall(b));
        CalledKeeps(plans, before, BhCall(b));
        LaterTwice(v, u, Now());
        CursorStays(u, Now(), k - 1, next);
      }
    }

    lemma BhInMap(b: nat, k: nat)
      requires Valid() && 0 < k && AtCursor(bhList, k, Some(b))
      ensures b in bhs && Distinct(bhList)
    {
    }

    method ClearBh(b: nat)
      requires Valid() && b in bhs && !bhs[b].deleted
      modifies `bhs
      ensures Valid() && Now() == BhSet(old(Now()), b, Bh(false, false, false)) && Later(old(Now()), Now())
    {
      bhs := bhs[b := Bh(false, false, false)];
    }

    /** Frees the deleted bottom halves. */
    method Reap()
      requires Valid()
      modifies `bhList, `bhs
      ensures Valid() && Now() == Reaped(old(Now())) && forall b :: b in bhs ==> !bhs[b].deleted
      ensures forall b :: b in old(bhs) && !old(bhs)[b].deleted ==> b in bhs
      ensures forall b :: b in bhs ==> b in old(bhs) && bhs[b] == old(bhs)[b]
    {
      KeptDistinct(bhList, bhs);
      bhList := Kept(bhList, bhs);
      bhs := map b | b in bhs && !bhs[b].deleted :: bhs[b];
    }

    /** The handlers' walk of aio_dispatch.  At the end of an outermost one, no handler is left that
        was marked deleted when it began. */
    method WalkHandlers(plans: seq<Plan>, used0: nat, progress0: bool, ghost w0: Walk)
      returns (used: nat, progress: bool, ghost w: Walk)
      requires Valid() && w0.s == Now() && w0.used == used0 && w0.progress == progress0
      modifies this
      ensures Valid() && Later(old(Now()), Now())
      ensures w == WalkedHandlers(plans, w0, old(handlers))
      ensures w.s == Now() && w.used == used && w.progress == progress
      ensures old(walkingHandlers) == 0 ==> forall x :: x in old(nodes) && old(nodes)[x].deleted ==> x !in nodes
      decreases PlansDepth(plans), 7, 0
    {
      hide Valid, Later, VisitedHandler, Left, SameTail, WalkedHandlers, PlansDepth;
      ghost var s0, list, doomed := Now(), handlers, set x | x in nodes && nodes[x].deleted;
      LaterNone(s0);
      DoomedAtStart(doomed);
      TailNone(handlers);
      ghost var k: nat := |handlers|;
      var node := if handlers == [] then None else Some(handlers[0]);
      used, progress, w := used0, progress0, w0;
      HandlersNext(plans, w0, list, 0);
      while node.Some?
        invariant Valid() && Later(s0, Now()) && walkingHandlers == s0.walkingHandlers && AtCursor(handlers, k, node)
        invariant (walkingHandlers == 0 ==> Left(doomed, Now(), k)) && forall x :: x in doomed ==> x < nextId
        invariant SameTail(list, handlers, k) && w == WalkedHandlers(plans, w0, list[..|list| - k])
        invariant w.s == Now() && w.used == used && w.progress == progress
        decreases k
      {
        ghost var v := Now();
        TailIs(list, handlers, k, node.value);
        HandlersNext(plans, w0, list, |list| - k);
        node, used, progress, w := Visit(node.value, plans, used, progress, w, doomed, k);
        TailAgain(list, v.handlers, handlers, k);
        LaterTwice(s0, v, Now());
        k := k - 1;
      }
      assert list[..|list| - k] == list;
      if walkingHandlers == 0 { NoneLeft(doomed, Now()); }
    }

    lemma DoomedAtStart(doomed: set<nat>)
      requires Valid() && forall x :: x in doomed ==> x in nodes && nodes[x].deleted
      ensures Left(doomed, Now(), |handlers|) && forall x :: x in doomed ==> x < nextId
    {
      assert handlers[|handlers| - |handlers|..] == handlers;
    }

    /** One node of the walk: its callbacks, the next pointer, and then perhaps its end. */
    method Visit(node: nat, plans: seq<Plan>, used0: nat, progress0: bool, ghost w0: Walk, ghost doomed: set<nat>,
                 ghost k: nat)
      returns (next: Option<nat>, used: nat, progress: bool, ghost w: Walk)
      requires Valid() && 0 < k && AtCursor(handlers, k, Some(node))
      requires walkingHandlers == 0 ==> Left(doomed, Now(), k)
      requires w0.s == Now() && w0.used == used0 && w0.progress == progress0
      requires forall x :: x in doomed ==> x < nextId
      modifies this
      ensures Valid() && Later(old(Now()), Now()) && AtCursor(handlers, k - 1, next) && nextId >= old(nextId)
      ensures walkingHandlers == 0 ==> Left(doomed, Now(), k - 1)
      ensures SameTail(old(handlers), handlers, k - 1)
      ensures w == VisitedHandler(plans, w0, node) && w.s == Now() && w.used == used && w.progress == progress
      decreases PlansDepth(plans), 6, 0
    {
      hide Left, Linked, OnePerFd, ServedRead, ServedWrite, Later, Distinct, Without, SameTail;
      InMap(node, k);
      ghost var s0 := Now();
      walkingHandlers := walkingHandlers + 1;
      ghost var start := Now();
      var seen := Seen(nodes[node]);
      SetNode(node, nodes[node].(revents := NO_EVENTS));
      ghost var cleared := Now();
      used, progress, w := Serve(node, seen, plans, used0, progress0, w0.(s := cleared), k);
      ghost var v := Now();
      LaterTwice(start, cleared, v);
      InMap(node, k);
      next := NextOf(handlers, node, k);
      VisitKept(s0, v, node, k, doomed);
      walkingHandlers := walkingHandlers - 1;
      if walkingHandlers == 0 && nodes[node].deleted {
        VisitFreed(s0, Now(), node, k, doomed, next);
        FreeHandler(node);
      }
      w := w.(s := Now());
    }

    lemma InMap(node: nat, k: nat)
      requires Valid() && 0 < k && AtCursor(handlers, k, Some(node))
      ensures node in nodes && Distinct(handlers)
    {
    }

    /** The read and the write callback of a node, if it is ready and not deleted. */
    method Serve(node: nat, e: Events, plans: seq<Plan>, used0: nat, progress0: bool, ghost w0: Walk, ghost k: nat)
      returns (used: nat, progress: bool, ghost w: Walk)
      requires Valid() && walkingHandlers > 0 && 0 < k && AtCursor(handlers, k, Some(node))
      requires w0.s == Now() && w0.used == used0 && w0.progress == progress0
      modifies this
      ensures Valid() && Later(old(Now()), Now()) && AtCursor(handlers, k, Some(node))
      ensures w == ServedWrite(plans, ServedRead(plans, w0, node, e), node, e)
      ensures w.s == Now() && w.used == used && w.progress == progress
      decreases PlansDepth(plans), 4, 0
    {
      hide Later, Called, Linked, OnePerFd, Distinct;
      ghost var s0 := Now();
      LaterNone(s0);
      used, progress, w := used0, progress0, w0;
      InMap(node, k);
      if !nodes[node].deleted && (e.input || e.hangup || e.error) && nodes[node].canRead {
        used, w := RunNext(plans, used, w, ReadCall(node));
        CalledKeeps(plans, w0, ReadCall(node));
        HandlerStays(s0, Now(), k, node);
        InMap(node, k);
        if !nodes[node].notifier { progress := true; }
        w := w.(progress := progress);
      }
      ghost var v, w1 := Now(), w;
      if !nodes[node].deleted && (e.output || e.error) && nodes[node].canWrite {
        progress := true;
        used, w := RunNext(plans, used, w.(progress := true), WriteCall(node));
        CalledKeeps(plans, w1.(progress := true), WriteCall(node));
        HandlerStays(v, Now(), k, node);
        LaterTwice(s0, v, Now());
      }
    }
  }
}
