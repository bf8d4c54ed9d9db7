/**
 What the callers of a poll can rely on: who is called, in which order, and how often.
 */
module CallbackLaws {
  import opened Basics
  import opened Callbacks

  function Min(a: nat, b: nat): (m: nat)
  {
    if a < b then a else b
  }

  // ---------- the n-th call carries out the n-th plan ----------

  predicate UsedOk(plans: seq<Plan>, w: Walk)
  {
    w.used == Min(|w.calls|, |plans|)
  }

  /** A call is noted, and carries out the plan of its number if there is one. */
  lemma CallIs(plans: seq<Plan>, w: Walk, c: Call)
    requires UsedOk(plans, w)
    ensures var w' := Called(plans, w, c); var n := |w.calls|;
            && UsedOk(plans, w') && w'.calls == w.calls + [c] && w'.progress == w.progress
            && w'.s == if n < |plans| then AfterAll(plans[n].actions, w.s) else w.s
  {
    hide AfterAll;
  }

  lemma {:induction false} BhsUse(plans: seq<Plan>, w: Walk, list: seq<nat>)
    requires UsedOk(plans, w)
    ensures UsedOk(plans, WalkedBhs(plans, w, list))
  {
    hide Called;
    if list != [] {
      var front, b := list[..|list| - 1], list[|list| - 1];
      BhsUse(plans, w, front);
      var w1 := WalkedBhs(plans, w, front);
      if b in w1.s.bhs && Ready(w1.s.bhs[b]) {
        CallIs(plans, w1.(s := BhSet(w1.s, b, Bh(false, false, false)), progress := w1.progress || !w1.s.bhs[b].idle),
          BhCall(b));
      }
    }
  }

  lemma ReadUses(plans: seq<Plan>, w: Walk, x: nat, e: Events)
    requires UsedOk(plans, w)
    ensures UsedOk(plans, ServedRead(plans, w, x, e))
  {
    hide Called;
    CallIs(plans, w, ReadCall(x));
  }

  lemma WriteUses(plans: seq<Plan>, w: Walk, x: nat, e: Events)
    requires UsedOk(plans, w)
    ensures UsedOk(plans, ServedWrite(plans, w, x, e))
  {
    hide Called;
    CallIs(plans, w.(progress := true), WriteCall(x));
  }

  lemma {:induction false} HandlersUse(plans: seq<Plan>, w: Walk, list: seq<nat>)
    requires UsedOk(plans, w)
    ensures UsedOk(plans, WalkedHandlers(plans, w, list))
  {
    hide ServedRead, ServedWrite;
    if list != [] {
      var front, x := list[..|list| - 1], list[|list| - 1];
      HandlersUse(plans, w, front);
      var w1 := WalkedHandlers(plans, w, front);
      if x in w1.s.nodes {
        var h := w1.s.nodes[x];
        var s1 := NodeSet(w1.s, x, h.(revents := NO_EVENTS)).(walkingHandlers := w1.s.walkingHandlers + 1);
        ReadUses(plans, w1.(s := s1), x, Seen(h));
        WriteUses(plans, ServedRead(plans, w1.(s := s1), x, Seen(h)), x, Seen(h));
      }
    }
  }

  /** A poll carries out as many plans as it calls callbacks, while there are plans. */
  lemma PollUses(plans: seq<Plan>, ready: map<int, Events>, s: Snapshot)
    ensures Polled(plans, ready, s).used == Min(|Polled(plans, ready, s).calls|, |plans|)
  {
    hide WalkedBhs, WalkedHandlers, Reported;
    var s1 := Reported(s, ready);
    BhsUse(plans, Walk(s1, 0, false, []).(s := s1.(walkingBh := s1.walkingBh + 1)), s1.bhList);
    var w1 := PolledBhs(plans, Walk(s1, 0, false, []));
    HandlersUse(plans, w1, w1.s.handlers);
  }

  // ---------- who is called ----------

  /** Calls of some of the bottom halves in the list, each once and in its order. */
  ghost predicate InOrder(calls: seq<Call>, list: seq<nat>)
    decreases |list|
  {
    if calls == [] then true
    else if list == [] then false
    else
      var n := |list| - 1;
      if calls[|calls| - 1] == BhCall(list[n]) then InOrder(calls[..|calls| - 1], list[..n])
      else InOrder(calls, list[..n])
  }

  lemma {:induction false} InOrderMembers(calls: seq<Call>, list: seq<nat>, b: nat)
    requires InOrder(calls, list) && b !in list
    ensures BhCall(b) !in calls
    decreases |list|
  {
    if calls != [] {
      var n := |list| - 1;
      if calls[|calls| - 1] == BhCall(list[n]) {
        InOrderMembers(calls[..|calls| - 1], list[..n], b);
      } else {
        InOrderMembers(calls, list[..n], b);
      }
    }
  }

  /** What the walk has called since w. */
  function Since(w: Walk, w': Walk): (calls: seq<Call>)
    requires |w.calls| <= |w'.calls|
  {
    w'.calls[|w.calls|..]
  }

  lemma VisitCalls(plans: seq<Plan>, w: Walk, b: nat)
    ensures VisitedBh(plans, w, b).calls ==
            w.calls + if b in w.s.bhs && Ready(w.s.bhs[b]) then [BhCall(b)] else []
  {
    hide AfterAll;
  }

  /** Bottom halves are called in the order of the list, each at most once in a walk. */
  lemma {:induction false} BhsInOrder(plans: seq<Plan>, w: Walk, list: seq<nat>)
    ensures w.calls <= WalkedBhs(plans, w, list).calls
    ensures InOrder(Since(w, WalkedBhs(plans, w, list)), list)
  {
    hide VisitedBh;
    if list != [] {
      var front, b := list[..|list| - 1], list[|list| - 1];
      var w1 := WalkedBhs(plans, w, front);
      BhsInOrder(plans, w, front);
      VisitCalls(plans, w1, b);
      var w2 := VisitedBh(plans, w1, b);
      assert w2 == WalkedBhs(plans, w, list);
      if b in w1.s.bhs && Ready(w1.s.bhs[b]) {
        assert Since(w, w2) == Since(w, w1) + [BhCall(b)];
        assert Since(w, w2)[..|Since(w, w1)|] == Since(w, w1);
      } else {
        assert Since(w, w2) == Since(w, w1);
        InOrderMore(Since(w, w1), list);
      }
    }
  }

  lemma {:induction false} InOrderMore(calls: seq<Call>, list: seq<nat>)
    requires list != [] && InOrder(calls, list[..|list| - 1])
    ensures InOrder(calls, list)
    decreases |list|, 0
  {
    var front, b := list[..|list| - 1], list[|list| - 1];
    if calls != [] && calls[|calls| - 1] == BhCall(b) {
      InOrderLess(calls, front);
    }
  }

  lemma {:induction false} InOrderLess(calls: seq<Call>, list: seq<nat>)
    requires calls != [] && InOrder(calls, list)
    ensures InOrder(calls[..|calls| - 1], list)
    decreases |list|, 1
  {
    var n := |list| - 1;
    if calls[|calls| - 1] == BhCall(list[n]) {
      InOrderMore(calls[..|calls| - 1], list);
    } else {
      InOrderLess(calls, list[..n]);
      InOrderMore(calls[..|calls| - 1], list);
    }
  }

  /** A bottom half is called if and only if it is scheduled and not deleted when the walk comes to it. */
  lemma {:induction false} CalledWhenReached(plans: seq<Plan>, w: Walk, list: seq<nat>, i: nat)
    requires Distinct(list) && i < |list|
    ensures w.calls <= WalkedBhs(plans, w, list).calls
    ensures var m := WalkedBhs(plans, w, list[..i]);
            BhCall(list[i]) in Since(w, WalkedBhs(plans, w, list)) <==>
              list[i] in m.s.bhs && Ready(m.s.bhs[list[i]])
    decreases |list|
  {
    hide VisitedBh;
    var n := |list| - 1;
    var front, b := list[..n], list[n];
    var w1 := WalkedBhs(plans, w, front);
    BhsInOrder(plans, w, list);
    BhsInOrder(plans, w, front);
    VisitCalls(plans, w1, b);
    var w2 := VisitedBh(plans, w1, b);
    assert Since(w, w2) == Since(w, w1) + w2.calls[|w1.calls|..];
    if i < n {
      CalledWhenReached(plans, w, front, i);
      assert front[..i] == list[..i];
    } else {
      InOrderMembers(Since(w, w1), front, b);
      assert front == list[..i];
    }
  }

  // ---------- callbacks that do nothing ----------

  /** The bottom halves of a list that are ready. */
  function ReadyCalls(list: seq<nat>, bhs: map<nat, Bh>): (calls: seq<Call>)
  {
    if list == [] then []
    else
      var n := |list| - 1;
      ReadyCalls(list[..n], bhs) + if list[n] in bhs && Ready(bhs[list[n]]) then [BhCall(list[n])] else []
  }

  /** If callbacks do nothing, exactly the bottom halves that are ready at first are called, and none of
      them is scheduled any more. */
  lemma {:induction false} AllReadyCalled(w: Walk, list: seq<nat>)
    requires Distinct(list)
    ensures var w' := WalkedBhs([], w, list);
            && w'.calls == w.calls + ReadyCalls(list, w.s.bhs)
            && w'.s == w.s.(bhs := w'.s.bhs) && w'.s.bhs.Keys == w.s.bhs.Keys
            && forall b :: b in w.s.bhs ==>
                 w'.s.bhs[b] == if b in list && Ready(w.s.bhs[b]) then Bh(false, false, false) else w.s.bhs[b]
  {
    if list != [] {
      var n := |list| - 1;
      AllReadyCalled(w, list[..n]);
      assert list[n] !in list[..n];
      assert forall b :: b in list <==> b in list[..n] || b == list[n];
    }
  }

  /** What a handler is called for, given what has been reported. */
  function HandlerCalls(x: nat, h: Handler): (calls: seq<Call>)
  {
    if h.deleted then []
    else
      (if h.canRead && (h.revents.input || h.revents.hangup || h.revents.error) then [ReadCall(x)] else []) +
      (if h.canWrite && (h.revents.output || h.revents.error) then [WriteCall(x)] else [])
  }

  function AllHandlerCalls(list: seq<nat>, nodes: map<nat, Handler>): (calls: seq<Call>)
  {
    if list == [] then []
    else
      var n := |list| - 1;
      AllHandlerCalls(list[..n], nodes) + if list[n] in nodes then HandlerCalls(list[n], nodes[list[n]]) else []
  }

  lemma ServedQuietly(w: Walk, x: nat, h: Handler)
    requires x in w.s.nodes && w.s.nodes[x] == h.(revents := NO_EVENTS)
    ensures var w' := ServedWrite([], ServedRead([], w, x, Seen(h)), x, Seen(h));
            w'.s == w.s && w'.calls == w.calls + HandlerCalls(x, h)
  {
    hide Called;
    CalledQuietly(w, ReadCall(x));
    var w1 := ServedRead([], w, x, Seen(h));
    CalledQuietly(w1.(progress := true), WriteCall(x));
  }

  lemma CalledQuietly(w: Walk, c: Call)
    ensures Called([], w, c) == w.(calls := w.calls + [c])
  {
  }

  lemma VisitQuietly(w: Walk, x: nat)
    requires x in w.s.nodes
    ensures var w' := VisitedHandler([], w, x);
            && w'.calls == w.calls + HandlerCalls(x, w.s.nodes[x]) && w'.s.walkingHandlers == w.s.walkingHandlers
            && (forall y :: y != x ==> (y in w'.s.nodes <==> y in w.s.nodes))
            && (forall y :: y != x && y in w.s.nodes ==> w'.s.nodes[y] == w.s.nodes[y])
            && (if w.s.nodes[x].deleted && w.s.walkingHandlers == 0 then x !in w'.s.nodes
                else x in w'.s.nodes && w'.s.nodes[x] == w.s.nodes[x].(revents := NO_EVENTS))
  {
    hide Without, ServedRead, ServedWrite, HandlerCalls;
    var h := w.s.nodes[x];
    var s1 := NodeSet(w.s, x, h.(revents := NO_EVENTS)).(walkingHandlers := w.s.walkingHandlers + 1);
    ServedQuietly(w.(s := s1), x, h);
  }

  /** If callbacks do nothing, every handler is called for exactly the events that were reported and that
      it has asked for; no report is left over, and an outermost walk frees what is deleted. */
  lemma {:induction false} AllHandlersCalled(w: Walk, list: seq<nat>)
    requires Distinct(list) && forall x :: x in list ==> x in w.s.nodes
    ensures var w' := WalkedHandlers([], w, list);
            && w'.calls == w.calls + AllHandlerCalls(list, w.s.nodes) && w'.s.walkingHandlers == w.s.walkingHandlers
            && (forall x :: x in w.s.nodes && x !in list ==> x in w'.s.nodes && w'.s.nodes[x] == w.s.nodes[x])
            && (forall x :: x in list ==>
                  if w.s.nodes[x].deleted && w.s.walkingHandlers == 0 then x !in w'.s.nodes
                  else x in w'.s.nodes && w'.s.nodes[x] == w.s.nodes[x].(revents := NO_EVENTS))
  {
    hide VisitedHandler, HandlerCalls;
    if list != [] {
      var n := |list| - 1;
      AllHandlersCalled(w, list[..n]);
      assert list[n] !in list[..n] && list[n] in list;
      assert forall x :: x in list <==> x in list[..n] || x == list[n];
      VisitQuietly(WalkedHandlers([], w, list[..n]), list[n]);
    }
  }
}
