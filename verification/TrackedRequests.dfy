/**
 Tracked requests of a block device.  Each request is a coroutine; between two yields it runs
 alone.  A yield is a wait for another request, or I/O of the driver.  A step of the model is
 what one coroutine does from one yield to the next.
 */
module TrackedRequests {
  import opened Rounding
  import opened Basics

  /** What bdrv_co_do_pwritev or bdrv_co_do_preadv is called for; a read is padded before it is
      tracked, and `copy` is the cluster size if it copies on read. */
  datatype Kind =
    | Write(offset: nat, bytes: nat, align: nat)
    | Read(offset: nat, bytes: nat, copy: Option<nat>)

  predicate KindOk(k: Kind)
  {
    match k
    case Write(_, _, align) => align > 0
    case Read(_, _, copy) => copy.Some? ==> copy.value > 0
  }

  predicate Head(k: Kind)
    requires KindOk(k)
  {
    k.Write? && k.offset % k.align != 0
  }

  predicate Tail(k: Kind)
    requires KindOk(k)
  {
    k.Write? && (k.offset + k.bytes) % k.align != 0
  }

  /** Requests that call mark_request_serialising. */
  predicate Serialises(k: Kind)
    requires KindOk(k)
  {
    if k.Write? then Head(k) || Tail(k) else k.copy.Some?
  }

  function Grain(k: Kind): (align: nat)
    requires KindOk(k) && Serialises(k)
    ensures align > 0
  {
    if k.Write? then k.align else k.copy.value
  }

  /** Where a coroutine stands: waiting, or in I/O of the driver. */
  datatype Stage = HeadWait | HeadIo | TailWait | TailIo | WriteWait | WriteIo | ReadWait | ReadIo

  datatype Request = Request(kind: Kind, serialising: bool, overlapOffset: nat, overlapBytes: nat,
                             waitingFor: Option<nat>, stage: Stage)

  /** tracked_request_overlaps. */
  predicate Overlaps(r: Request, offset: nat, bytes: nat)
  {
    if offset >= r.overlapOffset + r.overlapBytes then false
    else if r.overlapOffset >= offset + bytes then false
    else true
  }

  predicate Conflict(r: Request, s: Request)
  {
    (r.serialising || s.serialising) && Overlaps(r, s.overlapOffset, s.overlapBytes)
  }

  lemma ConflictSymmetric(r: Request, s: Request)
    ensures Conflict(r, s) <==> Conflict(s, r)
  {
  }

  type Requests = map<nat, Request>

  /** Past its wait, at a yield. */
  predicate Past(reqs: Requests, a: nat)
  {
    a in reqs && reqs[a].waitingFor.None?
  }

  /** The first wait of a request. */
  function First(k: Kind): (stage: Stage)
    requires KindOk(k)
  {
    if k.Read? then ReadWait else if Head(k) then HeadWait else if Tail(k) then TailWait else WriteWait
  }

  /** The I/O that follows the first wait. */
  function FirstIo(k: Kind): (stage: Stage)
    requires KindOk(k)
  {
    if k.Read? then ReadIo else if Head(k) then HeadIo else if Tail(k) then TailIo else WriteIo
  }

  /** The I/O that follows I/O, None at the end of a request. */
  function AfterIo(r: Request): (stage: Option<Stage>)
    requires KindOk(r.kind)
  {
    if r.stage == HeadIo && Tail(r.kind) then Some(TailIo)
    else if r.stage == HeadIo || r.stage == TailIo then Some(WriteIo)
    else None
  }

  /** What a request carries at every yield: once marked it covers whole grains, and it is
      waiting just in its first wait. */
  ghost predicate Formed(r: Request)
  {
    && Marked(r)
    && (r.waitingFor.Some? ==> r.stage == First(r.kind))
    && (r.waitingFor.None? ==> IoStage(r))
  }

  ghost predicate Marked(r: Request)
  {
    && KindOk(r.kind) && r.serialising == Serialises(r.kind)
    && if r.serialising then
         && r.overlapOffset == RoundDown(r.kind.offset, Grain(r.kind))
         && r.overlapOffset + r.overlapBytes == RoundUp(r.kind.offset + r.kind.bytes, Grain(r.kind))
       else
         r.overlapOffset == r.kind.offset && r.overlapBytes == r.kind.bytes
  }

  ghost predicate IoStage(r: Request)
    requires KindOk(r.kind)
  {
    if r.kind.Read? then r.stage == ReadIo
    else r.stage == WriteIo || (r.stage == HeadIo && Head(r.kind)) || (r.stage == TailIo && Tail(r.kind))
  }

  /** No two requests past their wait conflict, a running one left aside. */
  ghost predicate Exclusive(reqs: Requests, self: Option<nat>)
  {
    forall a, b :: Past(reqs, a) && Past(reqs, b) && a != b && Some(a) != self && Some(b) != self ==>
      !Conflict(reqs[a], reqs[b])
  }

  ghost function Serialising(reqs: Requests): set<nat>
  {
    set a | a in reqs && reqs[a].serialising
  }

  // ---------- who waits for whom ----------

  /** The wait graph: one edge out of each waiting request. */
  ghost function Waits(reqs: Requests): map<nat, nat>
  {
    map a | a in reqs && reqs[a].waitingFor.Some? :: reqs[a].waitingFor.value
  }

  ghost predicate Edge(w: map<nat, nat>, p: seq<nat>, i: nat)
    requires i + 1 < |p|
  {
    p[i] in w && w[p[i]] == p[i + 1]
  }

  ghost predicate Path(w: map<nat, nat>, p: seq<nat>)
  {
    |p| >= 2 && forall i: nat :: i + 1 < |p| ==> Edge(w, p, i)
  }

  ghost predicate Acyclic(w: map<nat, nat>)
  {
    forall p :: Path(w, p) ==> p[0] != p[|p| - 1]
  }

  /** An edge towards somebody who waits for nobody closes no cycle. */
  lemma EdgeKeepsAcyclic(w: map<nat, nat>, a: nat, b: nat)
    requires Acyclic(w) && b !in w && a != b
    ensures Acyclic(w[a := b])
  {
    var w' := w[a := b];
    forall p | Path(w', p)
      ensures p[0] != p[|p| - 1]
    {
      assert Edge(w', p, 0);
      if i: nat :| i + 1 < |p| && p[i] == a {
        assert Edge(w', p, i);
        assert i + 2 < |p| ==> Edge(w', p, i + 1);
      } else {
        forall i: nat | i + 1 < |p|
          ensures Edge(w, p, i)
        {
          assert Edge(w', p, i);
        }
        assert Path(w, p);
      }
    }
  }

  lemma NoWaits()
    ensures Acyclic(map[])
  {
    forall p: seq<nat>
      ensures !Path(map[], p)
    {
      assert |p| >= 2 ==> !Edge(map[], p, 0);
    }
  }

  lemma PathMore(w: map<nat, nat>, w': map<nat, nat>, p: seq<nat>)
    requires Path(w', p) && forall a :: a in w' ==> a in w && w[a] == w'[a]
    ensures Path(w, p)
  {
    forall i: nat | i + 1 < |p|
      ensures Edge(w, p, i)
    {
      assert Edge(w', p, i);
    }
  }

  lemma FewerEdgesAcyclic(w: map<nat, nat>, w': map<nat, nat>)
    requires Acyclic(w) && forall a :: a in w' ==> a in w && w[a] == w'[a]
    ensures Acyclic(w')
  {
    forall p | Path(w', p)
      ensures p[0] != p[|p| - 1]
    {
      PathMore(w, w', p);
    }
  }

  lemma PathCons(w: map<nat, nat>, a: nat, p: seq<nat>)
    requires a in w && p != [] && w[a] == p[0] && (|p| == 1 || Path(w, p))
    ensures Path(w, [a] + p)
  {
    var q := [a] + p;
    forall i: nat | i + 1 < |q|
      ensures Edge(w, q, i)
    {
      if i > 0 { assert Edge(w, p, i - 1); }
    }
  }

  /** Following the waits from any waiting request leads to one that does not wait. */
  lemma {:induction false} ChainEnds(w: map<nat, nat>, a: nat) returns (p: seq<nat>)
    requires Acyclic(w) && a in w
    ensures Path(w, p) && p[0] == a && p[|p| - 1] !in w
    decreases |w|
  {
    var b := w[a];
    p := [a] + [b];
    PathCons(w, a, [b]);
    if b in w {
      assert p[0] != p[|p| - 1];
      var rest := w - {a};
      FewerEdgesAcyclic(w, rest);
      var q := ChainEnds(rest, b);
      PathMore(w, rest, q);
      PathCons(w, a, q);
      p := [a] + q;
    }
  }

  // ---------- what holds at every yield ----------

  /** Holds when nobody runs (self == None), and of everybody else while self runs. */
  ghost predicate Settled(reqs: Requests, self: Option<nat>)
  {
    && (forall a :: a in reqs && Some(a) != self ==> Formed(reqs[a]))
    && (self.Some? ==> Past(reqs, self.value) && Marked(reqs[self.value]))
    && Exclusive(reqs, self) && Acyclic(Waits(reqs))
  }

  /** Nobody past its wait is in the way of self. */
  ghost predicate NoHit(reqs: Requests, self: nat)
    requires self in reqs
  {
    forall a :: Past(reqs, a) && a != self ==> !Conflict(reqs[a], reqs[self])
  }

  lemma Begun(reqs: Requests, self: nat, r: Request)
    requires Settled(reqs, None) && self !in reqs && Marked(r) && r.waitingFor.None?
    ensures Settled(reqs[self := r], Some(self))
  {
    assert Waits(reqs[self := r]) == Waits(reqs);
  }

  lemma Woken(reqs: Requests, self: nat)
    requires Settled(reqs, None) && self in reqs
    ensures Settled(reqs[self := reqs[self].(waitingFor := None)], Some(self)) && Formed(reqs[self])
  {
    FewerEdgesAcyclic(Waits(reqs), Waits(reqs[self := reqs[self].(waitingFor := None)]));
  }

  /** Going to wait for somebody who is past its wait. */
  lemma Blocked(reqs: Requests, self: nat, t: nat)
    requires Settled(reqs, Some(self)) && Past(reqs, t) && t != self
    ensures Settled(reqs[self := reqs[self].(waitingFor := Some(t), stage := First(reqs[self].kind))], None)
  {
    var r := reqs[self].(waitingFor := Some(t), stage := First(reqs[self].kind));
    var reqs' := reqs[self := r];
    EdgeKeepsAcyclic(Waits(reqs), self, t);
    assert Waits(reqs') == Waits(reqs)[self := t];
    assert forall a :: Past(reqs', a) ==> Past(reqs, a) && a != self;
  }

  /** Going on to I/O with nobody in the way. */
  lemma Passed(reqs: Requests, self: nat, stage: Stage)
    requires Settled(reqs, Some(self)) && NoHit(reqs, self) && IoStage(reqs[self].(stage := stage))
    ensures Settled(reqs[self := reqs[self].(stage := stage)], None)
    ensures NoHit(reqs[self := reqs[self].(stage := stage)], self)
  {
    var reqs' := reqs[self := reqs[self].(stage := stage)];
    assert Waits(reqs') == Waits(reqs);
    forall a, b | Past(reqs', a) && Past(reqs', b) && a != b
      ensures !Conflict(reqs'[a], reqs'[b])
    {
      assert Past(reqs, a) && Past(reqs, b);
      ConflictSymmetric(reqs[a], reqs[b]);
    }
  }

  lemma Ended(reqs: Requests, self: nat)
    requires Settled(reqs, None) && self in reqs
    ensures Settled(reqs - {self}, None)
  {
    FewerEdgesAcyclic(Waits(reqs), Waits(reqs - {self}));
    assert forall a :: Past(reqs - {self}, a) ==> Past(reqs, a);
  }

  /** A request past its wait that looks again finds nobody in the way. */
  lemma Again(reqs: Requests, self: nat)
    requires Settled(reqs, None) && Past(reqs, self)
    ensures Settled(reqs, Some(self)) && NoHit(reqs, self) && Formed(reqs[self])
  {
  }

  lemma MissAll(reqs: Requests, self: nat, hit: Option<nat>)
    requires self in reqs && NoHit(reqs, self)
    requires hit.Some? ==> Past(reqs, hit.value) && hit.value != self && Conflict(reqs[hit.value], reqs[self])
    ensures hit.None?
  {
  }

  /** mark_request_serialising, on the request itself. */
  function Mark(r: Request, align: nat): (m: Request)
    requires align > 0
  {
    var offset := RoundDown(r.kind.offset, align);
    var bytes := RoundUp(r.kind.offset + r.kind.bytes, align) - offset;
    r.(serialising := true,
       overlapOffset := if r.overlapOffset < offset then r.overlapOffset else offset,
       overlapBytes := if r.overlapBytes > bytes then r.overlapBytes else bytes)
  }

  /** Marking makes a fresh request cover whole grains; marking again changes nothing. */
  lemma MarkIs(r: Request)
    requires KindOk(r.kind) && Serialises(r.kind)
    ensures !r.serialising && r.overlapOffset == r.kind.offset && r.overlapBytes == r.kind.bytes ==>
              Marked(Mark(r, Grain(r.kind)))
    ensures Marked(r) ==> Mark(r, Grain(r.kind)) == r
  {
  }

  lemma PlainMarked(r: Request)
    requires KindOk(r.kind) && !r.serialising && r.overlapOffset == r.kind.offset && r.overlapBytes == r.kind.bytes
    ensures Serialises(r.kind) || Marked(r)
    ensures Serialises(r.kind) ==>
              var m := Mark(r, Grain(r.kind));
              m.kind == r.kind && m.waitingFor == r.waitingFor && m.stage == r.stage
  {
  }

  /** What bdrv_aligned_pwritev is called with, once head and tail are padded. */
  function PaddedOffset(k: Kind): (offset: nat)
    requires KindOk(k) && k.Write?
  {
    if Head(k) then RoundDown(k.offset, k.align) else k.offset
  }

  function PaddedBytes(k: Kind): (bytes: nat)
    requires KindOk(k) && k.Write?
  {
    var bytes := if Head(k) then k.bytes + k.offset % k.align else k.bytes;
    if Tail(k) then RoundUp(bytes, k.align) else bytes
  }

  lemma PaddedIs(r: Request)
    requires Marked(r) && r.kind.Write?
    ensures r.overlapOffset <= PaddedOffset(r.kind)
    ensures PaddedOffset(r.kind) + PaddedBytes(r.kind) <= r.overlapOffset + r.overlapBytes
    ensures PaddedOffset(r.kind) == RoundDown(r.kind.offset, r.kind.align)
    ensures PaddedOffset(r.kind) + PaddedBytes(r.kind) == RoundUp(r.kind.offset + r.kind.bytes, r.kind.align)
  {
    var k := r.kind;
    var offset := PaddedOffset(k);
    RoundedIs(k.offset, k.align);
    RoundUpAdd(offset, k.offset + k.bytes - offset, k.align);
  }

  /** But for its stage and whom it waits for, a request is what it was. */
  predicate Same(r: Request, s: Request)
  {
    s == r.(waitingFor := s.waitingFor, stage := s.stage)
  }

  /** Everything but self stays as it was. */
  ghost predicate OthersSame(was: Requests, reqs: Requests, self: nat)
  {
    forall a :: a != self ==> (a in reqs <==> a in was) && (a in reqs ==> reqs[a] == was[a])
  }

  // ---------- one step ----------

  datatype Event = Start(kind: Kind) | Resume(request: nat) | Proceed(request: nat, ok: bool)

  /** A request up to its next yield: waiting for somebody past its wait and in the way, or in I/O. */
  ghost predicate AtYield(reqs: Requests, self: nat, kind: Kind)
  {
    && self in reqs && reqs[self].kind == kind && KindOk(kind)
    && match reqs[self].waitingFor
       case None => reqs[self].stage == FirstIo(kind)
       case Some(t) => t != self && Past(reqs, t) && Conflict(reqs[t], reqs[self])
  }

  /** What a step does to the requests. */
  ghost predicate Stepped(e: Event, reqs: Requests, reqs': Requests)
  {
    match e
    case Start(kind) => exists self :: self !in reqs && OthersSame(reqs, reqs', self) && AtYield(reqs', self, kind)
    case Resume(a) =>
      if a in reqs && reqs[a].waitingFor.Some? && reqs[a].waitingFor.value !in reqs then
        OthersSame(reqs, reqs', a) && AtYield(reqs', a, reqs[a].kind)
      else reqs' == reqs
    case Proceed(a, ok) =>
      if Past(reqs, a) && KindOk(reqs[a].kind) then
        if ok && AfterIo(reqs[a]).Some? then reqs' == reqs[a := reqs[a].(stage := AfterIo(reqs[a]).value)]
        else reqs' == reqs - {a}
      else reqs' == reqs
  }

  // ---------- what requests may touch ----------

  predicate Unaligned(k: Kind)
  {
    k.Write? && k.align > 0 && (k.offset % k.align != 0 || (k.offset + k.bytes) % k.align != 0)
  }

  predicate CopiesOnRead(k: Kind)
  {
    k.Read? && k.copy.Some? && k.copy.value > 0
  }

  predicate NeedsUnits(k: Kind)
  {
    CopiesOnRead(k) || Unaligned(k)
  }

  predicate InUnits(k: Kind, unit: nat, p: nat)
    requires unit > 0
  {
    RoundDown(k.offset, unit) <= p < RoundUp(k.offset + k.bytes, unit)
  }

  /** The bytes that a request needs for itself: all clusters of a read that copies them, all blocks of
      an unaligned write, and otherwise what it was called for. */
  predicate Touches(k: Kind, p: nat)
  {
    if CopiesOnRead(k) then InUnits(k, k.copy.value, p)
    else if Unaligned(k) then InUnits(k, k.align, p)
    else k.offset <= p < k.offset + k.bytes
  }

  /** Requests past their wait keep out of each other's way, if one of them copies on read or is an
      unaligned write. */
  ghost predicate Apart(reqs: Requests)
  {
    forall a, b, p: nat :: Past(reqs, a) && Past(reqs, b) && a != b && NeedsUnits(reqs[a].kind) ==>
      !(Touches(reqs[a].kind, p) && Touches(reqs[b].kind, p))
  }

  /** A marked request covers exactly the bytes that it needs. */
  lemma MarkedTouches(r: Request)
    requires Marked(r)
    ensures r.serialising <==> NeedsUnits(r.kind)
    ensures forall p: nat :: Touches(r.kind, p) <==> r.overlapOffset <= p < r.overlapOffset + r.overlapBytes
  {
  }

  lemma SettledApart(reqs: Requests)
    requires Settled(reqs, None)
    ensures Apart(reqs)
  {
    hide Acyclic, Waits, Touches, NeedsUnits;
    forall a, b, p: nat | Past(reqs, a) && Past(reqs, b) && a != b && NeedsUnits(reqs[a].kind)
      ensures !(Touches(reqs[a].kind, p) && Touches(reqs[b].kind, p))
    {
      assert Formed(reqs[a]) && Formed(reqs[b]);
      MarkedTouches(reqs[a]);
      MarkedTouches(reqs[b]);
      assert !Conflict(reqs[a], reqs[b]);
    }
  }

  // ---------- the device ----------

  ghost predicate Listed(tracked: seq<nat>, reqs: Requests, nextId: nat)
  {
    && (forall a :: a in tracked <==> a in reqs)
    && (forall i, j :: 0 <= i < j < |tracked| ==> tracked[i] != tracked[j])
    && (forall a :: a in reqs ==> a < nextId)
  }

  lemma Delisted(tracked: seq<nat>, reqs: Requests, nextId: nat, i: nat)
    requires Listed(tracked, reqs, nextId) && i < |tracked|
    ensures Listed(tracked[..i] + tracked[i + 1..], reqs - {tracked[i]}, nextId)
    ensures Serialising(reqs - {tracked[i]}) == Serialising(reqs) - {tracked[i]}
  {
  }

  class Device {
    /** bs->tracked_requests, newest first. */
    var tracked: seq<nat>
    var reqs: Requests
    var serialisingInFlight: int
    var nextId: nat

    /** The list holds every request once, and the counter counts the serialising ones. */
    ghost predicate Counted()
      reads this
    {
      Listed(tracked, reqs, nextId) && serialisingInFlight == |Serialising(reqs)|
    }

    ghost predicate Valid()
      reads this
    {
      Counted() && Settled(reqs, None)
    }

    ghost predicate Running(self: nat)
      reads this
    {
      Counted() && Settled(reqs, Some(self)) && Past(reqs, self) && Marked(reqs[self])
    }

    constructor ()
      ensures Valid() && reqs == map[]
    {
      tracked, reqs, serialisingInFlight, nextId := [], map[], 0, 0;
      NoWaits();
    }

    /** tracked_request_begin. */
    method Begin(kind: Kind) returns (self: nat)
      requires Counted() && KindOk(kind)
      modifies this
      ensures Counted() && self !in old(reqs) && self == old(nextId) && nextId == self + 1
      ensures reqs == old(reqs)[self := Request(kind, false, kind.offset, kind.bytes, None, First(kind))]
    {
      self := nextId;
      ghost var was := reqs;
      reqs := reqs[self := Request(kind, false, kind.offset, kind.bytes, None, First(kind))];
      tracked := [self] + tracked;
      nextId := nextId + 1;
      assert Serialising(reqs) == Serialising(was);
    }

    /** mark_request_serialising. */
    method MarkSerialising(self: nat)
      requires Counted() && self in reqs && KindOk(reqs[self].kind) && Serialises(reqs[self].kind)
      modifies `reqs, `serialisingInFlight
      ensures Counted() && reqs == old(reqs)[self := Mark(old(reqs)[self], Grain(old(reqs)[self].kind))]
    {
      ghost var was := reqs;
      if !reqs[self].serialising {
        serialisingInFlight := serialisingInFlight + 1;
        assert self !in Serialising(was);
      }
      reqs := reqs[self := Mark(reqs[self], Grain(reqs[self].kind))];
      assert Serialising(reqs) == Serialising(was) + {self};
    }

    /** One pass of wait_serialising_requests: the request to wait for, if any. */
    method Scan(self: nat) returns (hit: Option<nat>)
      requires Counted() && self in reqs
      ensures hit.None? ==> NoHit(reqs, self)
      ensures hit.Some? ==> Past(reqs, hit.value) && hit.value != self && Conflict(reqs[hit.value], reqs[self])
    {
      if serialisingInFlight == 0 {
        assert forall a :: a in reqs && reqs[a].serialising ==> a in Serialising(reqs);
        return None;
      }
      var i := 0;
      while i < |tracked|
        invariant 0 <= i <= |tracked|
        invariant forall j :: 0 <= j < i ==>
                    tracked[j] == self || !Past(reqs, tracked[j]) || !Conflict(reqs[tracked[j]], reqs[self])
      {
        var a := tracked[i];
        var r, s := reqs[a], reqs[self];
        if a != self && (r.serialising || s.serialising) && Overlaps(r, s.overlapOffset, s.overlapBytes)
          && r.waitingFor.None? {
          return Some(a);
        }
        i := i + 1;
      }
      forall a | Past(reqs, a) && a != self
        ensures !Conflict(reqs[a], reqs[self])
      {
        assert a in tracked;
      }
      hit := None;
    }

    /** Sleeps on the wait queue of another request. */
    method WaitFor(self: nat, t: nat)
      requires Running(self) && Past(reqs, t) && t != self && reqs[self].stage == First(reqs[self].kind)
      modifies `reqs
      ensures Valid() && reqs == old(reqs)[self := old(reqs)[self].(waitingFor := Some(t))]
    {
      hide Settled, Listed;
      ghost var was := reqs;
      Blocked(reqs, self, t);
      reqs := reqs[self := reqs[self].(waitingFor := Some(t))];
      Unlisted(was, self, reqs[self]);
    }

    /** Goes into I/O. */
    method GoOn(self: nat, stage: Stage)
      requires Running(self) && NoHit(reqs, self) && IoStage(reqs[self].(stage := stage))
      modifies `reqs
      ensures Valid() && reqs == old(reqs)[self := old(reqs)[self].(stage := stage)] && NoHit(reqs, self)
    {
      hide Settled, Listed;
      ghost var was := reqs;
      Passed(reqs, self, stage);
      reqs := reqs[self := reqs[self].(stage := stage)];
      Unlisted(was, self, reqs[self]);
    }

    lemma Unlisted(was: Requests, self: nat, r: Request)
      requires Listed(tracked, was, nextId) && self in was && reqs == was[self := r]
      requires r.serialising == was[self].serialising
      ensures Listed(tracked, reqs, nextId) && Serialising(reqs) == Serialising(was)
    {
    }

    /** tracked_request_end. */
    method End(self: nat)
      requires Valid() && self in reqs
      modifies this
      ensures Valid() && reqs == old(reqs) - {self} && nextId == old(nextId)
    {
      hide Settled;
      if reqs[self].serialising {
        serialisingInFlight := serialisingInFlight - 1;
      }
      var i := 0;
      while tracked[i] != self
        invariant 0 <= i < |tracked| && self in tracked[i..]
        decreases |tracked| - i
      {
        i := i + 1;
      }
      Ended(reqs, self);
      Delisted(tracked, reqs, nextId, i);
      tracked := tracked[..i] + tracked[i + 1..];
      reqs := reqs - {self};
    }

    // ---------- the coroutines ----------

    /** Waiting for somebody past its wait and in the way, or itself past its wait with nobody in
        the way. */
    ghost predicate Settles(self: nat, kind: Kind)
      requires KindOk(kind)
      reads `reqs
    {
      && self in reqs && reqs[self].kind == kind
      && match reqs[self].waitingFor
         case None => NoHit(reqs, self) && reqs[self].stage == FirstIo(kind)
         case Some(t) => Past(reqs, t) && t != self && Conflict(reqs[t], reqs[self])
    }

    /** A new request, up to its first yield. */
    method Start(kind: Kind) returns (self: nat)
      requires Valid() && KindOk(kind)
      modifies this
      ensures Valid() && OthersSame(old(reqs), reqs, self) && self !in old(reqs) && Settles(self, kind)
      ensures self == old(nextId) && nextId == self + 1
      ensures reqs[self].serialising <==> NeedsUnits(kind)
      ensures forall p: nat :: Touches(kind, p) <==>
                reqs[self].overlapOffset <= p < reqs[self].overlapOffset + reqs[self].overlapBytes
    {
      hide Settled, Listed, Touches, Marked, Mark, NoHit;
      ghost var was := reqs;
      self := Begin(kind);
      PlainMarked(reqs[self]);
      if Serialises(kind) {
        MarkIs(reqs[self]);
        MarkSerialising(self);
      }
      Begun(was, self, reqs[self]);
      assert reqs == was[self := reqs[self]];
      MarkedTouches(reqs[self]);
      Enter(self);
    }

    /** The first wait of a request, entered or resumed. */
    method Enter(self: nat)
      requires Running(self) && reqs[self].stage == First(reqs[self].kind)
      modifies `reqs
      ensures Valid() && OthersSame(old(reqs), reqs, self) && Settles(self, old(reqs)[self].kind)
      ensures Same(old(reqs)[self], reqs[self])
    {
      hide Settled, Listed, NoHit;
      var hit := Scan(self);
      if hit.Some? {
        WaitFor(self, hit.value);
        return;
      }
      match reqs[self].stage {
        case HeadWait =>
          hit := Scan(self);
          MissAll(reqs, self, hit);
          assert hit.None?;
          GoOn(self, HeadIo);
        case TailWait =>
          hit := Scan(self);
          MissAll(reqs, self, hit);
          assert hit.None?;
          GoOn(self, TailIo);
        case WriteWait =>
          Write(self);
        case ReadWait =>
          GoOn(self, ReadIo);
      }
    }

    /** bdrv_aligned_pwritev, past its wait: the request covers the padded range. */
    method Write(self: nat)
      requires Running(self) && NoHit(reqs, self) && reqs[self].kind.Write?
      modifies `reqs
      ensures Valid() && reqs == old(reqs)[self := old(reqs)[self].(stage := WriteIo)] && NoHit(reqs, self)
    {
      hide Settled, Listed, NoHit;
      var r := reqs[self];
      PaddedIs(r);
      assert r.overlapOffset <= PaddedOffset(r.kind);
      assert PaddedOffset(r.kind) + PaddedBytes(r.kind) <= r.overlapOffset + r.overlapBytes;
      GoOn(self, WriteIo);
    }

    /** The request that self slept on has ended, and self runs again. */
    method Resume(self: nat)
      requires Valid() && self in reqs && reqs[self].waitingFor.Some? && reqs[self].waitingFor.value !in reqs
      modifies `reqs
      ensures Valid() && OthersSame(old(reqs), reqs, self) && Settles(self, old(reqs)[self].kind)
      ensures Same(old(reqs)[self], reqs[self]) && KindOk(old(reqs)[self].kind)
    {
      hide Settled, Listed;
      ghost var was := reqs;
      Woken(reqs, self);
      reqs := reqs[self := reqs[self].(waitingFor := None)];
      Unlisted(was, self, reqs[self]);
      Enter(self);
    }

    /** The driver's I/O is done, or has failed, and self runs again. */
    method Proceed(self: nat, ok: bool)
      requires Valid() && Past(reqs, self)
      modifies this
      ensures Valid() && nextId == old(nextId) && KindOk(old(reqs)[self].kind)
      ensures match AfterIo(old(reqs)[self])
              case Some(stage) => ok ==> reqs == old(reqs)[self := old(reqs)[self].(stage := stage)]
              case None => reqs == old(reqs) - {self}
      ensures !ok ==> reqs == old(reqs) - {self}
    {
      hide Settled, Listed, NoHit;
      Again(reqs, self);
      var stage := reqs[self].stage;
      if !ok || stage == ReadIo || stage == WriteIo {
        End(self);
      } else if stage == HeadIo && Tail(reqs[self].kind) {
        ReadTail(self);
      } else {
        var hit := Scan(self);
        MissAll(reqs, self, hit);
        assert reqs[self].serialising && hit.None?;
        Write(self);
      }
    }

    /** The tail after the head: marked already, and nobody is in the way. */
    method ReadTail(self: nat)
      requires Running(self) && NoHit(reqs, self) && Tail(reqs[self].kind)
      modifies `reqs, `serialisingInFlight
      ensures Valid() && reqs == old(reqs)[self := old(reqs)[self].(stage := TailIo)]
    {
      hide Settled, Listed, NoHit;
      MarkIs(reqs[self]);
      MarkSerialising(self);
      assert reqs == old(reqs);
      var hit := Scan(self);
      MissAll(reqs, self, hit);
      assert hit.None?;
      hit := Scan(self);
      MissAll(reqs, self, hit);
      assert hit.None?;
      GoOn(self, TailIo);
    }

    /** Nobody waits in vain: each wait leads, over other waits, to a request that is in I/O or
        to one that has ended, so that its waiter can run. */
    lemma NoDeadlock(a: nat) returns (p: seq<nat>)
      requires Valid() && a in reqs && reqs[a].waitingFor.Some?
      ensures Path(Waits(reqs), p) && p[0] == a
      ensures var end := p[|p| - 1];
              || Past(reqs, end)
              || (end !in reqs && p[|p| - 2] in reqs && reqs[p[|p| - 2]].waitingFor == Some(end))
    {
      p := ChainEnds(Waits(reqs), a);
      assert Edge(Waits(reqs), p, |p| - 2);
    }

    /** Two requests past their wait keep out of each other's way, said in terms of what they were
        called for. */
    lemma NoOverlap()
      requires Valid()
      ensures serialisingInFlight == |Serialising(reqs)| && Acyclic(Waits(reqs)) && Apart(reqs)
      ensures forall a, b :: Past(reqs, a) && Past(reqs, b) && a != b && (reqs[a].serialising || reqs[b].serialising)
                ==> !Overlaps(reqs[a], reqs[b].overlapOffset, reqs[b].overlapBytes)
    {
      SettledApart(reqs);
    }

    /** One step, if it can be taken. */
    method Take(e: Event)
      requires Valid() && (e.Start? ==> KindOk(e.kind))
      modifies this
      ensures Valid() && Stepped(e, old(reqs), reqs)
    {
      hide Settled, Listed, Touches, NoHit, OthersSame;
      match e {
        case Start(kind) =>
          var self := Start(kind);
        case Resume(a) =>
          if a in reqs && reqs[a].waitingFor.Some? && reqs[a].waitingFor.value !in reqs { Resume(a); }
        case Proceed(a, ok) =>
          if a in reqs && reqs[a].waitingFor.None? { Proceed(a, ok); }
      }
    }

    /** Any interleaving: no assertion fails, and requests past their wait never conflict. */
    method Run(schedule: seq<Event>) returns (ghost trace: seq<Requests>)
      requires Valid() && forall i :: 0 <= i < |schedule| && schedule[i].Start? ==> KindOk(schedule[i].kind)
      modifies this
      ensures Valid() && serialisingInFlight == |Serialising(reqs)| && Acyclic(Waits(reqs))
      ensures |trace| == |schedule| + 1 && trace[0] == old(reqs) && trace[|schedule|] == reqs
      ensures forall i :: 0 <= i < |schedule| ==> Stepped(schedule[i], trace[i], trace[i + 1])
      ensures forall i :: 0 <= i <= |schedule| ==> Apart(trace[i])
    {
      hide Settled, Listed, Apart, Stepped;
      trace := [reqs];
      NoOverlap();
      var i := 0;
      while i < |schedule|
        invariant 0 <= i <= |schedule| && Valid()
        invariant |trace| == i + 1 && trace[0] == old(reqs) && trace[i] == reqs
        invariant forall j :: 0 <= j < i ==> Stepped(schedule[j], trace[j], trace[j + 1])
        invariant forall j :: 0 <= j <= i ==> Apart(trace[j])
      {
        Take(schedule[i]);
        NoOverlap();
        trace := trace + [reqs];
        i := i + 1;
      }
      NoOverlap();
    }
  }
}
