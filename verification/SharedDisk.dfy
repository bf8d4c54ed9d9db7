/**
 Writes of any ranges to one image, all in flight at the same time.  The driver moves the bytes of
 every request one by one, in any order and between any steps of the others; a write that starts
 or ends within a block reads that block before, and writes it back as it was read.  The tracked
 requests keep one write from putting back what another one has replaced.
 */
module SharedDisk {
  import opened Rounding
  import opened Basics
  import opened Storage
  import opened TrackedRequests

  /** Bytes that the driver has read so far, by their place on the disk. */
  type Buffer = map<nat, byte>

  /** What a request holds: the caller's data, head_buf, tail_buf, the bytes of a read, and which
      bytes of a write are on the disk. */
  datatype Io = Io(data: Bytes, head: Buffer, tail: Buffer, read: Buffer, written: set<nat>)

  function Fresh(data: Bytes): (io: Io)
  {
    Io(data, map[], map[], map[], {})
  }

  /** The bytes that the caller writes, in contrast to those around them. */
  predicate Own(k: Kind, p: nat)
  {
    k.Write? && k.offset <= p < k.offset + k.bytes
  }

  predicate InHead(k: Kind, p: nat)
    requires KindOk(k)
  {
    Head(k) && RoundDown(k.offset, k.align) <= p < RoundDown(k.offset, k.align) + k.align
  }

  predicate InTail(k: Kind, p: nat)
    requires KindOk(k)
  {
    Tail(k) && RoundDown(k.offset + k.bytes, k.align) <= p < RoundDown(k.offset + k.bytes, k.align) + k.align
  }

  predicate InPadded(k: Kind, p: nat)
    requires KindOk(k)
  {
    k.Write? && PaddedOffset(k) <= p < PaddedOffset(k) + PaddedBytes(k)
  }

  /** The bytes that the driver moves for a request in I/O: where they start, and how many. */
  function From(r: Request): (offset: nat)
    requires KindOk(r.kind)
  {
    if r.stage == HeadIo && Head(r.kind) then RoundDown(r.kind.offset, r.kind.align)
    else if r.stage == TailIo && Tail(r.kind) then RoundDown(r.kind.offset + r.kind.bytes, r.kind.align)
    else if r.stage == WriteIo && r.kind.Write? then PaddedOffset(r.kind)
    else r.kind.offset
  }

  function Size(r: Request): (bytes: nat)
    requires KindOk(r.kind)
  {
    if (r.stage == HeadIo && Head(r.kind)) || (r.stage == TailIo && Tail(r.kind)) then r.kind.align
    else if r.stage == WriteIo && r.kind.Write? then PaddedBytes(r.kind)
    else r.kind.bytes
  }

  predicate Moves(r: Request, p: nat)
    requires KindOk(r.kind)
  {
    From(r) <= p < From(r) + Size(r)
  }

  /** The driver moves the head block, the tail block, the padded data, or what is read. */
  lemma MovesAre(r: Request, p: nat)
    requires KindOk(r.kind) && IoStage(r)
    ensures Moves(r, p) <==> match r.stage
                             case HeadIo => InHead(r.kind, p)
                             case TailIo => InTail(r.kind, p)
                             case WriteIo => InPadded(r.kind, p)
                             case _ => r.kind.offset <= p < r.kind.offset + r.kind.bytes
  {
  }

  predicate Moved(r: Request, io: Io, p: nat)
  {
    match r.stage
    case HeadIo => p in io.head
    case TailIo => p in io.tail
    case WriteIo => p in io.written
    case ReadIo => p in io.read
    case _ => false
  }

  /** The driver has done all of its I/O. */
  predicate AllMoved(r: Request, io: Io)
    requires KindOk(r.kind)
  {
    forall p :: From(r) <= p < From(r) + Size(r) ==> Moved(r, io, p)
  }

  lemma AllMovedIs(r: Request, io: Io)
    requires KindOk(r.kind)
    ensures AllMoved(r, io) <==> forall p :: Moves(r, p) ==> Moved(r, io, p)
  {
    assert forall p: nat :: Moves(r, p) <==> From(r) <= p < From(r) + Size(r);
  }

  // ---------- what a request may rely on ----------

  predicate Covers(r: Request, p: nat)
  {
    r.overlapOffset <= p < r.overlapOffset + r.overlapBytes
  }

  lemma BeyondMultiple(m: nat, x: nat, align: nat)
    requires align > 0 && m % align == 0 && m < x
    ensures m + align <= RoundUp(x, align) && m <= RoundDown(x, align)
  {
    RoundUpAdd(m, x - m, align);
  }

  /** All that a marked request moves lies in the range that it keeps the others out of. */
  lemma MovesInside(r: Request, p: nat)
    requires Marked(r) && IoStage(r) && Moves(r, p)
    ensures Covers(r, p)
  {
    var k := r.kind;
    if k.Write? { PaddedIs(r); }
    if Head(k) || Tail(k) {
      RoundedIs(k.offset, k.align);
      if RoundDown(k.offset, k.align) < k.offset + k.bytes {
        BeyondMultiple(RoundDown(k.offset, k.align), k.offset + k.bytes, k.align);
      }
    }
  }

  /** Around the caller's bytes there are those of the head and of the tail. */
  lemma PaddedParts(k: Kind, p: nat)
    requires KindOk(k) && k.Write? && InPadded(k, p) && !Own(k, p)
    ensures p < k.offset ==> InHead(k, p)
    ensures p >= k.offset ==> p >= k.offset + k.bytes && InTail(k, p)
  {
    RoundedIs(k.offset, k.align);
    RoundUpAdd(RoundDown(k.offset, k.align), k.offset % k.align + k.bytes, k.align);
  }

  lemma OwnPadded(k: Kind, p: nat)
    requires KindOk(k) && Own(k, p)
    ensures InPadded(k, p)
  {
  }

  /** What has been read around the caller's bytes is what the disk holds. */
  ghost predicate Mirrors(k: Kind, buffer: Buffer, disk: Bytes)
  {
    forall p :: p in buffer && !Own(k, p) ==> buffer[p] == At(disk, p)
  }

  ghost predicate Placed(k: Kind, io: Io, disk: Bytes)
    requires k.Write? ==> |io.data| == k.bytes
  {
    forall p :: p in io.written && Own(k, p) ==> At(disk, p) == io.data[p - k.offset]
  }

  ghost predicate Inside(r: Request, io: Io)
  {
    forall p :: p in io.head || p in io.tail || p in io.read || p in io.written ==> Covers(r, p)
  }

  /** The buffers that the request has filled before it has come to its stage. */
  ghost predicate Filled(r: Request, io: Io)
    requires KindOk(r.kind)
  {
    && (r.stage == TailIo || r.stage == WriteIo ==> forall p :: InHead(r.kind, p) ==> p in io.head)
    && (r.stage == WriteIo ==> forall p :: InTail(r.kind, p) ==> p in io.tail)
    && (r.stage != WriteIo ==> io.written == {})
  }

  ghost predicate Sound(r: Request, io: Io, disk: Bytes)
  {
    && KindOk(r.kind) && (r.kind.Write? ==> |io.data| == r.kind.bytes)
    && (r.waitingFor.Some? ==> io == Fresh(io.data))
    && Inside(r, io) && Filled(r, io)
    && (r.serialising ==>
          Mirrors(r.kind, io.head, disk) && Mirrors(r.kind, io.tail, disk) && Mirrors(r.kind, io.read, disk)
          && Placed(r.kind, io, disk))
  }

  /** A request does not notice a change outside of what it covers. */
  lemma ElsewhereSound(r: Request, io: Io, disk: Bytes, disk': Bytes, p: nat)
    requires Sound(r, io, disk) && Outside(disk, disk', p, p + 1)
    requires r.serialising && r.waitingFor.None? ==> !Covers(r, p)
    ensures Sound(r, io, disk')
  {
  }

  /** The byte that a write puts at p. */
  function Byte(k: Kind, io: Io, p: nat): (b: byte)
    requires k.Write? && |io.data| == k.bytes
    requires !Own(k, p) ==> p in if p < k.offset then io.head else io.tail
  {
    if Own(k, p) then io.data[p - k.offset]
    else if p < k.offset then io.head[p]
    else io.tail[p]
  }

  /** A padding byte goes back as it is: only the caller's bytes change the disk. */
  lemma ByteIs(r: Request, io: Io, disk: Bytes, p: nat)
    requires Marked(r) && Sound(r, io, disk) && r.stage == WriteIo && InPadded(r.kind, p)
    ensures !Own(r.kind, p) ==> p in if p < r.kind.offset then io.head else io.tail
    ensures !Own(r.kind, p) ==> Byte(r.kind, io, p) == At(disk, p)
  {
    if !Own(r.kind, p) {
      PaddedParts(r.kind, p);
    }
  }

  /** A byte read. */
  function Took(r: Request, io: Io, disk: Bytes, p: nat): (io': Io)
  {
    match r.stage
    case HeadIo => io.(head := io.head[p := At(disk, p)])
    case TailIo => io.(tail := io.tail[p := At(disk, p)])
    case _ => io.(read := io.read[p := At(disk, p)])
  }

  lemma TookSound(r: Request, io: Io, disk: Bytes, p: nat)
    requires Marked(r) && IoStage(r) && r.waitingFor.None? && Sound(r, io, disk) && r.stage != WriteIo && Moves(r, p)
    ensures Sound(r, Took(r, io, disk, p), disk)
  {
    MovesInside(r, p);
  }

  lemma PutSound(r: Request, io: Io, disk: Bytes, disk': Bytes, p: nat)
    requires Marked(r) && IoStage(r) && r.waitingFor.None? && Sound(r, io, disk) && r.stage == WriteIo && Moves(r, p)
    requires !Own(r.kind, p) ==> p in if p < r.kind.offset then io.head else io.tail
    requires Wrote(disk, disk', p, [Byte(r.kind, io, p)])
    ensures Sound(r, io.(written := io.written + {p}), disk')
    ensures !Own(r.kind, p) ==> Outside(disk, disk', 0, 0)
  {
    hide RoundDown, RoundUp, PaddedOffset, PaddedBytes, InHead, InTail;
    MovesInside(r, p);
    ByteIs(r, io, disk, p);
  }

  lemma FreshSound(r: Request, data: Bytes, disk: Bytes)
    requires KindOk(r.kind) && (r.kind.Write? ==> |data| == r.kind.bytes)
    requires r.stage == First(r.kind) || r.stage == FirstIo(r.kind)
    ensures Sound(r, Fresh(data), disk)
  {
  }

  /** The next I/O of a request whose last one is all done. */
  lemma NextSound(r: Request, io: Io, disk: Bytes, stage: Stage)
    requires KindOk(r.kind) && IoStage(r) && r.waitingFor.None? && Sound(r, io, disk) && AllMoved(r, io)
    requires AfterIo(r) == Some(stage)
    ensures Sound(r.(stage := stage), io, disk)
  {
    var k := r.kind;
    forall p | InHead(k, p)
      ensures p in io.head
    {
      assert r.stage == HeadIo ==> Moved(r, io, p);
    }
    forall p | r.stage == TailIo && InTail(k, p)
      ensures p in io.tail
    {
      assert Moved(r, io, p);
    }
  }

  // ---------- what the callers see ----------

  datatype Call = Call(kind: Kind, data: Bytes)

  predicate CallOk(c: Call)
  {
    KindOk(c.kind) && (c.kind.Write? ==> |c.data| == c.kind.bytes)
  }

  /** A byte of a caller that has gone to the disk. */
  datatype Move = Move(call: nat, pos: nat)

  type Calls = map<nat, Call>

  ghost predicate CallsOk(calls: Calls)
  {
    forall a :: a in calls ==> CallOk(calls[a])
  }

  ghost predicate LogOk(calls: Calls, log: seq<Move>)
  {
    forall m :: m in log ==> m.call in calls && Own(calls[m.call].kind, m.pos)
  }

  /** The call whose byte was the last to go to p. */
  ghost function Last(log: seq<Move>, p: nat): (a: Option<nat>)
    ensures a.Some? ==> Move(a.value, p) in log
    ensures a.None? ==> forall m :: m in log ==> m.pos != p
  {
    if log == [] then None
    else if log[|log| - 1].pos == p then Some(log[|log| - 1].call)
    else Last(log[..|log| - 1], p)
  }

  /** The disk as the callers' own bytes, in the order in which they went there, make it. */
  ghost predicate Explained(initial: Bytes, calls: Calls, log: seq<Move>, disk: Bytes)
    requires CallsOk(calls) && LogOk(calls, log)
  {
    forall p: nat :: At(disk, p) == match Last(log, p)
      case None => At(initial, p)
      case Some(a) => calls[a].data[p - calls[a].kind.offset]
  }

  ghost predicate AllLogged(calls: Calls, log: seq<Move>, a: nat)
  {
    a in calls && calls[a].kind.Write? && forall p :: Own(calls[a].kind, p) ==> Move(a, p) in log
  }

  ghost predicate History(initial: Bytes, calls: Calls, log: seq<Move>, completed: set<nat>, disk: Bytes)
  {
    && CallsOk(calls) && LogOk(calls, log) && Explained(initial, calls, log, disk)
    && forall a :: a in completed ==> AllLogged(calls, log, a)
  }

  lemma LogMore(initial: Bytes, calls: Calls, log: seq<Move>, completed: set<nat>, disk: Bytes, disk': Bytes, m: Move)
    requires History(initial, calls, log, completed, disk) && m.call in calls && Own(calls[m.call].kind, m.pos)
    requires Wrote(disk, disk', m.pos, [calls[m.call].data[m.pos - calls[m.call].kind.offset]])
    ensures History(initial, calls, log + [m], completed, disk')
  {
    assert (log + [m])[..|log|] == log;
  }

  lemma SameHistory(initial: Bytes, calls: Calls, log: seq<Move>, completed: set<nat>, disk: Bytes, disk': Bytes)
    requires History(initial, calls, log, completed, disk) && Outside(disk, disk', 0, 0)
    ensures History(initial, calls, log, completed, disk')
  {
  }

  lemma CallMore(initial: Bytes, calls: Calls, log: seq<Move>, completed: set<nat>, disk: Bytes, a: nat, c: Call)
    requires History(initial, calls, log, completed, disk) && a !in calls && CallOk(c)
    ensures History(initial, calls[a := c], log, completed, disk)
  {
  }

  /** No call but a has p among its own bytes. */
  ghost predicate OnlyOwner(calls: Calls, a: nat, p: nat)
  {
    forall b :: b in calls && b != a ==> !Own(calls[b].kind, p)
  }

  /** No write loses a byte to the padding of another one: of what a completed write has written,
      all is there unless another write has it among its own bytes. */
  ghost predicate NoneLost(calls: Calls, completed: set<nat>, disk: Bytes)
  {
    forall a, p: nat :: a in completed && a in calls && Own(calls[a].kind, p) && OnlyOwner(calls, a, p)
      ==> p - calls[a].kind.offset < |calls[a].data| && At(disk, p) == calls[a].data[p - calls[a].kind.offset]
  }

  /** Nothing else has changed. */
  ghost predicate Untouched(initial: Bytes, calls: Calls, disk: Bytes)
  {
    forall p: nat :: (forall b :: b in calls ==> !Own(calls[b].kind, p)) ==> At(disk, p) == At(initial, p)
  }

  lemma AllKept(initial: Bytes, calls: Calls, log: seq<Move>, completed: set<nat>, disk: Bytes)
    requires History(initial, calls, log, completed, disk)
    ensures NoneLost(calls, completed, disk) && Untouched(initial, calls, disk)
  {
    hide Explained;
    forall a, p: nat | a in completed && a in calls && Own(calls[a].kind, p) && OnlyOwner(calls, a, p)
      ensures p - calls[a].kind.offset < |calls[a].data| && At(disk, p) == calls[a].data[p - calls[a].kind.offset]
    {
      assert AllLogged(calls, log, a);
      LastIs(initial, calls, log, disk, a, p);
    }
    forall p: nat | forall b :: b in calls ==> !Own(calls[b].kind, p)
      ensures At(disk, p) == At(initial, p)
    {
      NoneLogged(initial, calls, log, disk, p);
    }
  }

  lemma LastIs(initial: Bytes, calls: Calls, log: seq<Move>, disk: Bytes, a: nat, p: nat)
    requires CallsOk(calls) && LogOk(calls, log) && Explained(initial, calls, log, disk)
    requires Move(a, p) in log && OnlyOwner(calls, a, p)
    ensures At(disk, p) == calls[a].data[p - calls[a].kind.offset]
  {
    var last := Last(log, p);
    assert last.Some? && Move(last.value, p) in log;
  }

  lemma NoneLogged(initial: Bytes, calls: Calls, log: seq<Move>, disk: Bytes, p: nat)
    requires CallsOk(calls) && LogOk(calls, log) && Explained(initial, calls, log, disk)
    requires forall b :: b in calls ==> !Own(calls[b].kind, p)
    ensures At(disk, p) == At(initial, p)
  {
    assert forall m :: m in log ==> m.pos != p;
  }

  // ---------- all requests together ----------

  ghost predicate AllSound(reqs: Requests, ios: map<nat, Io>, disk: Bytes)
  {
    && (forall a :: a in ios <==> a in reqs)
    && (forall a :: a in ios ==> Sound(reqs[a], ios[a], disk))
  }

  /** The requests in flight are those of the callers, and what they have written is logged. */
  ghost predicate Linked(reqs: Requests, ios: map<nat, Io>, calls: Calls, log: seq<Move>, nextId: nat)
    requires forall a :: a in ios <==> a in reqs
  {
    && (forall a :: a in calls ==> a < nextId)
    && (forall a :: a in ios ==> a in calls && calls[a] == Call(reqs[a].kind, ios[a].data))
    && (forall a, p :: a in ios && p in ios[a].written && Own(reqs[a].kind, p) ==> Move(a, p) in log)
  }

  /** A byte that a request writes concerns no other request. */
  lemma OthersSound(reqs: Requests, ios: map<nat, Io>, disk: Bytes, disk': Bytes, a: nat, p: nat, io: Io)
    requires AllSound(reqs, ios, disk) && Exclusive(reqs, None) && Past(reqs, a) && Covers(reqs[a], p)
    requires Outside(disk, disk', p, p + 1) && Sound(reqs[a], io, disk')
    ensures AllSound(reqs, ios[a := io], disk')
  {
    hide Sound, Outside;
    forall b | b in ios && b != a
      ensures Sound(reqs[b], ios[b], disk')
    {
      assert Past(reqs, b) ==> !Conflict(reqs[a], reqs[b]);
      ElsewhereSound(reqs[b], ios[b], disk, disk', p);
    }
  }

  lemma SameKeys(reqs: Requests, ios: map<nat, Io>, disk: Bytes)
    requires AllSound(reqs, ios, disk)
    ensures forall a :: a in ios <==> a in reqs
    ensures forall a :: a in ios ==> Sound(reqs[a], ios[a], disk)
  {
  }

  lemma CallOf(reqs: Requests, ios: map<nat, Io>, calls: Calls, log: seq<Move>, nextId: nat, disk: Bytes, self: nat)
    requires AllSound(reqs, ios, disk) && Linked(reqs, ios, calls, log, nextId) && self in ios
    ensures self in calls && calls[self] == Call(reqs[self].kind, ios[self].data)
    ensures reqs[self].waitingFor.Some? ==> ios[self] == Fresh(ios[self].data)
  {
  }

  lemma CallIs(initial: Bytes, calls: Calls, log: seq<Move>, completed: set<nat>, disk: Bytes, a: nat)
    requires History(initial, calls, log, completed, disk) && a in calls
    ensures CallOk(calls[a])
  {
  }

  lemma SelfSound(reqs: Requests, reqs': Requests, ios: map<nat, Io>, disk: Bytes, self: nat, io: Io)
    requires AllSound(reqs, ios, disk) && OthersSame(reqs, reqs', self)
    requires self in reqs' && Sound(reqs'[self], io, disk)
    ensures AllSound(reqs', ios[self := io], disk)
  {
    hide Sound;
  }

  lemma SelfLinked(reqs: Requests, reqs': Requests, ios: map<nat, Io>, calls: Calls, log: seq<Move>, nextId: nat,
                   self: nat, io: Io)
    requires (forall a :: a in ios <==> a in reqs) && Linked(reqs, ios, calls, log, nextId)
    requires OthersSame(reqs, reqs', self)
    requires self in reqs' && self in calls && calls[self] == Call(reqs'[self].kind, io.data)
    requires forall p :: p in io.written && Own(reqs'[self].kind, p) ==> Move(self, p) in log
    ensures Linked(reqs', ios[self := io], calls, log, nextId)
  {
  }

  lemma CallLinked(reqs: Requests, ios: map<nat, Io>, calls: Calls, log: seq<Move>, self: nat, call: Call)
    requires (forall a :: a in ios <==> a in reqs) && Linked(reqs, ios, calls, log, self)
    ensures self !in calls && Linked(reqs, ios, calls[self := call], log, self + 1)
  {
  }

  lemma LogLinked(reqs: Requests, ios: map<nat, Io>, calls: Calls, log: seq<Move>, nextId: nat, m: Move)
    requires (forall a :: a in ios <==> a in reqs) && Linked(reqs, ios, calls, log, nextId)
    ensures Linked(reqs, ios, calls, log + [m], nextId)
  {
  }

  /** A request that is over is no longer in flight. */
  lemma SelfGone(reqs: Requests, ios: map<nat, Io>, calls: Calls, log: seq<Move>, nextId: nat, disk: Bytes, self: nat)
    requires AllSound(reqs, ios, disk) && Linked(reqs, ios, calls, log, nextId)
    ensures AllSound(reqs - {self}, ios - {self}, disk) && Linked(reqs - {self}, ios - {self}, calls, log, nextId)
  {
    hide Sound;
  }

  /** A write with all of its I/O done has all of its bytes in the log; one that has kept the others
      out has them on the disk as well. */
  lemma Complete(reqs: Requests, ios: map<nat, Io>, calls: Calls, log: seq<Move>, nextId: nat, disk: Bytes, self: nat)
    requires AllSound(reqs, ios, disk) && Linked(reqs, ios, calls, log, nextId) && self in ios
    requires KindOk(reqs[self].kind) && reqs[self].kind.Write? && reqs[self].stage == WriteIo
    requires AllMoved(reqs[self], ios[self])
    ensures AllLogged(calls, log, self)
    ensures reqs[self].serialising ==> Slice(disk, reqs[self].kind.offset, reqs[self].kind.bytes) == ios[self].data
  {
    var r, io := reqs[self], ios[self];
    forall p | Own(r.kind, p)
      ensures p in io.written && Move(self, p) in log
    {
      OwnPadded(r.kind, p);
      assert Moved(r, io, p);
    }
    if r.serialising {
      assert Sound(r, io, disk);
      forall i | 0 <= i < |io.data|
        ensures Slice(disk, r.kind.offset, r.kind.bytes)[i] == io.data[i]
      {
        assert Own(r.kind, r.kind.offset + i);
      }
    }
  }

  lemma CompletedMore(initial: Bytes, calls: Calls, log: seq<Move>, completed: set<nat>, disk: Bytes, a: nat)
    requires History(initial, calls, log, completed, disk) && AllLogged(calls, log, a)
    ensures History(initial, calls, log, completed + {a}, disk)
  {
  }

  /** A byte read. */
  lemma TookAll(reqs: Requests, ios: map<nat, Io>, calls: Calls, log: seq<Move>, nextId: nat, disk: Bytes, self: nat,
                p: nat)
    requires AllSound(reqs, ios, disk) && Linked(reqs, ios, calls, log, nextId) && Past(reqs, self)
    requires Marked(reqs[self]) && IoStage(reqs[self]) && reqs[self].stage != WriteIo && Moves(reqs[self], p)
    ensures var ios' := ios[self := Took(reqs[self], ios[self], disk, p)];
            AllSound(reqs, ios', disk) && Linked(reqs, ios', calls, log, nextId)
  {
    hide Sound, Marked, IoStage, Moves;
    var io := Took(reqs[self], ios[self], disk, p);
    TookSound(reqs[self], ios[self], disk, p);
    SelfSound(reqs, reqs, ios, disk, self, io);
    SelfLinked(reqs, reqs, ios, calls, log, nextId, self, io);
  }

  /** A byte written. */
  lemma PutAll(reqs: Requests, ios: map<nat, Io>, calls: Calls, log: seq<Move>, nextId: nat, disk: Bytes, self: nat,
               p: nat, disk': Bytes, log': seq<Move>)
    requires AllSound(reqs, ios, disk) && Linked(reqs, ios, calls, log, nextId) && Past(reqs, self)
    requires Exclusive(reqs, None)
    requires Marked(reqs[self]) && IoStage(reqs[self]) && reqs[self].stage == WriteIo && Moves(reqs[self], p)
    requires !Own(reqs[self].kind, p) ==> p in if p < reqs[self].kind.offset then ios[self].head else ios[self].tail
    requires Sound(reqs[self], ios[self], disk) && Wrote(disk, disk', p, [Byte(reqs[self].kind, ios[self], p)])
    requires log' == if Own(reqs[self].kind, p) then log + [Move(self, p)] else log
    ensures var ios' := ios[self := ios[self].(written := ios[self].written + {p})];
            AllSound(reqs, ios', disk') && Linked(reqs, ios', calls, log', nextId)
    ensures !Own(reqs[self].kind, p) ==> Outside(disk, disk', 0, 0)
  {
    hide AllSound, Marked, IoStage, Moves, Covers, Exclusive, Linked, Placed, Mirrors, Inside, Filled;
    SameKeys(reqs, ios, disk);
    var io := ios[self].(written := ios[self].written + {p});
    MovesInside(reqs[self], p);
    PutSound(reqs[self], ios[self], disk, disk', p);
    OthersSound(reqs, ios, disk, disk', self, p, io);
    SameKeys(reqs, ios[self := io], disk');
    PutLinked(reqs, ios, calls, log, nextId, self, p, log');
  }

  lemma PutLinked(reqs: Requests, ios: map<nat, Io>, calls: Calls, log: seq<Move>, nextId: nat, self: nat, p: nat,
                  log': seq<Move>)
    requires (forall a :: a in ios <==> a in reqs) && Linked(reqs, ios, calls, log, nextId) && self in ios
    requires log' == if Own(reqs[self].kind, p) then log + [Move(self, p)] else log
    ensures Linked(reqs, ios[self := ios[self].(written := ios[self].written + {p})], calls, log', nextId)
  {
    var io := ios[self].(written := ios[self].written + {p});
    if Own(reqs[self].kind, p) {
      LogLinked(reqs, ios, calls, log, nextId, Move(self, p));
    }
    SelfLinked(reqs, reqs, ios, calls, log', nextId, self, io);
  }

  /** A request whose I/O is all done goes on to the next. */
  lemma NextAll(reqs: Requests, ios: map<nat, Io>, calls: Calls, log: seq<Move>, nextId: nat, disk: Bytes, self: nat,
                stage: Stage)
    requires AllSound(reqs, ios, disk) && Linked(reqs, ios, calls, log, nextId) && Past(reqs, self)
    requires KindOk(reqs[self].kind) && IoStage(reqs[self]) && AllMoved(reqs[self], ios[self])
    requires AfterIo(reqs[self]) == Some(stage)
    ensures var reqs' := reqs[self := reqs[self].(stage := stage)];
            AllSound(reqs', ios, disk) && Linked(reqs', ios, calls, log, nextId)
  {
    hide Sound, IoStage, AllMoved, AfterIo;
    var reqs' := reqs[self := reqs[self].(stage := stage)];
    NextSound(reqs[self], ios[self], disk, stage);
    SelfSound(reqs, reqs', ios, disk, self, ios[self]);
    SelfLinked(reqs, reqs', ios, calls, log, nextId, self, ios[self]);
    assert ios[self := ios[self]] == ios;
  }

  lemma WroteNowhere(disk: Bytes)
    ensures Outside(disk, disk, 0, 0)
  {
  }

  lemma PutByte(r: Request, io: Io, disk: Bytes, p: nat)
    requires Marked(r) && IoStage(r) && Sound(r, io, disk) && r.stage == WriteIo && Moves(r, p)
    ensures r.kind.Write? && |io.data| == r.kind.bytes
    ensures !Own(r.kind, p) ==> p in if p < r.kind.offset then io.head else io.tail
  {
    hide RoundDown, RoundUp, PaddedOffset, PaddedBytes;
    ByteIs(r, io, disk, p);
  }

  /** What a copy-on-read has read so far is what the disk holds. */
  ghost predicate ReadsHold(reqs: Requests, ios: map<nat, Io>, disk: Bytes)
  {
    forall a, p :: a in ios && a in reqs && CopiesOnRead(reqs[a].kind) && p in ios[a].read
      ==> ios[a].read[p] == At(disk, p)
  }

  lemma AllHold(reqs: Requests, ios: map<nat, Io>, disk: Bytes)
    requires AllSound(reqs, ios, disk) && Settled(reqs, None)
    ensures ReadsHold(reqs, ios, disk)
  {
    hide Inside, Filled, Placed, Touches;
    forall a, p | a in ios && a in reqs && CopiesOnRead(reqs[a].kind) && p in ios[a].read
      ensures ios[a].read[p] == At(disk, p)
    {
      assert Sound(reqs[a], ios[a], disk) && Formed(reqs[a]);
      MarkedTouches(reqs[a]);
    }
  }

  predicate Asleep(reqs: Requests, a: nat)
  {
    a in reqs && reqs[a].waitingFor.Some? && reqs[a].waitingFor.value !in reqs
  }

  datatype Step =
    | Start(call: Call)
    | Resume(request: nat)
    | Transfer(request: nat, pos: nat)
    | Proceed(request: nat, ok: bool)

  /** The state between two steps. */
  datatype Moment = Moment(reqs: Requests, ios: map<nat, Io>, disk: Bytes, calls: Calls, log: seq<Move>,
                           completed: set<nat>)

  predicate CanMove(reqs: Requests, a: nat, p: nat)
  {
    Past(reqs, a) && KindOk(reqs[a].kind) && Moves(reqs[a], p)
  }

  predicate CanProceed(reqs: Requests, ios: map<nat, Io>, a: nat, ok: bool)
  {
    Past(reqs, a) && KindOk(reqs[a].kind) && (ok ==> a in ios && AllMoved(reqs[a], ios[a]))
  }

  /** A byte moved for request a: into one of its buffers, or to the disk, which changes only if the
      byte is the caller's own. */
  ghost predicate MovedByte(m: Moment, m': Moment, a: nat, p: nat)
  {
    && a in m.reqs && a in m.ios && a in m.calls
    && var r, io := m.reqs[a], m.ios[a];
       if r.stage != WriteIo then
         m' == m.(ios := m.ios[a := Took(r, io, m.disk, p)])
       else
         && m' == m.(ios := m.ios[a := io.(written := io.written + {p})], disk := m'.disk, log := m'.log)
         && if Own(r.kind, p) then
              && p - r.kind.offset < |m.calls[a].data|
              && Wrote(m.disk, m'.disk, p, [m.calls[a].data[p - r.kind.offset]]) && m'.log == m.log + [Move(a, p)]
            else
              Outside(m.disk, m'.disk, 0, 0) && m'.log == m.log
  }

  lemma MovedStays(m: Moment, m': Moment, a: nat, p: nat)
    requires MovedByte(m, m', a, p) && KindOk(m.reqs[a].kind) && IoStage(m.reqs[a])
    ensures a in m'.ios && Moved(m.reqs[a], m'.ios[a], p)
    ensures forall q :: Moved(m.reqs[a], m.ios[a], q) ==> Moved(m.reqs[a], m'.ios[a], q)
  {
  }

  ghost predicate Did(s: Step, m: Moment, m': Moment)
  {
    match s
    case Start(call) =>
      && Stepped(Event.Start(call.kind), m.reqs, m'.reqs)
      && exists a :: a !in m.calls && a !in m.reqs && a in m'.reqs
                     && m' == m.(reqs := m'.reqs, ios := m.ios[a := Fresh(call.data)], calls := m.calls[a := call])
    case Resume(a) =>
      Stepped(Event.Resume(a), m.reqs, m'.reqs) && m' == m.(reqs := m'.reqs)
    case Transfer(a, p) =>
      if CanMove(m.reqs, a, p) then MovedByte(m, m', a, p) else m' == m
    case Proceed(a, ok) =>
      if CanProceed(m.reqs, m.ios, a, ok) then
        && Stepped(Event.Proceed(a, ok), m.reqs, m'.reqs)
        && m' == m.(reqs := m'.reqs, ios := if a in m'.reqs then m.ios else m.ios - {a},
                    completed := m.completed + if ok && m.reqs[a].stage == WriteIo then {a} else {})
      else m' == m
  }

  /** What holds at every moment. */
  ghost predicate AllRight(initial: Bytes, m: Moment)
  {
    && NoneLost(m.calls, m.completed, m.disk) && Untouched(initial, m.calls, m.disk)
    && ReadsHold(m.reqs, m.ios, m.disk) && TrackedRequests.Apart(m.reqs)
  }

  /** How many rounds of I/O a request has before it, at most. */
  function Stages(r: Request): (n: nat)
    ensures n <= 2
  {
    if r.stage == HeadIo then 2 else if r.stage == TailIo then 1 else 0
  }

  class SharedImage {
    const device: Device
    var disk: Bytes
    var ios: map<nat, Io>
    /** The disk at first, all calls so far, those of their bytes that have gone to the disk, and
        the writes that have succeeded. */
    ghost const initial: Bytes
    ghost var calls: Calls
    ghost var log: seq<Move>
    ghost var completed: set<nat>

    ghost predicate Valid()
      reads this, device
    {
      && device.Valid()
      && AllSound(device.reqs, ios, disk)
      && Linked(device.reqs, ios, calls, log, device.nextId)
      && History(initial, calls, log, completed, disk)
    }

    constructor (disk: Bytes)
      ensures Valid() && fresh(device) && this.disk == initial == disk && calls == map[] && log == [] && completed == {}
    {
      device := new Device();
      this.disk, initial, ios, calls, log, completed := disk, disk, map[], map[], [], {};
    }

    ghost function Now(): Moment
      reads this, device
    {
      Moment(device.reqs, ios, disk, calls, log, completed)
    }

    /** A call of bdrv_co_do_pwritev or bdrv_co_do_preadv, up to its first yield. */
    method Start(call: Call) returns (self: nat)
      requires Valid() && CallOk(call)
      modifies this, device
      ensures Valid() && disk == old(disk) && log == old(log) && completed == old(completed)
      ensures self !in old(calls) && calls == old(calls)[self := call] && self in device.reqs
      ensures self !in old(device.reqs) && ios == old(ios)[self := Fresh(call.data)]
      ensures OthersSame(old(device.reqs), device.reqs, self) && AtYield(device.reqs, self, call.kind)
    {
      hide Sound, AllSound, Linked, History, Device.Valid, Device.Settles, OthersSame;
      SameKeys(device.reqs, ios, disk);
      CallLinked(device.reqs, ios, calls, log, device.nextId, call);
      ghost var was := device.reqs;
      self := device.Start(call.kind);
      CallMore(initial, calls, log, completed, disk, self, call);
      calls := calls[self := call];
      Entered(self, was, call.data);
      SettlesYields(self, call.kind);
      ios := ios[self := Fresh(call.data)];
    }

    lemma SettlesYields(self: nat, kind: Kind)
      requires KindOk(kind) && device.Settles(self, kind)
      ensures AtYield(device.reqs, self, kind)
    {
    }

    lemma Entered(self: nat, was: Requests, data: Bytes)
      requires device.Valid() && OthersSame(was, device.reqs, self) && AllSound(was, ios, disk)
      requires forall a :: a in ios <==> a in was
      requires Linked(was, ios, calls, log, device.nextId) && self in calls && calls[self].data == data
      requires CallOk(calls[self]) && device.Settles(self, calls[self].kind)
      ensures AllSound(device.reqs, ios[self := Fresh(data)], disk)
      ensures forall a :: a in ios[self := Fresh(data)] <==> a in device.reqs
      ensures Linked(device.reqs, ios[self := Fresh(data)], calls, log, device.nextId)
    {
      hide Sound, AllSound, Linked, OthersSame;
      FreshSound(device.reqs[self], data, disk);
      SelfSound(was, device.reqs, ios, disk, self, Fresh(data));
      SelfLinked(was, device.reqs, ios, calls, log, device.nextId, self, Fresh(data));
      SameKeys(device.reqs, ios[self := Fresh(data)], disk);
    }

    /** The request that self slept on has ended. */
    method Resume(self: nat)
      requires Valid() && self in device.reqs && device.reqs[self].waitingFor.Some?
      requires device.reqs[self].waitingFor.value !in device.reqs
      modifies device
      ensures Valid() && OthersSame(old(device.reqs), device.reqs, self)
      ensures AtYield(device.reqs, self, old(device.reqs)[self].kind)
    {
      hide Sound, AllSound, Linked, History, Device.Valid, Device.Settles, OthersSame;
      SameKeys(device.reqs, ios, disk);
      CallOf(device.reqs, ios, calls, log, device.nextId, disk, self);
      ghost var was := device.reqs;
      CallIs(initial, calls, log, completed, disk, self);
      device.Resume(self);
      SettlesYields(self, was[self].kind);
      Entered(self, was, ios[self].data);
      assert ios[self := Fresh(ios[self].data)] == ios;
    }

    /** The driver moves a byte. */
    method Transfer(self: nat, p: nat)
      requires Valid() && Past(device.reqs, self) && Moves(device.reqs[self], p)
      modifies `disk, `ios, `log
      ensures Valid() && MovedByte(old(Now()), Now(), self, p)
    {
      hide Sound, AllSound, Linked, History, Device.Valid, Marked, IoStage, Exclusive, Moves, Wrote, Outside;
      InIo(self);
      var r, io := device.reqs[self], ios[self];
      if r.stage != WriteIo {
        TookAll(device.reqs, ios, calls, log, device.nextId, disk, self, p);
        ios := ios[self := Took(r, io, disk, p)];
        WroteNowhere(disk);
      } else {
        PutByte(r, io, disk, p);
        disk := Store(disk, p, [Byte(r.kind, io, p)]);
        if Own(r.kind, p) {
          log := log + [Move(self, p)];
          LogMore(initial, calls, old(log), completed, old(disk), disk, Move(self, p));
        }
        PutAll(device.reqs, ios, calls, old(log), device.nextId, old(disk), self, p, disk, log);
        if !Own(r.kind, p) {
          SameHistory(initial, calls, log, completed, old(disk), disk);
        }
        ios := ios[self := io.(written := io.written + {p})];
      }
    }

    lemma InIo(self: nat)
      requires device.Valid() && AllSound(device.reqs, ios, disk) && Linked(device.reqs, ios, calls, log, device.nextId)
      requires History(initial, calls, log, completed, disk) && Past(device.reqs, self)
      ensures self in ios && Marked(device.reqs[self]) && KindOk(device.reqs[self].kind) && IoStage(device.reqs[self])
      ensures Exclusive(device.reqs, None) && Sound(device.reqs[self], ios[self], disk) && self in calls
      ensures calls[self] == Call(device.reqs[self].kind, ios[self].data) && CallOk(calls[self])
    {
      hide Sound, Linked, History, IoStage;
      CallOf(device.reqs, ios, calls, log, device.nextId, disk, self);
      CallIs(initial, calls, log, completed, disk, self);
    }

    /** The driver's I/O for a request is all done, or has failed somewhere. */
    method Proceed(self: nat, ok: bool)
      requires Valid() && Past(device.reqs, self) && (ok ==> AllMoved(device.reqs[self], ios[self]))
      modifies `ios, `completed, device
      ensures Valid() && Stepped(Event.Proceed(self, ok), old(device.reqs), device.reqs)
      ensures ios == if self in device.reqs then old(ios) else old(ios) - {self}
      ensures completed == old(completed) + if ok && old(device.reqs)[self].stage == WriteIo then {self} else {}
      ensures ok && old(device.reqs)[self].stage == WriteIo && old(device.reqs)[self].serialising ==>
                Slice(disk, calls[self].kind.offset, calls[self].kind.bytes) == calls[self].data
    {
      hide Sound, AllSound, Linked, History, Device.Valid, Marked, Exclusive, Slice, AllMoved;
      InIo(self);
      ghost var was := device.reqs;
      ghost var next := AfterIo(was[self]);
      if ok && next.Some? {
        NextAll(was, ios, calls, log, device.nextId, disk, self, next.value);
      } else {
        SelfGone(was, ios, calls, log, device.nextId, disk, self);
      }
      if ok && was[self].stage == WriteIo {
        Complete(was, ios, calls, log, device.nextId, disk, self);
        CompletedMore(initial, calls, log, completed, disk, self);
        completed := completed + {self};
      }
      device.Proceed(self, ok);
      if self !in device.reqs {
        ios := ios - {self};
      }
    }

    /** The driver does all of the I/O that a request is in. */
    method Drive(self: nat)
      requires Valid() && Past(device.reqs, self)
      modifies `disk, `ios, `log
      ensures Valid() && self in ios && KindOk(device.reqs[self].kind) && AllMoved(device.reqs[self], ios[self])
    {
      hide Sound, AllSound, Linked, History, Device.Valid, Marked, Exclusive;
      InIo(self);
      var r := device.reqs[self];
      var p := From(r);
      while p < From(r) + Size(r)
        invariant Valid() && From(r) <= p <= From(r) + Size(r) && self in ios
        invariant forall q :: From(r) <= q < p ==> Moved(r, ios[self], q)
      {
        ghost var m := Now();
        Transfer(self, p);
        MovedStays(m, Now(), self, p);
        p := p + 1;
      }
    }

    /** A request past its wait is never stuck: with a driver that works it comes to its end, and a
        write succeeds. */
    method Finish(self: nat)
      requires Valid() && Past(device.reqs, self)
      modifies this, device
      ensures Valid() && device.reqs == old(device.reqs) - {self} && self in calls
      ensures calls[self].kind.Write? ==> self in completed
    {
      hide Sound, AllSound, Linked, History, Device.Valid, Marked, Exclusive, AllMoved;
      InIo(self);
      ghost var reqs, kind := device.reqs, device.reqs[self].kind;
      var left := 3;
      while self in device.reqs
        invariant Valid() && self in calls && calls[self].kind == kind
        invariant if self in device.reqs then Past(device.reqs, self) && left > Stages(device.reqs[self])
                  else kind.Write? ==> self in completed
        invariant device.reqs - {self} == reqs - {self}
        decreases left
      {
        Drive(self);
        InIo(self);
        Proceed(self, true);
        left := left - 1;
      }
      assert device.reqs == device.reqs - {self};
    }

    /** One step, if it can be taken. */
    method Take(s: Step)
      requires Valid() && (s.Start? ==> CallOk(s.call))
      modifies this, device
      ensures Valid() && Did(s, old(Now()), Now())
    {
      hide Sound, AllSound, Linked, History, Device.Valid, CallOk, AllMoved, Moves, MovedByte, OthersSame, AtYield;
      match s {
        case Start(call) =>
          var self := Start(call);
        case Resume(a) =>
          if Asleep(device.reqs, a) { Resume(a); }
        case Transfer(a, p) =>
          if CanMove(device.reqs, a, p) { Transfer(a, p); }
        case Proceed(a, ok) =>
          if CanProceed(device.reqs, ios, a, ok) { Proceed(a, ok); }
      }
    }

    lemma Right()
      requires Valid()
      ensures AllRight(initial, Now())
    {
      hide AllSound, Linked, History, NoneLost, Untouched, ReadsHold, TrackedRequests.Apart;
      AllKept(initial, calls, log, completed, disk);
      AllHold(device.reqs, ios, disk);
      SettledApart(device.reqs);
    }

    /** Any interleaving of any calls, and of the bytes that the driver moves for them. */
    method Run(schedule: seq<Step>) returns (ghost trace: seq<Moment>)
      requires Valid() && forall i :: 0 <= i < |schedule| && schedule[i].Start? ==> CallOk(schedule[i].call)
      modifies this, device
      ensures Valid()
      ensures |trace| == |schedule| + 1 && trace[0] == old(Now()) && trace[|schedule|] == Now()
      ensures forall i :: 0 <= i < |schedule| ==> Did(schedule[i], trace[i], trace[i + 1])
      ensures forall i :: 0 <= i <= |schedule| ==> AllRight(initial, trace[i])
    {
      hide Valid, CallOk, Did, AllRight;
      trace := [Now()];
      Right();
      var i := 0;
      while i < |schedule|
        invariant 0 <= i <= |schedule| && Valid()
        invariant |trace| == i + 1 && trace[0] == old(Now()) && trace[i] == Now()
        invariant forall j :: 0 <= j < i ==> Did(schedule[j], trace[j], trace[j + 1])
        invariant forall j :: 0 <= j <= i ==> AllRight(initial, trace[j])
      {
        Take(schedule[i]);
        Right();
        trace := trace + [Now()];
        i := i + 1;
      }
    }
  }
}
