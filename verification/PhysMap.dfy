/**
 The physical page map: in-place insertion of page ranges into the radix tree, skip
 compression of a finished tree, and lookup.
 */
module PhysMap {
  import opened PageTable

  /** Where an entry lives: the entry of the whole map, or slot j of a node. */
  datatype Loc = Root | Slot(node: nat, j: nat)

  /** Most nodes that filling [index, index+nb) below one entry can allocate: a range that
      touches an end of the entry needs one node per level, any other range at most two. */
  function NodesNeeded(level: nat, index: nat, nb: nat, b: nat): (n: nat)
    ensures 1 <= n <= 2 * level + 1
  {
    if index == b || index + nb >= b + Step(level + 1) then level + 1 else 2 * level + 1
  }

  /** The same for one slot of a node at this level. */
  function SlotNeeds(level: nat, index: nat, nb: nat, sb: nat): (n: nat)
    requires level == 0 ==> index == sb && nb > 0
  {
    if index == sb && nb >= Step(level) then 0 else NodesNeeded(level - 1, index, nb, sb)
  }

  /** The node budget of a range covers the slot it has reached, after what the slots before
      took: only the first slot (if entered off its start, `bad`) and the last need nodes. */
  lemma SlotBudget(level: nat, index0: nat, nb0: nat, b: nat, sb: nat, index: nat, nb: nat, first: bool, bad: bool)
    requires b <= sb && sb + Step(level) <= b + Step(level + 1)
    requires sb <= index < sb + Step(level) && nb > 0
    requires b <= index0 && index + nb == index0 + nb0
    requires if first then index == index0 && (bad <==> index != sb) else index == sb && (bad ==> index0 != b)
    ensures var used := if bad && !first then level else 0;
            && used + SlotNeeds(level, index, nb, sb) <= NodesNeeded(level, index0, nb0, b) - 1
            && (index + nb > sb + Step(level) ==> used + SlotNeeds(level, index, nb, sb) <= if bad then level else 0)
  {
  }

  lemma DigitBase(q: Place, idx: nat)
    requires q.base % Step(q.level + 1) == 0 && Within(idx, q.level + 1, q.base)
    ensures Within(idx, q.level, SlotBase(q, Digit(idx, q.level)))
  {
    DigitSlot(q.base, q.level, idx);
  }

  lemma NextSlot(q: Place, j: nat)
    requires j < L2_SIZE && q.base % Step(q.level + 1) == 0
    ensures q.base <= SlotBase(q, j) && SlotBase(q, j) + Step(q.level) <= q.base + Step(q.level + 1)
    ensures SlotBase(q, j + 1) == SlotBase(q, j) + Step(q.level)
    ensures j + 1 == L2_SIZE ==> SlotBase(q, j + 1) == q.base + Step(q.level + 1)
  {
    SlotInside(q.base, q.level, j);
  }

  lemma AlignedStart(sb: nat, s: nat, index: nat)
    requires s > 0 && sb % s == 0 && sb <= index < sb + s
    ensures index % s == 0 <==> index == sb
  {
    if index % s == 0 {
      DivBack(sb, s);
      DivBack(index, s);
      MulOrder(sb / s, index / s, s);
      MulOrder(index / s, sb / s, s);
    }
  }

  lemma BelowSlot(q: Place, p: Place, j: nat)
    requires p.base % Step(p.level + 1) == 0 && j < L2_SIZE
    requires Below(q, p.level, SlotBase(p, j))
    ensures Below(q, p.level + 1, p.base)
    ensures forall d :: 0 <= d < L2_SIZE && d != j ==> !Below(q, p.level, SlotBase(p, d))
  {
    SlotInside(p.base, p.level, j);
    SlotUnique(p.base, p.level, q.base, j);
    forall d | 0 <= d < L2_SIZE && d != j
      ensures !Below(q, p.level, SlotBase(p, d))
    {
      if Below(q, p.level, SlotBase(p, d)) { SlotUnique(p.base, p.level, q.base, d); }
    }
  }

  /** The change from nodes to nodes' stays below slot j of node p, and that slot itself. */
  predicate OnlySlot(nodes: seq<Node>, nodes': seq<Node>, place: seq<Place>, p: nat, j: nat)
    requires |place| == |nodes|
    requires p < |nodes| && j < L2_SIZE
  {
    && |nodes| <= |nodes'|
    && nodes'[p] == nodes[p][j := nodes'[p][j]]
    && forall k :: 0 <= k < |nodes| && k != p && !Below(place[k], place[p].level, SlotBase(place[p], j)) ==>
         nodes'[k] == nodes[k]
  }

  /** A change confined to one slot leaves the walks through the other slots alone. */
  lemma OtherSlots(nodes: seq<Node>, nodes': seq<Node>, place: seq<Place>, p: nat, j: nat, idx: nat)
    requires TableOk(nodes, place) && p < |nodes| && j < L2_SIZE
    requires OnlySlot(nodes, nodes', place, p, j)
    requires Digit(idx, place[p].level) != j
    ensures Walk(nodes', Entry(1, p), place[p].level + 1, idx) == Walk(nodes, Entry(1, p), place[p].level + 1, idx)
  {
    var l := place[p].level;
    var d := Digit(idx, l);
    assert NodeOk(nodes, place, p);
    forall k | 0 <= k < |nodes| && Below(place[k], l, SlotBase(place[p], d))
      ensures k < |nodes'| && nodes'[k] == nodes[k]
    {
      BelowSlot(place[k], place[p], d);
    }
    WalkFrame(nodes, nodes', place, nodes[p][d], l, SlotBase(place[p], d), idx);
  }

  // ---------- what insertion does, said about walks ----------

  /** [lo, hi) is unassigned below an entry e of height h at base b. */
  ghost predicate Free(nodes: seq<Node>, e: Entry, h: nat, b: nat, lo: nat, hi: nat)
  {
    forall idx: nat :: Within(idx, h, b) && lo <= idx < hi ==> Walk(nodes, e, h, idx) == UNASSIGNED
  }

  /** The entry leads to a node, or to none yet, and filling [lo, hi) below it splits no leaf. */
  ghost predicate Opens(nodes: seq<Node>, e: Entry, h: nat, b: nat, lo: nat, hi: nat)
    decreases h, 0
  {
    && h > 0 && e.skip == 1
    && (e.ptr < |nodes| ==>
          forall j :: 0 <= j < L2_SIZE ==> Unsplit(nodes, nodes[e.ptr][j], h - 1, SlotBase(Place(h - 1, b), j), lo, hi))
  }

  /** Filling [lo, hi) does not meet the entry, replaces it as a whole, or goes on below it. */
  ghost predicate Unsplit(nodes: seq<Node>, e: Entry, h: nat, b: nat, lo: nat, hi: nat)
    decreases h, 1
  {
    hi <= b || b + Step(h) <= lo || (lo <= b && b + Step(h) <= hi) || Opens(nodes, e, h, b, lo, hi)
  }

  lemma {:induction false} UnsplitFrame(nodes: seq<Node>, nodes': seq<Node>, place: seq<Place>, e: Entry, h: nat,
                                        b: nat, lo: nat, hi: nat)
    requires TableOk(nodes, place) && |nodes'| <= NIL && EntryOk(nodes, place, e, h, b)
    requires AgreeBelow(nodes, nodes', place, h, b) && Unsplit(nodes, e, h, b, lo, hi)
    ensures Unsplit(nodes', e, h, b, lo, hi)
    decreases h
  {
    if Opens(nodes, e, h, b, lo, hi) && e.ptr != NIL {
      SlotStaysBelow(nodes, place, e, h, b, 0);
      forall j | 0 <= j < L2_SIZE
        ensures Unsplit(nodes', nodes[e.ptr][j], h - 1, SlotBase(Place(h - 1, b), j), lo, hi)
      {
        SlotStaysBelow(nodes, place, e, h, b, j);
        var b' := SlotBase(place[e.ptr], j);
        forall k | 0 <= k < |nodes| && Below(place[k], h - 1, b')
          ensures k < |nodes'| && nodes'[k] == nodes[k]
        {
          assert Below(place[k], h, b);
        }
        UnsplitFrame(nodes, nodes', place, nodes[e.ptr][j], h - 1, b', lo, hi);
      }
    }
  }

  /** What lies before the entry does not matter to it. */
  lemma {:induction false} UnsplitFrom(nodes: seq<Node>, e: Entry, h: nat, b: nat, lo: nat, lo': nat, hi: nat)
    requires lo <= lo' <= b && Unsplit(nodes, e, h, b, lo, hi)
    ensures Unsplit(nodes, e, h, b, lo', hi)
    decreases h
  {
    if Opens(nodes, e, h, b, lo, hi) && e.ptr < |nodes| {
      forall j | 0 <= j < L2_SIZE
        ensures Unsplit(nodes, nodes[e.ptr][j], h - 1, SlotBase(Place(h - 1, b), j), lo', hi)
      {
        UnsplitFrom(nodes, nodes[e.ptr][j], h - 1, SlotBase(Place(h - 1, b), j), lo, lo', hi);
      }
    }
  }

  lemma FilledNone(nodes: seq<Node>, e: Entry, place: seq<Place>, h: nat, b: nat, lo: nat, leaf: nat)
    requires |place| == |nodes|
    ensures Filled(nodes, e, nodes, e, h, b, lo, lo, leaf) && Framed(nodes, nodes, place, h, b, Root)
  {
  }

  lemma FilledMore(n0: seq<Node>, n1: seq<Node>, n2: seq<Node>, place1: seq<Place>, place2: seq<Place>,
                   e: Entry, h: nat, b: nat, lo: nat, mid: nat, hi: nat, leaf: nat)
    requires |place1| == |n1| && |place2| == |n2| && place1 <= place2 && lo <= mid <= hi
    requires Filled(n0, e, n1, e, h, b, lo, mid, leaf) && Filled(n1, e, n2, e, h, b, mid, hi, leaf)
    requires Framed(n0, n1, place1, h, b, Root) && Framed(n1, n2, place2, h, b, Root)
    ensures Filled(n0, e, n2, e, h, b, lo, hi, leaf) && Framed(n0, n2, place2, h, b, Root)
  {
    hide Walk;
  }

  const EMPTY_NODE: Node := seq(L2_SIZE, _ => Entry(1, NIL))
  const LEAF_NODE: Node := seq(L2_SIZE, _ => Entry(0, UNASSIGNED))

  /** A node that leads nowhere holds nothing to split. */
  lemma FreshUnsplit(nodes: seq<Node>, p: nat, h: nat, b: nat, lo: nat, hi: nat)
    requires h > 0 && p < |nodes| <= NIL && lo < hi && nodes[p] == if h == 1 then LEAF_NODE else EMPTY_NODE
    ensures Opens(nodes, Entry(1, p), h, b, lo, hi)
  {
    forall j | 0 <= j < L2_SIZE
      ensures Unsplit(nodes, nodes[p][j], h - 1, SlotBase(Place(h - 1, b), j), lo, hi)
    {
    }
  }

  /** What is free below a node is free below the slot that holds it. */
  lemma SlotFree(nodes: seq<Node>, place: seq<Place>, p: nat, j: nat, lo: nat, hi: nat)
    requires TableOk(nodes, place) && p < |nodes| && j < L2_SIZE
    requires Free(nodes, Entry(1, p), place[p].level + 1, place[p].base, lo, hi)
    ensures Free(nodes, nodes[p][j], place[p].level, SlotBase(place[p], j), lo, hi)
  {
    var l, b := place[p].level, place[p].base;
    assert NodeOk(nodes, place, p);
    forall idx: nat | Within(idx, l, SlotBase(place[p], j)) && lo <= idx < hi
      ensures Walk(nodes, nodes[p][j], l, idx) == UNASSIGNED
    {
      SlotUnique(b, l, idx, j);
      assert Walk(nodes, Entry(1, p), l + 1, idx) == Walk(nodes, nodes[p][j], l, idx);
    }
  }

  /** Free pages are not part of any leaf above level 0. */
  lemma {:induction false} FreeUnsplit(nodes: seq<Node>, place: seq<Place>, e: Entry, h: nat, b: nat, lo: nat, hi: nat)
    requires TableOk(nodes, place) && Plain(nodes, place) && EntryOk(nodes, place, e, h, b) && PlainEntry(e, h)
    requires Free(nodes, e, h, b, lo, hi) && lo < hi
    ensures Unsplit(nodes, e, h, b, lo, hi)
    ensures h > 0 && lo < b + Step(h) && b < hi ==> Opens(nodes, e, h, b, lo, hi)
    decreases h
  {
    if h > 0 && lo < b + Step(h) && b < hi {
      assert e.skip == 1 by {
        var idx := if lo < b then b else lo;
        assert Within(idx, h, b) && Walk(nodes, e, h, idx) == UNASSIGNED;
      }
      if e.ptr < |nodes| {
        SlotStaysBelow(nodes, place, e, h, b, 0);
        forall j | 0 <= j < L2_SIZE
          ensures Unsplit(nodes, nodes[e.ptr][j], h - 1, SlotBase(Place(h - 1, b), j), lo, hi)
        {
          SlotStaysBelow(nodes, place, e, h, b, j);
          SlotFree(nodes, place, e.ptr, j, lo, hi);
          FreeUnsplit(nodes, place, nodes[e.ptr][j], h - 1, SlotBase(place[e.ptr], j), lo, hi);
        }
      }
    }
  }

  /** Below the entry, exactly [lo, hi) has changed, and it now holds leaf. */
  ghost predicate Filled(nodes: seq<Node>, e: Entry, nodes': seq<Node>, e': Entry,
                         h: nat, b: nat, lo: nat, hi: nat, leaf: nat)
  {
    forall idx: nat :: Within(idx, h, b) ==>
      Walk(nodes', e', h, idx) == if lo <= idx < hi then leaf else Walk(nodes, e, h, idx)
  }

  /** Nodes that do not stand for a part of the range are the same, loc itself excepted. */
  predicate Framed(nodes: seq<Node>, nodes': seq<Node>, place: seq<Place>, h: nat, b: nat, loc: Loc)
    requires |place| == |nodes'|
  {
    && |nodes| <= |nodes'|
    && (loc.Slot? && loc.node < |nodes| && loc.j < L2_SIZE && !Below(place[loc.node], h, b) ==>
          nodes'[loc.node] == nodes[loc.node][loc.j := nodes'[loc.node][loc.j]])
    && (forall k :: 0 <= k < |nodes| && !Below(place[k], h, b) && !(loc.Slot? && loc.node == k) ==>
          nodes'[k] == nodes[k])
    && (forall k :: |nodes| <= k < |nodes'| ==> Below(place[k], h, b))
  }

  /** Appending a node that leads nowhere keeps the table well formed. */
  lemma AppendNode(nodes: seq<Node>, place: seq<Place>, n: Node, q: Place)
    requires TableOk(nodes, place) && Plain(nodes, place) && |nodes| < NIL
    requires q.level < LEVELS && q.base % Step(q.level + 1) == 0
    requires n == if q.level == 0 then LEAF_NODE else EMPTY_NODE
    ensures TableOk(nodes + [n], place + [q]) && Plain(nodes + [n], place + [q])
  {
    var nodes', place' := nodes + [n], place + [q];
    forall k | 0 <= k < |nodes'|
      ensures NodeOk(nodes', place', k)
    {
      if k < |nodes| { assert NodeOk(nodes, place, k); }
    }
  }

  /** Storing a well-formed entry keeps the table well formed. */
  lemma StoreEntry(nodes: seq<Node>, place: seq<Place>, k: nat, j: nat, e: Entry)
    requires TableOk(nodes, place) && k < |nodes| && j < L2_SIZE
    requires EntryOk(nodes, place, e, place[k].level, SlotBase(place[k], j))
    ensures TableOk(nodes[k := nodes[k][j := e]], place)
    ensures Plain(nodes, place) && PlainEntry(e, place[k].level) ==> Plain(nodes[k := nodes[k][j := e]], place)
  {
    var nodes' := nodes[k := nodes[k][j := e]];
    forall i | 0 <= i < |nodes'|
      ensures NodeOk(nodes', place, i)
    {
      assert NodeOk(nodes, place, i);
    }
  }

  /** Filling [lo, hi) inside one slot fills it in the node. */
  lemma SlotFilled(nodes: seq<Node>, place: seq<Place>, nodes': seq<Node>, place': seq<Place>,
                   p: nat, j: nat, lo: nat, hi: nat, leaf: nat)
    requires TableOk(nodes, place) && |nodes'| <= NIL && p < |nodes| && j < L2_SIZE
    requires OnlySlot(nodes, nodes', place, p, j)
    requires SlotBase(place[p], j) <= lo && hi <= SlotBase(place[p], j) + Step(place[p].level)
    requires Filled(nodes, nodes[p][j], nodes', nodes'[p][j], place[p].level, SlotBase(place[p], j), lo, hi, leaf)
    ensures Filled(nodes, Entry(1, p), nodes', Entry(1, p), place[p].level + 1, place[p].base, lo, hi, leaf)
  {
    var l, b := place[p].level, place[p].base;
    assert NodeOk(nodes, place, p);
    var h := l + 1;
    forall idx: nat | Within(idx, h, b)
      ensures Walk(nodes', Entry(1, p), h, idx) ==
              if lo <= idx < hi then leaf else Walk(nodes, Entry(1, p), h, idx)
    {
      DigitSlot(b, l, idx);
      if Digit(idx, l) != j {
        OtherSlots(nodes, nodes', place, p, j, idx);
        if lo <= idx < hi { SlotUnique(b, l, idx, j); }
      }
    }
  }

  // ---------- what compression does, said about walks ----------

  /** Below an entry, every page index keeps its section, except that an unassigned one may
      now be answered with a section that some other index below the same entry holds. */
  ghost predicate Coarser(nodes: seq<Node>, e: Entry, nodes': seq<Node>, e': Entry, h: nat, b: nat)
  {
    forall idx: nat :: Within(idx, h, b) ==> CoarserAt(nodes, e, Walk(nodes', e', h, idx), h, b, idx)
  }

  ghost predicate CoarserAt(nodes: seq<Node>, e: Entry, n: nat, h: nat, b: nat, idx: nat)
  {
    || n == Walk(nodes, e, h, idx)
    || (Walk(nodes, e, h, idx) == UNASSIGNED && exists x: nat :: Within(x, h, b) && Walk(nodes, e, h, x) == n)
  }

  lemma CoarserSame(nodes: seq<Node>, e: Entry, h: nat, b: nat)
    ensures Coarser(nodes, e, nodes, e, h, b)
  {
  }

  lemma CoarserTrans(n0: seq<Node>, e0: Entry, n1: seq<Node>, e1: Entry, n2: seq<Node>, e2: Entry, h: nat, b: nat)
    requires Coarser(n0, e0, n1, e1, h, b) && Coarser(n1, e1, n2, e2, h, b)
    ensures Coarser(n0, e0, n2, e2, h, b)
  {
    forall idx: nat | Within(idx, h, b)
      ensures CoarserAt(n0, e0, Walk(n2, e2, h, idx), h, b, idx)
    {
      var n := Walk(n2, e2, h, idx);
      assert CoarserAt(n0, e0, Walk(n1, e1, h, idx), h, b, idx);
      assert CoarserAt(n1, e1, n, h, b, idx);
      if n != Walk(n1, e1, h, idx) {
        var x: nat :| Within(x, h, b) && Walk(n1, e1, h, x) == n;
        assert CoarserAt(n0, e0, n, h, b, x);
      }
    }
  }

  /** Compressing below one slot compresses the node. */
  lemma SlotCoarser(nodes: seq<Node>, nodes': seq<Node>, place: seq<Place>, p: nat, j: nat, h: nat, b: nat)
    requires TableOk(nodes, place) && p < |nodes| && j < L2_SIZE && |nodes'| == |nodes|
    requires h == place[p].level + 1 && b == place[p].base
    requires OnlySlot(nodes, nodes', place, p, j)
    requires Coarser(nodes, nodes[p][j], nodes', nodes'[p][j], place[p].level, SlotBase(place[p], j))
    ensures Coarser(nodes, Entry(1, p), nodes', Entry(1, p), h, b)
  {
    var l := place[p].level;
    var sb := SlotBase(place[p], j);
    assert NodeOk(nodes, place, p);
    SlotInside(b, l, j);
    forall idx: nat | Within(idx, h, b)
      ensures CoarserAt(nodes, Entry(1, p), Walk(nodes', Entry(1, p), h, idx), h, b, idx)
    {
      DigitSlot(b, l, idx);
      if Digit(idx, l) != j {
        OtherSlots(nodes, nodes', place, p, j, idx);
      } else {
        var n := Walk(nodes', nodes'[p][j], l, idx);
        assert CoarserAt(nodes, nodes[p][j], n, l, sb, idx);
        if n != Walk(nodes, nodes[p][j], l, idx) {
          var x: nat :| Within(x, l, sb) && Walk(nodes, nodes[p][j], l, x) == n;
          SlotUnique(b, l, x, j);
          assert Walk(nodes, Entry(1, p), h, x) == n;
        }
      }
    }
  }

  /** The entry that replaces a node with a single used slot: it skips the node. */
  function Collapsed(c: Entry): Entry
  {
    if c.skip == 0 then Entry(0, c.ptr) else Entry(1 + c.skip, c.ptr)
  }

  /** Skipping a node whose other slots are all empty: the digit of that level is no longer
      compared, so foreign indices are answered with what the kept slot holds. */
  lemma CollapseCoarser(nodes: seq<Node>, place: seq<Place>, p: nat, v: nat, h: nat, b: nat)
    requires TableOk(nodes, place) && p < |nodes| && v < L2_SIZE
    requires h == place[p].level + 1 && b == place[p].base
    requires forall j :: 0 <= j < L2_SIZE && j != v ==> nodes[p][j].ptr == NIL
    requires nodes[p][v].ptr != NIL
    ensures Coarser(nodes, Entry(1, p), nodes, Collapsed(nodes[p][v]), h, b)
    ensures EntryOk(nodes, place, Collapsed(nodes[p][v]), h, b)
  {
    assert NodeOk(nodes, place, p);
    SlotInside(b, h - 1, v);
    forall idx: nat | Within(idx, h, b)
      ensures CoarserAt(nodes, Entry(1, p), Walk(nodes, Collapsed(nodes[p][v]), h, idx), h, b, idx)
    {
      if Digit(idx, h - 1) != v {
        assert EntryOk(nodes, place, nodes[p][Digit(idx, h - 1)], h - 1, SlotBase(place[p], Digit(idx, h - 1)));
        var x := ForeignIndex(nodes, p, v, h, b, idx);
      }
    }
  }

  /** The index below the kept slot whose section a foreign index is answered with. */
  lemma ForeignIndex(nodes: seq<Node>, p: nat, v: nat, h: nat, b: nat, idx: nat) returns (x: nat)
    requires p < |nodes| && p != NIL && v < L2_SIZE && h > 0 && b % Step(h) == 0
    requires nodes[p][v].skip > 0 ==> nodes[p][v].skip <= h - 1
    ensures Within(x, h, b)
    ensures Walk(nodes, Entry(1, p), h, x) == Walk(nodes, Collapsed(nodes[p][v]), h, idx)
  {
    var l, sb := h - 1, b + v * Step(h - 1);
    x := sb + idx % Step(l);
    SlotInside(b, l, v);
    AddMultiple(sb, idx, Step(l));
    SlotUnique(b, l, x, v);
    WalkLow(nodes, nodes[p][v], l, idx, x);
  }

  lemma AddMultiple(a: nat, x: nat, s: nat)
    requires s > 0 && a % s == 0
    ensures (a + x % s) % s == x % s
  {
    DivBack(a, s);
    DivUnique(a + x % s, s, a / s, x % s);
  }

  predicate OneUsed(n: Node)
  {
    exists v :: 0 <= v < L2_SIZE && n[v].ptr != NIL && forall j :: 0 <= j < L2_SIZE && j != v ==> n[j].ptr == NIL
  }

  /** Nothing that can be reached from the entry is left to compress. */
  ghost predicate Tight(nodes: seq<Node>, e: Entry, h: nat)
    decreases h
  {
    0 < e.skip <= h && e.ptr < |nodes| ==>
      !OneUsed(nodes[e.ptr]) && forall j :: 0 <= j < L2_SIZE ==> Tight(nodes, nodes[e.ptr][j], h - e.skip)
  }

  lemma {:induction false} TightFrame(nodes: seq<Node>, nodes': seq<Node>, place: seq<Place>, e: Entry, h: nat, b: nat)
    requires TableOk(nodes, place) && |nodes'| == |nodes| && EntryOk(nodes, place, e, h, b)
    requires AgreeBelow(nodes, nodes', place, h, b) && Tight(nodes, e, h)
    ensures Tight(nodes', e, h)
    decreases h
  {
    if e.skip > 0 && e.ptr < |nodes| {
      var l := h - e.skip;
      SlotStaysBelow(nodes, place, e, h, b, 0);
      forall j | 0 <= j < L2_SIZE
        ensures Tight(nodes', nodes[e.ptr][j], l)
      {
        SlotStaysBelow(nodes, place, e, h, b, j);
        var b' := SlotBase(place[e.ptr], j);
        forall k | 0 <= k < |nodes| && Below(place[k], l, b')
          ensures nodes'[k] == nodes[k]
        {
          assert Below(place[k], h, b);
        }
        TightFrame(nodes, nodes', place, nodes[e.ptr][j], l, b');
      }
    }
  }

  lemma TightNone(nodes: seq<Node>, h: nat)
    requires |nodes| <= NIL
    ensures forall skip :: Tight(nodes, Entry(skip, NIL), h)
  {
  }

  lemma TightNode(nodes: seq<Node>, p: nat, h: nat)
    requires p < |nodes| && h > 0 && !OneUsed(nodes[p]) && forall j :: 0 <= j < L2_SIZE ==>
               Tight(nodes, nodes[p][j], h - 1)
    ensures Tight(nodes, Entry(1, p), h)
  {
  }

  lemma TightCollapsed(nodes: seq<Node>, c: Entry, h: nat)
    requires h > 0 && Tight(nodes, c, h - 1)
    ensures Tight(nodes, Collapsed(c), h)
  {
  }

  /** Compressing below slot i leaves the other slots tight. */
  lemma TightSlots(nodes: seq<Node>, nodes': seq<Node>, place: seq<Place>, p: nat, i: nat, j: nat)
    requires TableOk(nodes, place) && |nodes'| == |nodes| && p < |nodes| && i < L2_SIZE && j < L2_SIZE && i != j
    requires OnlySlot(nodes, nodes', place, p, i) && Tight(nodes, nodes[p][j], place[p].level)
    ensures Tight(nodes', nodes'[p][j], place[p].level)
  {
    var l, b := place[p].level, SlotBase(place[p], j);
    assert NodeOk(nodes, place, p);
    forall k | 0 <= k < |nodes| && Below(place[k], l, b)
      ensures nodes'[k] == nodes[k]
    {
      BelowSlot(place[k], place[p], j);
    }
    TightFrame(nodes, nodes', place, nodes[p][j], l, b);
  }

  /** Nothing below the entry has been compressed yet. */
  predicate PlainBelow(nodes: seq<Node>, place: seq<Place>, h: nat, b: nat)
    requires |place| == |nodes|
  {
    forall k, j :: 0 <= k < |nodes| && 0 <= j < L2_SIZE && Below(place[k], h, b) ==>
      PlainEntry(nodes[k][j], place[k].level)
  }

  /** Slots i and up of node p, and all below them, are as they were. */
  predicate Untouched(nodes: seq<Node>, nodes': seq<Node>, place: seq<Place>, p: nat, i: nat)
    requires |place| == |nodes| <= |nodes'|
    requires p < |nodes|
  {
    && (forall j :: i <= j < L2_SIZE ==> nodes'[p][j] == nodes[p][j])
    && (forall k, j :: 0 <= k < |nodes| && i <= j < L2_SIZE &&
                       Below(place[k], place[p].level, SlotBase(place[p], j)) ==>
          nodes'[k] == nodes[k])
  }

  lemma UntouchedYet(nodes: seq<Node>, place: seq<Place>, p: nat, i: nat)
    requires |place| == |nodes| && p < |nodes|
    ensures Untouched(nodes, nodes, place, p, i)
  {
  }

  lemma UntouchedNext(before: seq<Node>, nodes: seq<Node>, nodes': seq<Node>, place: seq<Place>, p: nat, i: nat)
    requires |place| == |before| == |nodes| == |nodes'| && p < |nodes| && i < L2_SIZE
    requires place[p].base % Step(place[p].level + 1) == 0
    requires Untouched(before, nodes, place, p, i) && OnlySlot(nodes, nodes', place, p, i)
    ensures Untouched(before, nodes', place, p, i + 1)
  {
    forall k, j | 0 <= k < |nodes| && i + 1 <= j < L2_SIZE && Below(place[k], place[p].level, SlotBase(place[p], j))
      ensures nodes'[k] == before[k]
    {
      BelowSlot(place[k], place[p], j);
    }
  }

  lemma UntouchedGrows(before: seq<Node>, was: seq<Place>, nodes: seq<Node>, place: seq<Place>, nodes': seq<Node>,
                       p: nat, i: nat)
    requires |was| == |before| <= |nodes| == |place| <= |nodes'| && was <= place && p < |before| && i < L2_SIZE
    requires was[p].base % Step(was[p].level + 1) == 0
    requires Untouched(before, nodes, was, p, i) && OnlySlot(nodes, nodes', place, p, i)
    ensures Untouched(before, nodes', was, p, i + 1)
  {
    forall k, j | 0 <= k < |before| && i + 1 <= j < L2_SIZE && Below(was[k], was[p].level, SlotBase(was[p], j))
      ensures nodes'[k] == before[k]
    {
      BelowSlot(was[k], was[p], j);
    }
  }

  /** A slot that nothing has touched yet still splits no leaf, for the rest of the range. */
  lemma NextUnsplit(before: seq<Node>, was: seq<Place>, nodes: seq<Node>, p: nat, j: nat, lo: nat, lo': nat, hi: nat)
    requires TableOk(before, was) && |before| <= |nodes| <= NIL && p < |before| && j < L2_SIZE
    requires Opens(before, Entry(1, p), was[p].level + 1, was[p].base, lo, hi) && Untouched(before, nodes, was, p, j)
    requires lo == lo' || lo <= lo' <= SlotBase(was[p], j)
    ensures Unsplit(nodes, nodes[p][j], was[p].level, SlotBase(was[p], j), lo', hi)
  {
    var l, sb := was[p].level, SlotBase(was[p], j);
    assert NodeOk(before, was, p);
    assert Unsplit(before, before[p][j], l, sb, lo, hi);
    if lo != lo' {
      UnsplitFrom(before, before[p][j], l, sb, lo, lo', hi);
    }
    UnsplitFrame(before, nodes, was, before[p][j], l, sb, lo', hi);
  }

  lemma PlainSlot(before: seq<Node>, nodes: seq<Node>, place: seq<Place>, p: nat, i: nat, h: nat, b: nat)
    requires |place| == |before| == |nodes| && p < |nodes| && i < L2_SIZE && h > 0 && place[p] == Place(h - 1, b)
    requires b % Step(h) == 0
    requires PlainBelow(before, place, h, b) && Untouched(before, nodes, place, p, i)
    ensures PlainEntry(nodes[p][i], h - 1)
    ensures PlainBelow(nodes, place, h - 1, SlotBase(place[p], i))
  {
    assert Below(place[p], h, b);
    assert nodes[p][i] == before[p][i];
    forall k, j | 0 <= k < |nodes| && 0 <= j < L2_SIZE && Below(place[k], h - 1, SlotBase(place[p], i))
      ensures PlainEntry(nodes[k][j], place[k].level)
    {
      BelowSlot(place[k], place[p], i);
    }
  }

  lemma CoarserFrame(n0: seq<Node>, e0: Entry, nodes: seq<Node>, nodes': seq<Node>, place: seq<Place>, e: Entry, h: nat,
                     b: nat)
    requires TableOk(nodes, place) && EntryOk(nodes, place, e, h, b)
    requires AgreeBelow(nodes, nodes', place, h, b)
    requires Coarser(n0, e0, nodes, e, h, b)
    ensures Coarser(n0, e0, nodes', e, h, b)
  {
    forall idx: nat | Within(idx, h, b)
      ensures CoarserAt(n0, e0, Walk(nodes', e, h, idx), h, b, idx)
    {
      WalkFrame(nodes, nodes', place, e, h, b, idx);
      assert CoarserAt(n0, e0, Walk(nodes, e, h, idx), h, b, idx);
    }
  }

  lemma FreshWalks(nodes: seq<Node>, e: Entry, nodes': seq<Node>, p: nat, h: nat, b: nat)
    requires h > 0 && e == Entry(1, NIL) && p < |nodes'| && p != NIL
    requires nodes'[p] == if h == 1 then LEAF_NODE else EMPTY_NODE
    ensures Filled(nodes, e, nodes', Entry(1, p), h, b, 0, 0, 0)
  {
  }

  class PhysPageMap {
    var root: Entry
    var nodes: seq<Node>
    var nodesAlloc: nat
    ghost var place: seq<Place>

    ghost predicate Valid()
      reads this
    {
      && TableOk(nodes, place)
      && |nodes| <= nodesAlloc
      && EntryOk(nodes, place, root, LEVELS, 0)
    }

    /** No entry skips levels yet: the state between begin and commit. */
    ghost predicate Building()
      reads this
    {
      Valid() && Plain(nodes, place) && PlainEntry(root, LEVELS)
    }

    /** Section number the map holds for a page index. */
    ghost function Lookup(idx: nat): (s: nat)
      reads this
    {
      Walk(nodes, root, LEVELS, idx)
    }

    predicate LocIn(loc: Loc)
      reads this
    {
      loc.Root? || (loc.node < |nodes| && loc.j < L2_SIZE)
    }

    function At(loc: Loc): Entry
      requires LocIn(loc)
      reads this
    {
      if loc.Root? then root else nodes[loc.node][loc.j]
    }

    /** loc holds an entry of height h at base b. */
    ghost predicate LocAt(loc: Loc, h: nat, b: nat)
      reads this
    {
      && |place| == |nodes| && LocIn(loc)
      && match loc
         case Root => h == LEVELS && b == 0
         case Slot(k, j) => place[k].level == h && SlotBase(place[k], j) == b
    }

    lemma LocFacts(loc: Loc, h: nat, b: nat)
      requires Valid() && LocAt(loc, h, b)
      ensures b % Step(h) == 0 && h <= LEVELS
      ensures EntryOk(nodes, place, At(loc), h, b)
    {
      if loc.Slot? {
        assert NodeOk(nodes, place, loc.node);
        SlotInside(place[loc.node].base, place[loc.node].level, loc.j);
      }
    }

    lemma BuildingFacts(p: nat)
      requires Building() && (p < |nodes| || p < |place|)
      ensures TableOk(nodes, place) && |place| == |nodes| <= NIL && place[p].base % Step(place[p].level + 1) == 0
    {
      assert NodeOk(nodes, place, p);
    }

    constructor ()
      ensures Building() && nodes == [] && place == []
      ensures forall idx: nat :: Lookup(idx) == UNASSIGNED
    {
      root := Entry(1, NIL);
      nodes, place := [], [];
      nodesAlloc := 0;
    }

    method NodeReserve(n: nat)
      requires Valid()
      modifies `nodesAlloc
      ensures Valid() && old(nodesAlloc) <= nodesAlloc
      ensures |nodes| + n <= nodesAlloc
      ensures if |nodes| + n <= old(nodesAlloc) then nodesAlloc == old(nodesAlloc)
              else nodesAlloc >= 16 && nodesAlloc >= 2 * old(nodesAlloc)
    {
      if |nodes| + n > nodesAlloc {
        nodesAlloc := if nodesAlloc * 2 > 16 then nodesAlloc * 2 else 16;
        nodesAlloc := if nodesAlloc > |nodes| + n then nodesAlloc else |nodes| + n;
      }
    }

    /** Appends one node, all slots empty.  The two requires are the two assertions of the
        allocator. */
    method NodeAlloc() returns (ret: nat)
      requires |nodes| < NIL && |nodes| < nodesAlloc
      modifies `nodes
      ensures ret == |old(nodes)| && nodes == old(nodes) + [EMPTY_NODE]
    {
      ret := |nodes|;
      var slots: seq<Entry> := [];
      while |slots| < L2_SIZE
        invariant |slots| <= L2_SIZE
        invariant forall i :: 0 <= i < |slots| ==> slots[i] == Entry(1, NIL)
      {
        slots := slots + [Entry(1, NIL)];
      }
      assert slots == EMPTY_NODE;
      nodes := nodes + [slots];
    }

    /** Makes every slot of node p an unassigned leaf. */
    method InitLeaves(p: nat)
      requires p < |nodes|
      modifies `nodes
      ensures nodes == old(nodes)[p := LEAF_NODE]
    {
      var i := 0;
      while i < L2_SIZE
        invariant 0 <= i <= L2_SIZE
        invariant |nodes| == |old(nodes)|
        invariant forall k :: 0 <= k < |nodes| && k != p ==> nodes[k] == old(nodes)[k]
        invariant forall j :: 0 <= j < i ==> nodes[p][j] == Entry(0, UNASSIGNED)
      {
        nodes := nodes[p := nodes[p][i := Entry(0, UNASSIGNED)]];
        i := i + 1;
      }
      assert nodes[p] == LEAF_NODE;
    }

    method NewNode(level: nat, ghost b: nat) returns (p: nat)
      requires Building() && level < LEVELS && b % Step(level + 1) == 0
      requires |nodes| < nodesAlloc && |nodes| < NIL
      modifies `nodes, `place
      ensures Building() && p == |old(nodes)|
      ensures nodes == old(nodes) + [if level == 0 then LEAF_NODE else EMPTY_NODE]
      ensures place == old(place) + [Place(level, b)]
    {
      p := NodeAlloc();
      if level == 0 { InitLeaves(p); }
      place := place + [Place(level, b)];
      AppendNode(old(nodes), old(place), nodes[p], Place(level, b));
      assert nodes == old(nodes) + [nodes[p]];
    }

    method Store(loc: Loc, e: Entry, ghost h: nat, ghost b: nat)
      requires Valid() && LocAt(loc, h, b) && EntryOk(nodes, place, e, h, b)
      modifies `root, `nodes
      ensures Valid() && |nodes| == |old(nodes)| && LocAt(loc, h, b) && At(loc) == e
      ensures old(Building()) && PlainEntry(e, h) ==> Building()
      ensures root == if loc.Root? then e else old(root)
      ensures nodes == if loc.Root? then old(nodes)
                       else old(nodes)[loc.node := old(nodes)[loc.node][loc.j := e]]
    {
      if loc.Root? {
        root := e;
      } else {
        StoreEntry(nodes, place, loc.node, loc.j, e);
        nodes := nodes[loc.node := nodes[loc.node][loc.j := e]];
      }
    }

    method LinkFresh(loc: Loc, level: nat, ghost h: nat, ghost b: nat) returns (p: nat)
      requires Building() && h == level + 1 && LocAt(loc, h, b) && h <= LEVELS && b % Step(h) == 0
      requires At(loc) == Entry(1, NIL)
      requires |nodes| < nodesAlloc && |nodes| < NIL
      modifies `root, `nodes, `place
      ensures Building() && old(place) <= place && |nodes| == |old(nodes)| + 1
      ensures LocAt(loc, h, b) && At(loc) == Entry(1, p)
      ensures p < |nodes| && place[p] == Place(level, b)
      ensures Framed(old(nodes), nodes, place, h, b, loc)
      ensures loc.Slot? ==> root == old(root)
      ensures Filled(old(nodes), old(At(loc)), nodes, Entry(1, p), h, b, 0, 0, 0)
      ensures nodes[p] == if level == 0 then LEAF_NODE else EMPTY_NODE
    {
      p := NewNode(level, b);
      Store(loc, Entry(1, p), h, b);
      FreshWalks(old(nodes), Entry(1, NIL), nodes, p, h, b);
    }

    /** Makes loc lead to a node, allocating an empty one if there is none yet. */
    method OpenNode(loc: Loc, level: nat, ghost h: nat, ghost b: nat, ghost lo: nat, ghost hi: nat) returns (p: nat)
      requires Building() && h == level + 1 && LocAt(loc, h, b)
      requires lo < hi && Opens(nodes, At(loc), h, b, lo, hi)
      requires |nodes| < nodesAlloc && |nodes| < NIL
      modifies `root, `nodes, `place
      ensures Building() && old(place) <= place && |nodes| <= |old(nodes)| + 1
      ensures LocAt(loc, h, b) && At(loc) == Entry(1, p)
      ensures p < |nodes| && place[p] == Place(level, b)
      ensures Framed(old(nodes), nodes, place, h, b, loc)
      ensures loc.Slot? ==> root == old(root)
      ensures Filled(old(nodes), old(At(loc)), nodes, Entry(1, p), h, b, 0, 0, 0)
      ensures Opens(nodes, Entry(1, p), h, b, lo, hi)
    {
      hide Unsplit;
      LocFacts(loc, h, b);
      if At(loc).ptr == NIL {
        p := LinkFresh(loc, level, h, b);
        FreshUnsplit(nodes, p, h, b, lo, hi);
      } else {
        p := At(loc).ptr;
      }
    }

    /** Fills part of [index0, index0+nb0) below one entry and reports what is left over for
        the entries after it. */
    method SetLevel(loc: Loc, index0: nat, nb0: nat, leaf: nat, level: nat, ghost h: nat, ghost b: nat)
      returns (index: nat, nb: nat)
      requires Building() && h == level + 1 && LocAt(loc, h, b)
      requires Within(index0, h, b) && nb0 > 0
      requires UNASSIGNED < leaf < NIL
      requires Opens(nodes, At(loc), h, b, index0, index0 + nb0)
      requires |nodes| + NodesNeeded(level, index0, nb0, b) <= nodesAlloc
      requires |nodes| + NodesNeeded(level, index0, nb0, b) <= NIL
      modifies `root, `nodes, `place
      ensures Building() && old(place) <= place && LocAt(loc, h, b)
      ensures |nodes| <= |old(nodes)| + NodesNeeded(level, index0, nb0, b)
      ensures index + nb == index0 + nb0
      ensures index == if index0 + nb0 < b + Step(h) then index0 + nb0 else b + Step(h)
      ensures Filled(old(nodes), old(At(loc)), nodes, At(loc), h, b, index0, index, leaf)
      ensures Framed(old(nodes), nodes, place, h, b, loc)
      ensures loc.Slot? ==> root == old(root)
      decreases level, 2
    {
      hide Opens;
      LocFacts(loc, h, b);
      var p := OpenNode(loc, level, h, b, index0, index0 + nb0);
      index, nb := FillSlots(p, index0, nb0, leaf, level, h, b);
    }

    /** One slot of node p: a leaf if the rest of the range covers the whole slot, otherwise
        one level down. */
    method FillSlot(p: nat, j: nat, index0: nat, nb0: nat, leaf: nat, level: nat, ghost h: nat, ghost b: nat)
      returns (index: nat, nb: nat)
      requires Building() && h == level + 1 && p < |nodes| && place[p] == Place(level, b) && j < L2_SIZE
      requires Within(index0, level, SlotBase(place[p], j)) && nb0 > 0
      requires UNASSIGNED < leaf < NIL
      requires Unsplit(nodes, nodes[p][j], level, SlotBase(place[p], j), index0, index0 + nb0)
      requires |nodes| + SlotNeeds(level, index0, nb0, SlotBase(place[p], j)) <= nodesAlloc
      requires |nodes| + SlotNeeds(level, index0, nb0, SlotBase(place[p], j)) <= NIL
      modifies `root, `nodes, `place
      ensures Building() && old(place) <= place && root == old(root)
      ensures |nodes| <= |old(nodes)| + SlotNeeds(level, index0, nb0, SlotBase(place[p], j))
      ensures index + nb == index0 + nb0
      ensures var end := SlotBase(place[p], j) + Step(level);
              index == if index0 + nb0 < end then index0 + nb0 else end
      ensures Filled(old(nodes), Entry(1, p), nodes, Entry(1, p), h, b, index0, index, leaf)
      ensures Framed(old(nodes), nodes, place, h, b, Root) && OnlySlot(old(nodes), nodes, old(place), p, j)
      decreases level, 0
    {
      hide Opens;
      ghost var sb := SlotBase(place[p], j);
      assert NodeOk(nodes, place, p);
      SlotInside(b, level, j);
      AlignedStart(sb, Step(level), index0);
      var step := Step(level);
      if index0 % step == 0 && nb0 >= step {
        Store(Slot(p, j), Entry(0, leaf), level, sb);
        index, nb := index0 + step, nb0 - step;
      } else {
        index, nb := SetLevel(Slot(p, j), index0, nb0, leaf, level - 1, level, sb);
      }
      SlotFilled(old(nodes), old(place), nodes, place, p, j, index0, index, leaf);
    }

    /** The slots of node p, from the one that holds index0 on. */
    method FillSlots(p: nat, index0: nat, nb0: nat, leaf: nat, level: nat, ghost h: nat, ghost b: nat)
      returns (index: nat, nb: nat)
      requires Building() && h == level + 1 && p < |nodes| && place[p] == Place(level, b)
      requires Within(index0, h, b) && nb0 > 0
      requires UNASSIGNED < leaf < NIL
      requires Opens(nodes, Entry(1, p), h, b, index0, index0 + nb0)
      requires |nodes| + NodesNeeded(level, index0, nb0, b) - 1 <= nodesAlloc
      requires |nodes| + NodesNeeded(level, index0, nb0, b) - 1 <= NIL
      modifies `root, `nodes, `place
      ensures Building() && old(place) <= place && root == old(root)
      ensures |nodes| <= |old(nodes)| + NodesNeeded(level, index0, nb0, b) - 1
      ensures index + nb == index0 + nb0
      ensures index == if index0 + nb0 < b + Step(h) then index0 + nb0 else b + Step(h)
      ensures Filled(old(nodes), Entry(1, p), nodes, Entry(1, p), h, b, index0, index, leaf)
      ensures Framed(old(nodes), nodes, place, h, b, Root)
      decreases level, 1
    {
      hide Opens, Unsplit, Untouched, Filled, Framed, Building, OnlySlot, TableOk, SlotBase, SlotNeeds, NodesNeeded,
        Step, Digit;
      BuildingFacts(p);
      FilledNone(nodes, Entry(1, p), place, h, b, index0, leaf);
      index, nb := index0, nb0;
      var j := Digit(index, level);
      UntouchedYet(nodes, place, p, j);
      DigitBase(place[p], index);
      ghost var sb := SlotBase(place[p], j);
      ghost var first, bad := true, index != sb;
      while nb > 0 && j < L2_SIZE
        invariant j <= L2_SIZE && sb == SlotBase(Place(level, b), j)
        invariant Building() && old(place) <= place && root == old(root)
        invariant index + nb == index0 + nb0 && index0 <= index <= b + Step(h)
        invariant nb > 0 && j < L2_SIZE ==> sb <= index < sb + Step(level)
        invariant nb > 0 && j == L2_SIZE ==> index == b + Step(h)
        invariant nb > 0 && j < L2_SIZE ==>
                    if first then index == index0 && (bad <==> index != sb) else index == sb && (bad ==> index0 != b)
        invariant Filled(old(nodes), Entry(1, p), nodes, Entry(1, p), h, b, index0, index, leaf)
        invariant |place| == |nodes| && Framed(old(nodes), nodes, place, h, b, Root)
        invariant nb > 0 ==> |nodes| <= |old(nodes)| + if bad && !first then level else 0
        invariant |nodes| <= |old(nodes)| + NodesNeeded(level, index0, nb0, b) - 1
        invariant Untouched(old(nodes), nodes, old(place), p, j)
        decreases L2_SIZE - j
      {
        BuildingFacts(p);
        NextSlot(Place(level, b), j);
        SlotBudget(level, index0, nb0, b, sb, index, nb, first, bad);
        NextUnsplit(old(nodes), old(place), nodes, p, j, index0, index, index0 + nb0);
        ghost var before, was, from := nodes, place, index;
        index, nb := FillSlot(p, j, index, nb, leaf, level, h, b);
        BuildingFacts(p);
        UntouchedGrows(old(nodes), old(place), before, was, nodes, p, j);
        FilledMore(old(nodes), before, nodes, was, place, Entry(1, p), h, b, index0, from, index, leaf);
        j, sb, first := j + 1, sb + Step(level), false;
      }
    }

    /** Pages that are not assigned yet can be mapped. */
    lemma FreeOpens(index: nat, nb: nat)
      requires Building() && nb > 0 && index + nb <= Step(LEVELS)
      requires forall idx: nat :: index <= idx < index + nb ==> Lookup(idx) == UNASSIGNED
      ensures Opens(nodes, root, LEVELS, 0, index, index + nb)
    {
      hide Walk, Opens, Unsplit, Step, EntryOk, TableOk;
      forall idx: nat | Within(idx, LEVELS, 0) && index <= idx < index + nb
        ensures Walk(nodes, root, LEVELS, idx) == UNASSIGNED
      {
        assert Lookup(idx) == UNASSIGNED;
      }
      FreeUnsplit(nodes, place, root, LEVELS, 0, index, index + nb);
    }

    /** phys_page_set: maps nb pages from index on to section `leaf`, whatever they were mapped to;
        a larger page that is mapped as one must be covered as a whole.  At most 2*LEVELS-1 nodes
        are allocated, so the reservation of 3*LEVELS nodes always suffices. */
    method Set(index: nat, nb: nat, leaf: nat)
      requires Building() && nb > 0 && index + nb <= Step(LEVELS)
      requires UNASSIGNED < leaf < NIL
      requires Opens(nodes, root, LEVELS, 0, index, index + nb)
      requires |nodes| + 2 * LEVELS - 1 <= NIL
      modifies this
      ensures Building()
      ensures |nodes| <= |old(nodes)| + 2 * LEVELS - 1
      ensures forall idx: nat :: idx < Step(LEVELS) ==>
                Lookup(idx) == if index <= idx < index + nb then leaf else old(Lookup(idx))
    {
      hide Opens;
      NodeReserve(3 * LEVELS);
      var i, rest := SetLevel(Root, index, nb, leaf, LEVELS - 1, LEVELS, 0);
      assert Filled(old(nodes), old(root), nodes, root, LEVELS, 0, index, i, leaf);
      forall idx: nat | idx < Step(LEVELS)
        ensures Lookup(idx) == if index <= idx < index + nb then leaf else old(Lookup(idx))
      {
        assert Within(idx, LEVELS, 0);
      }
    }

    /** Compresses below each used slot of node p; counts those slots and remembers the last. */
    method CompactSlots(p: nat, ghost h: nat, ghost b: nat) returns (valid: nat, v: nat)
      requires Valid() && p < |nodes| && h > 0 && place[p] == Place(h - 1, b)
      requires PlainBelow(nodes, place, h, b)
      modifies `root, `nodes
      ensures Valid() && |nodes| == |old(nodes)| && root == old(root)
      ensures Coarser(old(nodes), Entry(1, p), nodes, Entry(1, p), h, b)
      ensures Framed(old(nodes), nodes, place, h, b, Root)
      ensures valid == 1 ==> v < L2_SIZE && nodes[p][v].ptr != NIL
      ensures valid == 1 ==> forall j :: 0 <= j < L2_SIZE && j != v ==> nodes[p][j].ptr == NIL
      ensures valid != 1 ==> !OneUsed(nodes[p])
      ensures forall j :: 0 <= j < L2_SIZE ==> Tight(nodes, nodes[p][j], h - 1)
      decreases h, 0
    {
      hide Coarser;
      valid, v := 0, L2_SIZE;
      var i := 0;
      ghost var u := 0;
      CoarserSame(nodes, Entry(1, p), h, b);
      assert NodeOk(nodes, place, p);
      while i < L2_SIZE
        invariant 0 <= i <= L2_SIZE
        invariant Valid() && |nodes| == |old(nodes)| && root == old(root)
        invariant Coarser(old(nodes), Entry(1, p), nodes, Entry(1, p), h, b)
        invariant Framed(old(nodes), nodes, place, h, b, Root)
        invariant Untouched(old(nodes), nodes, place, p, i)
        invariant valid == 0 ==> forall j :: 0 <= j < i ==> nodes[p][j].ptr == NIL
        invariant valid == 1 ==> v < i && nodes[p][v].ptr != NIL
        invariant valid == 1 ==> forall j :: 0 <= j < i && j != v ==> nodes[p][j].ptr == NIL
        invariant valid > 1 ==> 0 <= u < v < i && nodes[p][u].ptr != NIL && nodes[p][v].ptr != NIL
        invariant forall j :: 0 <= j < i ==> Tight(nodes, nodes[p][j], h - 1)
      {
        if nodes[p][i].ptr != NIL {
          if valid == 1 { u := v; }
          v := i;
          valid := valid + 1;
          if nodes[p][i].skip != 0 { CompactSlot(p, i, old(nodes), h, b); }
        }
        i := i + 1;
      }
    }

    /** One used slot of node p. */
    method CompactSlot(p: nat, i: nat, ghost before: seq<Node>, ghost h: nat, ghost b: nat)
      requires Valid() && p < |nodes| && h > 0 && place[p] == Place(h - 1, b) && i < L2_SIZE
      requires nodes[p][i].skip != 0 && nodes[p][i].ptr != NIL
      requires |before| == |nodes| && PlainBelow(before, place, h, b) && Untouched(before, nodes, place, p, i)
      requires Framed(before, nodes, place, h, b, Root)
      requires Coarser(before, Entry(1, p), nodes, Entry(1, p), h, b)
      modifies `root, `nodes
      ensures Valid() && |nodes| == |old(nodes)| && root == old(root)
      ensures Coarser(before, Entry(1, p), nodes, Entry(1, p), h, b)
      ensures Framed(before, nodes, place, h, b, Root)
      ensures Untouched(before, nodes, place, p, i + 1)
      ensures nodes[p][i].ptr != NIL && Tight(nodes, nodes[p][i], h - 1)
      ensures forall j :: 0 <= j < L2_SIZE && j != i ==> nodes[p][j] == old(nodes[p][j])
      ensures forall j :: 0 <= j < L2_SIZE && j != i && old(Tight(nodes, nodes[p][j], h - 1)) ==>
                Tight(nodes, nodes[p][j], h - 1)
      decreases h - 1, 2
    {
      hide Tight;
      ghost var sb := SlotBase(place[p], i);
      assert NodeOk(nodes, place, p);
      SlotInside(b, h - 1, i);
      assert Below(place[p], h, b);
      PlainSlot(before, nodes, place, p, i, h, b);
      Compact(Slot(p, i), h - 1, sb);
      SlotCoarser(old(nodes), nodes, place, p, i, h, b);
      CoarserTrans(before, Entry(1, p), old(nodes), Entry(1, p), nodes, Entry(1, p), h, b);
      UntouchedNext(before, old(nodes), nodes, place, p, i);
      forall j | 0 <= j < L2_SIZE && j != i && old(Tight(nodes, nodes[p][j], h - 1))
        ensures Tight(nodes, nodes[p][j], h - 1)
      {
        TightSlots(old(nodes), nodes, place, p, i, j);
      }
    }

    /** Compresses everything below loc, then loc itself if its node has one used slot. */
    method Compact(loc: Loc, ghost h: nat, ghost b: nat)
      requires Valid() && LocAt(loc, h, b) && h > 0
      requires At(loc).skip == 1 && PlainBelow(nodes, place, h, b)
      modifies `root, `nodes
      ensures Valid() && |nodes| == |old(nodes)| && LocAt(loc, h, b)
      ensures Coarser(old(nodes), old(At(loc)), nodes, At(loc), h, b)
      ensures Framed(old(nodes), nodes, place, h, b, loc)
      ensures loc.Slot? ==> root == old(root)
      ensures At(loc).ptr == NIL <==> old(At(loc)).ptr == NIL
      ensures Tight(nodes, At(loc), h)
      decreases h, 1
    {
      hide Coarser, Tight, PlainBelow, Plain;
      CoarserSame(nodes, At(loc), h, b);
      TightNone(nodes, h);
      if At(loc).ptr == NIL { return; }
      LocFacts(loc, h, b);
      var p := At(loc).ptr;
      var valid, v := CompactSlots(p, h, b);
      SkipFits(p, v);
      if valid == 1 && At(loc).skip + nodes[p][v].skip < 8 {
        Collapse(loc, p, v, old(nodes), h, b);
      } else {
        TightNode(nodes, p, h);
      }
    }

    lemma SkipFits(p: nat, v: nat)
      requires Valid() && p < |nodes|
      ensures v < L2_SIZE ==> nodes[p][v].skip < LEVELS
    {
      assert NodeOk(nodes, place, p);
      assert v < L2_SIZE ==> EntryOk(nodes, place, nodes[p][v], place[p].level, SlotBase(place[p], v));
    }

    /** The entry at loc skips its node, which has one used slot only. */
    method Collapse(loc: Loc, p: nat, v: nat, ghost before: seq<Node>, ghost h: nat, ghost b: nat)
      requires Valid() && LocAt(loc, h, b) && h > 0 && p < |nodes| && place[p] == Place(h - 1, b)
      requires At(loc) == Entry(1, p)
      requires v < L2_SIZE && nodes[p][v].ptr != NIL && forall j :: 0 <= j < L2_SIZE && j != v ==>
                 nodes[p][j].ptr == NIL
      requires |before| == |nodes| && Coarser(before, Entry(1, p), nodes, Entry(1, p), h, b)
      requires Framed(before, nodes, place, h, b, loc)
      requires Tight(nodes, nodes[p][v], h - 1)
      modifies `root, `nodes
      ensures Valid() && |nodes| == |old(nodes)| && LocAt(loc, h, b)
      ensures Coarser(before, Entry(1, p), nodes, At(loc), h, b)
      ensures Framed(before, nodes, place, h, b, loc)
      ensures loc.Slot? ==> root == old(root)
      ensures At(loc) == Collapsed(old(nodes)[p][v]) && Tight(nodes, At(loc), h)
    {
      hide Coarser, Plain;
      ghost var nodes1, c := nodes, Collapsed(nodes[p][v]);
      CollapseCoarser(nodes, place, p, v, h, b);
      CoarserTrans(before, Entry(1, p), nodes1, Entry(1, p), nodes1, c, h, b);
      TightCollapsed(nodes, nodes[p][v], h);
      hide Tight;
      Store(loc, Collapsed(nodes[p][v]), h, b);
      CoarserFrame(before, Entry(1, p), nodes1, nodes, place, c, h, b);
      TightFrame(nodes1, nodes, place, c, h, b);
    }

    /** phys_page_compact_all. */
    method CompactAll()
      requires Building()
      modifies `root, `nodes
      ensures Valid() && |nodes| == |old(nodes)|
      ensures Coarser(old(nodes), old(root), nodes, root, LEVELS, 0) && Tight(nodes, root, LEVELS)
    {
      if root.skip != 0 { Compact(Root, LEVELS, 0); }
    }

    /** The walk of phys_page_find, without its final range check. */
    method Find(idx: nat) returns (s: nat)
      requires Valid()
      ensures s == Lookup(idx)
    {
      var lp, i := root, LEVELS;
      ghost var b := 0;
      while lp.skip != 0 && i >= lp.skip
        invariant 0 <= i <= LEVELS
        invariant EntryOk(nodes, place, lp, i, b)
        invariant Walk(nodes, lp, i, idx) == Lookup(idx)
        decreases i
      {
        if lp.ptr == NIL { return UNASSIGNED; }
        ghost var p, j := place[lp.ptr], Digit(idx, i - lp.skip);
        SlotStaysBelow(nodes, place, lp, i, b, j);
        i, lp := i - lp.skip, nodes[lp.ptr][Digit(idx, i - lp.skip)];
        b := SlotBase(p, j);
      }
      s := lp.ptr;
    }
  }
}
