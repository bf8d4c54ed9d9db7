/**
 The radix tree behind the physical page map of an address space: node table, level
 arithmetic, the walk that `phys_page_find` performs, and the facts about that walk which
 in-place insertion and skip compression rest on.

 A node sits at a `Place`: a level and the first page index it stands for.  The entry in
 slot j of a node at level l stands for Step(l) pages; call l the height of that entry.
 The root entry has height LEVELS.
 */
module PageTable {

  const L2_SIZE := 512
  const LEVELS := 6
  const NIL := 0x3ffffff
  const UNASSIGNED := 0

  /** Number of page indices below one entry of height l: 512 to the power l. */
  function Step(l: nat): (s: nat)
    ensures s >= 1
  {
    if l == 0 then 1 else L2_SIZE * Step(l - 1)
  }

  /** Slot that a page index selects in a node of level l. */
  function Digit(idx: nat, l: nat): (d: nat)
    ensures d < L2_SIZE
  {
    (idx / Step(l)) % L2_SIZE
  }

  datatype Entry = Entry(skip: nat, ptr: nat)

  type Node = n: seq<Entry> | |n| == L2_SIZE witness seq(L2_SIZE, _ => Entry(1, NIL))

  datatype Place = Place(level: nat, base: nat)

  /** The page index range of an entry of height h at base b contains idx. */
  predicate Within(idx: nat, h: nat, b: nat)
  {
    b <= idx < b + Step(h)
  }

  /** An entry of height h at base b is either a leaf, or leads to nothing, or leads to a
      node `skip` levels further down whose range lies inside the range of the entry. */
  predicate EntryOk(nodes: seq<Node>, place: seq<Place>, e: Entry, h: nat, b: nat)
    requires |place| == |nodes|
  {
    && (e.skip == 0 ==> e.ptr != NIL)
    && (e.skip > 0 ==> e.skip <= h)
    && (e.skip > 0 && e.ptr != NIL ==>
          && e.ptr < |nodes|
          && place[e.ptr].level == h - e.skip
          && b <= place[e.ptr].base
          && place[e.ptr].base + Step(h - e.skip + 1) <= b + Step(h))
  }

  predicate NodeOk(nodes: seq<Node>, place: seq<Place>, k: nat)
    requires |place| == |nodes|
    requires k < |nodes|
  {
    && place[k].level < LEVELS
    && place[k].base % Step(place[k].level + 1) == 0
    && forall j :: 0 <= j < L2_SIZE ==>
         EntryOk(nodes, place, nodes[k][j], place[k].level, SlotBase(place[k], j))
  }

  /** First page index of slot j of a node. */
  function SlotBase(p: Place, j: nat): (b: nat)
  {
    p.base + j * Step(p.level)
  }

  predicate TableOk(nodes: seq<Node>, place: seq<Place>)
  {
    && |place| == |nodes| <= NIL
    && forall k :: 0 <= k < |nodes| ==> NodeOk(nodes, place, k)
  }

  /** Insertion never skips levels and never makes an unassigned leaf above level 0. */
  predicate PlainEntry(e: Entry, h: nat)
  {
    && (e.skip > 0 ==> e.skip == 1)
    && (e.skip == 0 && h > 0 ==> e.ptr != UNASSIGNED)
  }

  predicate Plain(nodes: seq<Node>, place: seq<Place>)
    requires |place| == |nodes|
  {
    forall k, j :: 0 <= k < |nodes| && 0 <= j < L2_SIZE ==> PlainEntry(nodes[k][j], place[k].level)
  }

  /** Section number found by following `e`, an entry of height h, for page index idx. */
  function Walk(nodes: seq<Node>, e: Entry, h: nat, idx: nat): (s: nat)
    decreases h
  {
    if e.skip == 0 || h < e.skip then e.ptr
    else if e.ptr == NIL || e.ptr >= |nodes| then UNASSIGNED
    else Walk(nodes, nodes[e.ptr][Digit(idx, h - e.skip)], h - e.skip, idx)
  }

  // ---------- level arithmetic ----------

  lemma DivUnique(x: nat, d: nat, q: nat, r: nat)
    requires d > 0 && x == q * d + r && r < d
    ensures x / d == q && x % d == r
  {
    assert x == x / d * d + x % d;
    MulOrder(x / d, q, d);
    MulOrder(q, x / d, d);
  }

  lemma MulOrder(a: nat, b: nat, c: nat)
    ensures a < b ==> a * c + c <= b * c
  {
    assert (a + 1) * c == a * c + c;
  }

  /** x = (512 q + d) s + r with d, r in range: then d is the digit of x above s. */
  lemma DigitOf(x: nat, s: nat, q: nat, d: nat, r: nat)
    requires s > 0 && d < L2_SIZE && r < s
    requires x == q * (L2_SIZE * s) + (d * s + r)
    ensures (x / s) % L2_SIZE == d
    ensures x % s == r
    ensures d * s + r < L2_SIZE * s
    ensures x % (L2_SIZE * s) == d * s + r
  {
    assert q * (L2_SIZE * s) == (q * L2_SIZE) * s;
    assert x == (q * L2_SIZE + d) * s + r;
    DivUnique(x, s, q * L2_SIZE + d, r);
    DivUnique(q * L2_SIZE + d, L2_SIZE, q, d);
    MulOrder(d, L2_SIZE, s);
    DivUnique(x, L2_SIZE * s, q, d * s + r);
  }

  lemma DivBelow(r: nat, s: nat)
    requires s > 0 && r < L2_SIZE * s
    ensures r / s < L2_SIZE && r == (r / s) * s + r % s
  {
    assert r == (r / s) * s + r % s;
    MulOrder(L2_SIZE - 1, r / s, s);
  }

  lemma DivBack(x: nat, d: nat)
    requires d > 0
    ensures x == x / d * d + x % d
  {
  }

  /** Slot ranges tile the range of their node: idx lies in the slot its digit names. */
  lemma DigitSlot(b: nat, l: nat, idx: nat)
    requires b % Step(l + 1) == 0
    requires Within(idx, l + 1, b)
    ensures Within(idx, l, b + Digit(idx, l) * Step(l))
  {
    var s, r := Step(l), idx - b;
    DivBelow(r, s);
    DivBack(b, Step(l + 1));
    DigitOf(idx, s, b / Step(l + 1), r / s, r % s);
  }

  /** Distinct slots of a node have disjoint ranges. */
  lemma SlotUnique(b: nat, l: nat, idx: nat, j: nat)
    requires b % Step(l + 1) == 0
    requires j < L2_SIZE
    requires Within(idx, l, b + j * Step(l))
    ensures Within(idx, l + 1, b)
    ensures Digit(idx, l) == j
  {
    var s := Step(l);
    DigitOf(idx, s, b / Step(l + 1), j, idx - b - j * s);
  }

  /** A slot lies inside its node and starts at a multiple of its own width. */
  lemma SlotInside(b: nat, l: nat, j: nat)
    requires b % Step(l + 1) == 0
    requires j < L2_SIZE
    ensures b <= b + j * Step(l) && b + j * Step(l) + Step(l) <= b + Step(l + 1)
    ensures (b + j * Step(l)) % Step(l) == 0
  {
    MulOrder(j, L2_SIZE, Step(l));
    DigitOf(b + j * Step(l), Step(l), b / Step(l + 1), j, 0);
  }

  lemma DigitOfRest(x: nat, s: nat, q: nat, r: nat)
    requires s > 0 && r < L2_SIZE * s && x == q * (L2_SIZE * s) + r
    ensures (x / s) % L2_SIZE == r / s && x % s == r % s
  {
    DivBelow(r, s);
    DigitOf(x, s, q, r / s, r % s);
  }

  lemma Quotient(x: nat, d: nat, r: nat) returns (q: nat)
    requires d > 0 && x % d == r
    ensures x == q * d + r && r < d
  {
    q := x / d;
    DivBack(x, d);
  }

  lemma SameDigit(x: nat, y: nat, s: nat, big: nat, r: nat)
    requires s > 0 && big == L2_SIZE * s
    requires x % big == r == y % big
    ensures (x / s) % L2_SIZE == (y / s) % L2_SIZE && x % s == y % s
  {
    var qx := Quotient(x, big, r);
    var qy := Quotient(y, big, r);
    DigitOfRest(x, s, qx, r);
    DigitOfRest(y, s, qy, r);
  }

  lemma {:induction false} DigitLow(x: nat, y: nat, h: nat, l: nat)
    requires l < h
    requires x % Step(h) == y % Step(h)
    ensures Digit(x, l) == Digit(y, l) && x % Step(l) == y % Step(l)
    decreases h
  {
    SameDigit(x, y, Step(h - 1), Step(h), x % Step(h));
    if l < h - 1 { DigitLow(x, y, h - 1, l); }
  }

  // ---------- facts about the walk ----------

  /** A walk reads only the digits below the height it starts from. */
  lemma {:induction false} WalkLow(nodes: seq<Node>, e: Entry, h: nat, x: nat, y: nat)
    requires x % Step(h) == y % Step(h)
    ensures Walk(nodes, e, h, x) == Walk(nodes, e, h, y)
    decreases h
  {
    if e.skip == 0 || h < e.skip || e.ptr == NIL || e.ptr >= |nodes| {
    } else {
      DigitLow(x, y, h, h - e.skip);
      WalkLow(nodes, nodes[e.ptr][Digit(x, h - e.skip)], h - e.skip, x, y);
    }
  }

  /** Node k stands for a part of the range of an entry of height h at base b. */
  predicate Below(p: Place, h: nat, b: nat)
  {
    p.level < h && b <= p.base < b + Step(h)
  }

  /** Two node tables agree on everything an entry of height h at base b can reach. */
  predicate AgreeBelow(nodes: seq<Node>, nodes': seq<Node>, place: seq<Place>, h: nat, b: nat)
    requires |place| == |nodes|
  {
    forall k :: 0 <= k < |nodes| && Below(place[k], h, b) ==> k < |nodes'| && nodes'[k] == nodes[k]
  }

  lemma SlotStaysBelow(nodes: seq<Node>, place: seq<Place>, e: Entry, h: nat, b: nat, j: nat)
    requires TableOk(nodes, place) && EntryOk(nodes, place, e, h, b)
    requires e.skip > 0 && e.ptr != NIL && j < L2_SIZE
    ensures Below(place[e.ptr], h, b)
    ensures var p := place[e.ptr];
            && p.level == h - e.skip
            && SlotBase(p, j) >= b && SlotBase(p, j) + Step(p.level) <= b + Step(h)
            && EntryOk(nodes, place, nodes[e.ptr][j], p.level, SlotBase(p, j))
  {
    assert NodeOk(nodes, place, e.ptr);
    SlotInside(place[e.ptr].base, place[e.ptr].level, j);
  }

  /** A walk is decided by the nodes below its entry: changes elsewhere do not affect it. */
  lemma {:induction false} WalkFrame(nodes: seq<Node>, nodes': seq<Node>, place: seq<Place>, e: Entry, h: nat, b: nat,
                                     idx: nat)
    requires TableOk(nodes, place) && EntryOk(nodes, place, e, h, b)
    requires AgreeBelow(nodes, nodes', place, h, b)
    ensures Walk(nodes', e, h, idx) == Walk(nodes, e, h, idx)
    decreases h
  {
    if e.skip == 0 || e.ptr == NIL {
    } else {
      var l := h - e.skip;
      var j := Digit(idx, l);
      SlotStaysBelow(nodes, place, e, h, b, j);
      var b' := SlotBase(place[e.ptr], j);
      forall k | 0 <= k < |nodes| && Below(place[k], l, b')
        ensures k < |nodes'| && nodes'[k] == nodes[k]
      {
        assert Below(place[k], h, b);
      }
      WalkFrame(nodes, nodes', place, nodes[e.ptr][j], l, b', idx);
    }
  }
}
