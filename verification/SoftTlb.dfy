/**
 The software TLB: a direct-mapped table for each MMU mode, a small victim table behind it, and
 one region that stands for all large pages together.
 */
module SoftTlb {
  type Word = bv64

  const PAGE_MASK: Word := 0xffff_ffff_ffff_f000
  const TLB_INVALID: Word := 0x8
  const TLB_NOTDIRTY: Word := 0x10
  const TLB_MMIO: Word := 0x20
  /** (target_ulong)-1. */
  const NONE: Word := 0xffff_ffff_ffff_ffff
  const TLB_SIZE := 256
  const VTLB_SIZE := 8

  /** The comparison addresses of an entry, with flags in their low bits; NONE allows nothing. */
  datatype Entry = Entry(read: Word, write: Word, code: Word)

  const EMPTY := Entry(NONE, NONE, NONE)

  /** What an entry was filled for: a page of the TLB, and the mask of the guest's own page size. */
  datatype Guest = Guest(page: Word, mask: Word)

  // ---------- masks and regions ----------

  function And(a: Word, b: Word): (r: Word)
  {
    a & b
  }

  function Or(a: Word, b: Word): (r: Word)
  {
    a | b
  }

  function Xor(a: Word, b: Word): (r: Word)
  {
    a ^ b
  }

  function Twice(m: Word): (r: Word)
  {
    m << 1
  }

  /** A run of ones followed by a run of zeroes, either of them possibly empty. */
  predicate IsMask(m: Word)
  {
    !m & (!m + 1) == 0
  }

  /** n has no bit that m does not have. */
  predicate Sub(n: Word, m: Word)
  {
    And(n, m) == n
  }

  predicate IsSize(size: Word)
  {
    size >= 0x1000 && size & (size - 1) == 0
  }

  function SizeMask(size: Word): (m: Word)
    requires IsSize(size)
    ensures IsMask(m) && Sub(m, PAGE_MASK) && (m == PAGE_MASK <==> size == 0x1000)
  {
    !(size - 1)
  }

  /** The region of addresses that agree with `addr` in the bits of `mask`; none if addr is NONE. */
  datatype Region = Region(addr: Word, mask: Word)

  predicate In(r: Region, a: Word)
  {
    And(a, r.mask) == r.addr
  }

  predicate RegionOk(r: Region)
  {
    if r.addr == NONE then r.mask == 0 else IsMask(r.mask) && Sub(r.mask, PAGE_MASK) && Sub(r.addr, r.mask)
  }

  /** The whole guest page lies in the region. */
  predicate Contained(g: Guest, r: Region)
  {
    In(r, g.page) && Sub(r.mask, g.mask)
  }

  /** a lies in the guest page. */
  predicate OnPage(g: Guest, a: Word)
  {
    And(a, g.mask) == And(g.page, g.mask)
  }

  lemma ContainedIn(g: Guest, r: Region, a: Word)
    requires Contained(g, r) && OnPage(g, a)
    ensures In(r, a)
  {
    Coarse(a, g.page, g.mask, r.mask);
  }

  lemma Coarse(x: Word, y: Word, m: Word, n: Word)
    requires And(x, m) == And(y, m) && Sub(n, m)
    ensures And(x, n) == And(y, n)
  {
  }

  lemma Halve(m: Word)
    requires IsMask(m)
    ensures IsMask(Twice(m)) && Sub(Twice(m), m) && (m != 0 ==> Twice(m) < m)
  {
  }

  lemma Meet(a: Word, b: Word)
    requires IsMask(a) && IsMask(b)
    ensures IsMask(And(a, b)) && Sub(And(a, b), a) && Sub(And(a, b), b)
  {
  }

  lemma SubSub(n: Word, m: Word, k: Word)
    requires Sub(n, m) && Sub(m, k)
    ensures Sub(n, k)
  {
  }

  lemma Masked(a: Word, m: Word)
    requires Sub(m, PAGE_MASK)
    ensures And(a, m) != NONE && Sub(And(a, m), m)
  {
  }

  lemma Agree(a: Word, b: Word, m: Word)
    requires And(Xor(a, b), m) == 0
    ensures And(b, m) == And(a, m)
  {
  }

  lemma MaskAgain(p: Word, m: Word, n: Word)
    requires Sub(n, m)
    ensures And(p, n) == And(And(p, m), n)
  {
  }

  /** r' holds all that r holds. */
  predicate Wider(r': Region, r: Region)
  {
    r.addr == NONE || (Sub(r'.mask, r.mask) && And(r.addr, r'.mask) == r'.addr)
  }

  /** What was contained stays contained when the region widens. */
  lemma Widened(g: Guest, r: Region, r': Region)
    requires Contained(g, r) && Wider(r', r) && r.addr != NONE
    ensures Contained(g, r')
  {
    SubSub(r'.mask, r.mask, g.mask);
    MaskAgain(g.page, r.mask, r'.mask);
  }

  /** tlb_add_large_page: the region comes to hold the new page and keeps what it held. */
  method AddLargePage(r: Region, vaddr: Word, size: Word) returns (r': Region)
    requires RegionOk(r) && IsSize(size)
    ensures RegionOk(r') && r'.addr != NONE && Contained(Guest(vaddr, SizeMask(size)), r') && Wider(r', r)
  {
    hide And, Xor, Twice, IsMask, Sub, IsSize, SizeMask;
    var mask := SizeMask(size);
    if r.addr == NONE {
      Masked(vaddr, mask);
      SubSame(mask);
      return Region(And(vaddr, mask), mask);
    }
    Meet(mask, r.mask);
    ghost var both := And(mask, r.mask);
    mask := Widen(r.addr, vaddr, And(mask, r.mask));
    SubSub(mask, both, SizeMask(size));
    SubSub(mask, both, r.mask);
    SubSub(mask, r.mask, PAGE_MASK);
    Masked(r.addr, mask);
    Agree(r.addr, vaddr, mask);
    r' := Region(And(r.addr, mask), mask);
  }

  /** The loop of tlb_add_large_page: the mask loses bits until a and b agree in the rest. */
  method Widen(a: Word, b: Word, from: Word) returns (mask: Word)
    requires IsMask(from)
    ensures IsMask(mask) && Sub(mask, from) && And(Xor(a, b), mask) == 0
  {
    hide And, Xor, Twice;
    mask := from;
    SubSame(mask);
    while And(Xor(a, b), mask) != 0
      invariant IsMask(mask) && Sub(mask, from)
      decreases mask
    {
      SomeBit(Xor(a, b), mask);
      Halve(mask);
      SubSub(Twice(mask), mask, from);
      mask := Twice(mask);
    }
  }

  lemma SubSame(m: Word)
    ensures Sub(m, m)
  {
  }

  lemma SomeBit(a: Word, m: Word)
    requires And(a, m) != 0
    ensures m != 0
  {
  }

  // ---------- entries ----------

  function Slot(a: Word): (s: Word)
    ensures s < 256
  {
    (a >> 12) & 0xff
  }

  function Index(a: Word): (i: nat)
    ensures i < TLB_SIZE
  {
    Slot(a) as nat
  }

  lemma IndexOfPage(a: Word)
    ensures Index(And(a, PAGE_MASK)) == Index(a)
  {
    SlotOfPage(a);
  }

  lemma SlotOfPage(a: Word)
    ensures Slot(And(a, PAGE_MASK)) == Slot(a)
  {
  }

  const TAG_MASK: Word := PAGE_MASK | TLB_INVALID

  predicate Live(e: Entry)
  {
    e != EMPTY
  }

  predicate FieldOk(f: Word, page: Word)
  {
    f == NONE || And(f, TAG_MASK) == page
  }

  predicate GuestOk(g: Guest, r: Region)
  {
    Sub(g.page, PAGE_MASK) && Sub(g.mask, PAGE_MASK) && (g.mask != PAGE_MASK ==> r.addr != NONE && Contained(g, r))
  }

  /** An entry is for one page, and if the guest's page is larger, the region knows. */
  predicate EntryOk(e: Entry, g: Guest, r: Region)
  {
    Live(e) ==> FieldOk(e.read, g.page) && FieldOk(e.write, g.page) && FieldOk(e.code, g.page) && GuestOk(g, r)
  }

  /** tlb_flush_entry. */
  function FlushEntry(e: Entry, addr: Word): (e': Entry)
  {
    if addr == And(e.read, TAG_MASK) || addr == And(e.write, TAG_MASK) || addr == And(e.code, TAG_MASK) then EMPTY
    else e
  }

  /** Just the entries for the page at addr go. */
  lemma FlushEntryIs(e: Entry, g: Guest, r: Region, addr: Word)
    requires EntryOk(e, g, r) && Sub(addr, PAGE_MASK)
    ensures FlushEntry(e, addr) == if Live(e) && g.page == addr then EMPTY else e
  {
    NoneIsNoPage(addr);
    hide And, Sub;
  }

  lemma NoneIsNoPage(addr: Word)
    requires Sub(addr, PAGE_MASK)
    ensures And(NONE, TAG_MASK) != addr
  {
  }

  /** Flags do not touch the page number. */
  lemma Tagged(vaddr: Word, flags: Word)
    requires Sub(vaddr, PAGE_MASK) && Sub(flags, TLB_MMIO | TLB_NOTDIRTY)
    ensures FieldOk(Or(vaddr, flags), vaddr)
  {
  }

  /** A page-sized entry that holds addr is the one for addr's page. */
  lemma SmallPage(g: Guest, addr: Word)
    requires Sub(g.page, PAGE_MASK) && g.mask == PAGE_MASK && OnPage(g, addr)
    ensures g.page == And(addr, PAGE_MASK)
  {
  }

  // ---------- the tables ----------

  ghost function Unfilled(modes: nat, n: nat): (g: map<(int, int), Guest>)
    ensures forall m, i :: 0 <= m < modes && 0 <= i < n ==> (m, i) in g
  {
    map m, i | 0 <= m < modes && 0 <= i < n :: (m, i) := Guest(0, 0)
  }

  datatype Op =
    | Fill(vaddr: Word, prot: Prot, mode: nat, size: Word, b: Backing, watched: bool)
    | Probe(mode: nat, addr: Word, access: Access)
    | Invalidate(addr: Word)
    | InvalidateAll

  predicate Flushes(op: Op, addr: Word)
  {
    op.InvalidateAll? || op == Invalidate(addr)
  }

  predicate Refills(op: Op, addr: Word)
  {
    op.Fill? && IsSize(op.size) && OnPage(Guest(op.vaddr, SizeMask(op.size)), addr)
  }

  /** ops[n] flushes addr, and nothing after it fills in a page that holds addr. */
  ghost predicate Flushed(ops: seq<Op>, addr: Word, n: int)
  {
    0 <= n < |ops| && Flushes(ops[n], addr) && forall k :: n < k < |ops| ==> !Refills(ops[k], addr)
  }

  lemma NoneFlushed()
    ensures forall a, n :: !Flushed([], a, n)
  {
  }

  lemma FlushedNext(ops: seq<Op>, op: Op)
    ensures forall a, n :: Flushed(ops + [op], a, n) ==> Flushes(op, a) || (Flushed(ops, a, n) && !Refills(op, a))
  {
    forall a, n | Flushed(ops + [op], a, n) && n < |ops|
      ensures Flushed(ops, a, n) && !Refills(op, a)
    {
      assert (ops + [op])[|ops|] == op;
      assert forall k :: 0 <= k < |ops| ==> (ops + [op])[k] == ops[k];
    }
  }

  datatype Access = ForRead | ForWrite | ForCode

  function Field(e: Entry, access: Access): (f: Word)
  {
    match access
    case ForRead => e.read
    case ForWrite => e.write
    case ForCode => e.code
  }

  /** A victim whose comparison address is the page of addr was filled for that page. */
  lemma HitIsPage(e: Entry, g: Guest, r: Region, addr: Word, access: Access)
    requires EntryOk(e, g, r) && Field(e, access) == And(addr, PAGE_MASK)
    ensures Live(e) && g.page == And(addr, PAGE_MASK)
  {
    Masked(addr, PAGE_MASK);
    PageTag(addr);
    hide And, Sub;
  }

  lemma PageTag(addr: Word)
    ensures And(And(addr, PAGE_MASK), TAG_MASK) == And(addr, PAGE_MASK)
  {
  }

  datatype Prot = Prot(read: bool, write: bool, exec: bool)

  /** What is behind a page; a write to `clean` RAM has to be noted. */
  datatype Backing = Ram(readOnly: bool, clean: bool) | Romd | Device

  function ReadFlags(b: Backing, watched: bool): (flags: Word)
  {
    if b.Device? || watched then TLB_MMIO else 0
  }

  function WriteFlags(b: Backing, watched: bool): (flags: Word)
  {
    Or(ReadFlags(b, watched),
       if b.Romd? || (b.Ram? && b.readOnly) then TLB_MMIO else if b.Ram? && b.clean then TLB_NOTDIRTY else 0)
  }

  function CodeFlags(b: Backing): (flags: Word)
  {
    if b.Device? then TLB_MMIO else 0
  }

  /** The three comparison addresses that tlb_set_page stores. */
  function Filled(vaddr: Word, prot: Prot, b: Backing, watched: bool): (e: Entry)
  {
    Entry(if prot.read then Or(vaddr, ReadFlags(b, watched)) else NONE,
          if prot.write then Or(vaddr, WriteFlags(b, watched)) else NONE,
          if prot.exec then Or(vaddr, CodeFlags(b)) else NONE)
  }

  /** Generated code goes around the slow path just where that is harmless: the access is
      permitted, and no device, watchpoint, read-only memory or dirty tracking has to see it. */
  lemma FastPath(vaddr: Word, prot: Prot, b: Backing, watched: bool)
    requires Sub(vaddr, PAGE_MASK)
    ensures Field(Filled(vaddr, prot, b, watched), ForRead) == vaddr <==> prot.read && !b.Device? && !watched
    ensures Field(Filled(vaddr, prot, b, watched), ForWrite) == vaddr <==>
              prot.write && b == Ram(false, false) && !watched
    ensures Field(Filled(vaddr, prot, b, watched), ForCode) == vaddr <==> prot.exec && !b.Device?
  {
    hide And, Or, Sub;
    FlagsOk(b, watched);
    FlagsDiffer(vaddr, ReadFlags(b, watched));
    FlagsDiffer(vaddr, WriteFlags(b, watched));
    FlagsDiffer(vaddr, CodeFlags(b));
    OrZero(ReadFlags(b, watched), TLB_MMIO);
    OrZero(ReadFlags(b, watched), TLB_NOTDIRTY);
    OrZero(ReadFlags(b, watched), 0);
  }

  lemma OrZero(f: Word, g: Word)
    ensures Or(f, g) == 0 <==> f == 0 && g == 0
  {
  }

  /** Which flags the comparison addresses carry.  A device takes every access and a watchpoint every
      read and write; writes to memory that cannot be written go to the device path as well, and
      writes to clean memory are noted.  An access that is not permitted matches nothing. */
  ghost predicate Guards(e: Entry, vaddr: Word, prot: Prot, b: Backing, watched: bool)
  {
    && (if prot.read then
          && And(e.read, PAGE_MASK) == vaddr && And(e.read, TLB_NOTDIRTY) == 0
          && (And(e.read, TLB_MMIO) != 0 <==> b.Device? || watched)
        else e.read == NONE)
    && (if prot.write then
          && And(e.write, PAGE_MASK) == vaddr
          && (And(e.write, TLB_MMIO) != 0 <==> b.Device? || watched || b.Romd? || (b.Ram? && b.readOnly))
          && (And(e.write, TLB_NOTDIRTY) != 0 <==> b.Ram? && !b.readOnly && b.clean)
        else e.write == NONE)
    && (if prot.exec then
          && And(e.code, PAGE_MASK) == vaddr && And(e.code, TLB_NOTDIRTY) == 0
          && (And(e.code, TLB_MMIO) != 0 <==> b.Device?)
        else e.code == NONE)
  }

  lemma FlagsExact(vaddr: Word, prot: Prot, b: Backing, watched: bool)
    requires Sub(vaddr, PAGE_MASK)
    ensures Guards(Filled(vaddr, prot, b, watched), vaddr, prot, b, watched)
  {
    FlagsOk(b, watched);
    FlagWords(b, watched);
    hide And, Or, Sub, ReadFlags, WriteFlags, CodeFlags;
    FlagBits(vaddr, ReadFlags(b, watched));
    FlagBits(vaddr, WriteFlags(b, watched));
    FlagBits(vaddr, CodeFlags(b));
  }

  lemma FlagBits(vaddr: Word, f: Word)
    requires Sub(vaddr, PAGE_MASK) && Sub(f, TLB_MMIO | TLB_NOTDIRTY)
    ensures And(Or(vaddr, f), PAGE_MASK) == vaddr
    ensures And(Or(vaddr, f), TLB_MMIO) == And(f, TLB_MMIO) && And(Or(vaddr, f), TLB_NOTDIRTY) == And(f, TLB_NOTDIRTY)
  {
  }

  lemma FlagWords(b: Backing, watched: bool)
    ensures And(ReadFlags(b, watched), TLB_MMIO) != 0 <==> b.Device? || watched
    ensures And(ReadFlags(b, watched), TLB_NOTDIRTY) == 0 == And(CodeFlags(b), TLB_NOTDIRTY)
    ensures And(CodeFlags(b), TLB_MMIO) != 0 <==> b.Device?
    ensures And(WriteFlags(b, watched), TLB_MMIO) != 0 <==> b.Device? || watched || b.Romd? || (b.Ram? && b.readOnly)
    ensures And(WriteFlags(b, watched), TLB_NOTDIRTY) != 0 <==> b.Ram? && !b.readOnly && b.clean
  {
    FlagSums();
    hide And, Or;
  }

  lemma FlagSums()
    ensures Or(0, 0) == 0 && Or(TLB_MMIO, 0) == TLB_MMIO == Or(0, TLB_MMIO) == Or(TLB_MMIO, TLB_MMIO)
    ensures Or(0, TLB_NOTDIRTY) == TLB_NOTDIRTY
    ensures And(0, TLB_MMIO) == 0 == And(0, TLB_NOTDIRTY) == And(TLB_MMIO, TLB_NOTDIRTY) == And(TLB_NOTDIRTY, TLB_MMIO)
    ensures And(TLB_MMIO, TLB_MMIO) != 0 && And(TLB_NOTDIRTY, TLB_NOTDIRTY) != 0
    ensures And(Or(TLB_MMIO, TLB_NOTDIRTY), TLB_MMIO) != 0 && And(Or(TLB_MMIO, TLB_NOTDIRTY), TLB_NOTDIRTY) != 0
  {
  }

  lemma FlagsDiffer(vaddr: Word, flags: Word)
    requires Sub(vaddr, PAGE_MASK)
    ensures Sub(flags, TLB_MMIO | TLB_NOTDIRTY) ==> (Or(vaddr, flags) == vaddr <==> flags == 0)
    ensures vaddr != NONE
  {
  }

  lemma FilledOk(vaddr: Word, prot: Prot, b: Backing, watched: bool, size: Word, r: Region)
    requires Sub(vaddr, PAGE_MASK) && IsSize(size)
    requires size != 0x1000 ==> r.addr != NONE && Contained(Guest(vaddr, SizeMask(size)), r)
    ensures EntryOk(Filled(vaddr, prot, b, watched), Guest(vaddr, SizeMask(size)), r)
  {
    FlagsOk(b, watched);
    hide And, Or, Sub, Contained, IsSize, IsMask, FieldOk, SizeMask, ReadFlags, WriteFlags, CodeFlags;
    Tagged(vaddr, ReadFlags(b, watched));
    Tagged(vaddr, WriteFlags(b, watched));
    Tagged(vaddr, CodeFlags(b));
    NoneOk(vaddr);
  }

  lemma FlagsOk(b: Backing, watched: bool)
    ensures Sub(ReadFlags(b, watched), TLB_MMIO | TLB_NOTDIRTY) && Sub(WriteFlags(b, watched), TLB_MMIO | TLB_NOTDIRTY)
    ensures Sub(CodeFlags(b), TLB_MMIO | TLB_NOTDIRTY)
  {
    AnyFlags(ReadFlags(b, watched), TLB_MMIO);
    AnyFlags(ReadFlags(b, watched), TLB_NOTDIRTY);
    AnyFlags(ReadFlags(b, watched), 0);
    hide Or, Sub;
  }

  lemma AnyFlags(f: Word, g: Word)
    ensures (f == TLB_MMIO || f == 0) && Sub(g, TLB_MMIO | TLB_NOTDIRTY) ==>
              Sub(f, TLB_MMIO | TLB_NOTDIRTY) && Sub(Or(f, g), TLB_MMIO | TLB_NOTDIRTY)
    ensures Sub(TLB_MMIO, TLB_MMIO | TLB_NOTDIRTY) && Sub(TLB_NOTDIRTY, TLB_MMIO | TLB_NOTDIRTY)
    ensures Sub(0, TLB_MMIO | TLB_NOTDIRTY)
  {
  }

  lemma NoneOk(page: Word)
    ensures FieldOk(NONE, page)
  {
  }

  lemma EntryWidened(e: Entry, g: Guest, r: Region, r': Region)
    requires EntryOk(e, g, r) && Wider(r', r) && r'.addr != NONE
    ensures EntryOk(e, g, r')
  {
    hide And, Sub, FieldOk, Wider, Contained;
    if Live(e) && g.mask != PAGE_MASK { Widened(g, r, r'); }
  }

  lemma PageAligned(addr: Word)
    ensures Sub(And(addr, PAGE_MASK), PAGE_MASK)
  {
  }

  /** A slot after tlb_flush_entry, outside the region of large pages. */
  lemma FlushedSlot(e: Entry, g: Guest, r: Region, addr: Word)
    requires EntryOk(e, g, r) && !In(r, addr)
    ensures var page := And(addr, PAGE_MASK); var e' := FlushEntry(e, page);
            && EntryOk(e', g, r) && (Live(e') ==> e' == e && !OnPage(g, addr))
            && (g.page != page ==> e' == e && (Live(e) ==> !OnPage(g, addr)))
  {
    hide And, Sub, FieldOk, FlushEntry, OnPage, In;
    PageAligned(addr);
    FlushEntryIs(e, g, r, And(addr, PAGE_MASK));
    if Live(e) && OnPage(g, addr) {
      if g.mask == PAGE_MASK { SmallPage(g, addr); } else { ContainedIn(g, r, addr); }
    }
  }

  class Tlb {
    const modes: nat
    const table: array2<Entry>
    const victim: array2<Entry>
    var vtlbIndex: nat
    var region: Region
    /** What the slots of both tables were filled for. */
    ghost var guest: map<(int, int), Guest>
    ghost var victimGuest: map<(int, int), Guest>

    ghost predicate Sized()
      reads `guest, `victimGuest
    {
      && table.Length0 == victim.Length0 == modes && table.Length1 == TLB_SIZE && victim.Length1 == VTLB_SIZE
        && table != victim
      && (forall m, i :: 0 <= m < modes && 0 <= i < TLB_SIZE ==> (m, i) in guest)
      && (forall m, k :: 0 <= m < modes && 0 <= k < VTLB_SIZE ==> (m, k) in victimGuest)
    }

    /** An entry of the main table sits in the slot of its page. */
    ghost predicate MainOk(m: int, i: int)
      requires Sized() && 0 <= m < modes && 0 <= i < TLB_SIZE
      reads `guest, `victimGuest, `region, table
    {
      EntryOk(table[m, i], guest[(m, i)], region) && (Live(table[m, i]) ==> Index(guest[(m, i)].page) == i)
    }

    ghost predicate VictimOk(m: int, k: int)
      requires Sized() && 0 <= m < modes && 0 <= k < VTLB_SIZE
      reads `guest, `victimGuest, `region, victim
    {
      EntryOk(victim[m, k], victimGuest[(m, k)], region)
    }

    ghost predicate Valid()
      reads this, table, victim
    {
      && Sized() && RegionOk(region)
      && (forall m, i :: 0 <= m < modes && 0 <= i < TLB_SIZE ==> MainOk(m, i))
      && (forall m, k :: 0 <= m < modes && 0 <= k < VTLB_SIZE ==> VictimOk(m, k))
    }

    /** No entry is for a guest page that holds addr. */
    ghost predicate Gone(addr: Word)
      requires Sized()
      reads this, table, victim
    {
      && (forall m, i :: 0 <= m < modes && 0 <= i < TLB_SIZE && Live(table[m, i]) ==> !OnPage(guest[(m, i)], addr))
      && (forall m, k :: 0 <= m < modes && 0 <= k < VTLB_SIZE && Live(victim[m, k]) ==>
        !OnPage(victimGuest[(m, k)], addr))
    }

    constructor (modes: nat)
      ensures Valid() && this.modes == modes && fresh(table) && fresh(victim)
    {
      hide And, Sub, IsMask, FieldOk, GuestOk, OnPage, Index, Unfilled;
      this.modes := modes;
      table := new Entry[modes, TLB_SIZE]((_, _) => EMPTY);
      victim := new Entry[modes, VTLB_SIZE]((_, _) => EMPTY);
      vtlbIndex, region := 0, Region(NONE, 0);
      guest, victimGuest := Unfilled(modes, TLB_SIZE), Unfilled(modes, VTLB_SIZE);
    }

    /** tlb_flush. */
    method Flush()
      requires Valid()
      modifies this, table, victim
      ensures Valid() && region == Region(NONE, 0) && vtlbIndex == 0 && guest == old(guest)
      ensures victimGuest == old(victimGuest) && forall addr :: Gone(addr)
      ensures forall m, i :: 0 <= m < modes && 0 <= i < TLB_SIZE ==> table[m, i] == EMPTY
      ensures forall m, k :: 0 <= m < modes && 0 <= k < VTLB_SIZE ==> victim[m, k] == EMPTY
    {
      hide And, Sub, IsMask, FieldOk, GuestOk, OnPage, Index;
      forall m, i | 0 <= m < modes && 0 <= i < TLB_SIZE { table[m, i] := EMPTY; }
      forall m, k | 0 <= m < modes && 0 <= k < VTLB_SIZE { victim[m, k] := EMPTY; }
      vtlbIndex, region := 0, Region(NONE, 0);
    }

    /** The loop of tlb_flush_page over the main tables. */
    method FlushMain(i: nat, page: Word)
      requires Sized() && i < TLB_SIZE
      modifies table
      ensures forall m, j :: 0 <= m < modes && 0 <= j < TLB_SIZE ==>
                table[m, j] == if j == i then FlushEntry(old(table[m, j]), page) else old(table[m, j])
    {
      hide FlushEntry;
      var m := 0;
      while m < modes
        invariant 0 <= m <= modes
        invariant forall n, j :: 0 <= n < modes && 0 <= j < TLB_SIZE ==>
                    table[n, j] == if j == i && n < m then FlushEntry(old(table[n, j]), page) else old(table[n, j])
      {
        table[m, i] := FlushEntry(table[m, i], page);
        m := m + 1;
      }
    }

    /** The loops over the victim tables. */
    method FlushVictims(page: Word)
      requires Sized()
      modifies victim
      ensures forall m, k :: 0 <= m < modes && 0 <= k < VTLB_SIZE ==>
                victim[m, k] == FlushEntry(old(victim[m, k]), page)
    {
      hide FlushEntry;
      var m := 0;
      while m < modes
        invariant 0 <= m <= modes
        invariant forall n, j :: 0 <= n < modes && 0 <= j < VTLB_SIZE ==>
                    victim[n, j] == if n < m then FlushEntry(old(victim[n, j]), page) else old(victim[n, j])
      {
        var k := 0;
        while k < VTLB_SIZE
          invariant 0 <= k <= VTLB_SIZE
          invariant forall n, j :: 0 <= n < modes && 0 <= j < VTLB_SIZE ==>
                      victim[n, j] == if n < m || (n == m && j < k) then FlushEntry(old(victim[n, j]), page)
                        else old(victim[n, j])
        {
          victim[m, k] := FlushEntry(victim[m, k], page);
          k := k + 1;
        }
        m := m + 1;
      }
    }

    /** tlb_flush_page: no entry remains whose guest page, large or not, holds addr; unless the
        region of large pages holds addr, entries for other pages stay. */
    method FlushPage(addr: Word)
      requires Valid()
      modifies this, table, victim
      ensures Valid() && Gone(addr) && guest == old(guest) && victimGuest == old(victimGuest)
      ensures forall a :: old(Gone(a)) ==> Gone(a)
      ensures old(In(region, addr)) ==> region == Region(NONE, 0) && vtlbIndex == 0 && forall a :: Gone(a)
      ensures !old(In(region, addr)) ==>
        && region == old(region) && vtlbIndex == old(vtlbIndex)
        && (forall m, i :: 0 <= m < modes && 0 <= i < TLB_SIZE && old(guest[(m, i)]).page != And(addr, PAGE_MASK) ==>
          table[m, i] == old(table[m, i]))
        && (forall m, k :: 0 <= m < modes && 0 <= k < VTLB_SIZE
                           && old(victimGuest[(m, k)]).page != And(addr, PAGE_MASK) ==>
          victim[m, k] == old(victim[m, k]))
    {
      hide And, Sub, IsMask, FieldOk, GuestOk, OnPage, Index, FlushEntry, RegionOk;
      if In(region, addr) {
        Flush();
        return;
      }
      var page := And(addr, PAGE_MASK);
      PageAligned(addr);
      FlushMain(Index(page), page);
      FlushVictims(page);
      forall m, i | 0 <= m < modes && 0 <= i < TLB_SIZE
        ensures MainOk(m, i) && (Live(table[m, i]) ==> !OnPage(guest[(m, i)], addr) && old(Live(table[m, i])))
        ensures guest[(m, i)].page != page ==> table[m, i] == old(table[m, i])
      {
        assert old(MainOk(m, i));
        FlushedSlot(old(table[m, i]), guest[(m, i)], region, addr);
      }
      forall m, k | 0 <= m < modes && 0 <= k < VTLB_SIZE
        ensures VictimOk(m, k) && (Live(victim[m, k]) ==> !OnPage(victimGuest[(m, k)], addr) && old(Live(victim[m, k])))
        ensures victimGuest[(m, k)].page != page ==> victim[m, k] == old(victim[m, k])
      {
        assert old(VictimOk(m, k));
        FlushedSlot(old(victim[m, k]), victimGuest[(m, k)], region, addr);
      }
    }

    /** The region widens; nothing else changes. */
    method Enlarge(vaddr: Word, size: Word)
      requires Valid() && IsSize(size)
      modifies `region
      ensures Valid() && region.addr != NONE && Contained(Guest(vaddr, SizeMask(size)), region)
      ensures Wider(region, old(region))
    {
      hide And, Sub, IsMask, FieldOk, OnPage, Index, IsSize, SizeMask, RegionOk, Wider, Contained;
      ghost var was := region;
      region := AddLargePage(region, vaddr, size);
      forall m, i | 0 <= m < modes && 0 <= i < TLB_SIZE
        ensures MainOk(m, i)
      {
        assert old(MainOk(m, i));
        EntryWidened(table[m, i], guest[(m, i)], was, region);
      }
      forall m, k | 0 <= m < modes && 0 <= k < VTLB_SIZE
        ensures VictimOk(m, k)
      {
        assert old(VictimOk(m, k));
        EntryWidened(victim[m, k], victimGuest[(m, k)], was, region);
      }
    }

    /** Puts an entry into a slot of the main table, after moving the old one to the victims. */
    method Refill(m: nat, e: Entry, ghost g: Guest, i: nat)
      requires Valid() && m < modes && i < TLB_SIZE && EntryOk(e, g, region) && Index(g.page) == i
      modifies `vtlbIndex, `guest, `victimGuest, table, victim
      ensures Valid() && vtlbIndex == old(vtlbIndex) + 1
      ensures table[m, i] == e && guest == old(guest)[(m, i) := g]
      ensures var k := old(vtlbIndex) % VTLB_SIZE;
              victim[m, k] == old(table[m, i]) && victimGuest == old(victimGuest)[(m, k) := old(guest)[(m, i)]]
      ensures forall n, j :: 0 <= n < modes && 0 <= j < TLB_SIZE && (n, j) != (m, i) ==> table[n, j] == old(table[n, j])
      ensures forall n, j :: 0 <= n < modes && 0 <= j < VTLB_SIZE && (n, j) != (m, old(vtlbIndex) % VTLB_SIZE) ==>
                victim[n, j] == old(victim[n, j])
      ensures forall a :: old(Gone(a)) && !OnPage(g, a) ==> Gone(a)
    {
      hide EntryOk, RegionOk, Index, OnPage;
      assert MainOk(m, i);
      var k := vtlbIndex % VTLB_SIZE;
      vtlbIndex := vtlbIndex + 1;
      victim[m, k] := table[m, i];
      victimGuest := victimGuest[(m, k) := guest[(m, i)]];
      table[m, i] := e;
      guest := guest[(m, i) := g];
      forall n, j | 0 <= n < modes && 0 <= j < TLB_SIZE
        ensures MainOk(n, j)
      {
        assert old(MainOk(n, j));
      }
      forall n, j | 0 <= n < modes && 0 <= j < VTLB_SIZE
        ensures VictimOk(n, j)
      {
        assert old(VictimOk(n, j));
      }
    }

    /** tlb_set_page for a page-aligned address.  `watched` says that a watchpoint on the page
        traps this access. */
    method SetPage(vaddr: Word, prot: Prot, m: nat, size: Word, b: Backing, watched: bool)
      requires Valid() && Sub(vaddr, PAGE_MASK) && IsSize(size) && m < modes
      modifies this, table, victim
      ensures Valid() && guest[(m, Index(vaddr))] == Guest(vaddr, SizeMask(size))
      ensures table[m, Index(vaddr)] == Filled(vaddr, prot, b, watched)
      ensures Guards(table[m, Index(vaddr)], vaddr, prot, b, watched)
      ensures victim[m, old(vtlbIndex) % VTLB_SIZE] == old(table[m, Index(vaddr)]) && vtlbIndex == old(vtlbIndex) + 1
      ensures forall n, j :: 0 <= n < modes && 0 <= j < TLB_SIZE && (n, j) != (m, Index(vaddr)) ==>
                table[n, j] == old(table[n, j])
      ensures forall n, j :: 0 <= n < modes && 0 <= j < VTLB_SIZE && (n, j) != (m, old(vtlbIndex) % VTLB_SIZE) ==>
                victim[n, j] == old(victim[n, j])
      ensures forall a :: old(Gone(a)) && !OnPage(Guest(vaddr, SizeMask(size)), a) ==> Gone(a)
      ensures if size == 0x1000 then region == old(region)
              else Contained(Guest(vaddr, SizeMask(size)), region) && Wider(region, old(region))
    {
      hide And, Sub, IsMask, FieldOk, OnPage, Index, IsSize, SizeMask, RegionOk, Wider, Contained, MainOk, VictimOk,
        Sized, Filled, EntryOk, Guards;
      if size != 0x1000 {
        Enlarge(vaddr, size);
      }
      FilledOk(vaddr, prot, b, watched, size, region);
      FlagsExact(vaddr, prot, b, watched);
      Refill(m, Filled(vaddr, prot, b, watched), Guest(vaddr, SizeMask(size)), Index(vaddr));
    }

    /** Exchanges an entry of the main table with a victim. */
    method Swap(m: nat, i: nat, k: nat)
      requires Valid() && m < modes && i < TLB_SIZE && k < VTLB_SIZE && Index(victimGuest[(m, k)].page) == i
      modifies `guest, `victimGuest, table, victim
      ensures Valid() && table[m, i] == old(victim[m, k]) && victim[m, k] == old(table[m, i])
      ensures guest == old(guest)[(m, i) := old(victimGuest)[(m, k)]]
      ensures victimGuest == old(victimGuest)[(m, k) := old(guest)[(m, i)]]
      ensures forall n, j :: 0 <= n < modes && 0 <= j < TLB_SIZE && (n, j) != (m, i) ==> table[n, j] == old(table[n, j])
      ensures forall n, j :: 0 <= n < modes && 0 <= j < VTLB_SIZE && (n, j) != (m, k) ==>
                victim[n, j] == old(victim[n, j])
      ensures forall a :: old(Gone(a)) ==> Gone(a)
    {
      hide EntryOk, RegionOk, Index, OnPage;
      assert MainOk(m, i) && VictimOk(m, k);
      var e, v := table[m, i], victim[m, k];
      table[m, i], victim[m, k] := v, e;
      guest, victimGuest := guest[(m, i) := victimGuest[(m, k)]], victimGuest[(m, k) := guest[(m, i)]];
      forall n, j | 0 <= n < modes && 0 <= j < TLB_SIZE
        ensures MainOk(n, j)
      {
        assert old(MainOk(n, j));
      }
      forall n, j | 0 <= n < modes && 0 <= j < VTLB_SIZE
        ensures VictimOk(n, j)
      {
        assert old(VictimOk(n, j));
      }
    }

    /** The victim table is searched from its end; a hit at `at` swaps the entry with that of the main
        table. */
    method VictimHit(m: nat, addr: Word, access: Access) returns (hit: bool, ghost at: int)
      requires Valid() && m < modes
      modifies `guest, `victimGuest, table, victim
      ensures Valid()
      ensures -1 <= at < VTLB_SIZE && (hit <==> at >= 0)
      ensures hit <==> exists k :: 0 <= k < VTLB_SIZE && Field(old(victim[m, k]), access) == And(addr, PAGE_MASK)
      ensures hit ==> Field(table[m, Index(addr)], access) == And(addr, PAGE_MASK)
      ensures hit ==> 0 <= at < VTLB_SIZE && Field(old(victim[m, at]), access) == And(addr, PAGE_MASK)
      ensures forall k :: at < k < VTLB_SIZE ==> Field(old(victim[m, k]), access) != And(addr, PAGE_MASK)
      ensures hit ==> table[m, Index(addr)] == old(victim[m, at]) && victim[m, at] == old(table[m, Index(addr)])
      ensures forall n, j :: 0 <= n < modes && 0 <= j < TLB_SIZE && (!hit || (n, j) != (m, Index(addr))) ==>
                table[n, j] == old(table[n, j])
      ensures forall n, j :: 0 <= n < modes && 0 <= j < VTLB_SIZE && (!hit || (n, j) != (m, at)) ==>
                victim[n, j] == old(victim[n, j])
      ensures forall a :: old(Gone(a)) ==> Gone(a)
    {
      hide And, Sub, IsMask, FieldOk, OnPage, Index, RegionOk, MainOk, EntryOk, Live, Field;
      var page, k := And(addr, PAGE_MASK), VTLB_SIZE - 1;
      while k >= 0 && Field(victim[m, k], access) != page
        invariant -1 <= k < VTLB_SIZE
        invariant forall j :: k < j < VTLB_SIZE ==> Field(victim[m, j], access) != page
      {
        k := k - 1;
      }
      hit, at := k >= 0, k;
      if hit {
        assert VictimOk(m, k);
        HitIsPage(victim[m, k], victimGuest[(m, k)], region, addr, access);
        IndexOfPage(addr);
        Swap(m, Index(addr), k);
      }
    }

    /** Any history of fills, victim hits and flushes: an address that has been flushed stays without an
        entry until a page that holds it is filled in again, and a fill takes effect. */
    method History(ops: seq<Op>)
      requires Valid() && forall n :: 0 <= n < |ops| ==> OpOk(ops[n])
      modifies this, table, victim
      ensures Valid() && forall a, n :: Flushed(ops, a, n) ==> Gone(a)
      ensures |ops| > 0 && ops[|ops| - 1].Fill? ==> Holds(ops[|ops| - 1])
    {
      hide And, Sub, IsMask, FieldOk, OnPage, Index, IsSize, RegionOk, MainOk, VictimOk, Contained, Wider, Filled,
        Guards, Gone, SizeMask, Flushed;
      NoneFlushed();
      assert ops[..0] == [];
      var n := 0;
      while n < |ops|
        invariant 0 <= n <= |ops| && Valid() && forall a, k :: Flushed(ops[..n], a, k) ==> Gone(a)
        invariant n > 0 && ops[n - 1].Fill? ==> Holds(ops[n - 1])
      {
        assert ops[..n + 1] == ops[..n] + [ops[n]];
        FlushedNext(ops[..n], ops[n]);
        match ops[n] {
          case Fill(vaddr, prot, m, size, b, watched) => SetPage(vaddr, prot, m, size, b, watched);
          case Probe(m, addr, access) => var hit, at := VictimHit(m, addr, access);
          case Invalidate(addr) => FlushPage(addr);
          case InvalidateAll => Flush();
        }
        n := n + 1;
      }
      assert ops[..n] == ops;
    }

    /** The entry that a fill has left behind. */
    ghost predicate Holds(op: Op)
      requires op.Fill?
      reads table
    {
      && op.mode < table.Length0 && Index(op.vaddr) < table.Length1
      && table[op.mode, Index(op.vaddr)] == Filled(op.vaddr, op.prot, op.b, op.watched)
    }

    ghost predicate OpOk(op: Op)
    {
      match op
      case Fill(vaddr, _, m, size, _, _) => Sub(vaddr, PAGE_MASK) && IsSize(size) && m < modes
      case Probe(m, _, _) => m < modes
      case Invalidate(_) => true
      case InvalidateAll => true
    }
  }
}
