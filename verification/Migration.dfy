/**
 Live migration of RAM.  The guest keeps running and writing while pages are sent: a write
 marks the dirty log, a sync moves the log into the migration bitmap, and a cursor walks the
 bitmap and sends pages, as zero pages, as deltas against a cache of sent pages, or in full.
 */
module Migration {
  import opened Basics
  import opened PageCache
  import opened RamStream

  const BITS_PER_LONG := 64

  /** The guest may have run: every page it wrote is in the log, and nothing left the log. */
  predicate Ran(mem: seq<Page>, log: set<nat>, mem': seq<Page>, log': set<nat>, used: set<nat>, running: bool)
  {
    && |mem'| == |mem|
    && log <= log' <= log + used
    && (forall p :: 0 <= p < |mem| && p !in log' ==> mem'[p] == mem[p])
    && (!running ==> mem' == mem && log' == log)
  }

  lemma RanTwice(mem: seq<Page>, log: set<nat>, mem1: seq<Page>, log1: set<nat>, mem2: seq<Page>, log2: set<nat>,
                 used: set<nat>, running: bool)
    requires Ran(mem, log, mem1, log1, used, running) && Ran(mem1, log1, mem2, log2, used, running)
    ensures Ran(mem, log, mem2, log2, used, running)
  {
  }

  /** A page that is not in the log in the end has not changed. */
  lemma RanStill(mem: seq<Page>, log: set<nat>, mem': seq<Page>, log': set<nat>, used: set<nat>, running: bool, p: nat)
    requires Ran(mem, log, mem', log', used, running) && p < |mem|
    ensures |mem'| == |mem| && (p !in log' || !running ==> mem'[p] == mem[p])
    ensures p !in log' ==> p !in log
  {
  }

  lemma NoneRan(mem: seq<Page>, log: set<nat>, contents: map<nat, Bytes>, p: nat, used: set<nat>, running: bool)
    ensures Ran(mem, log, mem, log, used, running) && Others(contents, contents, p)
  {
  }

  /** Cached pages among S hold exactly what the destination holds. */
  predicate Coherent(contents: map<nat, Bytes>, dest: seq<Page>, S: set<nat>)
  {
    forall p :: p in S && p in contents ==> p < |dest| && contents[p] == dest[p]
  }

  // ---------- facts about syncing ----------

  /** What one sync_range looks at. */
  function Cover(first: nat, n: nat): (s: set<nat>)
    ensures Range(first, n) <= s
  {
    if first % BITS_PER_LONG == 0 then Range(first, (n + BITS_PER_LONG - 1) / BITS_PER_LONG * BITS_PER_LONG)
    else Range(first, n)
  }

  function CoverAll(blocks: seq<Block>): (s: set<nat>)
  {
    if blocks == [] then {}
    else CoverAll(blocks[..|blocks| - 1]) + Cover(blocks[|blocks| - 1].first, blocks[|blocks| - 1].pages)
  }

  lemma {:induction false} CoverAllCovers(blocks: seq<Block>)
    ensures Used(blocks) <= CoverAll(blocks)
  {
    if blocks != [] { CoverAllCovers(blocks[..|blocks| - 1]); }
  }

  lemma CoverAllNone()
    ensures CoverAll([]) == {}
  {
  }

  lemma CoverAllNext(blocks: seq<Block>, i: nat)
    requires i < |blocks|
    ensures CoverAll(blocks[..i + 1]) == CoverAll(blocks[..i]) + Cover(blocks[i].first, blocks[i].pages)
  {
    var front := blocks[..i + 1];
    assert front[..|front| - 1] == blocks[..i];
  }

  datatype DirtyMarks = DirtyMarks(log: set<nat>, bitmap: set<nat>, count: int)

  /** Within `cover` the log has moved into the bitmap, each newly set bit counted once; elsewhere
      nothing has changed. */
  ghost predicate Synced(m: DirtyMarks, m': DirtyMarks, cover: set<nat>)
  {
    && m'.log == m.log - cover
    && m'.bitmap == m.bitmap + (m.log * cover)
    && m'.count - |m'.bitmap| == m.count - |m.bitmap|
  }

  lemma DisjointMinus(a: set<nat>, b: set<nat>)
    requires a * b == {}
    ensures a - b == a
  {
    forall p | p in a
      ensures p !in b
    {
      assert p in b ==> p in a * b;
    }
  }

  lemma SyncedIs(m: DirtyMarks, m': DirtyMarks, cover: set<nat>)
    requires Synced(m, m', cover)
    ensures m'.log == m.log - cover && m'.bitmap == m.bitmap + (m.log * cover)
  {
  }

  lemma SyncedNothing(m: DirtyMarks, first: nat)
    ensures Synced(m, m, {}) && Range(first, 0) == {}
  {
  }

  lemma SyncedNext(m: DirtyMarks, m1: DirtyMarks, m2: DirtyMarks, cover: set<nat>, more: set<nat>)
    requires Synced(m, m1, cover) && Synced(m1, m2, more)
    ensures Synced(m, m2, cover + more)
  {
  }

  lemma SyncedRange(m: DirtyMarks, m1: DirtyMarks, m2: DirtyMarks, first: nat, i: nat, n: nat)
    requires Synced(m, m1, Range(first, i)) && Synced(m1, m2, Range(first + i, n))
    ensures Synced(m, m2, Range(first, i + n))
  {
    SyncedNext(m, m1, m2, Range(first, i), Range(first + i, n));
    assert Range(first, i + n) == Range(first, i) + Range(first + i, n);
  }

  /** No dirty page of a block is lost by a sync, and nothing else becomes dirty. */
  lemma SyncedUsed(m: DirtyMarks, m': DirtyMarks, blocks: seq<Block>)
    requires Synced(m, m', CoverAll(blocks))
    ensures m'.log * Used(blocks) == {} && m'.log <= m.log
    ensures m.bitmap + (m.log * Used(blocks)) <= m'.bitmap <= m.bitmap + m.log
  {
    CoverAllCovers(blocks);
  }

  lemma SyncCovers(mem: seq<Page>, dest: seq<Page>, m: DirtyMarks, m': DirtyMarks, blocks: seq<Block>)
    requires |mem| == |dest| && (forall p :: p in Used(blocks) ==> p < |mem|)
    requires Synced(m, m', CoverAll(blocks)) && Covered(mem, m.log, m.bitmap, dest, Used(blocks))
    ensures Covered(mem, m'.log, m'.bitmap, dest, Used(blocks))
  {
    SyncedUsed(m, m', blocks);
    forall p | p in Used(blocks)
      ensures p in m'.bitmap || dest[p] == mem[p]
    {
      assert p in m.log ==> p in m.log * Used(blocks);
    }
  }

  lemma Fewer(a: set<nat>, b: set<nat>)
    requires a <= b
    ensures a != b ==> |a| < |b|
  {
    if a != b {
      var x :| x in b && x !in a;
      assert b == a + (b - a);
    }
  }

  lemma CountAfterSync(bitmap: set<nat>, bitmap': set<nat>, used: set<nat>, all: set<nat>)
    requires bitmap <= bitmap' && all - used <= bitmap && used <= all
    ensures |bitmap' * used| + |bitmap' - all| - |bitmap'| == |bitmap * used| + |bitmap - all| - |bitmap|
  {
    var fresh_ := bitmap' - bitmap;
    assert bitmap' == bitmap + fresh_;
    assert bitmap' * used == bitmap * used + fresh_ * used;
    assert bitmap' - all == (bitmap - all) + (fresh_ - all);
    assert fresh_ == fresh_ * used + (fresh_ - all);
  }

  lemma CountOneLess(bitmap: set<nat>, used: set<nat>, all: set<nat>, p: nat)
    requires p in bitmap && p in used && used <= all
    ensures |(bitmap - {p}) * used| == |bitmap * used| - 1
    ensures (bitmap - {p}) - all == bitmap - all
  {
    assert (bitmap - {p}) * used == bitmap * used - {p};
  }

  // ---------- facts about the search ----------

  function PageAt(blocks: seq<Block>, b: nat, k: nat): (p: nat)
    requires b < |blocks|
  {
    blocks[b].first + k
  }

  /** Pages lo..hi of block b are clean. */
  ghost predicate Clean(blocks: seq<Block>, bitmap: set<nat>, b: nat, lo: nat, hi: nat)
    requires b < |blocks|
  {
    forall k: nat :: lo <= k < hi ==> PageAt(blocks, b, k) !in bitmap
  }

  /** Blocks lo..hi are clean. */
  ghost predicate CleanBlocks(blocks: seq<Block>, bitmap: set<nat>, lo: nat, hi: nat)
    requires hi <= |blocks|
  {
    forall b: nat :: lo <= b < hi ==> Clean(blocks, bitmap, b, 0, blocks[b].pages)
  }

  /** In the bulk stage everything after the cursor is still to be sent. */
  ghost predicate DirtyAfter(blocks: seq<Block>, bitmap: set<nat>, b: nat, k: nat)
  {
    forall c: nat, j: nat :: c < |blocks| && j < blocks[c].pages && (c > b || (c == b && j > k)) ==>
      PageAt(blocks, c, j) in bitmap
  }

  /** The part of the round from (s, o) that lies before (b, k) is clean. */
  ghost predicate Searched(blocks: seq<Block>, bitmap: set<nat>, s: nat, o: nat, complete: bool, b: nat, k: nat)
    requires s < |blocks| && b < |blocks|
  {
    if complete then
      && b <= s
      && Clean(blocks, bitmap, s, o, blocks[s].pages) && CleanBlocks(blocks, bitmap, s + 1, |blocks|)
      && CleanBlocks(blocks, bitmap, 0, b) && Clean(blocks, bitmap, b, 0, k)
    else if b == s then
      Clean(blocks, bitmap, s, o, k)
    else
      && s < b
      && Clean(blocks, bitmap, s, o, blocks[s].pages) && CleanBlocks(blocks, bitmap, s + 1, b)
      && Clean(blocks, bitmap, b, 0, k)
  }

  lemma PageAtDistinct(blocks: seq<Block>, b: nat, k: nat, c: nat, j: nat)
    requires BlocksOk(blocks) && b < |blocks| && c < |blocks| && k < blocks[b].pages && j < blocks[c].pages
    requires b != c || k != j
    ensures PageAt(blocks, b, k) != PageAt(blocks, c, j)
  {
    if b != c { assert Apart(blocks[b], blocks[c]); }
  }

  lemma FirstPageDirty(blocks: seq<Block>, bitmap: set<nat>, s: nat, o: nat, b: nat)
    requires BlocksOk(blocks) && DirtyAfter(blocks, bitmap, s, o) && s < b < |blocks|
    ensures PageAt(blocks, b, 0) in bitmap
  {
  }

  lemma SearchedShrinks(blocks: seq<Block>, bitmap: set<nat>, bitmap': set<nat>, s: nat, o: nat, complete: bool, b: nat,
                        k: nat)
    requires s < |blocks| && b < |blocks| && bitmap' <= bitmap
    requires Searched(blocks, bitmap, s, o, complete, b, k)
    ensures Searched(blocks, bitmap', s, o, complete, b, k)
  {
  }

  /** Finding nothing in [k, k') of block b. */
  lemma SearchedOn(blocks: seq<Block>, bitmap: set<nat>, s: nat, o: nat, complete: bool, b: nat, k: nat, k': nat)
    requires s < |blocks| && b < |blocks|
    requires Searched(blocks, bitmap, s, o, complete, b, k) && Clean(blocks, bitmap, b, k, k')
    ensures Searched(blocks, bitmap, s, o, complete, b, k')
  {
  }

  /** Moving on to the next block, or around to the first. */
  lemma SearchedBlock(blocks: seq<Block>, bitmap: set<nat>, s: nat, o: nat, complete: bool, b: nat)
    requires s < |blocks| && b < |blocks| && (complete ==> b < s)
    requires Searched(blocks, bitmap, s, o, complete, b, blocks[b].pages)
    ensures b + 1 < |blocks| ==> Searched(blocks, bitmap, s, o, complete, b + 1, 0)
    ensures b + 1 == |blocks| && !complete ==> Searched(blocks, bitmap, s, o, true, 0, 0)
  {
  }

  /** Back at the start with everything behind clean: no used page is dirty. */
  lemma SearchedAll(blocks: seq<Block>, bitmap: set<nat>, s: nat, o: nat, k: nat)
    requires s < |blocks| && o <= k
    requires Searched(blocks, bitmap, s, o, true, s, k)
    ensures bitmap * Used(blocks) == {}
  {
    forall p | p in Used(blocks)
      ensures p !in bitmap
    {
      UsedBy(blocks, p);
      var b: nat :| b < |blocks| && InBlock(blocks[b], p);
      assert PageAt(blocks, b, p - blocks[b].first) == p;
      if b != s { assert Clean(blocks, bitmap, b, 0, blocks[b].pages); }
    }
  }

  predicate Agree(mem: seq<Page>, dest: seq<Page>, used: set<nat>)
    requires |mem| == |dest| && forall p :: p in used ==> p < |mem|
  {
    forall p :: p in used ==> dest[p] == mem[p]
  }

  datatype Event = Write(page: nat, data: Page) | SyncLog | Iterate(steps: nat) | Resize(slots: nat)

  /** What the steps of a migration change. */
  datatype Moment = Moment(mem: seq<Page>, log: set<nat>, bitmap: set<nat>, dest: Loader, contents: map<nat, Bytes>,
                           wire: seq<Record>, syncCount: nat)

  ghost predicate Did(blocks: seq<Block>, used: set<nat>, e: Event, m: Moment, m': Moment)
  {
    match e
    case Write(p, page) => p < |m.mem| && m' == m.(mem := m.mem[p := page], log := m.log + {p})
    case SyncLog =>
      m' == m.(log := m.log - CoverAll(blocks), bitmap := m.bitmap + (m.log * CoverAll(blocks)),
               syncCount := m.syncCount + 1)
    case Resize(_) => m' == m.(contents := map[])
    case Iterate(steps) =>
      && m'.bitmap <= m.bitmap && m.log <= m'.log && m'.syncCount == m.syncCount
      && m.wire <= m'.wire && |m'.wire| <= |m.wire| + steps
      && (|m'.wire| < |m.wire| + steps ==> m'.bitmap * used == {})
  }

  /** A run, moment by moment. */
  ghost predicate Traced(blocks: seq<Block>, used: set<nat>, schedule: seq<Event>, trace: seq<Moment>)
  {
    && |trace| == |schedule| + 1
    && forall i :: 0 <= i < |schedule| ==> Did(blocks, used, schedule[i], trace[i], trace[i + 1])
  }

  /** Every used page is dirty in the log, dirty in the bitmap, or equal at both ends. */
  predicate Covered(mem: seq<Page>, log: set<nat>, bitmap: set<nat>, dest: seq<Page>, used: set<nat>)
    requires |mem| == |dest| && forall p :: p in used ==> p < |mem|
  {
    forall p :: p in used ==> p in log || p in bitmap || dest[p] == mem[p]
  }

  /** Both ends of the migration, and what the cache holds. */
  datatype Ends = Ends(mem: seq<Page>, log: set<nat>, dest: seq<Page>, contents: map<nat, Bytes>)

  /** Sending page p, with the guest running on, keeps the cache coherent and coverage. */
  lemma SendKeeps(e: Ends, e': Ends, p: nat, bm: set<nat>, used: set<nat>, running: bool, last: bool)
    requires Ran(e.mem, e.log, e'.mem, e'.log, used, running) && Others(e.contents, e'.contents, p)
    requires p < |e.dest| == |e.mem| && (forall q :: q in used ==> q < |e.mem|) && |e'.dest| == |e.dest|
    requires e'.dest == e.dest[p := e'.dest[p]]
    requires p !in e'.log ==> e'.dest[p] == e'.mem[p]
    requires Coherent(e.contents, e.dest, if last then bm else used) && (!last ==> Coherent(e'.contents, e'.dest, {p}))
    ensures Coherent(e'.contents, e'.dest, if last then bm - {p} else used)
    ensures Covered(e.mem, e.log, bm, e.dest, used) ==> Covered(e'.mem, e'.log, bm - {p}, e'.dest, used)
  {
  }

  /** Where a search begins: block, offset, whether nothing was ever sent, the stage, what is
      marked and stored at both ends, whether coverage holds, and what has been sent. */
  datatype SearchStart = SearchStart(s: nat, o: nat, fresh_: bool, bulk: bool, bitmap: set<nat>, dest: Loader,
                                     mem: seq<Page>, log: set<nat>, covered: bool,
                                     lastSent: Option<nat>, wire: seq<Record>) {
    /** First offset that the search looks at. */
    function From(): nat
    {
      if bulk && o > 0 then o + 1 else o
    }

    /** Offset of the page after the cursor. */
    function Next(): nat
    {
      if fresh_ then 0 else o + 1
    }
  }

  /** Whether a search has gone around when it comes to (b, k). */
  predicate Around(st: SearchStart, b: nat, k: nat)
  {
    b < st.s || (b == st.s && k < st.o)
  }

  /** Page j of block c lies in the round between its start and (b, k). */
  predicate Behind(st: SearchStart, complete: bool, b: nat, k: nat, c: nat, j: nat)
  {
    if complete then c > st.s || (c == st.s && j >= st.From()) || c < b || (c == b && j < k)
    else if b == st.s then c == b && st.From() <= j < k
    else (c == st.s && j >= st.From()) || st.s < c < b || (c == b && j < k)
  }

  /** Only pages between the start of the round and (b, k) have become clean. */
  ghost predicate OnlyBehind(blocks: seq<Block>, st: SearchStart, bitmap: set<nat>, complete: bool, b: nat, k: nat)
  {
    forall c: nat, j: nat :: c < |blocks| && j < blocks[c].pages && !Behind(st, complete, b, k, c, j) ==>
      (PageAt(blocks, c, j) in st.bitmap ==> PageAt(blocks, c, j) in bitmap)
  }

  /** Coming from page k, which may have been taken, to page k'. */
  lemma OnlyBehindOn(blocks: seq<Block>, st: SearchStart, bitmap: set<nat>, complete: bool, b: nat, k: nat, k': nat)
    requires b < |blocks| && OnlyBehind(blocks, st, bitmap, complete, b, k + 1) && k <= k' <= blocks[b].pages
    requires k' < blocks[b].pages ==> PageAt(blocks, b, k') in bitmap
    ensures OnlyBehind(blocks, st, bitmap, complete, b, k')
  {
  }

  lemma OnlyBehindBlock(blocks: seq<Block>, st: SearchStart, bitmap: set<nat>, complete: bool, b: nat)
    requires st.s < |blocks| && b < |blocks| && (complete ==> b < st.s) && (!complete ==> st.s <= b)
    requires OnlyBehind(blocks, st, bitmap, complete, b, blocks[b].pages + 1)
    ensures b + 1 < |blocks| ==> OnlyBehind(blocks, st, bitmap, complete, b + 1, 1)
    ensures b + 1 == |blocks| && !complete ==> OnlyBehind(blocks, st, bitmap, true, 0, 1)
  {
  }

  /** Taking the page at (b, k). */
  lemma OnlyBehindTaken(blocks: seq<Block>, st: SearchStart, bitmap: set<nat>, complete: bool, b: nat, k: nat)
    requires BlocksOk(blocks) && b < |blocks| && k < blocks[b].pages && OnlyBehind(blocks, st, bitmap, complete, b, k)
    requires !complete && b == st.s ==> st.From() <= k
    ensures OnlyBehind(blocks, st, bitmap - {PageAt(blocks, b, k)}, complete, b, k + 1)
  {
    var p := PageAt(blocks, b, k);
    forall c: nat, j: nat | c < |blocks| && j < blocks[c].pages && !Behind(st, complete, b, k + 1, c, j)
      ensures PageAt(blocks, c, j) in st.bitmap ==> PageAt(blocks, c, j) in bitmap - {p}
    {
      PageAtDistinct(blocks, c, j, b, k);
    }
  }

  /** A search that has sent the page at (b, k): that page was dirty, everything from the start of
      the round up to it is clean now, and nothing else has become clean. */
  ghost predicate Took(blocks: seq<Block>, st: SearchStart, bitmap: set<nat>, b: nat, k: nat)
  {
    && st.s < |blocks| && b < |blocks| && k < blocks[b].pages && PageAt(blocks, b, k) in st.bitmap
    && Searched(blocks, bitmap, st.s, st.From(), Around(st, b, k), b, k + 1)
    && OnlyBehind(blocks, st, bitmap, Around(st, b, k), b, k + 1)
  }

  lemma Taken(blocks: seq<Block>, st: SearchStart, bitmap: set<nat>, complete: bool, b: nat, k: nat)
    requires BlocksOk(blocks) && st.s < |blocks| && b < |blocks| && k < blocks[b].pages
    requires PageAt(blocks, b, k) in bitmap && bitmap <= st.bitmap
    requires Searched(blocks, bitmap, st.s, st.From(), complete, b, k) && OnlyBehind(blocks, st, bitmap, complete, b, k)
    requires if complete && b == st.s then k < st.o else b == st.s ==> st.From() <= k && st.o <= k
    ensures Took(blocks, st, bitmap - {PageAt(blocks, b, k)}, b, k)
    ensures OnlyBehind(blocks, st, bitmap - {PageAt(blocks, b, k)}, complete, b, k + 1)
  {
    var bitmap' := bitmap - {PageAt(blocks, b, k)};
    OnlyBehindTaken(blocks, st, bitmap, complete, b, k);
    SearchedShrinks(blocks, bitmap, bitmap', st.s, st.From(), complete, b, k);
    SearchedOn(blocks, bitmap', st.s, st.From(), complete, b, k, k + 1);
  }

  /** In the bulk stage a search sends the page after the cursor, if the block has one and the
      search does not come upon a dirty first page on the way. */
  ghost predicate SendsNext(blocks: seq<Block>, st: SearchStart)
  {
    && st.s < |blocks| && st.bulk && st.Next() < blocks[st.s].pages
    && (!st.fresh_ && st.o == 0 ==> PageAt(blocks, st.s, 0) !in st.bitmap)
  }

  ghost predicate StartOk(blocks: seq<Block>, used: set<nat>, st: SearchStart)
  {
    && st.s < |blocks| && st.o <= blocks[st.s].pages
    && (st.fresh_ ==> st.s == 0 && st.o == 0 && st.bulk && used <= st.bitmap)
    && (st.bulk ==> st.o < blocks[st.s].pages && DirtyAfter(blocks, st.bitmap, st.s, st.o))
  }

  /** Since a search began, bits of used pages only have gone from the bitmap or come into the log. */
  ghost predicate Grown(st: SearchStart, log: set<nat>, bitmap: set<nat>, used: set<nat>)
  {
    st.bitmap <= bitmap + used && st.log <= log <= st.log + used
  }

  lemma GrownNext(st: SearchStart, log: set<nat>, log': set<nat>, bitmap: set<nat>, p: nat, used: set<nat>)
    requires Grown(st, log, bitmap, used) && log <= log' <= log + used && p in used
    ensures Grown(st, log', bitmap - {p}, used)
  {
  }

  lemma LosesSame(blocks: seq<Block>, used: set<nat>, st: SearchStart, st': SearchStart)
    requires (st.s, st.o, st.fresh_, st.bulk, st.bitmap) == (st'.s, st'.o, st'.fresh_, st'.bulk, st'.bitmap)
    ensures Loses(blocks, used, st) == Loses(blocks, used, st')
  {
  }

  lemma NextIsDirty(blocks: seq<Block>, used: set<nat>, st: SearchStart)
    requires StartOk(blocks, used, st) && st.bulk
    ensures st.o + 1 < blocks[st.s].pages ==> PageAt(blocks, st.s, st.o + 1) in st.bitmap
  {
  }

  /** The one situation in which a search drops a dirty page. */
  ghost predicate Loses(blocks: seq<Block>, used: set<nat>, st: SearchStart)
  {
    && st.bulk && !st.fresh_ && st.o > 0
    && st.s + 1 == |blocks| && st.o + 1 == blocks[st.s].pages
    && st.bitmap * used == {PageAt(blocks, st.s, st.o)}
  }

  class Migrator {
    const blocks: seq<Block>
    const useXbzrle: bool
    const used: set<nat>
    const size: nat

    // the guest
    var mem: seq<Page>
    var log: set<nat>
    var running: bool

    // the migration
    var bitmap: set<nat>
    var dirtyPages: int
    var lastSeen: Option<nat>
    var lastOffset: nat
    var lastSent: Option<nat>
    var bulk: bool
    var syncCount: nat
    var cache: Cache

    /** Some search so far started where it loses the cursor's page. */
    ghost var lossy: bool

    /** The destination, fed with every record as it is sent: what it was at setup, and all records
        since then. */
    var dest: Loader
    ghost var first: Loader
    ghost var wire: seq<Record>

    function PageNo(b: nat, k: nat): nat
      requires b < |blocks|
    {
      blocks[b].first + k
    }

    ghost predicate Static()
    {
      BlocksOk(blocks) && used == Used(blocks) && size == End(blocks) && (forall p :: p in used ==> p < size)
    }

    ghost predicate Shape()
      reads `mem, `dest, `cache, `bulk, cache
    {
      && |mem| == size
      && dest.Loader? && |dest.mem| == size
      && cache.Valid() && CacheShape(cache.contents)
    }

    ghost predicate CacheShape(contents: map<nat, Bytes>)
      reads `bulk
    {
      && (forall p :: p in contents ==> p in used && |contents[p]| == PAGE_SIZE)
      && (bulk || !useXbzrle ==> contents == map[])
    }

    lemma PageInUse(b: nat, k: nat)
      requires Static() && b < |blocks| && k < blocks[b].pages
      ensures PageNo(b, k) in used && PageNo(b, k) < size
    {
      UsedBy(blocks, PageNo(b, k));
      assert InBlock(blocks[b], PageNo(b, k));
    }

    /** The source leaves out the block name just when the destination remembers it, and the
        destination is what the records have made of it. */
    ghost predicate Linked()
      reads `lastSent, `wire, `first, `dest
    {
      && (lastSent.Some? ==> lastSent.value < |blocks| && dest.Loader? && dest.block == lastSent)
      && dest == LoadAll(blocks, first, wire)
    }

    constructor (blocks: seq<Block>, useXbzrle: bool, slots: nat, mem: seq<Page>, log: set<nat>, destination: seq<Page>)
      requires BlocksOk(blocks) && slots > 0
      requires |mem| == |destination| == End(blocks)
      ensures this.blocks == blocks && this.useXbzrle == useXbzrle && this.mem == mem && this.log == log
      ensures dest == Loader(None, destination)
      ensures Static() && Shape() && bulk && lastSeen.None? && lastSent.None? && running && syncCount == 0
    {
      this.blocks, this.useXbzrle, used, size := blocks, useXbzrle, Used(blocks), End(blocks);
      this.mem, this.log, running := mem, log, true;
      bitmap, dirtyPages := {}, 0;
      lastSeen, lastOffset, lastSent, bulk, syncCount := None, 0, None, true, 0;
      UsedBelowEnd(blocks);
      cache := new Cache(slots);
      dest, first, wire := Loader(None, destination), Loader(None, destination), [];
    }

    // ---------- the guest ----------

    /** Any guest writes at all. */
    method Interfere()
      modifies `mem, `log
      ensures Ran(old(mem), old(log), mem, log, used, running)
    {
      if running {
        var written: set<nat>, now: seq<Page> := *, *;
        if |now| == |mem| && written <= used && (forall p :: 0 <= p < |mem| && now[p] != mem[p] ==> p in written) {
          mem, log := now, log + written;
        }
      }
    }

    /** One read of a guest page while the guest runs: if the page is not in the log afterwards
        the read is faithful, otherwise it may be torn in any way. */
    method ReadPage(p: nat) returns (page: Page)
      requires p < |mem|
      modifies `mem, `log
      ensures Ran(old(mem), old(log), mem, log, used, running)
      ensures p !in log || !running ==> page == mem[p]
    {
      Interfere();
      page := mem[p];
      if running && p in log {
        page := *;
      }
    }

    method GuestWrite(p: nat, page: Page)
      requires Shape() && p in used && p < size
      modifies `mem, `log
      ensures Shape() && mem == old(mem)[p := page] && log == old(log) + {p}
    {
      mem := mem[p := page];
      log := log + {p};
    }

    // ---------- sending one page ----------

    /** A record for page k of block b: the block is named unless it is that of the last page sent. */
    function Header(b: nat, k: nat, payload: Payload): (r: Record)
      requires b < |blocks|
      reads `lastSent
    {
      Record(if lastSent == Some(b) then None else Some(blocks[b].id), k, payload)
    }

    /** save_page_header and the payload behind it. */
    method Send(b: nat, k: nat, payload: Payload)
      requires Static() && Linked() && b < |blocks| && k < blocks[b].pages
      requires dest.Loader? && PageNo(b, k) < |dest.mem| && Decoded(payload, dest.mem[PageNo(b, k)]).Some?
      modifies `dest, `wire
      ensures dest == Loader(Some(b),
        old(dest).mem[PageNo(b, k) := Decoded(payload, old(dest).mem[PageNo(b, k)]).value])
      ensures wire == old(wire) + [Header(b, k, payload)] && dest == LoadAll(blocks, first, wire)
    {
      hide LoadAll, Decoded;
      var r := Header(b, k, payload);
      FindOwnBlock(blocks, b, k, 0);
      LoadAllNext(blocks, first, wire, r);
      dest := Load(blocks, dest, r);
      wire := wire + [r];
    }

    /** A page that is not in the cache is put there, if it can be. */
    method CacheMiss(p: nat, last: bool) returns (data: Option<Page>)
      requires Shape() && p in used && p < size && !bulk && useXbzrle && p !in cache.contents
      modifies `mem, `log, cache
      ensures Shape() && Ran(old(mem), old(log), mem, log, used, running)
      ensures Others(old(cache.contents), cache.contents, p) && Aged(old(cache.items), cache.items, p, syncCount)
      ensures last ==> data.None? && cache.contents == old(cache.contents)
      ensures if data.Some? then p in cache.contents && cache.contents[p] == data.value else p !in cache.contents
      ensures data.Some? && (p !in log || !running) ==> data.value == mem[p]
    {
      hide Aged, Cache.Valid;
      data := None;
      cache.NotCached(p, syncCount);
      NoneRan(mem, log, cache.contents, p, used, running);
      if !last {
        var page := ReadPage(p);
        var memory: bool := *;
        var ok := cache.Insert(p, page, syncCount, memory);
        if ok { data := Some(page); }
      }
    }

    /** save_xbzrle_page: 1 sent as a delta, 0 unchanged since it was last sent, -1 to be sent in
        full, from the cached copy `data` if there is one. */
    method SaveXbzrlePage(b: nat, k: nat, last: bool) returns (ret: int, data: Option<Page>)
      requires Static() && Shape() && Linked() && b < |blocks| && k < blocks[b].pages
      requires PageNo(b, k) in used && PageNo(b, k) < size && !bulk && useXbzrle
      requires Coherent(cache.contents, dest.mem, {PageNo(b, k)})
      modifies `mem, `log, `dest, `wire, cache
      ensures Shape() && Ran(old(mem), old(log), mem, log, used, running)
      ensures var p := PageNo(b, k);
              && Others(old(cache.contents), cache.contents, p) && Aged(old(cache.items), cache.items, p, syncCount)
              && (ret == 0 ==> p in old(cache.contents))
              && (ret == 1 || ret == 0 || ret == -1) && (ret != 1 ==> dest == old(dest) && wire == old(wire))
              && (ret == 1 ==> dest == Loader(Some(b), old(dest).mem[p := dest.mem[p]]))
              && (ret == 1 ==> dest == LoadAll(blocks, first, wire))
              && (p !in log || !running ==> Chosen(ret, Prev(old(cache.contents), p), mem[p], wire))
              && (ret == 1 ==> |wire| > 0 && wire == old(wire) + [Header(b, k, wire[|wire| - 1].payload)])
              && (ret >= 0 && (p !in log || !running) ==> dest.mem[p] == mem[p])
              && (ret >= 0 && !last ==> Coherent(cache.contents, dest.mem, {p}))
              && (ret == -1 && !last ==> if data.Some? then p in cache.contents && cache.contents[p] == data.value
                else p !in cache.contents)
              && (ret == -1 && data.Some? && (p !in log || !running) ==> data.value == mem[p])
    {
      hide Aged, OneSlot, LoadAll, Chosen, Cache.Valid, CacheShape, Static, Others, Ran, Coherent;
      var p := PageNo(b, k);
      data := None;
      var hit := cache.IsCached(p, syncCount);
      ghost var items := cache.items;
      if !hit {
        data := CacheMiss(p, last);
        ChosenMiss(mem[p], wire);
        return -1, data;
      }
      ret, data := SaveCached(b, k, last);
      AgedThen(old(cache.items), items, cache.items, p, syncCount);
    }

    /** Copies the guest page over its cached copy. */
    method RefreshCached(p: nat) returns (page: Page)
      requires Shape() && p < size && p in cache.contents
      modifies `mem, `log, cache
      ensures Shape() && Ran(old(mem), old(log), mem, log, used, running)
      ensures cache.contents == old(cache.contents)[p := page] && OneSlot(old(cache.items), cache.items, p)
      ensures p !in log || !running ==> page == mem[p]
    {
      hide OneSlot;
      page := ReadPage(p);
      cache.Overwrite(p, page);
    }

    /** The rest of save_xbzrle_page, for a page that is in the cache. */
    method SaveCached(b: nat, k: nat, last: bool) returns (ret: int, data: Option<Page>)
      requires Static() && Shape() && Linked() && b < |blocks| && k < blocks[b].pages
      requires PageNo(b, k) in used && PageNo(b, k) < size && !bulk && useXbzrle
      requires PageNo(b, k) in cache.contents && Coherent(cache.contents, dest.mem, {PageNo(b, k)})
      modifies `mem, `log, `dest, `wire, cache
      ensures Shape() && Ran(old(mem), old(log), mem, log, used, running)
      ensures var p := PageNo(b, k);
              && Others(old(cache.contents), cache.contents, p) && p in cache.contents
              && OneSlot(old(cache.items), cache.items, p)
              && (ret == 1 || ret == 0 || ret == -1) && (ret != 1 ==> dest == old(dest) && wire == old(wire))
              && (ret == 1 ==> dest == Loader(Some(b), old(dest).mem[p := dest.mem[p]]))
              && (ret == 1 ==> dest == LoadAll(blocks, first, wire))
              && (p !in log || !running ==> Chosen(ret, Prev(old(cache.contents), p), mem[p], wire))
              && (ret == 1 ==> |wire| > 0 && wire == old(wire) + [Header(b, k, wire[|wire| - 1].payload)])
              && (ret >= 0 && (p !in log || !running) ==> dest.mem[p] == mem[p])
              && (ret >= 0 && !last ==> Coherent(cache.contents, dest.mem, {p}))
              && (ret == -1 ==> data.Some? == !last)
              && (ret == -1 && data.Some? ==> cache.contents[p] == data.value)
              && (ret == -1 && data.Some? && (p !in log || !running) ==> data.value == mem[p])
    {
      hide Static, Ran, Cache.Valid, Decoded, OneSlot, LoadAll, Chosen, Differs;
      var p := PageNo(b, k);
      cache.SomeSlots();
      OneSlotNone(cache.items, p);
      var prev := cache.Get(p);
      var current := ReadPage(p);
      var change := Difference(prev, current);
      data := None;
      match change {
        case Same =>
          ret := 0;
        case TooLong =>
          ret := -1;
          if !last {
            ghost var mem1, log1 := mem, log;
            var page := RefreshCached(p);
            RanTwice(old(mem), old(log), mem1, log1, mem, log, used, running);
            RanStill(mem1, log1, mem, log, used, running, p);
            data := Some(page);
          }
        case Coded(payload) =>
          SendDelta(b, k, last, current, payload);
          ret := 1;
      }
      ChosenHit(change, ret, prev, current, wire);
    }

    method SendDelta(b: nat, k: nat, last: bool, current: Page, payload: Payload)
      requires Static() && Shape() && Linked() && b < |blocks| && k < blocks[b].pages
      requires PageNo(b, k) in used && PageNo(b, k) < size && !bulk && useXbzrle
      requires PageNo(b, k) in cache.contents && Decoded(payload, dest.mem[PageNo(b, k)]) == Some(current)
      modifies `dest, `wire, cache
      ensures Shape() && dest == Loader(Some(b), old(dest).mem[PageNo(b, k) := current])
      ensures wire == old(wire) + [Header(b, k, payload)] && dest == LoadAll(blocks, first, wire)
      ensures OneSlot(old(cache.items), cache.items, PageNo(b, k))
      ensures cache.contents == if last then old(cache.contents) else old(cache.contents)[PageNo(b, k) := current]
    {
      hide Static, Cache.Valid, Decoded, OneSlot, LoadAll;
      cache.SomeSlots();
      OneSlotNone(cache.items, PageNo(b, k));
      if !last { cache.Overwrite(PageNo(b, k), current); }
      Send(b, k, payload);
    }

    /** The payload of the last record, if there was one. */
    ghost function LastSent(pages: nat): (payload: Option<Payload>)
      reads `wire
    {
      if pages == 0 || wire == [] then None else Some(wire[|wire| - 1].payload)
    }

    /** A page that was not seen to be all zeroes: as a delta if the cache allows, otherwise in full. */
    method SaveData(b: nat, k: nat, last: bool) returns (pages: nat)
      requires Static() && Shape() && Linked() && b < |blocks| && k < blocks[b].pages
      requires PageNo(b, k) in used && PageNo(b, k) < size
      requires Coherent(cache.contents, dest.mem, {PageNo(b, k)})
      modifies `mem, `log, `dest, `wire, cache
      ensures Shape() && Ran(old(mem), old(log), mem, log, used, running)
      ensures var p := PageNo(b, k);
              && Others(old(cache.contents), cache.contents, p) && Aged(old(cache.items), cache.items, p, syncCount)
              && pages <= 1
              && (pages == 0 ==> p in old(cache.contents) && dest == old(dest) && wire == old(wire))
              && (pages == 1 ==>
                    && dest == Loader(Some(b), old(dest).mem[p := dest.mem[p]]) && dest == LoadAll(blocks, first, wire)
                    && |wire| > 0 && wire == old(wire) + [Header(b, k, wire[|wire| - 1].payload)])
              && (p !in log || !running ==> dest.mem[p] == mem[p])
              && (!last ==> Coherent(cache.contents, dest.mem, {p}))
      ensures (PageNo(b, k) !in log || !running) && mem[PageNo(b, k)] != ZeroPage() ==>
                FormOk(Prev(old(cache.contents), PageNo(b, k)), mem[PageNo(b, k)], LastSent(pages))
    {
      hide Static, Cache.Valid, Decoded, Aged, LoadAll, Chosen, FormOk, Others, Ran;
      var p := PageNo(b, k);
      var ret, data := -1, None;
      if !bulk && useXbzrle {
        ret, data := SaveXbzrlePage(b, k, last);
      } else {
        cache.NotCached(p, syncCount);
        ChosenMiss(mem[p], wire);
        NoneRan(mem, log, cache.contents, p, used, running);
      }
      ghost var mem1, log1, sent := mem, log, wire;
      pages := if ret == 1 then 1 else 0;
      if ret == -1 {
        SendFull(b, k, data);
        RanTwice(old(mem), old(log), mem1, log1, mem, log, used, running);
        RanStill(mem1, log1, mem, log, used, running, p);
        pages := 1;
      }
      if (p !in log || !running) && mem[p] != ZeroPage() {
        FormFrom(ret, Prev(old(cache.contents), p), mem[p], sent, LastSent(pages));
      }
    }

    /** ram_save_page: the number of pages written, 0 for a page the destination already has. */
    method SavePage(b: nat, k: nat, last: bool) returns (pages: nat)
      requires Static() && Shape() && Linked() && b < |blocks| && k < blocks[b].pages
      requires PageNo(b, k) in used && PageNo(b, k) < size
      requires Coherent(cache.contents, dest.mem, {PageNo(b, k)})
      modifies `mem, `log, `dest, `wire, cache
      ensures Shape() && Ran(old(mem), old(log), mem, log, used, running)
      ensures var p := PageNo(b, k);
              && Others(old(cache.contents), cache.contents, p) && Aged(old(cache.items), cache.items, p, syncCount)
              && pages <= 1
              && (pages == 0 ==> p in old(cache.contents) && dest == old(dest) && wire == old(wire))
              && (pages == 1 ==>
                    && dest == Loader(Some(b), old(dest).mem[p := dest.mem[p]]) && dest == LoadAll(blocks, first, wire)
                    && |wire| > 0 && wire == old(wire) + [Header(b, k, wire[|wire| - 1].payload)])
              && (p !in log || !running ==> dest.mem[p] == mem[p])
              && (!last ==> Coherent(cache.contents, dest.mem, {p}))
      ensures PageNo(b, k) !in log || !running ==>
                FormOk(Prev(old(cache.contents), PageNo(b, k)), mem[PageNo(b, k)], LastSent(pages))
    {
      hide Static, Cache.Valid, Decoded, Aged, LoadAll, FormOk, Others, Coherent, Ran;
      var seen := ReadPage(PageNo(b, k));
      ghost var mem1, log1 := mem, log;
      if seen == ZeroPage() {
        FormZero(Prev(cache.contents, PageNo(b, k)));
        SendZero(b, k);
        pages := 1;
      } else {
        pages := SaveData(b, k, last);
        RanTwice(old(mem), old(log), mem1, log1, mem, log, used, running);
        RanStill(mem1, log1, mem, log, used, running, PageNo(b, k));
      }
    }

    /** The zero-page branch: a stale cached copy must not survive it. */
    method SendZero(b: nat, k: nat)
      requires Static() && Shape() && Linked() && b < |blocks| && k < blocks[b].pages
      requires PageNo(b, k) in used && PageNo(b, k) < size
      modifies `dest, `wire, cache
      ensures Shape() && Others(old(cache.contents), cache.contents, PageNo(b, k))
      ensures Aged(old(cache.items), cache.items, PageNo(b, k), syncCount)
      ensures dest == Loader(Some(b), old(dest).mem[PageNo(b, k) := ZeroPage()])
      ensures wire == old(wire) + [Header(b, k, Zero)] && dest == LoadAll(blocks, first, wire)
      ensures Coherent(cache.contents, dest.mem, {PageNo(b, k)})
    {
      hide Aged, LoadAll, Decoded, Static;
      DecodedPlain(ZeroPage(), dest.mem[PageNo(b, k)]);
      if PageNo(b, k) !in cache.contents { cache.NotCached(PageNo(b, k), syncCount); }
      Send(b, k, Zero);
      if !bulk && useXbzrle {
        var memory: bool := *;
        var ok := cache.Insert(PageNo(b, k), ZeroPage(), syncCount, memory);
      }
    }

    /** The whole page, from its cached copy or else from the guest. */
    method SendFull(b: nat, k: nat, data: Option<Page>)
      requires Static() && Shape() && Linked() && b < |blocks| && k < blocks[b].pages
      requires PageNo(b, k) in used && PageNo(b, k) < size
      modifies `mem, `log, `dest, `wire
      ensures Shape() && Ran(old(mem), old(log), mem, log, used, running)
      ensures var p := PageNo(b, k);
              && dest == Loader(Some(b), old(dest).mem[p := dest.mem[p]])
              && wire == old(wire) + [Header(b, k, Full(dest.mem[p]))] && dest == LoadAll(blocks, first, wire)
              && (if data.Some? then dest.mem[p] == data.value && mem == old(mem) && log == old(log)
                  else p !in log || !running ==> dest.mem[p] == mem[p])
    {
      hide LoadAll, Decoded;
      var page: Page;
      if data.Some? {
        page := data.value;
      } else {
        page := ReadPage(PageNo(b, k));
      }
      DecodedPlain(page, dest.mem[PageNo(b, k)]);
      Send(b, k, Full(page));
    }

    // ---------- the dirty log and the bitmap ----------

    /** The counter is exact, but for bits beyond the end of RAM that a word-wise sync has
        brought in from the log. */
    ghost predicate Counted()
      reads `bitmap, `dirtyPages
    {
      dirtyPages == |bitmap * used| + |bitmap - Range(0, size)|
    }

    /** Bits of gaps between blocks are set from the start and never cleared. */
    ghost predicate GapsSet()
      reads `bitmap
    {
      Range(0, size) - used <= bitmap
    }

    ghost function Marks(): DirtyMarks
      reads `log, `bitmap, `dirtyPages
    {
      DirtyMarks(log, bitmap, dirtyPages)
    }

    method SyncWord(first: nat)
      modifies `log, `bitmap, `dirtyPages
      ensures Synced(old(Marks()), Marks(), Range(first, BITS_PER_LONG))
    {
      var src := log * Range(first, BITS_PER_LONG);
      if src != {} {
        var newDirty := src - bitmap;
        bitmap := bitmap + src;
        dirtyPages := dirtyPages + |newDirty|;
        log := log - src;
        assert bitmap == old(bitmap) + newDirty;
      } else {
        DisjointMinus(log, Range(first, BITS_PER_LONG));
      }
    }

    method SyncOnePage(p: nat)
      modifies `log, `bitmap, `dirtyPages
      ensures Synced(old(Marks()), Marks(), Range(p, 1))
    {
      assert Range(p, 1) == {p};
      hide Range;
      if p in log {
        log := log - {p};
        if p !in bitmap {
          bitmap := bitmap + {p};
          dirtyPages := dirtyPages + 1;
        }
      }
    }

    method SyncWords(first: nat, words: nat)
      modifies `log, `bitmap, `dirtyPages
      ensures Synced(old(Marks()), Marks(), Range(first, words * BITS_PER_LONG))
    {
      hide Synced, Range;
      ghost var m := Marks();
      SyncedNothing(m, first);
      var k := 0;
      while k < words
        invariant 0 <= k <= words
        invariant Synced(m, Marks(), Range(first, k * BITS_PER_LONG))
      {
        ghost var m1 := Marks();
        SyncWord(first + k * BITS_PER_LONG);
        SyncedRange(m, m1, Marks(), first, k * BITS_PER_LONG, BITS_PER_LONG);
        k := k + 1;
      }
    }

    method SyncPages(first: nat, n: nat)
      modifies `log, `bitmap, `dirtyPages
      ensures Synced(old(Marks()), Marks(), Range(first, n))
    {
      hide *;
      ghost var m := Marks();
      SyncedNothing(m, first);
      var i := 0;
      while i < n
        invariant 0 <= i <= n
        invariant Synced(m, Marks(), Range(first, i))
      {
        ghost var m1 := Marks();
        SyncOnePage(first + i);
        SyncedRange(m, m1, Marks(), first, i, 1);
        i := i + 1;
      }
    }

    /** migration_bitmap_sync_range: word by word if the range starts on a word boundary, which
        may spill into what follows the range, otherwise page by page. */
    method SyncRange(first: nat, n: nat)
      modifies `log, `bitmap, `dirtyPages
      ensures Synced(old(Marks()), Marks(), Cover(first, n))
    {
      if first % BITS_PER_LONG == 0 {
        SyncWords(first, (n + BITS_PER_LONG - 1) / BITS_PER_LONG);
      } else {
        SyncPages(first, n);
      }
    }

    /** migration_bitmap_sync. */
    method Sync()
      requires Static() && GapsSet() && Counted()
      modifies `log, `bitmap, `dirtyPages, `syncCount
      ensures Synced(old(Marks()), Marks(), CoverAll(blocks))
      ensures GapsSet() && Counted() && syncCount == old(syncCount) + 1
    {
      hide Synced, Cover, CoverAll, Static, GapsSet, Counted, CountedIn;
      syncCount := syncCount + 1;
      ghost var m := Marks();
      CountedNow();
      SyncedNothing(m, 0);
      CoverAllNone();
      var i := 0;
      while i < |blocks|
        invariant 0 <= i <= |blocks|
        invariant Synced(m, Marks(), CoverAll(blocks[..i])) && syncCount == old(syncCount) + 1
      {
        ghost var m1 := Marks();
        SyncRange(blocks[i].first, blocks[i].pages);
        SyncedNext(m, m1, Marks(), CoverAll(blocks[..i]), Cover(blocks[i].first, blocks[i].pages));
        CoverAllNext(blocks, i);
        i := i + 1;
      }
      assert blocks[..i] == blocks;
      SyncKeeps(m);
    }

    ghost predicate CountedIn(m: DirtyMarks)
    {
      m.count == |m.bitmap * used| + |m.bitmap - Range(0, size)| && Range(0, size) - used <= m.bitmap
    }

    lemma CountedNow()
      requires Counted() && GapsSet()
      ensures CountedIn(Marks())
    {
    }

    lemma SyncKeeps(m: DirtyMarks)
      requires Static() && CountedIn(m) && Synced(m, Marks(), CoverAll(blocks))
      ensures GapsSet() && Counted()
    {
      assert used <= Range(0, size);
      CountAfterSync(m.bitmap, bitmap, used, Range(0, size));
    }

    // ---------- the search for dirty pages ----------

    /** migration_bitmap_find_and_reset_dirty: in the bulk stage the page after the cursor is
        taken without looking, otherwise the next dirty page. */
    method FindAndResetDirty(b: nat, start: nat) returns (off: nat)
      requires Static() && Counted() && GapsSet() && b < |blocks| && start <= blocks[b].pages
      requires bulk && start > 0 ==>
                 start < blocks[b].pages && (start + 1 < blocks[b].pages ==> PageAt(blocks, b, start + 1) in bitmap)
      modifies `bitmap, `dirtyPages
      ensures Counted() && GapsSet()
      ensures off <= blocks[b].pages
      ensures if bulk && start > 0 then off == start + 1 else start <= off && Clean(blocks, old(bitmap), b, start, off)
      ensures off < blocks[b].pages ==>
                PageAt(blocks, b, off) in old(bitmap) && bitmap == old(bitmap) - {PageAt(blocks, b, off)}
      ensures off == blocks[b].pages ==> bitmap == old(bitmap)
    {
      if bulk && start > 0 {
        off := start + 1;
      } else {
        off := start;
        while off < blocks[b].pages && PageAt(blocks, b, off) !in bitmap
          invariant start <= off <= blocks[b].pages
          invariant Clean(blocks, bitmap, b, start, off)
        {
          off := off + 1;
        }
      }
      if off < blocks[b].pages {
        PageInUse(b, off);
        CountOneLess(bitmap, used, Range(0, size), PageAt(blocks, b, off));
        bitmap := bitmap - {PageAt(blocks, b, off)};
        dirtyPages := dirtyPages - 1;
      }
    }

    /** Pages whose cached copy must mirror the destination: all of them, but in the last stage
        only those still to be sent. */
    ghost function Mirrored(last: bool): set<nat>
      reads `bitmap
    {
      if last then bitmap else used
    }

    /** Everything that holds between page steps, the cursor and coverage apart. */
    ghost predicate Steady(last: bool)
      reads `mem, `dest, `cache, `bulk, `lastSent, `wire, `first, `bitmap, `dirtyPages, `running, cache
    {
      && Static() && Shape() && Linked() && Counted() && GapsSet()
      && (last ==> !running)
      && Coherent(cache.contents, dest.mem, Mirrored(last))
    }

    /** Every used page is in the log, or in the bitmap, or the same at both ends. */
    ghost predicate Covers()
      requires Shape() && Static()
      reads `mem, `log, `bitmap, `dest, `cache, `bulk, cache
    {
      Covered(mem, log, bitmap, dest.mem, used)
    }

    ghost predicate CursorOk()
      reads `lastSeen, `lastOffset, `bulk, `bitmap
    {
      CursorIn(bitmap)
    }

    ghost predicate CursorIn(bm: set<nat>)
      reads `lastSeen, `lastOffset, `bulk
    {
      match lastSeen
      case None => bulk && lastOffset == 0 && used <= bm
      case Some(b) =>
        && b < |blocks| && lastOffset <= blocks[b].pages
        && (bulk ==> lastOffset < blocks[b].pages && DirtyAfter(blocks, bm, b, lastOffset))
    }

    ghost function Start(): SearchStart
      requires Static() && Shape()
      reads this, cache
    {
      SearchStart(if lastSeen.Some? then lastSeen.value else 0, lastOffset, lastSeen.None?, bulk, bitmap, dest, mem,
        log, Covers(), lastSent, wire)
    }

    /** One search takes the cursor's page for granted in the bulk stage.  If that page is the
        last one of the last block, has become dirty again and is the only dirty page, the search
        goes all the way round to it, clears its bit and stops without sending it. */
    ghost predicate LosesCursorPage()
      requires Static() && Shape()
      reads this, cache
    {
      CursorOk() && Loses(blocks, used, Start())
    }

    /** A search under way: everything from its start up to (b, k) is clean. */
    ghost predicate Scanning(st: SearchStart, b: nat, k: nat, complete: bool, last: bool)
      reads this, cache
    {
      && Steady(last) && (st.covered ==> Covers()) && (!running || st.bulk ==> mem == st.mem && log == st.log)
      && StartOk(blocks, used, st) && b < |blocks| && k <= blocks[b].pages
      && lastSeen == (if st.fresh_ then None else Some(st.s)) && lastOffset == st.o
      && bitmap <= st.bitmap && Grown(st, log, bitmap, used)
      && Searched(blocks, bitmap, st.s, st.From(), complete, b, k)
      && OnlyBehind(blocks, st, bitmap, complete, b, k + 1)
      && dest == st.dest && wire == st.wire && lastSent == st.lastSent
      && (st.fresh_ ==> b == 0 && !complete)
      && (if st.bulk then bitmap == st.bitmap && cache.contents == map[] && bulk == !complete else !bulk)
    }

    /** The same at the head of the loop, where a bulk search stands at its start or at a block. */
    ghost predicate Searching(st: SearchStart, b: nat, k: nat, complete: bool, last: bool)
      reads this, cache
    {
      && Scanning(st, b, k, complete, last)
      && (st.bulk && !complete ==> k == if b == st.s then st.o else 0)
      && (!complete && b == st.s ==> st.o <= k)
    }

    /** The end of the round: everything is clean, and a bit was dropped only if the search
        started where it loses the cursor's page. */
    lemma RoundEnds(st: SearchStart, bm: set<nat>, off: nat)
      requires Static() && StartOk(blocks, used, st) && !st.fresh_ && bm <= st.bitmap && (st.bulk ==> bm == st.bitmap)
      requires st.o <= off <= blocks[st.s].pages
      requires Searched(blocks, bm, st.s, st.From(), true, st.s, off)
      requires off < blocks[st.s].pages ==> PageAt(blocks, st.s, off) in bm
      ensures Loses(blocks, used, st) <==> off < blocks[st.s].pages
      ensures off < blocks[st.s].pages ==> off == st.o && (bm - {PageAt(blocks, st.s, off)}) * used == {}
      ensures off == blocks[st.s].pages ==> bm * used == {}
    {
      var n := blocks[st.s].pages;
      if off == n {
        SearchedAll(blocks, bm, st.s, st.From(), off);
      } else {
        assert off < st.From() && off == st.o && st.bulk && st.o > 0;
        PageInUse(st.s, st.o);
        var next := PageAt(blocks, st.s, st.o + 1);
        assert st.o + 1 < n ==> next in bm;
        if st.s + 1 < |blocks| { FirstPageDirty(blocks, bm, st.s, st.o, st.s + 1); }
        var bm' := bm - {PageAt(blocks, st.s, off)};
        SearchedShrinks(blocks, bm, bm', st.s, st.From(), true, st.s, off);
        assert Searched(blocks, bm', st.s, st.From(), true, st.s, n);
        SearchedAll(blocks, bm', st.s, st.From(), n);
        assert bm * used == {PageAt(blocks, st.s, st.o)};
      }
    }

    lemma RoundOver(st: SearchStart, b: nat, off: nat, last: bool, bm: set<nat>)
      requires Located(st, b, true, off, last, bm) && lastSeen == Some(b) && off >= lastOffset
      ensures !SendsNext(blocks, st) ==> Ended(st, 0, b, off, last)
    {
      hide Counted, GapsSet, Range, CacheShape;
      RoundEnds(st, bm, off);
    }

    /** A page found dirty in a search is not one that the search is going to lose. */
    lemma FoundIsKept(st: SearchStart, bm: set<nat>, b: nat, off: nat)
      requires Static() && StartOk(blocks, used, st) && bm <= st.bitmap
      requires b < |blocks| && off < blocks[b].pages && PageAt(blocks, b, off) in bm
      requires st.bulk && st.o > 0 ==> b != st.s || off != st.o
      ensures !Loses(blocks, used, st)
    {
      PageInUse(b, off);
      if st.bulk && st.o > 0 { PageAtDistinct(blocks, b, off, st.s, st.o); }
      assert PageAt(blocks, b, off) in st.bitmap * used;
    }

    lemma StillDirtyAfter(bm: set<nat>, s: nat, o: nat, b: nat, off: nat)
      requires Static() && b < |blocks| && off < blocks[b].pages && DirtyAfter(blocks, bm, s, o)
      requires b > s || (b == s && off >= o)
      ensures DirtyAfter(blocks, bm - {PageAt(blocks, b, off)}, b, off)
    {
      forall c: nat, j: nat | c < |blocks| && j < blocks[c].pages && (c > b || (c == b && j > off))
        ensures PageAt(blocks, c, j) in bm - {PageAt(blocks, b, off)}
      {
        PageAtDistinct(blocks, c, j, b, off);
      }
    }

    /** The page at (b, k) has reached the destination with one record, and nothing else has. */
    ghost predicate SentOnly(before: Loader, wire0: seq<Record>, sent: Option<nat>, b: nat, k: nat)
      reads `mem, `log, `dest, `lastSent, `wire, `running
    {
      && b < |blocks| && before.Loader? && dest.Loader? && PageAt(blocks, b, k) < |before.mem| == |dest.mem| == |mem|
      && |wire| > 0 && wire == wire0 + [wire[|wire| - 1]] && wire[|wire| - 1].offset == k
      && wire[|wire| - 1].block == (if sent == Some(b) then None else Some(blocks[b].id))
      && var p := PageAt(blocks, b, k);
         && dest == Loader(Some(b), before.mem[p := dest.mem[p]]) && lastSent == Some(b)
         && (p !in log || !running ==> dest.mem[p] == mem[p])
    }

    /** Sends the page at (b, off), whose bit has just been cleared. */
    method SendFound(b: nat, off: nat, last: bool, ghost bm: set<nat>, ghost covered: bool) returns (pages: nat)
      requires Static() && Shape() && Linked() && Counted() && GapsSet() && (last ==> !running)
      requires b < |blocks| && off < blocks[b].pages && bitmap == bm - {PageAt(blocks, b, off)}
      requires PageAt(blocks, b, off) in bm
      requires Coherent(cache.contents, dest.mem, if last then bm else used)
      requires covered ==> Covered(mem, log, bm, dest.mem, used)
      modifies `mem, `log, `dest, `wire, `lastSent, cache
      ensures Steady(last) && (covered ==> Covers()) && pages <= 1 && old(log) <= log <= old(log) + used
      ensures !running ==> mem == old(mem) && log == old(log)
      ensures pages == 0 ==> dest == old(dest) && old(cache.contents) != map[]
      ensures pages == 0 ==> wire == old(wire) && lastSent == old(lastSent)
      ensures pages == 1 ==> SentOnly(old(dest), old(wire), old(lastSent), b, off)
    {
      hide Counted, GapsSet, Range, CacheShape, LoadAll, Aged, FormOk;
      ghost var p, contents := PageAt(blocks, b, off), cache.contents;
      PageInUse(b, off);
      pages := SavePage(b, off, last);
      hide Ran, Coherent, Covered, Others;
      SendKeeps(Ends(old(mem), old(log), old(dest).mem, contents), Ends(mem, log, dest.mem, cache.contents), p, bm,
        used, running, last);
      if pages > 0 {
        lastSent := Some(b);
      }
    }

    /** Nothing more in block b: on to the next one, or around to the first. */
    method NextBlock(ghost st: SearchStart, b: nat, complete: bool, last: bool) returns (b': nat, complete': bool)
      requires b < |blocks| && Scanning(st, b, blocks[b].pages, complete, last)
      requires !st.fresh_ && (complete ==> b < st.s)
      modifies `bulk
      ensures Searching(st, b', 0, complete', last)
      ensures (!complete && complete') || (complete == complete' && b < b')
    {
      hide Counted, GapsSet, Range, Coherent, Grown, OnlyBehind;
      SearchedBlock(blocks, bitmap, st.s, st.From(), complete, b);
      OnlyBehindBlock(blocks, st, bitmap, complete, b);
      b', complete' := b + 1, complete;
      if b' == |blocks| {
        b', complete' := 0, true;
        bulk := false;
      }
    }

    /** What the bitmap search has found, before anything is done about it. */
    ghost predicate Located(st: SearchStart, b: nat, complete: bool, off: nat, last: bool, bm: set<nat>)
      reads this, cache
    {
      && Static() && Shape() && Linked() && Counted() && GapsSet() && (last ==> !running)
      && Coherent(cache.contents, dest.mem, if last then bm else used)
      && (st.covered ==> Covered(mem, log, bm, dest.mem, used))
        && (!running || st.bulk ==> mem == st.mem && log == st.log)
      && StartOk(blocks, used, st) && b < |blocks| && off <= blocks[b].pages && bm <= st.bitmap
        && Grown(st, log, bm, used)
      && lastSeen == (if st.fresh_ then None else Some(st.s)) && lastOffset == st.o
      && Searched(blocks, bm, st.s, st.From(), complete, b, off)
      && OnlyBehind(blocks, st, bm, complete, b, off)
      && dest == st.dest && wire == st.wire && lastSent == st.lastSent
      && (st.fresh_ ==> b == 0 && !complete && off == 0)
      && (if st.bulk then bm == st.bitmap && cache.contents == map[] && bulk == !complete else !bulk)
      && (st.bulk && !complete && st.o > 0 && b == st.s ==> off == st.o + 1)
      && (!complete && b == st.s ==> off >= st.o)
      && (SendsNext(blocks, st) && !complete && b == st.s ==> off == st.Next())
      && (if off < blocks[b].pages then PageAt(blocks, b, off) in bm && bitmap == bm - {PageAt(blocks, b, off)}
        else bitmap == bm)
    }

    method Locate(ghost st: SearchStart, b: nat, k: nat, complete: bool, last: bool)
      returns (off: nat, ghost bm: set<nat>)
      requires Searching(st, b, k, complete, last)
      modifies `bitmap, `dirtyPages
      ensures bm == old(bitmap) && Located(st, b, complete, off, last, bm)
    {
      hide Counted, GapsSet, Range, CacheShape, Grown, Coherent, Covered, BlocksOk, Searched, Clean, DirtyAfter,
        OnlyBehind;
      bm := bitmap;
      if bulk { NextIsDirty(blocks, used, st); }
      off := FindAndResetDirty(b, k);
      LocatedFrom(st, bm, b, k, complete, off);
      OnlyBehindOn(blocks, st, bm, complete, b, k, off);
    }

    lemma LocatedFrom(st: SearchStart, bm: set<nat>, b: nat, k: nat, complete: bool, off: nat)
      requires Static() && StartOk(blocks, used, st) && b < |blocks| && k <= blocks[b].pages && off <= blocks[b].pages
      requires Searched(blocks, bm, st.s, st.From(), complete, b, k) && (st.bulk ==> bm == st.bitmap)
      requires st.fresh_ ==> b == 0 && !complete
      requires (st.bulk && !complete ==> k == if b == st.s then st.o else 0) && (!complete && b == st.s ==> st.o <= k)
      requires if st.bulk && !complete && k > 0 then off == k + 1 else k <= off && Clean(blocks, bm, b, k, off)
      requires off < blocks[b].pages ==> PageAt(blocks, b, off) in bm
      ensures Searched(blocks, bm, st.s, st.From(), complete, b, off)
      ensures st.fresh_ ==> off == 0
      ensures SendsNext(blocks, st) && !complete && b == st.s ==> off == st.Next()
    {
      if !(st.bulk && !complete && k > 0) {
        SearchedOn(blocks, bm, st.s, st.From(), complete, b, k, off);
        if st.fresh_ {
          PageInUse(0, 0);
          assert PageAt(blocks, 0, 0) in bm;
        } else if SendsNext(blocks, st) && !complete && b == st.s {
          assert PageAt(blocks, b, 1) in bm;
        }
      }
    }

    /** One round of the loop of ram_find_and_save_block. */
    method SearchStep(ghost st: SearchStart, b: nat, k: nat, complete: bool, last: bool)
      returns (fin: bool, pages: nat, b': nat, k': nat, complete': bool)
      requires Searching(st, b, k, complete, last)
      modifies `mem, `log, `dest, `wire, `bitmap, `dirtyPages, `bulk, `lastSent, cache
      ensures !fin ==> Searching(st, b', k', complete', last) && pages == 0
      ensures !fin ==> !(SendsNext(blocks, st) && b == st.s && !complete)
      ensures !fin ==>
                (!complete && complete') || (complete == complete' && (b < b' || (b == b' && |bitmap| < old(|bitmap|))))
      ensures fin && (SendsNext(blocks, st) ==> b == st.s && !complete) ==> Ended(st, pages, b', k', last)
    {
      hide Counted, GapsSet, Range, Coherent, CacheShape, Grown;
      pages, b', k', complete' := 0, b, k, complete;
      var off, bm := Locate(st, b, k, complete, last);
      if complete && lastSeen == Some(b) && off >= lastOffset {
        RoundOver(st, b, off, last, bm);
        return true, 0, b, off, complete;
      }
      if off >= blocks[b].pages {
        b', complete' := NextBlock(st, b, complete, last);
        return false, 0, b', 0, complete';
      }
      pages := SendLocated(st, b, complete, off, last, bm);
      fin, k' := pages > 0, off;
    }

    /** A dirty page was found before the round was over. */
    method SendLocated(ghost st: SearchStart, b: nat, complete: bool, off: nat, last: bool, ghost bm: set<nat>)
      returns (pages: nat)
      requires Located(st, b, complete, off, last, bm) && off < blocks[b].pages
      requires complete && b == st.s ==> off < st.o
      modifies `mem, `log, `dest, `wire, `lastSent, cache
      ensures pages == 0 ==> Searching(st, b, off, complete, last) && |bitmap| < |bm|
      ensures SendsNext(blocks, st) && b == st.s && !complete ==> pages > 0
      ensures pages > 0 && (SendsNext(blocks, st) ==> b == st.s && !complete) ==> Ended(st, pages, b, off, last)
    {
      hide Counted, GapsSet, Range, CacheShape, Grown, Coherent, Covered, OnlyBehind, Took, Loses, SentOnly, DirtyAfter,
        BlocksOk, Clean, CleanBlocks;
      Taken(blocks, st, bm, complete, b, off);
      if bulk { StillDirtyAfter(bm, st.s, st.o, b, off); }
      FoundIsKept(st, bm, b, off);
      SearchedShrinks(blocks, bm, bitmap, st.s, st.From(), complete, b, off);
      PageInUse(b, off);
      pages := SendFound(b, off, last, bm, st.covered);
      GrownNext(st, old(log), log, bm, PageAt(blocks, b, off), used);
    }

    /** How a search ends: with one page sent and the cursor on it, or with no dirty page left. */
    ghost predicate Ended(st: SearchStart, pages: nat, b: nat, k: nat, last: bool)
      reads `mem, `log, `dest, `cache, `bulk, `lastSent, `wire, `first, `bitmap, `dirtyPages, `running, cache
    {
      && Steady(last) && bitmap <= st.bitmap && Grown(st, log, bitmap, used)
      && b < |blocks| && k <= blocks[b].pages && pages <= 1 && (bulk ==> st.bulk)
      && (pages == 1 ==>
            && (st.covered ==> Covers()) && bitmap != st.bitmap && !Loses(blocks, used, st)
            && Took(blocks, st, bitmap, b, k) && SentOnly(st.dest, st.wire, st.lastSent, b, k)
            && k < blocks[b].pages && PageAt(blocks, b, k) !in bitmap && (bulk ==> DirtyAfter(blocks, bitmap, b, k)))
      && (pages == 0 ==>
            && !bulk && bitmap * used == {} && b == st.s
            && dest == st.dest && wire == st.wire && lastSent == st.lastSent
            && k == (if Loses(blocks, used, st) then st.o else blocks[b].pages)
            && if Loses(blocks, used, st) then mem == st.mem && log == st.log
                 && bitmap == st.bitmap - {PageAt(blocks, st.s, st.o)}
               else st.covered ==> Covers())
      && (!running ==> mem == st.mem && log == st.log)
      && (SendsNext(blocks, st) ==>
            pages == 1 && bulk && b == st.s && k == st.Next() && bitmap == st.bitmap - {PageAt(blocks, b, k)})
    }

    /** ram_find_and_save_block: one search from the cursor on.  Unless it starts where it loses
        the cursor's page, coverage is kept; a result of 0 means that no used page is dirty. */
    method FindAndSaveBlock(last: bool) returns (pages: nat)
      requires Steady(last) && CursorOk()
      modifies `mem, `log, `dest, `wire, `bitmap, `dirtyPages, `bulk, `lastSent, `lastSeen, `lastOffset, `lossy, cache
      ensures CursorOk() && lastSeen.Some? && lossy == old(lossy || LosesCursorPage())
      ensures Ended(old(Start()), pages, lastSeen.value, lastOffset, last)
    {
      hide Static, Shape, Linked, Counted, GapsSet, Ended, CursorOk, Covers, Coherent;
      ghost var st := Start();
      SearchBegins(last);
      lossy := lossy || LosesCursorPage();
      var b, k;
      pages, b, k := Search(st, last);
      lastSeen, lastOffset := Some(b), k;
      CursorSet(st, pages, last);
    }

    lemma SearchBegins(last: bool)
      requires Steady(last) && CursorOk() && Shape() && Static()
      ensures Searching(Start(), Start().s, Start().o, false, last)
    {
    }

    lemma CursorSet(st: SearchStart, pages: nat, last: bool)
      requires lastSeen.Some? && Ended(st, pages, lastSeen.value, lastOffset, last)
      ensures CursorOk()
    {
    }

    /** The loop of ram_find_and_save_block. */
    method Search(ghost st: SearchStart, last: bool) returns (pages: nat, b: nat, k: nat)
      requires Searching(st, st.s, st.o, false, last)
      modifies `mem, `log, `dest, `wire, `bitmap, `dirtyPages, `bulk, `lastSent, cache
      ensures Ended(st, pages, b, k, last)
    {
      hide Counted, GapsSet, Range, Coherent, CacheShape, Grown;
      var complete, fin := false, false;
      pages, b, k := 0, if lastSeen.Some? then lastSeen.value else 0, lastOffset;
      while !fin
        invariant fin ==> Ended(st, pages, b, k, last)
        invariant !fin ==> Searching(st, b, k, complete, last)
        invariant !fin && SendsNext(blocks, st) ==> b == st.s && !complete
        decreases !fin, !complete, |blocks| - b, |bitmap|
      {
        fin, pages, b, k, complete := SearchStep(st, b, k, complete, last);
      }
    }

    // ---------- whole migrations ----------

    /** Bits beyond the end of RAM that the word-wise sync at setup takes over from an old log. */
    ghost function Stale(log: set<nat>): set<nat>
    {
      (log * CoverAll(blocks)) - Range(0, size)
    }

    /** After setup the bits beyond the end of RAM never change again. */
    ghost predicate Tail(stale: set<nat>)
      reads `log, `bitmap
    {
      TailIn(log, bitmap, stale)
    }

    ghost predicate TailIn(log: set<nat>, bitmap: set<nat>, stale: set<nat>)
    {
      bitmap - Range(0, size) == stale && Stale(log) == {}
    }

    /** Between the steps of a migration. */
    ghost predicate Migrating(stale: set<nat>)
      reads `mem, `log, `dest, `cache, `bulk, `lastSent, `wire, `first, `bitmap, `dirtyPages, `running, `lastSeen,
            `lastOffset, cache
    {
      Steady(false) && CursorOk() && Tail(stale)
    }

    /** Coverage, up to the one page that a search may lose. */
    ghost predicate Sound()
      requires Static() && Shape()
      reads `mem, `log, `bitmap, `dest, `cache, `bulk, `lossy, cache
    {
      !lossy ==> Covers()
    }

    /** reset_ram_globals. */
    method ResetGlobals()
      modifies `lastSeen, `lastSent, `lastOffset, `bulk, `lossy
      ensures lastSeen.None? && lastSent.None? && lastOffset == 0 && bulk && !lossy
    {
      lastSeen, lastSent, lastOffset, bulk, lossy := None, None, 0, true, false;
    }

    /** The bitmap at setup, gaps included, and the counter, gaps not included. */
    method AllDirty()
      requires Static()
      modifies `bitmap, `dirtyPages
      ensures bitmap == Range(0, size) && Counted() && GapsSet()
    {
      hide Static, Range, Counted, GapsSet;
      bitmap := Range(0, size);
      dirtyPages := TotalPages();
      SetupCounts();
    }

    /** What ram_save_setup does before its sync. */
    method Reset(slots: nat)
      requires Static() && |mem| == size && dest.Loader? && |dest.mem| == size && slots > 0
      modifies `lastSeen, `lastSent, `lastOffset, `bulk, `lossy, `bitmap, `dirtyPages, `cache, `syncCount, `wire, `first
      ensures fresh(cache) && Anew() && Counted() && GapsSet() && bitmap == Range(0, size) && syncCount == 0
    {
      hide Static, Range, Counted, GapsSet;
      syncCount := 0;
      first, wire := dest, [];
      cache := new Cache(slots);
      ResetGlobals();
      AllDirty();
    }

    /** The cursor is nowhere, nothing has been sent and the cache is empty. */
    ghost predicate Anew()
      reads `mem, `dest, `cache, `bulk, `lossy, `lastSeen, `lastSent, `wire, `first, `lastOffset, cache
    {
      && Shape() && bulk && lastSeen.None? && lastSent.None? && lastOffset == 0 && cache.contents == map[] && !lossy
      && first == dest && wire == []
    }

    /** ram_save_setup: everything is dirty, the cursor is nowhere and the cache is empty. */
    method Setup(slots: nat)
      requires Static() && |mem| == size && dest.Loader? && |dest.mem| == size && slots > 0
      modifies this
      ensures mem == old(mem) && dest == old(dest) && running == old(running) && fresh(cache)
      ensures Anew() && Migrating(Stale(old(log))) && Covers()
      ensures bitmap == Range(0, size) + Stale(old(log)) && log <= old(log) && syncCount == 1
    {
      hide Static, Shape, Anew, Counted, GapsSet, Range, CoverAll, Synced, Migrating, Tail, Stale, Covers;
      Reset(slots);
      ghost var m := Marks();
      Sync();
      SetupSynced(m);
      SetupDone(Stale(old(log)));
    }

    lemma SetupDone(stale: set<nat>)
      requires Static() && Anew() && Counted() && GapsSet() && Tail(stale) && used <= bitmap
      ensures Shape() && Migrating(stale) && Covers()
    {
      hide Counted, GapsSet, Tail, BlocksOk, Used, End;
    }

    /** ram_bytes_total, in pages. */
    method TotalPages() returns (n: nat)
      ensures n == Total(blocks)
    {
      n := 0;
      var i := 0;
      while i < |blocks|
        invariant 0 <= i <= |blocks| && n == Total(blocks[..i])
      {
        assert blocks[..i + 1][..i] == blocks[..i];
        n := n + blocks[i].pages;
        i := i + 1;
      }
      assert blocks[..i] == blocks;
    }

    lemma SetupCounts()
      requires Static() && bitmap == Range(0, size) && dirtyPages == Total(blocks)
      ensures Counted() && GapsSet()
    {
      TotalCountsUsed(blocks);
      assert bitmap * used == used;
      assert bitmap - Range(0, size) == {};
    }

    lemma SetupSynced(m: DirtyMarks)
      requires Static() && m.bitmap == Range(0, size) && Synced(m, Marks(), CoverAll(blocks))
      ensures bitmap == Range(0, size) + Stale(m.log) && Tail(Stale(m.log)) && used <= bitmap && log <= m.log
    {
      hide CoverAll, Range, BlocksOk, Used, End;
      assert used <= Range(0, size) by { UsedInRange(); }
      assert log * CoverAll(blocks) == {};
    }

    lemma UsedInRange()
      requires Static()
      ensures used <= Range(0, size)
    {
    }

    /** xbzrle_cache_resize, when it makes a new cache. */
    method ResizeCache(slots: nat, ghost stale: set<nat>)
      requires Migrating(stale) && slots > 0
      modifies `cache
      ensures Migrating(stale) && fresh(cache) && cache.contents == map[] && (old(Covers()) ==> Covers())
    {
      hide Counted, GapsSet, Tail, CursorOk;
      cache := new Cache(slots);
    }

    /** One log sync during the migration. */
    method SyncLog(ghost stale: set<nat>)
      requires Migrating(stale)
      modifies `log, `bitmap, `dirtyPages, `syncCount
      ensures Migrating(stale) && log * used == {} && (old(Covers()) ==> Covers()) && syncCount == old(syncCount) + 1
      ensures log == old(log - CoverAll(blocks))
      ensures bitmap == old(bitmap + (log * CoverAll(blocks)))
    {
      hide Counted, GapsSet, Linked, CacheShape, Coherent, CursorIn, Covered, CoverAll, TailIn, Range, Used, Synced;
      ghost var m := Marks();
      Sync();
      SyncedUsed(m, Marks(), blocks);
      TailSynced(m, stale);
      CursorMore(m.bitmap, bitmap);
      if Covered(mem, m.log, m.bitmap, dest.mem, used) { SyncCovers(mem, dest.mem, m, Marks(), blocks); }
      assert Migrating(stale) && log * used == {};
      SyncedIs(m, Marks(), CoverAll(blocks));
    }

    lemma CursorMore(bm: set<nat>, bm': set<nat>)
      requires CursorIn(bm) && bm <= bm'
      ensures CursorIn(bm')
    {
    }

    lemma TailSynced(m: DirtyMarks, stale: set<nat>)
      requires Synced(m, Marks(), CoverAll(blocks)) && TailIn(m.log, m.bitmap, stale)
      ensures Tail(stale) && bitmap == m.bitmap + (m.log * CoverAll(blocks))
    {
      hide CoverAll, Range;
      assert forall p :: p in m.log * CoverAll(blocks) ==> p in Range(0, size) || p in Stale(m.log);
    }

    /** A guest write between two steps. */
    method Write(p: nat, page: Page, ghost stale: set<nat>)
      requires Migrating(stale) && p in used
      modifies `mem, `log
      ensures Migrating(stale) && (old(Covers()) ==> Covers())
      ensures p < old(|mem|) && mem == old(mem)[p := page] && log == old(log) + {p}
    {
      hide Counted, GapsSet, Linked, CacheShape, CursorOk, Coherent;
      GuestWrite(p, page);
      assert Stale(log) == {} by { hide CoverAll; assert p in Range(0, size); }
    }

    /** One page step during the migration. */
    method Step(ghost stale: set<nat>) returns (pages: nat)
      requires Migrating(stale) && Sound()
      modifies `mem, `log, `dest, `wire, `bitmap, `dirtyPages, `bulk, `lastSent, `lastSeen, `lastOffset, `lossy, cache
      ensures Migrating(stale) && Sound() && lossy == old(lossy || LosesCursorPage()) && (bulk ==> old(bulk))
      ensures pages <= 1 && |bitmap| + pages <= old(|bitmap|) && (pages == 0 ==> bitmap * used == {})
      ensures bitmap <= old(bitmap) && old(log) <= log && old(wire) <= wire && |wire| == old(|wire|) + pages
    {
      hide Counted, GapsSet, Linked, CacheShape, Coherent, Covered, CursorIn, DirtyAfter, Range, TailIn;
      ghost var st := Start();
      pages := FindAndSaveBlock(false);
      TailStepped(st, stale);
      Fewer(bitmap, st.bitmap);
    }

    lemma TailStepped(st: SearchStart, stale: set<nat>)
      requires Static() && Grown(st, log, bitmap, used) && bitmap <= st.bitmap && TailIn(st.log, st.bitmap, stale)
      ensures Tail(stale)
    {
      assert used <= Range(0, size);
    }

    /** ram_save_iterate: page steps until the rate limit or until nothing is dirty. */
    method Iterate(steps: nat, ghost stale: set<nat>) returns (sent: nat)
      requires Migrating(stale) && Sound()
      modifies `mem, `log, `dest, `wire, `bitmap, `dirtyPages, `bulk, `lastSent, `lastSeen, `lastOffset, `lossy, cache
      ensures Migrating(stale) && Sound() && (old(lossy || !LossPossible()) ==> lossy == old(lossy))
      ensures bulk ==> old(bulk)
      ensures sent <= steps && |bitmap| + sent <= old(|bitmap|) && (sent < steps ==> bitmap * used == {})
      ensures bitmap <= old(bitmap) && old(log) <= log && old(wire) <= wire && |wire| == old(|wire|) + sent
    {
      hide CursorOk, TailIn, Covers, Static, Shape, Linked, Counted, GapsSet, Coherent;
      var pages := 1;
      sent := 0;
      while sent < steps && pages > 0
        invariant Migrating(stale) && Sound() && (old(lossy || !LossPossible()) ==> lossy == old(lossy))
        invariant bulk ==> old(bulk)
        invariant 0 <= sent <= steps && |bitmap| + sent <= old(|bitmap|) && (pages == 0 ==> bitmap * used == {})
        invariant bitmap <= old(bitmap) && old(log) <= log && old(wire) <= wire && |wire| == old(|wire|) + sent
        decreases pages, steps - sent
      {
        if LosesCursorPage() { OnlyInBulk(); }
        pages := Step(stale);
        sent := sent + pages;
      }
    }

    /** A page can be lost in the bulk stage only, and only if the last block has several pages. */
    ghost predicate LossPossible()
      reads `bulk
    {
      bulk && |blocks| > 0 && blocks[|blocks| - 1].pages > 1
    }

    lemma OnlyInBulk()
      requires Static() && Shape() && LosesCursorPage()
      ensures LossPossible()
    {
    }

    ghost predicate EventOk(e: Event)
    {
      match e
      case Write(p, page) => p in used
      case Resize(slots) => slots > 0
      case SyncLog => true
      case Iterate(steps) => true
    }

    ghost function Here(): Moment
      reads this, cache
    {
      Moment(mem, log, bitmap, dest, cache.contents, wire, syncCount)
    }

    method Happen(e: Event, ghost stale: set<nat>)
      requires Migrating(stale) && Sound() && EventOk(e)
      modifies this, cache
      ensures Migrating(stale) && Sound() && (cache == old(cache) || fresh(cache))
      ensures running == old(running) && first == old(first)
      ensures (old(lossy || !LossPossible()) ==> lossy == old(lossy)) && (bulk ==> old(bulk))
      ensures Did(blocks, used, e, old(Here()), Here())
    {
      hide CursorOk, TailIn, Covers, Static, Shape, Linked, Counted, GapsSet, Coherent, CoverAll;
      match e {
        case Write(p, page) => Write(p, page, stale);
        case SyncLog => SyncLog(stale);
        case Iterate(steps) => var sent := Iterate(steps, stale);
        case Resize(slots) => ResizeCache(slots, stale);
      }
    }

    /** Any interleaving of guest writes, log syncs, page steps and cache changes. */
    method Run(schedule: seq<Event>, ghost stale: set<nat>) returns (ghost trace: seq<Moment>)
      requires Migrating(stale) && Sound() && forall i :: 0 <= i < |schedule| ==> EventOk(schedule[i])
      modifies this, cache
      ensures Migrating(stale) && Sound() && (cache == old(cache) || fresh(cache))
      ensures running == old(running) && first == old(first)
      ensures (old(lossy || !LossPossible()) ==> lossy == old(lossy)) && (bulk ==> old(bulk))
      ensures !lossy ==> forall p :: p in used ==> p in log || p in bitmap || dest.mem[p] == mem[p]
      ensures forall p :: p in cache.contents ==> p < |dest.mem| && cache.contents[p] == dest.mem[p]
      ensures dirtyPages == |bitmap * used| + |stale|
      ensures Traced(blocks, used, schedule, trace) && trace[0] == old(Here()) && trace[|schedule|] == Here()
    {
      hide CursorOk, TailIn, Covers, Static, Shape, Linked, Counted, GapsSet, Coherent, EventOk, Did;
      trace := [Here()];
      var i := 0;
      while i < |schedule|
        invariant 0 <= i <= |schedule|
        invariant Migrating(stale) && Sound() && (cache == old(cache) || fresh(cache))
        invariant running == old(running) && first == old(first)
        invariant (old(lossy || !LossPossible()) ==> lossy == old(lossy)) && (bulk ==> old(bulk))
        invariant Traced(blocks, used, schedule[..i], trace) && trace[0] == old(Here()) && trace[i] == Here()
      {
        Happen(schedule[i], stale);
        trace := trace + [Here()];
        assert schedule[..i + 1][..i] == schedule[..i];
        i := i + 1;
      }
      assert schedule[..i] == schedule;
      RunMeans(stale);
    }

    /** What the invariant says between the steps of a migration. */
    lemma RunMeans(stale: set<nat>)
      requires Migrating(stale) && Sound()
      ensures dest.Loader? && |dest.mem| == |mem| == size && (forall p :: p in used ==> p < size)
      ensures !lossy ==> forall p :: p in used ==> p in log || p in bitmap || dest.mem[p] == mem[p]
      ensures forall p :: p in cache.contents ==> p < |dest.mem| && cache.contents[p] == dest.mem[p]
      ensures dirtyPages == |bitmap * used| + |stale|
    {
      forall p | p in cache.contents
        ensures p < |dest.mem| && cache.contents[p] == dest.mem[p]
      {
        CacheMirrors(p);
      }
      CounterOff(stale);
    }

    /** Source and destination agree on every page in use. */
    ghost predicate Delivered()
      requires Static() && Shape()
      reads `mem, `dest, `cache, `bulk, cache
    {
      Agree(mem, dest.mem, used)
    }

    /** The last sync leaves nothing dirty but the cursor's page, the very last one, in the bulk stage. */
    ghost predicate LosesAtEnd()
      requires Static() && Shape()
      reads this, cache
    {
      CursorOk() && Loses(blocks, used, Start().(bitmap := bitmap + (log * CoverAll(blocks))))
    }

    /** A page step of the last stage, with the guest stopped. */
    method LastStep(ghost stale: set<nat>) returns (pages: nat)
      requires Steady(true) && CursorOk() && Tail(stale)
      modifies `mem, `log, `dest, `wire, `bitmap, `dirtyPages, `bulk, `lastSent, `lastSeen, `lastOffset, `lossy, cache
      ensures Steady(true) && CursorOk() && Tail(stale) && mem == old(mem) && log == old(log)
      ensures lossy == old(lossy || LosesCursorPage())
      ensures old(LosesCursorPage()) ==> pages == 0 && dest == old(dest)
      ensures old(Covers() && !LosesCursorPage()) ==> Covers()
      ensures pages <= 1 && (pages == 1 ==> |bitmap| < old(|bitmap|) && !LosesCursorPage())
      ensures pages == 0 ==> bitmap * used == {}
    {
      hide Counted, GapsSet, Linked, CacheShape, Coherent, Covered, CursorIn, DirtyAfter, Range, Grown, TailIn,
        BlocksOk, Used, End;
      ghost var st := Start();
      pages := FindAndSaveBlock(true);
      TailStepped(st, stale);
      Fewer(bitmap, st.bitmap);
      if pages == 1 { NotTwice(); }
    }

    /** A search that has just cleared the cursor's bit is not followed by one that loses it. */
    lemma NotTwice()
      requires Static() && Shape() && CursorOk() && lastSeen.Some?
      requires PageAt(blocks, lastSeen.value, lastOffset) !in bitmap
      ensures !LosesCursorPage()
    {
    }

    lemma SteadyLast()
      requires Steady(false) && !running
      ensures Steady(true)
    {
    }

    lemma DeliveredNow()
      requires Static() && Shape() && Covers() && log * used == {} && bitmap * used == {}
      ensures Delivered()
    {
      forall p | p in used
        ensures dest.mem[p] == mem[p]
      {
        assert p in log ==> p in log * used;
        assert p in bitmap ==> p in bitmap * used;
      }
    }

    /** ram_save_complete: a last sync, then page steps until nothing is dirty. */
    method Complete(ghost stale: set<nat>)
      requires Migrating(stale) && !running
      modifies `mem, `log, `dest, `wire, `bitmap, `dirtyPages, `bulk, `lastSent, `lastSeen, `lastOffset, `lossy,
               `syncCount, cache
      ensures Steady(true) && Tail(stale) && mem == old(mem) && bitmap * used == {}
      ensures lossy == old(lossy || LosesAtEnd())
      ensures old(LosesAtEnd()) ==> dest == old(dest)
      ensures old(Covers()) ==> (Delivered() <==> old(!LosesAtEnd() || Delivered()))
    {
      hide Counted, GapsSet, Linked, CacheShape, Coherent, Covered, CursorIn, TailIn, BlocksOk, Used, End, CoverAll,
        Loses, Agree;
      ghost var dest0, lossy0, covers := dest, lossy, Covers();
      ghost var st := Start().(bitmap := bitmap + (log * CoverAll(blocks)));
      SyncLog(stale);
      SteadyLast();
      LosesSame(blocks, used, st, Start());
      ghost var risky := LosesCursorPage();
      var pages := LastStep(stale);
      while pages > 0
        invariant Steady(true) && CursorOk() && Tail(stale) && mem == old(mem) && log * used == {}
        invariant 0 <= pages <= 1 && lossy == (lossy0 || risky) && (covers && !risky ==> Covers())
        invariant pages == 1 ==> !risky && !LosesCursorPage()
        invariant pages == 0 ==> bitmap * used == {} && (risky ==> dest == dest0)
        decreases pages, |bitmap|
      {
        pages := LastStep(stale);
      }
      if covers && !risky { DeliveredNow(); }
    }

    /** The counter exceeds the number of dirty used pages by the stale bits, for ever. */
    lemma CounterOff(stale: set<nat>)
      requires Counted() && Tail(stale)
      ensures dirtyPages == |bitmap * used| + |stale|
      ensures dirtyPages == |bitmap * used| <==> stale == {}
    {
    }

    /** Outside the last stage every cached page holds what the destination holds. */
    lemma CacheMirrors(p: nat)
      requires Steady(false) && p in cache.contents
      ensures p < |dest.mem| && cache.contents[p] == dest.mem[p]
    {
    }

    lemma FedByWire()
      requires Linked()
      ensures dest == LoadAll(blocks, first, wire)
    {
    }

    /** The guest stops. */
    method Stop(ghost stale: set<nat>)
      requires Migrating(stale) && Sound()
      modifies `running
      ensures Migrating(stale) && Sound() && !running
    {
      hide Counted, GapsSet, Linked, CacheShape, Coherent, Covered, CursorIn, TailIn, Static;
      running := false;
    }

    /** A whole migration, from any state of the guest and of an earlier migration.  The counter is
        exact throughout if the log held no bits beyond the end of RAM. */
    method Migrate(slots: nat, schedule: seq<Event>) returns (ghost trace: seq<Moment>)
      requires Static() && |mem| == size && dest.Loader? && |dest.mem| == size && slots > 0
      requires forall i :: 0 <= i < |schedule| ==> EventOk(schedule[i])
      modifies this
      ensures Shape() && (!lossy ==> Delivered()) && dest == LoadAll(blocks, old(dest), wire)
      ensures blocks[|blocks| - 1].pages == 1 ==> !lossy
      ensures dirtyPages == |old(Stale(log))|
      ensures Traced(blocks, used, schedule, trace) && trace[0].mem == old(mem) && trace[|schedule|].mem == mem
    {
      hide Counted, GapsSet, Linked, CacheShape, Coherent, Covered, CursorIn, TailIn, Used, End, Loses, Agree, Stale,
        LoadAll, Covers, Tail, CursorOk, Static, Did, EventOk;
      ghost var stale := Stale(log);
      Setup(slots);
      trace := Run(schedule, stale);
      Stop(stale);
      if LosesAtEnd() { OnlyInBulkEnd(); }
      Complete(stale);
      CounterOff(stale);
      FedByWire();
    }

    lemma OnlyInBulkEnd()
      requires Static() && Shape() && LosesAtEnd()
      ensures LossPossible()
    {
    }
  }

  // ---------- the lost page ----------

  const TWO_PAGES := [Block("pc.ram", 0, 2, 2)]

  lemma TwoPagesFacts()
    ensures BlocksOk(TWO_PAGES) && Used(TWO_PAGES) == Range(0, 2) == {0, 1} && End(TWO_PAGES) == 2
  {
    assert TWO_PAGES[..0] == [];
    assert Used(TWO_PAGES) == Used([]) + Range(0, 2);
  }

  /** One block of two pages, not in use yet, and a guest that does not run by itself. */
  ghost predicate TwoPages(m: Migrator, bitmap: set<nat>, log: set<nat>)
    reads m, m.cache
  {
    && m.blocks == TWO_PAGES && m.used == {0, 1} && m.Migrating({}) && !m.running && m.bulk
    && m.bitmap == bitmap && m.log == log && m.Covers()
  }

  method SetUpTwoPages() returns (m: Migrator)
    ensures fresh(m) && fresh(m.cache) && TwoPages(m, {0, 1}, {}) && m.lastSeen.None?
    ensures m.mem == [ZeroPage(), ZeroPage()]
  {
    hide *;
    TwoPagesFacts();
    var mem: seq<Page> := [ZeroPage(), ZeroPage()];
    m := new Migrator(TWO_PAGES, false, 1, mem, {}, mem);
    m.running := false;
    m.Setup(1);
    TwoPagesReady(m);
  }

  lemma TwoPagesReady(m: Migrator)
    requires m.blocks == TWO_PAGES && m.Static() && m.Anew() && m.Migrating(m.Stale({})) && m.Covers() && !m.running
    requires m.bitmap == Range(0, m.size) + m.Stale({}) && m.log <= {}
    ensures TwoPages(m, {0, 1}, {}) && m.lastSeen.None?
  {
    TwoPagesFacts();
    assert m.Stale({}) == {};
  }

  method SendNext(m: Migrator, k: nat, ghost bitmap: set<nat>)
    requires k in bitmap && k < 2 && TwoPages(m, bitmap, {})
    requires if k == 0 then m.lastSeen.None? else m.lastSeen == Some(0) && m.lastOffset == 0 && 0 !in bitmap
    modifies m, m.cache
    ensures m.cache == old(m.cache) && m.mem == old(m.mem)
    ensures TwoPages(m, bitmap - {k}, {}) && m.lastSeen == Some(0) && m.lastOffset == k
  {
    hide BlocksOk, Used, End, Range, Covered, Coherent, Migrator.Linked, Migrator.Counted, Migrator.GapsSet,
      Migrator.CacheShape, Migrator.CursorIn, Migrator.TailIn, DirtyAfter, Grown;
    ghost var st := m.Start();
    var pages := m.FindAndSaveBlock(false);
    m.TailStepped(st, {});
  }

  /** Both pages are sent in the bulk stage. */
  method SendBoth(m: Migrator)
    requires TwoPages(m, {0, 1}, {}) && m.lastSeen.None?
    modifies m, m.cache
    ensures m.cache == old(m.cache) && m.mem == old(m.mem)
    ensures TwoPages(m, {}, {}) && m.lastSeen == Some(0) && m.lastOffset == 1
  {
    SendNext(m, 0, {0, 1});
    assert {0, 1} - {0} == {1};
    SendNext(m, 1, {1});
    assert {1} - {1} == {};
  }

  /** A migration from its start: both pages have arrived, and the cursor is on the last one. */
  method TwoPagesSent() returns (m: Migrator)
    ensures fresh(m) && fresh(m.cache) && TwoPages(m, {}, {}) && m.lastSeen == Some(0) && m.lastOffset == 1
    ensures m.mem == [ZeroPage(), ZeroPage()]
  {
    m := SetUpTwoPages();
    SendBoth(m);
  }

  lemma TwoPagesLose(m: Migrator)
    requires m.blocks == TWO_PAGES && m.used == {0, 1} && m.Migrating({}) && m.bulk && m.bitmap == {} && m.log == {1}
    requires m.lastSeen == Some(0) && m.lastOffset == 1
    ensures m.LosesAtEnd()
  {
    CoverAllCovers(TWO_PAGES);
    assert {1} * CoverAll(TWO_PAGES) == {1};
    assert ({} + {1}) * {0, 1} == {1};
  }

  /** The guest writes page 1 and stops.  Completion clears its bit, sends nothing, and calls the
      migration complete. */
  method LosePage(m: Migrator)
    requires TwoPages(m, {}, {}) && m.lastSeen == Some(0) && m.lastOffset == 1 && m.mem == [ZeroPage(), ZeroPage()]
    modifies m, m.cache
    ensures m.Static() && m.Shape() && m.lossy && m.bitmap * m.used == {} && m.dest == old(m.dest)
    ensures m.mem[0] == old(m.mem)[0] && m.mem[1] != old(m.mem)[1] == m.dest.mem[1] && !m.Delivered()
  {
    hide BlocksOk, Used, End, Range, Coherent, Migrator.Linked, Migrator.Counted, Migrator.GapsSet, Migrator.CacheShape,
      Migrator.CursorIn, Migrator.TailIn, DirtyAfter, Grown;
    assert m.dest.mem[1] == ZeroPage();
    var page: Page := seq(PAGE_SIZE, _ => 1);
    assert page[0] != ZeroPage()[0];
    m.Write(1, page, {});
    TwoPagesLose(m);
    m.Complete({});
    assert 1 in m.used;
  }

  const ONE_PAGE := [Block("pc.ram", 0, 1, 1)]

  lemma OnePageFacts()
    ensures Used(ONE_PAGE) == Range(0, 1) == {0} && End(ONE_PAGE) == 1 && 1 in CoverAll(ONE_PAGE)
  {
    assert ONE_PAGE[..0] == [];
    assert Used(ONE_PAGE) == Used([]) + Range(0, 1);
    assert Cover(0, 1) == Range(0, 64);
  }

  /** One page of RAM, and a log in which the bit behind it is set.  Such a bit is left behind by a
      block that was there and has been freed: src/exec.c:1606-1623 does not clear its log.  Setup
      counts two dirty pages where there is one. */
  method StaleBitCounted(m: Migrator)
    requires m.blocks == ONE_PAGE && m.Static() && m.log == {1}
    requires |m.mem| == m.size && m.dest.Loader? && |m.dest.mem| == m.size
    modifies m
    ensures m.bitmap * m.used == {0} && m.dirtyPages == 2 && m.bitmap == {0, 1}
  {
    hide Range, Used, End, CoverAll, Migrator.Counted, Migrator.GapsSet, Covered, Coherent, Migrator.CursorIn;
    OnePageFacts();
    m.Setup(1);
    m.CounterOff({1});
    assert m.bitmap * m.used == {0};
  }
}
