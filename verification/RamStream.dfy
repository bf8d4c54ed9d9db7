/**
 RAM blocks, the page records of a migration stream, and the destination that loads them.
 Addresses and offsets are page numbers throughout; used lengths are whole pages.
 */
module RamStream {
  import opened Basics
  import opened Xbzrle

  const PAGE_SIZE := 4096

  type Page = p: Bytes | |p| == PAGE_SIZE witness seq(PAGE_SIZE, _ => 0)

  function ZeroPage(): (p: Page)
    ensures forall i :: 0 <= i < PAGE_SIZE ==> p[i] == 0
  {
    seq(PAGE_SIZE, _ => 0)
  }

  /** A RAM block: its name, first page number, used pages and reserved pages. */
  datatype Block = Block(id: string, first: nat, pages: nat, reserved: nat)

  predicate BlocksOk(blocks: seq<Block>)
  {
    && |blocks| > 0
    && (forall b :: 0 <= b < |blocks| ==> 0 < blocks[b].pages <= blocks[b].reserved)
    && (forall b, c :: 0 <= b < |blocks| && 0 <= c < |blocks| && b != c ==>
          Apart(blocks[b], blocks[c]) && blocks[b].id != blocks[c].id)
  }

  predicate Apart(b: Block, c: Block)
  {
    b.first + b.reserved <= c.first || c.first + c.reserved <= b.first
  }

  predicate InBlock(b: Block, p: nat)
  {
    b.first <= p < b.first + b.pages
  }

  predicate Between(p: nat, lo: nat, n: nat)
  {
    lo <= p < lo + n
  }

  /** n page numbers from lo on. */
  function Range(lo: nat, n: nat): (s: set<nat>)
  {
    set p: nat | lo <= p < lo + n && Between(p, lo, n)
  }

  lemma {:induction false} RangeSize(lo: nat, n: nat)
    ensures |Range(lo, n)| == n
  {
    if n > 0 {
      RangeSize(lo, n - 1);
      assert Range(lo, n) == Range(lo, n - 1) + {lo + n - 1};
    } else {
      assert Range(lo, n) == {};
    }
  }

  /** The pages in use by some block. */
  function Used(blocks: seq<Block>): (s: set<nat>)
  {
    if blocks == [] then {}
    else Used(blocks[..|blocks| - 1]) + Range(blocks[|blocks| - 1].first, blocks[|blocks| - 1].pages)
  }

  lemma {:induction false} UsedBy(blocks: seq<Block>, p: nat)
    ensures p in Used(blocks) <==> exists b :: 0 <= b < |blocks| && InBlock(blocks[b], p)
  {
    if blocks != [] {
      var n := |blocks| - 1;
      UsedBy(blocks[..n], p);
      assert InBlock(blocks[n], p) <==> p in Range(blocks[n].first, blocks[n].pages);
      hide Range, InBlock;
      if p in Used(blocks[..n]) {
        var b :| 0 <= b < n && InBlock(blocks[..n][b], p);
        assert InBlock(blocks[b], p);
      } else {
        assert forall b :: 0 <= b < n ==> blocks[..n][b] == blocks[b];
      }
    }
  }

  /** last_ram_offset: one past the last reserved page. */
  function End(blocks: seq<Block>): (n: nat)
    ensures forall b :: 0 <= b < |blocks| ==> blocks[b].first + blocks[b].reserved <= n
  {
    if blocks == [] then 0
    else
      var last := blocks[|blocks| - 1];
      var rest := End(blocks[..|blocks| - 1]);
      if rest > last.first + last.reserved then rest else last.first + last.reserved
  }

  lemma UsedBelowEnd(blocks: seq<Block>)
    requires forall b :: 0 <= b < |blocks| ==> blocks[b].pages <= blocks[b].reserved
    ensures forall p :: p in Used(blocks) ==> p < End(blocks)
  {
    forall p | p in Used(blocks)
      ensures p < End(blocks)
    {
      UsedBy(blocks, p);
    }
  }

  /** ram_bytes_total, in pages. */
  function Total(blocks: seq<Block>): (n: nat)
  {
    if blocks == [] then 0 else Total(blocks[..|blocks| - 1]) + blocks[|blocks| - 1].pages
  }

  /** Blocks are disjoint, so the total counts each used page once. */
  lemma {:induction false} TotalCountsUsed(blocks: seq<Block>)
    requires forall b, c :: 0 <= b < |blocks| && 0 <= c < |blocks| && b != c ==> Apart(blocks[b], blocks[c])
    requires forall b :: 0 <= b < |blocks| ==> 0 < blocks[b].pages <= blocks[b].reserved
    ensures Total(blocks) == |Used(blocks)|
  {
    if blocks != [] {
      var front, last := blocks[..|blocks| - 1], blocks[|blocks| - 1];
      TotalCountsUsed(front);
      RangeSize(last.first, last.pages);
      assert Used(front) !! Range(last.first, last.pages) by {
        forall p: nat | p in Used(front) ensures !InBlock(last, p) {
          UsedBy(front, p);
          var b :| 0 <= b < |front| && InBlock(front[b], p);
          assert Apart(blocks[b], blocks[|blocks| - 1]);
        }
      }
    }
  }

  // ---------- the stream ----------

  datatype Payload = Zero | Full(page: Page) | Delta(code: Bytes)

  /** A page record: the name of its block, or None where the header carries the CONTINUE flag. */
  datatype Record = Record(block: Option<string>, offset: nat, payload: Payload)

  /** The destination: the block of the last record, and memory. */
  datatype Loader = Failed | Loader(block: Option<nat>, mem: seq<Page>)

  function FindBlock(blocks: seq<Block>, id: string, offset: nat, from: nat): (r: Option<nat>)
    ensures r.Some? ==> r.value < |blocks| && blocks[r.value].id == id && offset < blocks[r.value].reserved
    decreases |blocks| - from
  {
    if from >= |blocks| then None
    else if blocks[from].id == id && offset < blocks[from].reserved then Some(from)
    else FindBlock(blocks, id, offset, from + 1)
  }

  /** host_from_stream_offset. */
  function Target(blocks: seq<Block>, l: Loader, r: Record): (b: Option<nat>)
    requires l.Loader?
    ensures b.Some? ==> b.value < |blocks| && r.offset < blocks[b.value].reserved
  {
    match r.block
    case Some(id) => FindBlock(blocks, id, r.offset, 0)
    case None => if l.block.Some? && l.block.value < |blocks| && r.offset < blocks[l.block.value].reserved then l.block
      else None
  }

  function Decoded(payload: Payload, page: Page): (r: Option<Page>)
  {
    match payload
    case Zero => Some(ZeroPage())
    case Full(p) => Some(p)
    case Delta(code) =>
      if |code| > PAGE_SIZE then None
      else
        match Apply(code, true, page, 0)
        case None => None
        case Some(p) => if |p| == PAGE_SIZE then Some(p) else None
  }

  lemma DecodedPlain(page: Page, old_: Page)
    ensures Decoded(Zero, old_) == Some(ZeroPage()) && Decoded(Full(page), old_) == Some(page)
  {
  }

  datatype Change = Same | Coded(payload: Payload) | TooLong

  /** What is sent for a page whose last copy was prev. */
  ghost predicate Differs(c: Change, prev: Page, current: Page)
  {
    && (c.Same? <==> prev == current)
    && (c.Coded? ==> c.payload == Delta(Code(prev, current)))
    && (c.TooLong? <==> prev != current && Overflows(prev, current, PAGE_SIZE))
  }

  /** xbzrle_encode_buffer on two pages, said in terms of what the destination makes of it. */
  method Difference(prev: Page, current: Page) returns (c: Change)
    ensures Differs(c, prev, current) && (c.Same? <==> prev == current)
    ensures c.Coded? ==> Decoded(c.payload, prev) == Some(current)
  {
    var code := Encode(prev, current, PAGE_SIZE);
    RoundTrip(prev, current);
    CodeEmpty(prev, current);
    if code.None? {
      c := TooLong;
    } else if code.value == [] {
      c := Same;
    } else {
      c := Coded(Delta(code.value));
    }
  }

  /** One record, as ram_load handles it. */
  function Load(blocks: seq<Block>, l: Loader, r: Record): (l': Loader)
  {
    if l.Failed? then Failed
    else
      match Target(blocks, l, r)
      case None => Failed
      case Some(b) =>
        var p := blocks[b].first + r.offset;
        if p >= |l.mem| then Failed
        else
          match Decoded(r.payload, l.mem[p])
          case None => Failed
          case Some(page) => Loader(Some(b), l.mem[p := page])
  }

  /** The destination after a stream of records. */
  function LoadAll(blocks: seq<Block>, l: Loader, wire: seq<Record>): (l': Loader)
  {
    if wire == [] then l else Load(blocks, LoadAll(blocks, l, wire[..|wire| - 1]), wire[|wire| - 1])
  }

  lemma LoadAllNext(blocks: seq<Block>, l: Loader, wire: seq<Record>, r: Record)
    ensures LoadAll(blocks, l, wire + [r]) == Load(blocks, LoadAll(blocks, l, wire), r)
  {
    assert (wire + [r])[..|wire|] == wire;
  }

  /** The form in which a page is sent, given the cached copy: not at all if the copy is current. */
  ghost predicate FormOk(prev: Option<Page>, current: Page, payload: Option<Payload>)
  {
    if current == ZeroPage() then payload == Some(Zero)
    else if prev.None? then payload == Some(Full(current))
    else if prev.value == current then payload == None
    else if Overflows(prev.value, current, PAGE_SIZE) then payload == Some(Full(current))
    else payload == Some(Delta(Code(prev.value, current)))
  }

  /** What the cache holds for a page. */
  function Prev(contents: map<nat, Bytes>, p: nat): (page: Option<Page>)
  {
    if p in contents && |contents[p]| == PAGE_SIZE then Some(contents[p]) else None
  }

  /** What save_xbzrle_page does about a page: nothing if the cached copy is current, and a delta
      against that copy unless there is none or the delta is too long. */
  ghost predicate Chosen(ret: int, prev: Option<Page>, current: Page, wire: seq<Record>)
  {
    match prev
    case None => ret == -1
    case Some(page) =>
      && (ret == 0 <==> page == current)
      && (ret == 1 ==> |wire| > 0 && wire[|wire| - 1].payload == Delta(Code(page, current)))
      && (ret == -1 <==> page != current && Overflows(page, current, PAGE_SIZE))
  }

  lemma ChosenMiss(current: Page, wire: seq<Record>)
    ensures Chosen(-1, None, current, wire)
  {
  }

  lemma ChosenHit(c: Change, ret: int, prev: Page, current: Page, wire: seq<Record>)
    requires Differs(c, prev, current) && ret == (match c case Same => 0 case Coded(_) => 1 case TooLong => -1)
    requires c.Coded? ==> |wire| > 0 && wire[|wire| - 1].payload == c.payload
    ensures Chosen(ret, Some(prev), current, wire)
  {
  }

  lemma FormFrom(ret: int, prev: Option<Page>, current: Page, wire: seq<Record>, payload: Option<Payload>)
    requires current != ZeroPage() && Chosen(ret, prev, current, wire)
    requires if ret == 0 then payload == None
             else if ret == -1 then payload == Some(Full(current))
             else |wire| > 0 && payload == Some(wire[|wire| - 1].payload)
    ensures ret == 0 || ret == -1 || ret == 1 ==> FormOk(prev, current, payload)
  {
  }

  lemma FormZero(prev: Option<Page>)
    ensures FormOk(prev, ZeroPage(), Some(Zero))
  {
  }

  lemma {:induction false} FindOwnBlock(blocks: seq<Block>, b: nat, offset: nat, from: nat)
    requires BlocksOk(blocks) && from <= b < |blocks| && offset < blocks[b].reserved
    ensures FindBlock(blocks, blocks[b].id, offset, from) == Some(b)
    decreases b - from
  {
    if from < b {
      assert blocks[from].id != blocks[b].id;
      FindOwnBlock(blocks, b, offset, from + 1);
    }
  }
}
