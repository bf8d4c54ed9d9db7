/**
 Writing guest memory as a kdump-compressed file: two bitmaps of the frames present, a
 descriptor for each of them, and the page data, compressed where that makes it smaller.
 */
module Kdump {
  import opened KdumpBitmap
  import opened KdumpFlat
  import opened KdumpPages
  import opened RamStream
  import opened Basics
  import opened Storage

  /** BUFSIZE_DATA_CACHE. */
  const CACHE_SIZE := 4 * PAGE

  // ---------- the frames of the guest ----------

  /** A block of guest-physical memory, by page frames. */
  datatype PhysBlock = PhysBlock(first: nat, pages: seq<Page>)

  datatype Frame = Frame(pfn: nat, page: Page)

  predicate PhysOk(blocks: seq<PhysBlock>)
  {
    && |blocks| > 0
    && (forall b :: 0 <= b < |blocks| ==> |blocks[b].pages| > 0)
    && (forall b, c :: 0 <= b < c < |blocks| ==> blocks[b].first + |blocks[b].pages| <= blocks[c].first)
  }

  function FramesOf(b: PhysBlock): (f: seq<Frame>)
    ensures |f| == |b.pages| && forall j :: 0 <= j < |f| ==> f[j] == Frame(b.first + j, b.pages[j])
  {
    seq(|b.pages|, j requires 0 <= j < |b.pages| => Frame(b.first + j, b.pages[j]))
  }

  /** All frames, in the order of the dump. */
  function Frames(blocks: seq<PhysBlock>): (f: seq<Frame>)
  {
    if blocks == [] then [] else Frames(blocks[..|blocks| - 1]) + FramesOf(blocks[|blocks| - 1])
  }

  /** Number of frames in the blocks before b. */
  function Before(blocks: seq<PhysBlock>, b: nat): (n: nat)
    requires b <= |blocks|
  {
    |Frames(blocks[..b])|
  }

  lemma FramesNext(blocks: seq<PhysBlock>, b: nat)
    requires b < |blocks|
    ensures Frames(blocks[..b + 1]) == Frames(blocks[..b]) + FramesOf(blocks[b])
  {
    assert blocks[..b + 1][..b] == blocks[..b];
  }

  lemma {:induction false} FramesPrefix(blocks: seq<PhysBlock>, b: nat)
    requires b <= |blocks|
    ensures Frames(blocks[..b]) <= Frames(blocks)
    decreases |blocks| - b
  {
    if b < |blocks| {
      FramesNext(blocks, b);
      FramesPrefix(blocks, b + 1);
    } else {
      assert blocks[..b] == blocks;
    }
  }

  lemma FrameAt(blocks: seq<PhysBlock>, b: nat, j: nat)
    requires b < |blocks| && j < |blocks[b].pages|
    ensures Before(blocks, b + 1) == Before(blocks, b) + |blocks[b].pages|
    ensures Before(blocks, b) + j < |Frames(blocks)|
    ensures Frames(blocks)[Before(blocks, b) + j] == Frame(blocks[b].first + j, blocks[b].pages[j])
  {
    hide Frames;
    var before, here, all := Frames(blocks[..b]), FramesOf(blocks[b]), Frames(blocks);
    FramesNext(blocks, b);
    FramesPrefix(blocks, b + 1);
    assert all[|before| + j] == (before + here)[|before| + j] == here[j];
  }

  /** A frame number that some block contains. */
  predicate Present(blocks: seq<PhysBlock>, pfn: nat)
  {
    exists b :: 0 <= b < |blocks| && blocks[b].first <= pfn < blocks[b].first + |blocks[b].pages|
  }

  ghost function Numbers(frames: seq<Frame>): set<nat>
  {
    set k | 0 <= k < |frames| :: frames[k].pfn
  }

  lemma {:induction false} NumbersAre(blocks: seq<PhysBlock>, pfn: nat)
    ensures pfn in Numbers(Frames(blocks)) <==> Present(blocks, pfn)
  {
    if blocks != [] {
      var n := |blocks| - 1;
      var front, last := blocks[..n], blocks[n];
      NumbersAre(front, pfn);
      NumbersAdd(Frames(front), FramesOf(last));
      BlockNumbers(last, pfn);
      if Present(front, pfn) {
        var b :| 0 <= b < |front| && front[b].first <= pfn < front[b].first + |front[b].pages|;
        assert blocks[b] == front[b];
      }
      if Present(blocks, pfn) {
        var b :| 0 <= b < |blocks| && blocks[b].first <= pfn < blocks[b].first + |blocks[b].pages|;
        assert b < n ==> front[b] == blocks[b];
      }
    }
  }

  lemma NumbersAdd(a: seq<Frame>, b: seq<Frame>)
    ensures Numbers(a + b) == Numbers(a) + Numbers(b)
  {
    forall pfn
      ensures pfn in Numbers(a + b) <==> pfn in Numbers(a) || pfn in Numbers(b)
    {
      if pfn in Numbers(a) {
        var k :| 0 <= k < |a| && a[k].pfn == pfn;
        assert (a + b)[k].pfn == pfn;
      }
      if pfn in Numbers(b) {
        var k :| 0 <= k < |b| && b[k].pfn == pfn;
        assert (a + b)[|a| + k].pfn == pfn;
      }
    }
  }

  lemma BlockNumbers(b: PhysBlock, pfn: nat)
    ensures pfn in Numbers(FramesOf(b)) <==> b.first <= pfn < b.first + |b.pages|
  {
    if b.first <= pfn < b.first + |b.pages| {
      assert FramesOf(b)[pfn - b.first].pfn == pfn;
    }
  }

  /** Frames come in strictly ascending order. */
  lemma {:induction false} FramesAscend(blocks: seq<PhysBlock>, i: nat, j: nat)
    requires forall b, c :: 0 <= b < c < |blocks| ==> blocks[b].first + |blocks[b].pages| <= blocks[c].first
    requires i < j < |Frames(blocks)|
    ensures Frames(blocks)[i].pfn < Frames(blocks)[j].pfn
  {
    var n := |blocks| - 1;
    var front := blocks[..n];
    var f := Frames(front);
    if j < |f| {
      FramesAscend(front, i, j);
    } else if i < |f| {
      assert f[i].pfn in Numbers(f);
      NumbersAre(front, f[i].pfn);
      var b :| 0 <= b < |front| && front[b].first <= f[i].pfn < front[b].first + |front[b].pages|;
      assert blocks[b] == front[b];
    }
  }

  // ---------- the bitmap writer ----------

  /** Both bitmaps are written up to chunk c, and the buffer holds chunk c. */
  ghost predicate Buffered(file: Bytes, base: nat, len: nat, c: nat, seen: set<nat>, buf: Bytes)
  {
    Written(file, base, c, seen) && Written(file, base + len, c, seen) && Chunk(buf, c, seen)
  }

  /** Flushing the buffer to both bitmaps. */
  lemma FlushBoth(file: Bytes, base: nat, len: nat, c: nat, seen: set<nat>, buf: Bytes)
    requires Buffered(file, base, len, c, seen, buf) && (c + 1) * BUFSIZE <= len
    requires forall p :: p in seen ==> p < (c + 1) * FRAMES
    ensures |buf| == BUFSIZE
    ensures var file1 := Store(file, base + c * BUFSIZE, buf);
            var file2 := Store(file1, base + len + c * BUFSIZE, buf);
            Buffered(file2, base, len, c + 1, seen, Zeroes(BUFSIZE))
  {
    hide Store, Written, Chunk;
    var file1 := Store(file, base + c * BUFSIZE, buf);
    BufferSize(buf, c, seen);
    WrittenNext(file, base, c, seen, buf);
    WrittenElsewhere(file, base + len, c, seen, base + c * BUFSIZE, buf);
    WrittenNext(file1, base + len, c, seen, buf);
    WrittenElsewhere(file1, base, c + 1, seen, base + len + c * BUFSIZE, buf);
    EmptyChunk(c + 1, seen);
  }

  lemma MarkFrame(file: Bytes, base: nat, len: nat, seen: set<nat>, buf: Bytes, pfn: nat)
    requires Buffered(file, base, len, pfn / FRAMES, seen, buf)
    ensures var y, k := pfn % FRAMES / 8, pfn % FRAMES % 8;
            && y < |buf|
            && Buffered(file, base, len, pfn / FRAMES, seen + {pfn}, buf[y := SetBit(buf[y], k, true)])
  {
    hide Written, Chunk;
    BufferSize(buf, pfn / FRAMES, seen);
    ChunkNext(buf, pfn / FRAMES, seen, pfn);
    WrittenLater(file, base, pfn / FRAMES, seen, pfn);
    WrittenLater(file, base + len, pfn / FRAMES, seen, pfn);
  }

  function MaxMapnr(blocks: seq<PhysBlock>): (n: nat)
    requires blocks != []
  {
    blocks[|blocks| - 1].first + |blocks[|blocks| - 1].pages|
  }

  /** A part of the headers, with its place in the file. */
  datatype Piece = Piece(offset: nat, data: Bytes)

  predicate HeadersFit(headers: seq<Piece>, end: nat)
  {
    forall i :: 0 <= i < |headers| ==> headers[i].offset + |headers[i].data| <= end
  }

  function Laid(headers: seq<Piece>, file: Bytes): (file': Bytes)
  {
    if headers == [] then file
    else
      var last := headers[|headers| - 1];
      Store(Laid(headers[..|headers| - 1], file), last.offset, last.data)
  }

  lemma SliceElsewhere(file: Bytes, offset: nat, data: Bytes, n: nat)
    ensures n <= offset ==> Slice(Store(file, offset, data), 0, n) == Slice(file, 0, n)
  {
    var file' := Store(file, offset, data);
    forall i | n <= offset && 0 <= i < n
      ensures Slice(file', 0, n)[i] == Slice(file, 0, n)[i]
    {
      assert At(file', i) == At(file, i);
    }
  }

  class DataCache {
    var offset: nat
    var buf: Bytes

    /** prepare_data_cache. */
    constructor (offset: nat)
      ensures this.offset == offset && buf == []
    {
      this.offset, buf := offset, [];
    }
  }

  /** All that has been passed to the two caches. */
  datatype Streams = Streams(descs: Bytes, data: Bytes)

  lemma BitmapLength(max: nat, pfn: nat)
    requires pfn < max
    ensures var len := (((max + 7) / 8) + PAGE - 1) / PAGE * PAGE;
            && (pfn / FRAMES + 1) * BUFSIZE <= len && len % BUFSIZE == 0
            && len / BUFSIZE == (max - 1 + FRAMES) / FRAMES
  {
  }

  lemma PresentBelow(blocks: seq<PhysBlock>, pfn: nat)
    requires PhysOk(blocks) && Present(blocks, pfn)
    ensures pfn < MaxMapnr(blocks)
  {
    var b :| 0 <= b < |blocks| && blocks[b].first <= pfn < blocks[b].first + |blocks[b].pages|;
  }

  lemma NothingYet(file: Bytes, base: nat, len: nat, frames: seq<Frame>)
    ensures Buffered(file, base, len, 0, Numbers(frames[..0]), Zeroes(BUFSIZE))
  {
    EmptyChunk(0, {});
    assert Numbers(frames[..0]) == {};
  }

  lemma NumbersNext(frames: seq<Frame>, k: nat)
    requires k < |frames|
    ensures Numbers(frames[..k + 1]) == Numbers(frames[..k]) + {frames[k].pfn}
  {
    assert frames[..k + 1] == frames[..k] + [frames[k]];
    NumbersAdd(frames[..k], [frames[k]]);
    assert Numbers([frames[k]]) == {frames[k].pfn};
  }

  lemma BufferedWritten(file: Bytes, base: nat, len: nat, c: nat, seen: set<nat>, buf: Bytes)
    requires Buffered(file, base, len, c, seen, buf)
    ensures Written(file, base, c, seen) && Written(file, base + len, c, seen)
  {
  }

  lemma BeforeNone(blocks: seq<PhysBlock>)
    ensures Before(blocks, 0) == 0
  {
    assert blocks[..0] == [];
  }

  lemma ClearZero(y: nat, k: nat)
    requires y < BUFSIZE && k < 8
    ensures Zeroes(BUFSIZE)[y := SetBit(Zeroes(BUFSIZE)[y], k, false)] == Zeroes(BUFSIZE)
  {
    NoBits(k);
    ClearBit(0, k);
  }

  lemma {:induction false} ClearBit(x: nat, k: nat)
    requires !BitOf(x, k)
    ensures WithBit(x, k, false) == x
  {
    if k > 0 { ClearBit(x / 2, k - 1); }
  }

  class Dump {
    const blocks: seq<PhysBlock>
    const offsetBitmap: nat
    const lenBitmap: nat
    const offsetPage: nat
    /** The format of compressed pages, and the compressor with its inverse. */
    const format: nat
    const compress: Page -> Option<Bytes>
    const expand: Bytes -> Page

    /** What has been written: a stream of records, which make up a file that begins with the
        headers. */
    var out: Bytes
    ghost var file: Bytes
    ghost var header: Bytes
    var numDumpable: nat
    /** A write to the file has failed. */
    ghost var failed: bool

    /** As dump_init and the header writers set them up. */
    ghost predicate Static()
    {
      && PhysOk(blocks)
      && lenBitmap == (((MaxMapnr(blocks) + 7) / 8) + PAGE - 1) / PAGE * PAGE
      && offsetPage == offsetBitmap + 2 * lenBitmap
      && 0 < format <= WORD_MAX
      && (forall p :: compress(p).Some? ==> expand(compress(p).value) == p)
    }

    constructor (blocks: seq<PhysBlock>, offsetBitmap: nat, format: nat,
                 compress: Page -> Option<Bytes>, expand: Bytes -> Page)
      requires PhysOk(blocks) && 0 < format <= WORD_MAX
      requires forall p :: compress(p).Some? ==> expand(compress(p).value) == p
      ensures Static() && this.blocks == blocks && this.offsetBitmap == offsetBitmap && this.format == format
      ensures this.compress == compress && this.expand == expand
      ensures out == file == header == [] && numDumpable == 0 && !failed
    {
      this.blocks, this.offsetBitmap, this.format := blocks, offsetBitmap, format;
      this.compress, this.expand := compress, expand;
      lenBitmap := (((MaxMapnr(blocks) + 7) / 8) + PAGE - 1) / PAGE * PAGE;
      offsetPage := offsetBitmap + 2 * ((((MaxMapnr(blocks) + 7) / 8) + PAGE - 1) / PAGE * PAGE);
      out, file, header, numDumpable, failed := [], [], [], 0, false;
    }

    /** Where the file ends at the latest. */
    ghost function Limit(): (end: nat)
    {
      offsetPage + (DESC_SIZE + PAGE) * (|Frames(blocks)| + 1)
    }

    /** File offsets are 64-bit numbers. */
    ghost predicate OffsetsFit()
    {
      Limit() <= OFF_MAX
    }

    /** The records make up the file, and the headers are as they were written. */
    ghost predicate Kept()
      reads `out, `file, `header
    {
      Flat(out, file) && Slice(file, 0, offsetBitmap) == header
    }

    /** write_buffer. */
    method WriteBuffer(offset: nat, data: Bytes) returns (ok: bool)
      requires OffsetsFit() && Flat(out, file) && offset + |data| <= Limit()
      modifies `out, `file, `failed
      ensures failed == (old(failed) || !ok)
      ensures ok ==> file == Store(old(file), offset, data) && Flat(out, file)
      ensures ok && old(Kept()) && offsetBitmap <= offset ==> Kept()
    {
      hide Flat, FlatRecord;
      ok := *;
      failed := failed || !ok;
      var written := FlatRecord(offset, data);
      if !ok {
        written := *;
        out := out + written;
        return;
      }
      FlatNext(out, file, offset, data);
      SliceElsewhere(file, offset, data, offsetBitmap);
      out := out + written;
      file := Store(file, offset, data);
    }

    /** get_next_page: the k-th frame has been delivered, or none yet. */
    ghost predicate Delivered(block: Option<nat>, pfn: nat, k: nat)
    {
      match block
      case None => k == 0
      case Some(b) =>
        && b < |blocks| && blocks[b].first <= pfn < blocks[b].first + |blocks[b].pages|
        && k == Before(blocks, b) + (pfn - blocks[b].first) + 1
    }

    method GetNextPage(block: Option<nat>, pfn: nat, ghost k: nat)
      returns (more: bool, block': Option<nat>, pfn': nat, page: Page)
      requires PhysOk(blocks) && Delivered(block, pfn, k)
      ensures more ==> k < |Frames(blocks)| && Frames(blocks)[k] == Frame(pfn', page) && Delivered(block', pfn', k + 1)
      ensures !more ==> k == |Frames(blocks)|
    {
      hide Frames;
      if block.None? {
        FrameAt(blocks, 0, 0);
        BeforeNone(blocks);
        return true, Some(0), blocks[0].first, blocks[0].pages[0];
      }
      var b := block.value;
      pfn' := pfn + 1;
      FrameAt(blocks, b, pfn - blocks[b].first);
      if pfn' >= blocks[b].first && pfn' + 1 <= blocks[b].first + |blocks[b].pages| {
        FrameAt(blocks, b, pfn' - blocks[b].first);
        return true, block, pfn', blocks[b].pages[pfn' - blocks[b].first];
      }
      if b + 1 == |blocks| {
        assert blocks[..b + 1] == blocks;
        return false, None, pfn', blocks[0].pages[0];
      }
      FrameAt(blocks, b + 1, 0);
      more, block', pfn', page := true, Some(b + 1), blocks[b + 1].first, blocks[b + 1].pages[0];
    }

    lemma LimitBehind()
      requires Static()
      ensures offsetBitmap + 2 * lenBitmap <= Limit()
    {
      hide Frames;
    }

    lemma KeptFlat()
      requires Kept()
      ensures Flat(out, file)
    {
    }

    /** set_dump_bitmap: chunks before the one of pfn are flushed first. */
    method SetDumpBitmap(last: nat, pfn: nat, value: bool, buf: Bytes, ghost seen: set<nat>)
      returns (ok: bool, buf': Bytes)
      requires last <= pfn && Buffered(file, offsetBitmap, lenBitmap, last / FRAMES, seen, buf)
      requires pfn / FRAMES * BUFSIZE <= lenBitmap && (forall p :: p in seen ==> p <= last)
      requires !value ==> pfn / FRAMES > last / FRAMES
      requires Static() && OffsetsFit() && Kept()
      modifies `out, `file, `failed
      ensures failed == (old(failed) || !ok)
      ensures ok ==>
                Kept()
                && Buffered(file, offsetBitmap, lenBitmap, pfn / FRAMES, if value then seen + {pfn} else seen, buf')
    {
      hide Buffered, Chunk, Kept, Flat, Store, Static, Limit, OffsetsFit;
      LimitBehind();
      buf' := buf;
      var c := last / FRAMES;
      while c < pfn / FRAMES
        invariant last / FRAMES <= c <= pfn / FRAMES && Buffered(file, offsetBitmap, lenBitmap, c, seen, buf')
        invariant !value && c == pfn / FRAMES ==> buf' == Zeroes(BUFSIZE)
        invariant failed == old(failed) && Kept()
      {
        KeptFlat();
        FlushBoth(file, offsetBitmap, lenBitmap, c, seen, buf');
        ok := WriteBuffer(offsetBitmap + c * BUFSIZE, buf');
        if !ok { return; }
        KeptFlat();
        ok := WriteBuffer(offsetBitmap + lenBitmap + c * BUFSIZE, buf');
        if !ok { return; }
        buf' := Zeroes(BUFSIZE);
        c := c + 1;
      }
      var y, k := pfn % FRAMES / 8, pfn % FRAMES % 8;
      MarkFrame(file, offsetBitmap, lenBitmap, seen, buf', pfn);
      ClearZero(y, k);
      buf' := buf'[y := SetBit(buf'[y], k, value)];
      ok := true;
    }

    /** Both bitmaps mark just the frames that are present. */
    ghost predicate BitmapsOk()
      reads `file
    {
      && Written(file, offsetBitmap, lenBitmap / BUFSIZE, Numbers(Frames(blocks)))
      && Written(file, offsetBitmap + lenBitmap, lenBitmap / BUFSIZE, Numbers(Frames(blocks)))
    }

    /** write_dump_bitmap. */
    method WriteDumpBitmap() returns (ok: bool)
      requires Static() && OffsetsFit() && Kept()
      modifies `out, `file, `numDumpable, `failed
      ensures failed == (old(failed) || !ok)
      ensures ok ==> Kept() && BitmapsOk() && numDumpable == |Frames(blocks)|
    {
      hide Frames, Written, Chunk, Buffered, Numbers, Kept;
      ghost var frames := Frames(blocks);
      var buf := Zeroes(BUFSIZE);
      var block: Option<nat> := None;
      var pfn: nat, last: nat, num: nat := 0, 0, 0;
      NothingYet(file, offsetBitmap, lenBitmap, frames);
      var more, page;
      more, block, pfn, page := GetNextPage(block, pfn, num);
      while more
        invariant if more then num < |frames| && frames[num] == Frame(pfn, page) && Delivered(block, pfn, num + 1)
                  else num == |frames|
        invariant 0 <= num <= |frames|
        invariant Buffered(file, offsetBitmap, lenBitmap, last / FRAMES, Numbers(frames[..num]), buf)
        invariant if num == 0 then last == 0 else last == frames[num - 1].pfn
        invariant failed == old(failed) && Kept()
        decreases |frames| - num, more
      {
        FrameFits(num);
        ok, buf := SetDumpBitmap(last, pfn, true, buf, Numbers(frames[..num]));
        if !ok { return; }
        NumbersNext(frames, num);
        last := pfn;
        num := num + 1;
        more, block, pfn, page := GetNextPage(block, pfn, num);
      }
      assert frames[..num] == frames;
      LastFits();
      if num > 0 {
        FrameFits(num - 1);
        Earlier(num);
        ok, buf := SetDumpBitmap(last, last + FRAMES, false, buf, Numbers(frames));
        if !ok { return; }
        BufferedWritten(file, offsetBitmap, lenBitmap, (last + FRAMES) / FRAMES, Numbers(frames), buf);
      }
      numDumpable := num;
      ok := true;
    }

    /** What SetDumpBitmap asks of the next frame. */
    lemma FrameFits(k: nat)
      requires Static() && k < |Frames(blocks)|
      ensures (Frames(blocks)[k].pfn / FRAMES + 1) * BUFSIZE <= lenBitmap
      ensures forall p :: p in Numbers(Frames(blocks)[..k]) ==> p <= if k == 0 then 0 else Frames(blocks)[k - 1].pfn
      ensures k > 0 ==> Frames(blocks)[k - 1].pfn < Frames(blocks)[k].pfn
    {
      hide Frames;
      var frames := Frames(blocks);
      assert frames[k].pfn in Numbers(frames);
      NumbersAre(blocks, frames[k].pfn);
      hide Numbers;
      PresentBelow(blocks, frames[k].pfn);
      BitmapLength(MaxMapnr(blocks), frames[k].pfn);
      Earlier(k);
      if k > 0 { FramesAscend(blocks, k - 1, k); }
    }

    lemma Earlier(k: nat)
      requires Static() && k <= |Frames(blocks)|
      ensures forall p :: p in Numbers(Frames(blocks)[..k]) ==> k > 0 && p <= Frames(blocks)[k - 1].pfn
    {
      hide Frames;
      var frames := Frames(blocks);
      forall p | p in Numbers(frames[..k])
        ensures k > 0 && p <= frames[k - 1].pfn
      {
        var i :| 0 <= i < k && frames[..k][i].pfn == p;
        if i < k - 1 { FramesAscend(blocks, i, k - 1); }
      }
    }

    /** The last frame is the one before max_mapnr, so the last flush completes the bitmaps. */
    lemma LastFits()
      requires Static()
      ensures var n := |Frames(blocks)|;
              && n > 0 && Frames(blocks)[n - 1].pfn + 1 == MaxMapnr(blocks)
              && lenBitmap / BUFSIZE == (Frames(blocks)[n - 1].pfn + FRAMES) / FRAMES && lenBitmap % BUFSIZE == 0
    {
      var b := |blocks| - 1;
      var j := |blocks[b].pages| - 1;
      FrameAt(blocks, b, j);
      assert blocks[..b + 1] == blocks;
      BitmapLength(MaxMapnr(blocks), MaxMapnr(blocks) - 1);
    }

    // ---------- descriptors and data ----------

    /** Page data follow the descriptors. */
    function DataStart(): (offset: nat)
      reads `numDumpable
    {
      offsetPage + DESC_SIZE * numDumpable
    }

    /** write_cache. */
    method WriteCache(dc: DataCache, data: Bytes, sync: bool, ghost start: nat, ghost stream: Bytes) returns (ok: bool)
      requires |data| <= CACHE_SIZE && (sync ==> data == [])
      requires Cached(file, start, stream, dc.offset, dc.buf, CACHE_SIZE)
      requires OffsetsFit() && Kept() && offsetBitmap <= start && start + |stream| <= Limit()
      modifies `out, `file, `failed, dc
      ensures failed == (old(failed) || !ok)
      ensures ok ==>
                Kept() && Cached(file, start, stream + data, dc.offset, dc.buf, CACHE_SIZE) && (sync ==> dc.buf == [])
      ensures ok ==> file == old(file) || file == Store(old(file), old(dc.offset), old(dc.buf))
      ensures !sync && old(|dc.buf|) + |data| <= CACHE_SIZE ==> ok && out == old(out) && dc.buf == old(dc.buf) + data
    {
      hide Cached, Kept, Flat;
      CachedPlace(file, start, stream, dc.offset, dc.buf, CACHE_SIZE);
      KeptFlat();
      if (!sync && |dc.buf| + |data| > CACHE_SIZE) || (sync && |dc.buf| > 0) {
        CachedFlush(file, start, stream, dc.offset, dc.buf, CACHE_SIZE);
        ok := WriteBuffer(dc.offset, dc.buf);
        if !ok { return; }
        dc.offset := dc.offset + |dc.buf|;
        dc.buf := [];
      }
      if !sync {
        CachedAdd(file, start, stream, dc.offset, dc.buf, CACHE_SIZE, data);
        dc.buf := dc.buf + data;
      } else {
        assert stream + data == stream;
      }
      ok := true;
    }

    /** Both caches are in order, and the bitmaps and headers are as they were. */
    ghost predicate Streaming(desc: DataCache, data: DataCache, s: Streams)
      reads `out, `file, `header, `numDumpable, desc, data
    {
      && Cached(file, offsetPage, s.descs, desc.offset, desc.buf, CACHE_SIZE)
      && Cached(file, DataStart(), s.data, data.offset, data.buf, CACHE_SIZE)
      && |s.descs| <= DESC_SIZE * numDumpable && |s.data| <= PAGE * (numDumpable + 1) && BitmapsOk() && Kept()
    }

    method AddDesc(desc: DataCache, data: DataCache, bytes: Bytes, sync: bool, ghost s: Streams) returns (ok: bool)
      requires Static() && OffsetsFit() && numDumpable == |Frames(blocks)|
      requires desc != data && Streaming(desc, data, s) && (sync ==> bytes == [])
      requires |bytes| <= CACHE_SIZE && |s.descs| + |bytes| <= DESC_SIZE * numDumpable
      modifies `out, `file, `failed, desc
      ensures failed == (old(failed) || !ok)
      ensures ok ==> Streaming(desc, data, Streams(s.descs + bytes, s.data)) && (sync ==> desc.buf == [])
    {
      hide Written, Frames, Numbers, Kept;
      ghost var offset, buf := desc.offset, desc.buf;
      BehindBitmaps(file, offset, buf);
      CachedElsewhere(file, DataStart(), s.data, data.offset, data.buf, CACHE_SIZE, offset, buf);
      ok := WriteCache(desc, bytes, sync, offsetPage, s.descs);
    }

    method AddData(desc: DataCache, data: DataCache, bytes: Bytes, sync: bool, ghost s: Streams) returns (ok: bool)
      requires Static() && OffsetsFit() && numDumpable == |Frames(blocks)|
      requires desc != data && Streaming(desc, data, s) && (sync ==> bytes == [])
      requires |bytes| <= CACHE_SIZE && |s.data| + |bytes| <= PAGE * (numDumpable + 1)
      modifies `out, `file, `failed, data
      ensures failed == (old(failed) || !ok)
      ensures ok ==> Streaming(desc, data, Streams(s.descs, s.data + bytes)) && (sync ==> data.buf == [])
    {
      hide Written, Frames, Numbers, Kept;
      ghost var offset, buf := data.offset, data.buf;
      BehindBitmaps(file, offset, buf);
      CachedElsewhere(file, offsetPage, s.descs, desc.offset, desc.buf, CACHE_SIZE, offset, buf);
      ok := WriteCache(data, bytes, sync, DataStart(), s.data);
    }

    /** Writes behind the bitmaps leave them alone. */
    lemma BehindBitmaps(f: Bytes, pos: nat, data: Bytes)
      requires Static() && f == file && BitmapsOk() && offsetPage <= pos
      ensures var file' := Store(f, pos, data);
              && Written(file', offsetBitmap, lenBitmap / BUFSIZE, Numbers(Frames(blocks)))
              && Written(file', offsetBitmap + lenBitmap, lenBitmap / BUFSIZE, Numbers(Frames(blocks)))
    {
      hide Written, Frames, Numbers, Store;
      LastFits();
      WrittenElsewhere(f, offsetBitmap, lenBitmap / BUFSIZE, Numbers(Frames(blocks)), pos, data);
      WrittenElsewhere(f, offsetBitmap + lenBitmap, lenBitmap / BUFSIZE, Numbers(Frames(blocks)), pos, data);
    }

    /** The first k frames are in the streams; the data begin with a page of zeroes. */
    ghost predicate Dumped(s: Streams, k: nat)
      reads `numDumpable
    {
      && k <= |Frames(blocks)| && |s.descs| == k * DESC_SIZE && PAGE <= |s.data| <= PAGE * (k + 1)
        && s.data[..PAGE] == ZeroPage()
      && forall j: nat :: j < k ==> Leads(s.descs, s.data, DataStart(), j, Frames(blocks)[j].page, expand)
    }

    lemma DumpedNext(s: Streams, k: nat, more: Bytes, d: Desc)
      requires Dumped(s, k) && k < |Frames(blocks)| && OffsetsFit() && numDumpable == |Frames(blocks)| && |more| <= PAGE
      requires DescOk(d) && DataStart() <= d.offset && d.offset - DataStart() + d.size <= |s.data + more|
      requires var from := d.offset - DataStart();
               Plain(d.flags, (s.data + more)[from..from + d.size], expand) == Frames(blocks)[k].page
      ensures Dumped(Streams(s.descs + Pack(d), s.data + more), k + 1)
    {
      hide Frames, Pack, Unpack, Plain;
      LeadsNew(s.descs, s.data + more, DataStart(), k, d, expand);
      hide Leads;
      forall j: nat | j < k
        ensures Leads(s.descs + Pack(d), s.data + more, DataStart(), j, Frames(blocks)[j].page, expand)
      {
        LeadsMore(s.descs, s.descs + Pack(d), s.data, s.data + more, DataStart(), j, Frames(blocks)[j].page, expand);
      }
      assert (s.data + more)[..PAGE] == s.data[..PAGE];
    }

    /** The form a page is dumped in: compressed, or as it is if that is no shorter. */
    method Shrink(page: Page) returns (bytes: Bytes, flags: nat)
      requires Static()
      ensures |bytes| <= PAGE && flags <= WORD_MAX && Plain(flags, bytes, expand) == page
      ensures compress(page).Some? ==> |bytes| <= |compress(page).value|
    {
      var c := compress(page);
      if c.Some? && |c.value| < PAGE {
        bytes, flags := c.value, format;
      } else {
        bytes, flags := page, 0;
      }
    }

    /** One frame of write_dump_pages; offsetData is where the next data go. */
    method WritePage(desc: DataCache, data: DataCache, page: Page, offsetData: nat, ghost s: Streams, ghost k: nat)
      returns (ok: bool, offsetData': nat, ghost s': Streams)
      requires Static() && desc != data && Streaming(desc, data, s) && Dumped(s, k) && OffsetsFit()
      requires numDumpable == |Frames(blocks)|
      requires k < |Frames(blocks)| && page == Frames(blocks)[k].page && offsetData == DataStart() + |s.data|
      modifies `out, `file, `failed, desc, data
      ensures failed == (old(failed) || !ok)
      ensures ok ==> Streaming(desc, data, s') && Dumped(s', k + 1) && offsetData' == DataStart() + |s'.data|
      ensures ok && page == ZeroPage() ==> s'.data == s.data
    {
      hide Streaming, Dumped, Frames, Pack;
      DumpedSizes(s, k);
      s', offsetData' := s, offsetData;
      if page == ZeroPage() {
        var d := Desc(DataStart(), PAGE, 0, 0);
        ZeroLeads(s, k);
        DumpedNext(s, k, [], d);
        assert s.data + [] == s.data;
        ok := AddDesc(desc, data, Pack(d), false, s);
        s' := Streams(s.descs + Pack(d), s.data);
      } else {
        var bytes, flags := Shrink(page);
        var d := Desc(offsetData, |bytes|, flags, 0);
        assert (s.data + bytes)[|s.data|..|s.data| + |bytes|] == bytes;
        DumpedNext(s, k, bytes, d);
        ok := AddData(desc, data, bytes, false, s);
        if !ok { return; }
        offsetData' := offsetData + |bytes|;
        ok := AddDesc(desc, data, Pack(d), false, Streams(s.descs, s.data + bytes));
        s' := Streams(s.descs + Pack(d), s.data + bytes);
      }
    }

    lemma DumpedSizes(s: Streams, k: nat)
      requires Dumped(s, k) && k < |Frames(blocks)| == numDumpable && OffsetsFit()
      ensures |s.descs| + DESC_SIZE <= DESC_SIZE * numDumpable && DataStart() + |s.data| + PAGE <= OFF_MAX
      ensures PAGE <= |s.data| && |s.data| + PAGE <= PAGE * (numDumpable + 1)
    {
    }

    lemma ZeroLeads(s: Streams, k: nat)
      requires Dumped(s, k)
      ensures |s.data| >= PAGE && Plain(0, (s.data + [])[0..PAGE], expand) == ZeroPage()
    {
      assert (s.data + [])[0..PAGE] == s.data[..PAGE];
    }

    /** write_dump_pages. */
    method WriteDumpPages() returns (ok: bool)
      requires Static() && Kept() && BitmapsOk() && numDumpable == |Frames(blocks)| && OffsetsFit()
      modifies `out, `file, `failed
      ensures failed == (old(failed) || !ok)
      ensures ok ==> Kept() && BitmapsOk() && PagesOk()
    {
      hide Frames, Dumped, Streaming, Pack, Kept;
      var offsetData := DataStart();
      var desc := new DataCache(offsetPage);
      var data := new DataCache(offsetData);
      ghost var s := Streams([], []);
      StartStreams(desc, data);
      ok := AddData(desc, data, ZeroPage(), false, s);
      if !ok { return; }
      s := Streams([], [] + ZeroPage());
      DumpedNone();
      offsetData := offsetData + PAGE;
      var block: Option<nat>, pfn: nat := None, 0;
      ghost var k := 0;
      var more, page;
      more, block, pfn, page := GetNextPage(block, pfn, k);
      while more
        invariant fresh(desc) && fresh(data) && desc != data && failed == old(failed)
        invariant Streaming(desc, data, s) && Dumped(s, k) && offsetData == DataStart() + |s.data|
        invariant 0 <= k <= |Frames(blocks)|
        invariant if more then k < |Frames(blocks)| && Frames(blocks)[k] == Frame(pfn, page)
                  && Delivered(block, pfn, k + 1)
                  else k == |Frames(blocks)|
        decreases |Frames(blocks)| - k, more
      {
        ok, offsetData, s := WritePage(desc, data, page, offsetData, s, k);
        if !ok { return; }
        k := k + 1;
        more, block, pfn, page := GetNextPage(block, pfn, k);
      }
      ok := SyncBoth(desc, data, s);
    }

    method SyncBoth(desc: DataCache, data: DataCache, ghost s: Streams) returns (ok: bool)
      requires Static() && OffsetsFit() && desc != data && Streaming(desc, data, s)
      requires Dumped(s, numDumpable) && numDumpable == |Frames(blocks)|
      modifies `out, `file, `failed, desc, data
      ensures failed == (old(failed) || !ok)
      ensures ok ==> Kept() && BitmapsOk() && PagesOk()
    {
      hide Frames, Leads, Written, Numbers, Cached, Kept;
      ok := AddDesc(desc, data, [], true, s);
      if !ok { return; }
      assert s.descs + [] == s.descs;
      ok := AddData(desc, data, [], true, s);
      if !ok { return; }
      assert s.data + [] == s.data;
      forall k: nat | k < |Frames(blocks)|
        ensures PageOk(file, offsetPage, DataStart(), k, Frames(blocks)[k].page, expand)
      {
        LeadsInFile(file, offsetPage, s.descs, DataStart(), s.data, desc.offset, data.offset, k,
          Frames(blocks)[k].page, expand);
      }
    }

    /** The n-th descriptor leads to bytes, behind all descriptors, that read as the n-th page. */
    ghost predicate PagesOk()
      reads `file, `numDumpable
    {
      forall k: nat :: k < |Frames(blocks)| ==> PageOk(file, offsetPage, DataStart(), k, Frames(blocks)[k].page, expand)
    }

    lemma StartStreams(desc: DataCache, data: DataCache)
      requires Kept() && BitmapsOk() && desc.offset == offsetPage && data.offset == DataStart()
      requires desc.buf == data.buf == []
      ensures Streaming(desc, data, Streams([], []))
    {
    }

    lemma DumpedNone()
      ensures Dumped(Streams([], [] + ZeroPage()), 0)
    {
      assert ([] + ZeroPage())[..PAGE] == ZeroPage();
    }

    /** write_dump_header: pieces of headers, as they are given. */
    method WriteHeaders(headers: seq<Piece>) returns (ok: bool)
      requires OffsetsFit() && Static() && Flat(out, file) && HeadersFit(headers, offsetBitmap)
      modifies `out, `file, `failed
      ensures failed == (old(failed) || !ok)
      ensures ok ==> Flat(out, file) && file == Laid(headers, old(file))
    {
      hide Flat, Frames;
      ok := true;
      var i := 0;
      assert headers[..0] == [];
      while i < |headers|
        invariant 0 <= i <= |headers| && ok && failed == old(failed)
        invariant Flat(out, file) && file == Laid(headers[..i], old(file))
      {
        ok := WriteBuffer(headers[i].offset, headers[i].data);
        if !ok { return; }
        assert headers[..i + 1] == headers[..i] + [headers[i]];
        i := i + 1;
      }
      assert headers[..i] == headers;
    }

    /** create_kdump_vmcore: a dump that succeeds reads back as a file with the headers, both
        bitmaps and every page. */
    method CreateVmcore(headers: seq<Piece>) returns (ok: bool)
      requires Static() && OffsetsFit() && HeadersFit(headers, offsetBitmap) && out == []
      modifies `out, `file, `header, `numDumpable, `failed
      ensures failed == (old(failed) || !ok)
      ensures ok ==>
                Rearranged(out) == Some(file)
                && Slice(file, 0, offsetBitmap) == Slice(Laid(headers, []), 0, offsetBitmap)
      ensures ok ==> PagesOk() && numDumpable == |Frames(blocks)|
      ensures ok ==> forall pfn: nat :: pfn < 8 * lenBitmap ==>
                && (FrameBit(file, offsetBitmap, pfn) <==> Present(blocks, pfn))
                && (FrameBit(file, offsetBitmap + lenBitmap, pfn) <==> Present(blocks, pfn))
    {
      hide Frames, Written, Numbers, FrameBit, Present, PageOk, Flat, StartHeader, EndHeader;
      ok := WriteStream(StartHeader());
      if !ok { return; }
      file := [];
      assert out == StartHeader();
      FlatStart();
      ok := WriteHeaders(headers);
      if !ok { return; }
      header := Slice(file, 0, offsetBitmap);
      ok := WriteDumpBitmap();
      if !ok { return; }
      ok := WriteDumpPages();
      if !ok { return; }
      FlatEnd(out, file);
      ok := WriteStream(EndHeader());
      if ok { BitsOk(); }
    }

    /** qemu_write_full. */
    method WriteStream(bytes: Bytes) returns (ok: bool)
      modifies `out, `failed
      ensures failed == (old(failed) || !ok) && (ok ==> out == old(out) + bytes)
    {
      ok := *;
      failed := failed || !ok;
      var written := bytes;
      if !ok { written := *; }
      out := out + written;
    }

    lemma BitsOk()
      requires Static() && BitmapsOk()
      ensures forall pfn: nat :: pfn < 8 * lenBitmap ==>
                && (FrameBit(file, offsetBitmap, pfn) <==> Present(blocks, pfn))
                && (FrameBit(file, offsetBitmap + lenBitmap, pfn) <==> Present(blocks, pfn))
    {
      hide Frames, Written, Numbers, FrameBit, Present;
      LastFits();
      forall pfn: nat | pfn < 8 * lenBitmap
        ensures FrameBit(file, offsetBitmap, pfn) <==> Present(blocks, pfn)
        ensures FrameBit(file, offsetBitmap + lenBitmap, pfn) <==> Present(blocks, pfn)
      {
        WrittenBits(file, offsetBitmap, lenBitmap / BUFSIZE, Numbers(Frames(blocks)), pfn);
        WrittenBits(file, offsetBitmap + lenBitmap, lenBitmap / BUFSIZE, Numbers(Frames(blocks)), pfn);
        NumbersAre(blocks, pfn);
      }
    }
  }
}
