/**
 The dump bitmaps of a kdump file: one bit a page frame, written through a buffer of one page
 that is flushed to both bitmaps whenever the next bit lies behind it.
 */
module KdumpBitmap {
  import opened Basics
  import opened Storage

  const PAGE := 4096
  const BUFSIZE := PAGE
  /** PFN_BUFBITMAP: frames that the buffer has bits for. */
  const FRAMES := 8 * BUFSIZE

  // ---------- bits ----------

  function Pow2(n: nat): (p: nat)
    ensures p > 0
  {
    if n == 0 then 1 else 2 * Pow2(n - 1)
  }

  /** Bit k of a number. */
  predicate BitOf(x: nat, k: nat)
  {
    if k == 0 then x % 2 == 1 else BitOf(x / 2, k - 1)
  }

  /** The number with bit k set or cleared. */
  function WithBit(x: nat, k: nat, value: bool): (r: nat)
  {
    if k == 0 then x / 2 * 2 + (if value then 1 else 0) else 2 * WithBit(x / 2, k - 1, value) + x % 2
  }

  lemma {:induction false} WithBitIs(x: nat, k: nat, value: bool, j: nat)
    ensures BitOf(WithBit(x, k, value), j) == if j == k then value else BitOf(x, j)
  {
    if k > 0 && j > 0 {
      WithBitIs(x / 2, k - 1, value, j - 1);
      assert WithBit(x, k, value) / 2 == WithBit(x / 2, k - 1, value);
    } else if j > 0 {
      assert WithBit(x, k, value) / 2 == x / 2;
    }
  }

  lemma {:induction false} WithBitBound(x: nat, k: nat, value: bool, n: nat)
    requires x < Pow2(n) && k < n
    ensures WithBit(x, k, value) < Pow2(n)
  {
    if k > 0 { WithBitBound(x / 2, k - 1, value, n - 1); }
  }

  predicate Bit(b: byte, k: nat)
    requires k < 8
  {
    BitOf(b as nat, k)
  }

  /** b |= 1 << k, or b &= ~(1 << k). */
  function SetBit(b: byte, k: nat, value: bool): (r: byte)
    requires k < 8
    ensures forall j: nat :: j < 8 ==> Bit(r, j) == if j == k then value else Bit(b, j)
  {
    SetBitOk(b, k, value);
    WithBit(b as nat, k, value) as byte
  }

  lemma SetBitOk(b: byte, k: nat, value: bool)
    requires k < 8
    ensures WithBit(b as nat, k, value) < 256
    ensures forall j: nat :: j < 8 ==>
              Bit(WithBit(b as nat, k, value) as byte, j) == if j == k then value else Bit(b, j)
  {
    assert Pow2(8) == 256 by { assert Pow2(4) == 16; }
    WithBitBound(b as nat, k, value, 8);
    forall j: nat | j < 8
      ensures Bit(WithBit(b as nat, k, value) as byte, j) == if j == k then value else Bit(b, j)
    {
      WithBitIs(b as nat, k, value, j);
    }
  }

  lemma {:induction false} NoBits(k: nat)
    ensures !BitOf(0, k)
  {
    if k > 0 { NoBits(k - 1); }
  }

  // ---------- one buffer of bits ----------

  /** The buffer holds the bits of chunk c for the frames in `seen`. */
  ghost predicate Chunk(data: Bytes, c: nat, seen: set<nat>)
  {
    |data| == BUFSIZE && forall y: nat, k: nat :: y < BUFSIZE && k < 8 ==>
      (Bit(data[y], k) <==> c * FRAMES + y * 8 + k in seen)
  }

  lemma EmptyChunk(c: nat, seen: set<nat>)
    requires forall p :: p in seen ==> p < c * FRAMES
    ensures Chunk(Zeroes(BUFSIZE), c, seen)
  {
    forall y: nat, k: nat | y < BUFSIZE && k < 8
      ensures !Bit(Zeroes(BUFSIZE)[y], k) && c * FRAMES + y * 8 + k !in seen
    {
      NoBits(k);
    }
  }

  /** Marking one more frame of chunk c. */
  lemma ChunkNext(data: Bytes, c: nat, seen: set<nat>, pfn: nat)
    requires Chunk(data, c, seen) && pfn / FRAMES == c
    ensures var y, k := pfn % FRAMES / 8, pfn % FRAMES % 8; Chunk(data[y := SetBit(data[y], k, true)], c, seen + {pfn})
  {
    var y, k := pfn % FRAMES / 8, pfn % FRAMES % 8;
    assert pfn == c * FRAMES + y * 8 + k;
    var data' := data[y := SetBit(data[y], k, true)];
    forall z: nat, j: nat | z < BUFSIZE && j < 8
      ensures Bit(data'[z], j) <==> c * FRAMES + z * 8 + j in seen + {pfn}
    {
      assert Bit(data[z], j) <==> c * FRAMES + z * 8 + j in seen;
    }
  }

  /** Frames of later chunks do not matter to this one. */
  lemma ChunkLater(data: Bytes, c: nat, seen: set<nat>, pfn: nat)
    requires Chunk(data, c, seen) && pfn / FRAMES > c
    ensures Chunk(data, c, seen + {pfn})
  {
    forall z: nat, j: nat | z < BUFSIZE && j < 8
      ensures Bit(data[z], j) <==> c * FRAMES + z * 8 + j in seen + {pfn}
    {
      assert c * FRAMES + z * 8 + j != pfn;
    }
  }

  // ---------- the bitmaps in the file ----------

  lemma SliceStore(file: Bytes, pos: nat, data: Bytes, at: nat, n: nat)
    ensures Slice(Store(file, pos, data), pos, |data|) == data
    ensures at + n <= pos || pos + |data| <= at ==> Slice(Store(file, pos, data), at, n) == Slice(file, at, n)
  {
    var file' := Store(file, pos, data);
    assert forall i: nat :: At(file', i) == if pos <= i < pos + |data| then data[i - pos] else At(file, i);
  }

  /** The first c chunks of the bitmap at `base` are written. */
  ghost predicate Written(file: Bytes, base: nat, c: nat, seen: set<nat>)
  {
    forall k: nat :: k < c ==> Chunk(Slice(file, base + k * BUFSIZE, BUFSIZE), k, seen)
  }

  lemma WrittenNext(file: Bytes, base: nat, c: nat, seen: set<nat>, buf: Bytes)
    requires Written(file, base, c, seen) && Chunk(buf, c, seen)
    ensures Written(Store(file, base + c * BUFSIZE, buf), base, c + 1, seen)
  {
    hide Chunk, Store;
    var file' := Store(file, base + c * BUFSIZE, buf);
    forall k: nat | k < c + 1
      ensures Chunk(Slice(file', base + k * BUFSIZE, BUFSIZE), k, seen)
    {
      BufferSize(buf, c, seen);
      SliceStore(file, base + c * BUFSIZE, buf, base + k * BUFSIZE, BUFSIZE);
      assert k < c ==> Chunk(Slice(file, base + k * BUFSIZE, BUFSIZE), k, seen);
    }
  }

  lemma BufferSize(buf: Bytes, c: nat, seen: set<nat>)
    requires Chunk(buf, c, seen)
    ensures |buf| == BUFSIZE
  {
  }

  /** Writes outside the written chunks leave them alone. */
  lemma WrittenElsewhere(file: Bytes, base: nat, c: nat, seen: set<nat>, pos: nat, data: Bytes)
    requires Written(file, base, c, seen) && (base + c * BUFSIZE <= pos || pos + |data| <= base)
    ensures Written(Store(file, pos, data), base, c, seen)
  {
    hide Chunk, Store;
    var file' := Store(file, pos, data);
    forall k: nat | k < c
      ensures Chunk(Slice(file', base + k * BUFSIZE, BUFSIZE), k, seen)
    {
      SliceStore(file, pos, data, base + k * BUFSIZE, BUFSIZE);
      assert Chunk(Slice(file, base + k * BUFSIZE, BUFSIZE), k, seen);
    }
  }

  lemma WrittenLater(file: Bytes, base: nat, c: nat, seen: set<nat>, pfn: nat)
    requires Written(file, base, c, seen) && pfn / FRAMES >= c
    ensures Written(file, base, c, seen + {pfn})
  {
    forall k: nat | k < c
      ensures Chunk(Slice(file, base + k * BUFSIZE, BUFSIZE), k, seen + {pfn})
    {
      ChunkLater(Slice(file, base + k * BUFSIZE, BUFSIZE), k, seen, pfn);
    }
  }

  /** Bit of a frame in the bitmap at `base`. */
  predicate FrameBit(file: Bytes, base: nat, pfn: nat)
  {
    Bit(At(file, base + pfn / 8), pfn % 8)
  }

  lemma WrittenBits(file: Bytes, base: nat, c: nat, seen: set<nat>, pfn: nat)
    requires Written(file, base, c, seen) && pfn < c * FRAMES
    ensures FrameBit(file, base, pfn) <==> pfn in seen
  {
    var k, y, j := pfn / FRAMES, pfn % FRAMES / 8, pfn % 8;
    assert pfn == k * FRAMES + y * 8 + j && pfn / 8 == k * BUFSIZE + y;
    var data := Slice(file, base + k * BUFSIZE, BUFSIZE);
    assert Chunk(data, k, seen);
    assert Bit(data[y], j) <==> k * FRAMES + y * 8 + j in seen;
  }
}
