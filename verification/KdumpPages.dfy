/**
 Page descriptors of a kdump file, and the two streams, of descriptors and of page data, that
 are written behind caches.
 */
module KdumpPages {
  import opened Basics
  import opened RamStream
  import Rounding
  import opened Storage

  const DESC_SIZE := 24
  const OFF_MAX: nat := 0xffff_ffff_ffff_ffff
  const WORD_MAX: nat := 0xffff_ffff

  // ---------- little-endian numbers ----------

  function Pow256(n: nat): (p: nat)
    ensures p > 0
  {
    if n == 0 then 1 else 256 * Pow256(n - 1)
  }

  function Le(x: nat, n: nat): (s: Bytes)
    ensures |s| == n
  {
    if n == 0 then [] else [(x % 256) as byte] + Le(x / 256, n - 1)
  }

  function UnLe(s: Bytes): (x: nat)
  {
    if s == [] then 0 else s[0] as nat + 256 * UnLe(s[1..])
  }

  lemma {:induction false} LeIs(x: nat, n: nat)
    requires x < Pow256(n)
    ensures UnLe(Le(x, n)) == x
  {
    if n > 0 {
      LeIs(x / 256, n - 1);
      assert Le(x, n)[1..] == Le(x / 256, n - 1);
    }
  }

  /** Low byte first. */
  lemma {:induction false} LeBytes(x: nat, n: nat, i: nat)
    requires i < n
    ensures Le(x, n)[i] as nat == x / Pow256(i) % 256
  {
    if i > 0 {
      LeBytes(x / 256, n - 1, i - 1);
      DivTwice(x, Pow256(i - 1));
    }
  }

  lemma DivTwice(x: nat, b: nat)
    requires b > 0
    ensures x / 256 / b == x / (256 * b)
  {
    var y := x / 256;
    var q, r := y / b, y % b;
    assert y == q * b + r;
    assert q * (256 * b) == 256 * (q * b);
    Rounding.ModIs(x, 256 * b, q, 256 * r + x % 256);
  }

  lemma Widths()
    ensures Pow256(4) == WORD_MAX + 1 && Pow256(8) == OFF_MAX + 1
  {
    assert Pow256(2) == 0x1_0000;
    assert Pow256(4) == 0x1_0000_0000;
    assert Pow256(6) == 0x1_0000_0000_0000;
  }

  // ---------- descriptors ----------

  datatype Desc = Desc(offset: nat, size: nat, flags: nat, pageFlags: nat)

  predicate DescOk(d: Desc)
  {
    d.offset <= OFF_MAX && d.size <= WORD_MAX && d.flags <= WORD_MAX && d.pageFlags <= OFF_MAX
  }

  function Pack(d: Desc): (s: Bytes)
    ensures |s| == DESC_SIZE
  {
    Le(d.offset, 8) + Le(d.size, 4) + Le(d.flags, 4) + Le(d.pageFlags, 8)
  }

  function Unpack(s: Bytes): (d: Desc)
    requires |s| == DESC_SIZE
  {
    Desc(UnLe(s[..8]), UnLe(s[8..12]), UnLe(s[12..16]), UnLe(s[16..]))
  }

  lemma PackIs(d: Desc)
    requires DescOk(d)
    ensures Unpack(Pack(d)) == d
  {
    hide Le, UnLe, Pow256;
    Widths();
    LeIs(d.offset, 8);
    LeIs(d.size, 4);
    LeIs(d.flags, 4);
    LeIs(d.pageFlags, 8);
    var s := Pack(d);
    assert s[..8] == Le(d.offset, 8) && s[8..12] == Le(d.size, 4) && s[12..16] == Le(d.flags, 4)
      && s[16..] == Le(d.pageFlags, 8);
  }

  /** The fields of a descriptor at their places, low byte first. */
  lemma PackBytes(d: Desc, i: nat)
    requires i < DESC_SIZE
    ensures Pack(d)[i] as nat ==
            if i < 8 then d.offset / Pow256(i) % 256
            else if i < 12 then d.size / Pow256(i - 8) % 256
            else if i < 16 then d.flags / Pow256(i - 12) % 256
            else d.pageFlags / Pow256(i - 16) % 256
  {
    hide Le, Pow256;
    if i < 8 {
      LeBytes(d.offset, 8, i);
    } else if i < 12 {
      LeBytes(d.size, 4, i - 8);
    } else if i < 16 {
      LeBytes(d.flags, 4, i - 12);
    } else {
      LeBytes(d.pageFlags, 8, i - 16);
    }
  }

  /** What a reader makes of page data, given the flags of its descriptor. */
  function Plain(flags: nat, data: Bytes, expand: Bytes -> Page): (page: Page)
  {
    if flags != 0 then expand(data) else if |data| == PAGE_SIZE then data else ZeroPage()
  }

  // ---------- the streams ----------

  /** Descriptor k of the stream leads to data of the other stream that reads as the page. */
  ghost predicate Leads(descs: Bytes, data: Bytes, start: nat, k: nat, page: Page, expand: Bytes -> Page)
  {
    && (k + 1) * DESC_SIZE <= |descs|
    && var d := Unpack(descs[k * DESC_SIZE..k * DESC_SIZE + DESC_SIZE]);
       && start <= d.offset && d.offset - start + d.size <= |data|
       && Plain(d.flags, data[d.offset - start..d.offset - start + d.size], expand) == page
  }

  lemma LeadsMore(descs: Bytes, descs': Bytes, data: Bytes, data': Bytes, start: nat, k: nat, page: Page,
                  expand: Bytes -> Page)
    requires Leads(descs, data, start, k, page, expand) && descs <= descs' && data <= data'
    ensures Leads(descs', data', start, k, page, expand)
  {
    var from := k * DESC_SIZE;
    assert descs'[from..from + DESC_SIZE] == descs[from..from + DESC_SIZE];
    var d := Unpack(descs[from..from + DESC_SIZE]);
    assert data'[d.offset - start..d.offset - start + d.size] == data[d.offset - start..d.offset - start + d.size];
  }

  /** A new descriptor for data that is in the stream. */
  lemma LeadsNew(descs: Bytes, data: Bytes, start: nat, k: nat, d: Desc, expand: Bytes -> Page)
    requires DescOk(d) && |descs| == k * DESC_SIZE && start <= d.offset && d.offset - start + d.size <= |data|
    ensures Leads(descs + Pack(d), data, start, k,
      Plain(d.flags, data[d.offset - start..d.offset - start + d.size], expand), expand)
  {
    PackIs(d);
    assert (descs + Pack(d))[k * DESC_SIZE..k * DESC_SIZE + DESC_SIZE] == Pack(d);
  }

  /** The file holds the first n bytes of the stream from `start` on. */
  ghost predicate Holds(file: Bytes, start: nat, stream: Bytes, n: nat)
  {
    n <= |stream| && Slice(file, start, n) == stream[..n]
  }

  /** A cache: what the file does not hold yet of the stream is in the buffer. */
  ghost predicate Cached(file: Bytes, start: nat, stream: Bytes, offset: nat, buf: Bytes, size: nat)
  {
    && start <= offset && offset - start + |buf| == |stream| && |buf| <= size
    && Holds(file, start, stream, offset - start) && stream[offset - start..] == buf
  }

  lemma CachedPlace(file: Bytes, start: nat, stream: Bytes, offset: nat, buf: Bytes, size: nat)
    requires Cached(file, start, stream, offset, buf, size)
    ensures start <= offset && offset + |buf| == start + |stream|
  {
  }

  lemma CachedFlush(file: Bytes, start: nat, stream: Bytes, offset: nat, buf: Bytes, size: nat)
    requires Cached(file, start, stream, offset, buf, size)
    ensures Cached(Store(file, offset, buf), start, stream, offset + |buf|, [], size)
  {
    var file' := Store(file, offset, buf);
    var n := offset - start;
    assert stream == stream[..n] + buf;
    forall i | 0 <= i < |stream|
      ensures At(file', start + i) == stream[i]
    {
      assert Slice(file, start, n) == stream[..n];
      if i < n { assert Slice(file, start, n)[i] == stream[..n][i]; } else { assert buf[i - n] == stream[i]; }
    }
    assert Slice(file', start, |stream|) == stream[..|stream|];
  }

  lemma CachedAdd(file: Bytes, start: nat, stream: Bytes, offset: nat, buf: Bytes, size: nat, more: Bytes)
    requires Cached(file, start, stream, offset, buf, size) && |buf| + |more| <= size
    ensures Cached(file, start, stream + more, offset, buf + more, size)
  {
    var n := offset - start;
    assert (stream + more)[..n] == stream[..n];
    assert (stream + more)[n..] == stream[n..] + more;
  }

  lemma CachedElsewhere(file: Bytes, start: nat, stream: Bytes, offset: nat, buf: Bytes, size: nat, pos: nat,
                        other: Bytes)
    requires Cached(file, start, stream, offset, buf, size) && (pos + |other| <= start || start + |stream| <= pos)
    ensures Cached(Store(file, pos, other), start, stream, offset, buf, size)
  {
    var file' := Store(file, pos, other);
    var n := offset - start;
    assert forall i: nat :: At(file', i) == if pos <= i < pos + |other| then other[i - pos] else At(file, i);
    assert Slice(file', start, n) == Slice(file, start, n);
  }

  /** Reading page k of a finished file. */
  ghost predicate PageOk(file: Bytes, offsetDesc: nat, offsetData: nat, k: nat, page: Page, expand: Bytes -> Page)
  {
    var d := Unpack(Slice(file, offsetDesc + k * DESC_SIZE, DESC_SIZE));
    offsetData <= d.offset && Plain(d.flags, Slice(file, d.offset, d.size), expand) == page
  }

  lemma SubSlice(file: Bytes, start: nat, stream: Bytes, offset: nat, size: nat, from: nat, n: nat)
    requires Cached(file, start, stream, offset, [], size) && from + n <= |stream|
    ensures Slice(file, start + from, n) == stream[from..from + n]
  {
    assert stream[..|stream|] == stream;
    var part := stream[from..from + n];
    forall i | 0 <= i < n
      ensures Slice(file, start + from, n)[i] == part[i]
    {
      assert Slice(file, start, |stream|)[from + i] == At(file, start + (from + i));
    }
  }

  lemma LeadsInFile(file: Bytes, offsetDesc: nat, descs: Bytes, offsetData: nat, data: Bytes, end1: nat, end2: nat,
                    k: nat, page: Page, expand: Bytes -> Page)
    requires Cached(file, offsetDesc, descs, end1, [], 4 * PAGE_SIZE)
    requires Cached(file, offsetData, data, end2, [], 4 * PAGE_SIZE)
    requires Leads(descs, data, offsetData, k, page, expand)
    ensures PageOk(file, offsetDesc, offsetData, k, page, expand)
  {
    SubSlice(file, offsetDesc, descs, end1, 4 * PAGE_SIZE, k * DESC_SIZE, DESC_SIZE);
    var d := Unpack(descs[k * DESC_SIZE..k * DESC_SIZE + DESC_SIZE]);
    SubSlice(file, offsetData, data, end2, 4 * PAGE_SIZE, d.offset - offsetData, d.size);
  }
}
