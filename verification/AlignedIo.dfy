/**
 Byte reads and writes of any range on a driver that takes whole, aligned blocks only.  The
 image reads as zeroes beyond its end, and grows when it is written there.
 */
module AlignedIo {
  import opened Rounding
  import opened Basics
  import opened Storage

  const SECTOR := 512
  /** BDRV_REQUEST_MAX_SECTORS. */
  const MAX_SECTORS := 0x3f_ffff
  /** MAX_WRITE_ZEROES_BOUNCE_BUFFER, in sectors. */
  const MAX_BOUNCE := 32768

  datatype Ret = Ok | NotSupported | Failure

  function MinNonZero(a: nat, b: nat): (m: nat)
    requires b > 0
    ensures 0 < m <= b && (a > 0 ==> m <= a)
  {
    if a == 0 || b < a then b else a
  }

  predicate BounceOk(buffer: Option<Bytes>, limit: nat)
  {
    buffer.Some? ==> |buffer.value| >= limit * SECTOR && forall i :: 0 <= i < |buffer.value| ==> buffer.value[i] == 0
  }

  lemma ZeroesNext(disk: Bytes, disk1: Bytes, disk2: Bytes, sector: nat, done: nat, num: nat)
    requires Wrote(disk, disk1, sector * SECTOR, Zeroes(done * SECTOR))
    requires Wrote(disk1, disk2, (sector + done) * SECTOR, Zeroes(num * SECTOR))
    ensures Wrote(disk, disk2, sector * SECTOR, Zeroes((done + num) * SECTOR))
  {
    WroteTwice(disk, disk1, disk2, sector * SECTOR, Zeroes(done * SECTOR), Zeroes(num * SECTOR));
    assert Zeroes(done * SECTOR) + Zeroes(num * SECTOR) == Zeroes((done + num) * SECTOR);
  }

  lemma NextAligned(x: nat, align: nat)
    requires align > 0
    ensures (x + align - x % align) % align == 0
  {
    RoundedIs(x, align);
    ModAdd(x - x % align, align, align);
    ModIs(align, align, 1, 0);
  }

  /** The padded range starts and ends on block boundaries. */
  lemma Padding(offset: nat, bytes: nat, align: nat)
    requires align > 0
    ensures RoundDown(offset, align) % align == 0 && RoundDown(offset, align) + offset % align == offset
    ensures offset % align == 0 ==> RoundDown(offset, align) == offset
    ensures var n := bytes + offset % align;
            && (RoundDown(offset, align) + n == offset + bytes)
            && n % align == (offset + bytes) % align
            && RoundUp(n, align) % align == 0
            && (n % align == 0 ==> RoundUp(n, align) == n)
  {
    RoundedIs(offset, align);
    RoundedIs(bytes + offset % align, align);
    ModAdd(RoundDown(offset, align), bytes + offset % align, align);
  }

  /** Head, data and tail together are whole blocks. */
  lemma Padded(offset: nat, bytes: nat, align: nat)
    requires align > 0
    ensures RoundDown(offset, align) % align == 0 && RoundDown(offset, align) + offset % align == offset
    ensures (offset % align + bytes + (RoundUp(offset + bytes, align) - (offset + bytes))) % align == 0
  {
    RoundedIs(offset, align);
    RoundedIs(offset + bytes, align);
    ModAdd(RoundDown(offset, align), RoundUp(offset + bytes, align) - RoundDown(offset, align), align);
  }

  lemma WroteNowhere(disk: Bytes, lo: nat, hi: nat)
    ensures Outside(disk, disk, lo, hi)
  {
  }

  lemma MultipleOfSector(x: nat, align: nat)
    requires align > 0 && align % SECTOR == 0 && x % align == 0
    ensures x % SECTOR == 0
  {
    var q, k := x / align, align / SECTOR;
    assert x == q * align && align == k * SECTOR;
    assert q * (k * SECTOR) == (q * k) * SECTOR;
    ModIs(x, SECTOR, q * k, 0);
  }

  class Image {
    var disk: Bytes
    const align: nat
    const inserted: bool
    const readOnly: bool
    const writeCache: bool
    /** detect_zeroes is not off. */
    const detectZeroes: bool
    /** The driver has a write-zeroes operation, and its limits in sectors (0 for none). */
    const hasWriteZeroes: bool
    const zeroesAlignment: nat
    const maxWriteZeroes: nat
    const maxTransfer: nat
    /** The driver or the host has let a request down. */
    ghost var failed: bool
    /** How often the driver was asked to write zeroes by itself. */
    ghost var asked: nat

    /** bdrv_get_align never gives less than a sector; alignments are powers of two. */
    ghost predicate Valid()
      reads this
    {
      align > 0 && align % SECTOR == 0 && |disk| % SECTOR == 0
    }

    constructor (disk: Bytes, align: nat, inserted: bool, readOnly: bool, writeCache: bool, detectZeroes: bool,
                 hasWriteZeroes: bool, zeroesAlignment: nat, maxWriteZeroes: nat, maxTransfer: nat)
      requires align > 0 && align % SECTOR == 0 && |disk| % SECTOR == 0
      ensures Valid() && this.disk == disk && this.align == align && !failed
      ensures this.inserted == inserted && this.readOnly == readOnly && this.writeCache == writeCache
      ensures this.detectZeroes == detectZeroes && this.hasWriteZeroes == hasWriteZeroes
      ensures this.zeroesAlignment == zeroesAlignment && this.maxWriteZeroes == maxWriteZeroes
      ensures this.maxTransfer == maxTransfer
    {
      this.disk, this.align, failed, asked := disk, align, false, 0;
      this.inserted, this.readOnly, this.writeCache := inserted, readOnly, writeCache;
      this.detectZeroes, this.hasWriteZeroes, this.zeroesAlignment := detectZeroes, hasWriteZeroes, zeroesAlignment;
      this.maxWriteZeroes, this.maxTransfer := maxWriteZeroes, maxTransfer;
    }

    // ---------- the driver ----------

    /** A driver read may give anything beyond the end of the image. */
    method DriverRead(sector: nat, n: nat) returns (ret: Ret, data: Bytes)
      modifies `failed
      ensures failed == (old(failed) || !ret.Ok?)
      ensures ret.Ok? ==> |data| == n * SECTOR && forall i :: 0 <= i < |data| && sector * SECTOR + i < |disk| ==>
                data[i] == disk[sector * SECTOR + i]
    {
      data := Slice(disk, sector * SECTOR, n * SECTOR);
      var beyond: Bytes := *;
      if |disk| < sector * SECTOR + n * SECTOR && |beyond| == n * SECTOR {
        var valid := if |disk| > sector * SECTOR then |disk| - sector * SECTOR else 0;
        data := data[..valid] + beyond[valid..];
      }
      ret := *;
      failed := failed || !ret.Ok?;
    }

    /** A driver write takes effect as a whole, or fails with any change to the range. */
    method DriverWrite(sector: nat, data: Bytes) returns (ret: Ret)
      requires Valid() && |data| % SECTOR == 0
      modifies `disk, `failed
      ensures Valid() && Outside(old(disk), disk, sector * SECTOR, sector * SECTOR + |data|)
      ensures failed == (old(failed) || !ret.Ok?)
      ensures ret.Ok? ==> Wrote(old(disk), disk, sector * SECTOR, data)
    {
      ret := *;
      failed := failed || !ret.Ok?;
      var written := data;
      if !ret.Ok? {
        written := *;
        if |written| != |data| { return; }
      }
      disk := Store(disk, sector * SECTOR, written);
    }

    /** The driver's write-zeroes operation, which may turn out not to be supported. */
    method DriverWriteZeroes(sector: nat, n: nat) returns (ret: Ret)
      requires Valid()
      modifies `disk, `failed, `asked
      ensures Valid() && Outside(old(disk), disk, sector * SECTOR, (sector + n) * SECTOR)
      ensures failed == (old(failed) || ret.Failure?)
      ensures ret.Ok? ==> Wrote(old(disk), disk, sector * SECTOR, Zeroes(n * SECTOR))
      ensures ret.NotSupported? ==> disk == old(disk)
      ensures asked == old(asked) + 1
    {
      asked := asked + 1;
      var supported: bool := *;
      if !supported { return NotSupported; }
      ret := DriverWrite(sector, Zeroes(n * SECTOR));
      if !ret.Ok? { ret := Failure; }
    }

    // ---------- reads ----------

    /** bdrv_aligned_preadv: the driver is asked for no more than the image has, rounded up to the
        alignment, and whatever lies beyond the end is zeroed. */
    method AlignedRead(offset: nat, bytes: nat) returns (ok: bool, data: Bytes)
      requires Valid() && offset % SECTOR == 0 && bytes % SECTOR == 0
      modifies `failed
      ensures failed == (old(failed) || !ok)
      ensures ok ==> data == Slice(disk, offset, bytes)
    {
      var sector, n, total := offset / SECTOR, bytes / SECTOR, |disk| / SECTOR;
      var left := if total > sector then total - sector else 0;
      var max := RoundUp(left, align / SECTOR);
      var ret;
      if n < max {
        ret, data := DriverRead(sector, n);
      } else if max > 0 {
        ret, data := DriverRead(sector, max);
        if ret.Ok? { data := data + Zeroes((n - max) * SECTOR); }
      } else {
        ret, data := Ok, Zeroes(bytes);
      }
      if !ret.Ok? { return false, []; }
      if total < sector + n {
        data := data[..left * SECTOR] + Zeroes(bytes - left * SECTOR);
      }
      ok := true;
    }

    /** bdrv_co_do_preadv: the range is padded to whole blocks, and the padding dropped again. */
    method Read(offset: int, bytes: nat) returns (ok: bool, data: Bytes)
      requires Valid()
      modifies `failed
      ensures !old(failed) ==> (ok <==> inserted && 0 <= offset && bytes <= MAX_SECTORS * SECTOR && !failed)
      ensures ok ==> 0 <= offset && data == Slice(disk, offset, bytes)
    {
      hide RoundDown, RoundUp, At;
      if !inserted || bytes > MAX_SECTORS * SECTOR || offset < 0 { return false, []; }
      var lo: nat, n: nat := offset, bytes;
      if lo % align != 0 {
        n := n + lo % align;
        lo := RoundDown(lo, align);
      }
      Padding(offset, bytes, align);
      if (lo + n) % align != 0 {
        n := RoundUp(n, align);
      }
      MultipleOfSector(lo, align);
      MultipleOfSector(n, align);
      ok, data := AlignedRead(lo, n);
      if ok {
        data := data[offset - lo..offset - lo + bytes];
      }
    }

    // ---------- writes ----------

    /** How much bdrv_co_do_write_zeroes asks for at once: up to the next aligned sector, then
        whole aligned stretches, so that a chunk ends on an aligned sector unless the limit cuts
        it. */
    method Chunk(sector: nat, n: nat, limit: nat) returns (num: nat)
      requires n > 0 && limit > 0
      ensures 0 < num <= n && num <= limit
      ensures 0 < zeroesAlignment < n && num < limit ==> (sector + num) % zeroesAlignment == 0
      ensures zeroesAlignment == 0 || n <= zeroesAlignment ==> num == if n < limit then n else limit
      ensures 0 < zeroesAlignment < n ==> num == limit || num + zeroesAlignment > n || sector % zeroesAlignment != 0
      ensures 0 < zeroesAlignment < n && sector % zeroesAlignment != 0 ==> num <= zeroesAlignment
    {
      num := n;
      if zeroesAlignment > 0 && num > zeroesAlignment {
        NextAligned(sector, zeroesAlignment);
        RoundedIs(sector + num, zeroesAlignment);
        if sector % zeroesAlignment != 0 {
          num := zeroesAlignment - sector % zeroesAlignment;
        } else if (sector + num) % zeroesAlignment != 0 {
          num := num - (sector + num) % zeroesAlignment;
        }
      }
      if num > limit { num := limit; }
    }

    /** Zeroes are written from a bounce buffer, which is kept as long as it is big enough for
        every later chunk. */
    method WriteBounce(sector: nat, num: nat, limit: nat, buffer: Option<Bytes>)
      returns (ret: Ret, buffer': Option<Bytes>)
      requires Valid() && 0 < num <= limit && BounceOk(buffer, limit)
      modifies `disk, `failed
      ensures Valid() && BounceOk(buffer', limit) && failed == (old(failed) || !ret.Ok?)
      ensures Outside(old(disk), disk, sector * SECTOR, (sector + num) * SECTOR)
      ensures ret.Ok? ==> Wrote(old(disk), disk, sector * SECTOR, Zeroes(num * SECTOR))
    {
      buffer' := buffer;
      if buffer'.None? {
        var memory: bool := *;
        if !memory {
          failed := true;
          return Failure, None;
        }
        buffer' := Some(Zeroes(num * SECTOR));
      }
      assert buffer'.value[..num * SECTOR] == Zeroes(num * SECTOR);
      ret := DriverWrite(sector, buffer'.value[..num * SECTOR]);
      if num < limit { buffer' := None; }
    }

    /** bdrv_co_do_write_zeroes. */
    method WriteZeroes(sector: nat, n: nat) returns (ok: bool)
      requires Valid()
      modifies `disk, `failed, `asked
      ensures Valid() && failed == (old(failed) || !ok)
      ensures Outside(old(disk), disk, sector * SECTOR, (sector + n) * SECTOR)
      ensures ok ==> Wrote(old(disk), disk, sector * SECTOR, Zeroes(n * SECTOR))
      ensures asked >= old(asked) && (asked > old(asked) <==> hasWriteZeroes && n > 0)
    {
      var limit := MinNonZero(maxWriteZeroes, MAX_SECTORS);
      var bounce := MinNonZero(maxTransfer, MAX_BOUNCE);
      var done, ret := 0, Ok;
      var buffer: Option<Bytes> := None;
      WroteNothing(disk, sector * SECTOR);
      while done < n && ret.Ok?
        invariant 0 <= done <= n && Valid() && BounceOk(buffer, bounce) && failed == (old(failed) || !ret.Ok?)
        invariant Outside(old(disk), disk, sector * SECTOR, (sector + done) * SECTOR)
        invariant ret.Ok? ==> Wrote(old(disk), disk, sector * SECTOR, Zeroes(done * SECTOR))
        invariant asked >= old(asked) && (asked > old(asked) <==> hasWriteZeroes && done > 0) && (done == 0 ==> ret.Ok?)
        decreases n - done
      {
        var num := Chunk(sector + done, n - done, limit);
        ghost var before := disk;
        ret := NotSupported;
        if hasWriteZeroes {
          ret := DriverWriteZeroes(sector + done, num);
        }
        if ret.NotSupported? {
          if num > bounce { num := bounce; }
          ret, buffer := WriteBounce(sector + done, num, bounce, buffer);
        }
        if ret.Ok? { ZeroesNext(old(disk), before, disk, sector, done, num); }
        done := done + num;
      }
      ok := ret.Ok?;
    }

    /** The driver itself writes the zeroes, if it can and if the caller says so or zeroes are looked for. */
    predicate ByZeroes(data: Bytes, zeroWrite: bool)
    {
      hasWriteZeroes && data != [] && data == Zeroes(|data|) && (zeroWrite || detectZeroes)
    }

    /** bdrv_aligned_pwritev, given whole sectors.  `vetoed` is what the before-write notifiers
        say. */
    method AlignedWrite(offset: nat, data: Bytes, zeroWrite: bool) returns (ok: bool)
      requires Valid() && offset % SECTOR == 0 && |data| % SECTOR == 0 && (zeroWrite ==> data == Zeroes(|data|))
      modifies `disk, `failed, `asked
      ensures Valid() && Outside(old(disk), disk, offset, offset + |data|) && failed == (old(failed) || !ok)
      ensures ok ==> Wrote(old(disk), disk, offset, data)
      ensures asked > old(asked) ==> ByZeroes(data, zeroWrite)
      ensures ok && ByZeroes(data, zeroWrite) ==> asked > old(asked)
    {
      var vetoed: bool := *;
      var zeroes := zeroWrite || (!vetoed && detectZeroes && hasWriteZeroes && data == Zeroes(|data|));
      if vetoed {
        ok := false;
        failed := true;
      } else if zeroes {
        ok := WriteZeroes(offset / SECTOR, |data| / SECTOR);
      } else {
        var ret := DriverWrite(offset / SECTOR, data);
        ok := ret.Ok?;
      }
      if ok && !writeCache {
        ok := *;
        failed := failed || !ok;
      }
    }

    /** bdrv_co_do_pwritev: head and tail of the first and last block are read first and written
        back with the data.  The zero flag is dropped once there is a head or a tail. */
    method Write(offset: int, data: Bytes, zeroWrite: bool) returns (ok: bool)
      requires Valid() && (zeroWrite ==> data == Zeroes(|data|))
      modifies `disk, `failed, `asked
      ensures Valid()
      ensures !old(failed) ==> (ok <==>
                inserted && !readOnly && 0 <= offset && |data| <= MAX_SECTORS * SECTOR && !failed)
      ensures ok ==> 0 <= offset && Wrote(old(disk), disk, offset, data)
      ensures !ok && offset < 0 ==> disk == old(disk)
      ensures !ok && 0 <= offset ==> Outside(old(disk), disk, RoundDown(offset, align), RoundUp(offset + |data|, align))
    {
      hide RoundDown, RoundUp, At, Slice, Wrote, Outside;
      if offset >= 0 { WroteNowhere(disk, RoundDown(offset, align), RoundUp(offset + |data|, align)); }
      if !inserted || readOnly || |data| > MAX_SECTORS * SECTOR || offset < 0 { return false; }
      var head, tail;
      ok, head := ReadHead(offset);
      if !ok { return; }
      ok, tail := ReadTail(offset + |data|);
      if !ok { return; }
      Padded(offset, |data|, align);
      ok := WritePadded(RoundDown(offset, align), head, data, tail, zeroWrite && head == [] && tail == []);
    }

    /** What the first block holds before the write. */
    method ReadHead(offset: nat) returns (ok: bool, head: Bytes)
      requires Valid()
      modifies `failed
      ensures failed == (old(failed) || !ok)
      ensures ok ==> |head| == offset % align && head == Slice(disk, RoundDown(offset, align), offset % align)
    {
      hide At;
      ok, head := true, [];
      if offset % align != 0 {
        RoundedIs(offset, align);
        MultipleOfSector(RoundDown(offset, align), align);
        var block;
        ok, block := AlignedRead(RoundDown(offset, align), align);
        if ok { head := block[..offset % align]; }
      }
    }

    /** What the last block holds behind the write. */
    method ReadTail(end: nat) returns (ok: bool, tail: Bytes)
      requires Valid()
      modifies `failed
      ensures failed == (old(failed) || !ok)
      ensures ok ==> |tail| == RoundUp(end, align) - end && tail == Slice(disk, end, RoundUp(end, align) - end)
    {
      hide At;
      ok, tail := true, [];
      if end % align != 0 {
        RoundedIs(end, align);
        MultipleOfSector(RoundDown(end, align), align);
        var block;
        ok, block := AlignedRead(RoundDown(end, align), align);
        if ok {
          tail := block[end % align..];
          var e := RoundDown(end, align);
          assert forall i :: 0 <= i < |tail| ==> tail[i] == At(disk, e + (end % align + i));
        }
      }
    }

    method WritePadded(lo: nat, head: Bytes, data: Bytes, tail: Bytes, zeroWrite: bool) returns (ok: bool)
      requires Valid() && lo % align == 0 && (|head| + |data| + |tail|) % align == 0
      requires zeroWrite ==> head == tail == [] && data == Zeroes(|data|)
      requires head == Slice(disk, lo, |head|) && tail == Slice(disk, lo + |head| + |data|, |tail|)
      modifies `disk, `failed, `asked
      ensures Valid() && Outside(old(disk), disk, lo, lo + |head| + |data| + |tail|) && failed == (old(failed) || !ok)
      ensures ok ==> Wrote(old(disk), disk, lo + |head|, data)
    {
      MultipleOfSector(lo, align);
      MultipleOfSector(|head| + |data| + |tail|, align);
      assert zeroWrite ==> head + data + tail == data;
      ok := AlignedWrite(lo, head + data + tail, zeroWrite);
      if ok { WrotePadded(old(disk), disk, lo, head, data, tail); }
    }
  }
}
