/**
 The flattened form of a dump: what would be written to places of a file goes to a stream, as
 records that say where they belong.
 */
module KdumpFlat {
  import opened Basics
  import opened KdumpPages
  import opened Storage

  /** MAX_SIZE_MDF_HEADER. */
  const HEADER_SIZE := 4096
  /** Offset and size of a record, as 64-bit numbers. */
  const RECORD_HEADER := 16
  /** MAKEDUMPFILE_SIGNATURE. */
  const SIGNATURE: Bytes := [0x6d, 0x61, 0x6b, 0x65, 0x64, 0x75, 0x6d, 0x70, 0x66, 0x69, 0x6c, 0x65, 0, 0, 0, 0]

  // ---------- big-endian numbers ----------

  function Be(x: nat, n: nat): (s: Bytes)
    ensures |s| == n
  {
    if n == 0 then [] else Be(x / 256, n - 1) + [(x % 256) as byte]
  }

  function UnBe(s: Bytes): (x: nat)
  {
    if s == [] then 0 else 256 * UnBe(s[..|s| - 1]) + s[|s| - 1] as nat
  }

  lemma {:induction false} BeIs(x: nat, n: nat)
    requires x < Pow256(n)
    ensures UnBe(Be(x, n)) == x
  {
    if n > 0 {
      BeIs(x / 256, n - 1);
      assert Be(x, n)[..n - 1] == Be(x / 256, n - 1);
    }
  }

  /** High byte first. */
  lemma {:induction false} BeBytes(x: nat, n: nat, i: nat)
    requires i < n
    ensures Be(x, n)[i] as nat == x / Pow256(n - 1 - i) % 256
  {
    if i < n - 1 {
      BeBytes(x / 256, n - 1, i);
      DivTwice(x, Pow256(n - 2 - i));
    }
  }

  // ---------- the stream ----------

  /** Type 1, version 1, and zeroes up to the size of the header. */
  function StartHeader(): (s: Bytes)
    ensures |s| == HEADER_SIZE
  {
    SIGNATURE + Be(1, 8) + Be(1, 8) + Zeroes(HEADER_SIZE - 32)
  }

  /** The header: its name in letters, twice the number 1 with the high byte first, and zeroes. */
  lemma StartBytes(i: nat)
    requires i < HEADER_SIZE
    ensures StartHeader()[i] as int ==
            if i < 12 then "makedumpfile"[i] as int else if i == 23 || i == 31 then 1 else 0
  {
    if 16 <= i < 24 {
      OneBytes(i - 16);
    } else if 24 <= i < 32 {
      OneBytes(i - 24);
    }
  }

  lemma OneBytes(i: nat)
    requires i < 8
    ensures Be(1, 8)[i] == if i == 7 then 1 else 0
  {
    assert Be(1, 8) == Be(0, 7) + [1];
    ZeroBytes(7);
  }

  lemma {:induction false} ZeroBytes(n: nat)
    ensures Be(0, n) == Zeroes(n)
  {
    if n > 0 { ZeroBytes(n - 1); }
  }

  function FlatRecord(offset: nat, data: Bytes): (s: Bytes)
    ensures |s| == RECORD_HEADER + |data|
  {
    Be(offset, 8) + Be(|data|, 8) + data
  }

  /** A record: offset and size, high byte first, and the data. */
  lemma RecordBytes(offset: nat, data: Bytes, i: nat)
    requires i < RECORD_HEADER + |data|
    ensures FlatRecord(offset, data)[i] as nat ==
            if i < 8 then offset / Pow256(7 - i) % 256
            else if i < 16 then |data| / Pow256(15 - i) % 256
            else data[i - 16] as nat
  {
    hide Be, Pow256;
    if i < 8 {
      BeBytes(offset, 8, i);
    } else if i < 16 {
      BeBytes(|data|, 8, i - 8);
    }
  }

  /** END_FLAG_FLAT_HEADER, twice. */
  function EndHeader(): (s: Bytes)
    ensures |s| == RECORD_HEADER
  {
    Be(OFF_MAX, 8) + Be(OFF_MAX, 8)
  }

  lemma {:induction false} OnesBytes(n: nat, i: nat)
    requires i < n
    ensures Be(Pow256(n) - 1, n)[i] == 0xff
  {
    assert (Pow256(n) - 1) / 256 == Pow256(n - 1) - 1 && (Pow256(n) - 1) % 256 == 255;
    if i < n - 1 { OnesBytes(n - 1, i); }
  }

  /** Minus one, twice. */
  lemma EndBytes(i: nat)
    requires i < RECORD_HEADER
    ensures EndHeader()[i] == 0xff
  {
    Widths();
    hide Be, Pow256;
    OnesBytes(8, i % 8);
  }

  /** What a reader makes of the records, beginning with what it has of the file. */
  function Unflatten(s: Bytes, file: Bytes): (r: Option<Bytes>)
    decreases |s|
  {
    if |s| < RECORD_HEADER then None
    else
      var offset, size := UnBe(s[..8]), UnBe(s[8..16]);
      if offset == OFF_MAX && size == OFF_MAX then Some(file)
      else if |s| < RECORD_HEADER + size then None
      else Unflatten(s[RECORD_HEADER + size..], Store(file, offset, s[RECORD_HEADER..RECORD_HEADER + size]))
  }

  /** The file that a reader puts together from a whole stream. */
  function Rearranged(out: Bytes): (file: Option<Bytes>)
  {
    if |out| < HEADER_SIZE || out[..HEADER_SIZE] != StartHeader() then None
    else Unflatten(out[HEADER_SIZE..], [])
  }

  /** The stream so far makes up the file so far. */
  ghost predicate Flat(out: Bytes, file: Bytes)
  {
    && |out| >= HEADER_SIZE && out[..HEADER_SIZE] == StartHeader()
    && forall rest :: Unflatten(out[HEADER_SIZE..] + rest, []) == Unflatten(rest, file)
  }

  lemma FlatStart()
    ensures Flat(StartHeader(), [])
  {
    var out := StartHeader();
    forall rest
      ensures Unflatten(out[HEADER_SIZE..] + rest, []) == Unflatten(rest, [])
    {
      assert out[HEADER_SIZE..] + rest == rest;
    }
  }

  lemma FlatRecordRead(file: Bytes, offset: nat, data: Bytes, rest: Bytes)
    requires offset + |data| <= OFF_MAX
    ensures Unflatten(FlatRecord(offset, data) + rest, file) == Unflatten(rest, Store(file, offset, data))
  {
    Widths();
    BeIs(offset, 8);
    BeIs(|data|, 8);
    hide Be, UnBe, Store;
    var s := FlatRecord(offset, data) + rest;
    assert s[..8] == Be(offset, 8) && s[8..16] == Be(|data|, 8);
    assert s[RECORD_HEADER..RECORD_HEADER + |data|] == data && s[RECORD_HEADER + |data|..] == rest;
  }

  /** One more record is one more write to the file. */
  lemma FlatNext(out: Bytes, file: Bytes, offset: nat, data: Bytes)
    requires Flat(out, file) && offset + |data| <= OFF_MAX
    ensures Flat(out + FlatRecord(offset, data), Store(file, offset, data))
  {
    hide Store, FlatRecord, Unflatten, StartHeader;
    var record := FlatRecord(offset, data);
    var out' := out + record;
    assert out'[..HEADER_SIZE] == out[..HEADER_SIZE];
    forall rest
      ensures Unflatten(out'[HEADER_SIZE..] + rest, []) == Unflatten(rest, Store(file, offset, data))
    {
      assert out'[HEADER_SIZE..] + rest == out[HEADER_SIZE..] + (record + rest);
      FlatRecordRead(file, offset, data, rest);
    }
  }

  lemma EndRead(file: Bytes)
    ensures Unflatten(EndHeader(), file) == Some(file)
  {
    Widths();
    BeIs(OFF_MAX, 8);
    hide Be, UnBe, Pow256;
    var s := EndHeader();
    assert s[..8] == Be(OFF_MAX, 8) && s[8..16] == Be(OFF_MAX, 8);
  }

  /** A stream that has come to its end reads back as the file. */
  lemma FlatEnd(out: Bytes, file: Bytes)
    requires Flat(out, file)
    ensures Rearranged(out + EndHeader()) == Some(file)
  {
    hide Unflatten, StartHeader, EndHeader;
    var end := EndHeader();
    var out' := out + end;
    assert out'[..HEADER_SIZE] == out[..HEADER_SIZE];
    assert out'[HEADER_SIZE..] == out[HEADER_SIZE..] + end;
    EndRead(file);
  }
}
