/**
 XBZRLE, the delta code of RAM migration: a changed page is sent as alternating runs of
 unchanged bytes (a length) and changed bytes (a length and the bytes).  The specification
 is the run-by-run code of a pair of pages; the encoder finds the runs a word at a time.
 */
module Xbzrle {
  import opened Basics

  const MAX_RUN := 0x3fff
  const LONG := 8

  // ---------- two-byte ULEB128 lengths ----------

  function Uleb(n: nat): (s: Bytes)
    requires n <= MAX_RUN
    ensures 1 <= |s| <= 2
  {
    if n < 0x80 then [n as byte] else [(n % 0x80 + 0x80) as byte, (n / 0x80) as byte]
  }

  /** The bytes of a length: seven bits, low ones first, with the top bit set if more follow. */
  lemma UlebBytes(n: nat)
    requires n <= MAX_RUN
    ensures if n < 0x80 then Uleb(n) == [n as byte]
            else |Uleb(n)| == 2 && n == (Uleb(n)[0] as nat - 0x80) + 0x80 * Uleb(n)[1] as nat
                 && 0x80 <= Uleb(n)[0] as nat < 0x100 && Uleb(n)[1] as nat < 0x80
  {
  }

  /** Number of bytes used and the length read, or None above 14 bits. */
  function UlebRead(src: Bytes): (r: Option<(nat, nat)>)
    requires |src| >= 2
    ensures r.Some? ==> 1 <= r.value.0 <= 2
  {
    var a, b := src[0] as int, src[1] as int;
    if a < 0x80 then Some((1, a)) else if b >= 0x80 then None else Some((2, a - 0x80 + b * 0x80))
  }

  lemma UlebReadBack(n: nat, rest: Bytes)
    requires n <= MAX_RUN && rest != []
    ensures UlebRead(Uleb(n) + rest) == Some((|Uleb(n)|, n))
  {
  }

  // ---------- runs ----------

  /** End of the run of equal (same) or differing (!same) bytes that starts at i. */
  function RunEnd(a: Bytes, b: Bytes, i: nat, same: bool): (j: nat)
    requires |a| == |b| && i <= |a|
    ensures i <= j <= |a|
    ensures j < |a| ==> (a[j] == b[j]) != same
    ensures forall k :: i <= k < j ==> (a[k] == b[k]) == same
    decreases |a| - i
  {
    if i == |a| || (a[i] == b[i]) != same then i else RunEnd(a, b, i + 1, same)
  }

  lemma {:induction false} RunEndIs(a: Bytes, b: Bytes, i: nat, same: bool, j: nat)
    requires |a| == |b| && i <= j <= |a|
    requires forall k :: i <= k < j ==> (a[k] == b[k]) == same
    requires j < |a| ==> (a[j] == b[j]) != same
    ensures RunEnd(a, b, i, same) == j
    decreases j - i
  {
    if i < j { RunEndIs(a, b, i + 1, same, j); }
  }

  /** `skip` unchanged bytes, then the changed bytes `data`. */
  datatype Run = Run(skip: nat, data: Bytes)

  /** The runs of a pair of pages, from position k on; a last run of unchanged bytes is left out. */
  function RunsOf(old_: Bytes, new_: Bytes, k: nat): (s: seq<Run>)
    requires |old_| == |new_| && k <= |old_|
    ensures |old_| <= MAX_RUN ==> RunsOk(s, true)
    ensures |old_| <= MAX_RUN && (k < |old_| ==> old_[k] == new_[k]) ==> RunsOk(s, false)
    decreases |old_| - k
  {
    var z := RunEnd(old_, new_, k, true);
    if z == |old_| then []
    else
      var e := RunEnd(old_, new_, z, false);
      [Run(z - k, new_[z..e])] + RunsOf(old_, new_, e)
  }

  lemma RunsCons(old_: Bytes, new_: Bytes, k: nat, z: nat, e: nat)
    requires |old_| == |new_| && k <= z < e <= |old_|
    requires z == RunEnd(old_, new_, k, true) && e == RunEnd(old_, new_, z, false)
    ensures RunsOf(old_, new_, k) == [Run(z - k, new_[z..e])] + RunsOf(old_, new_, e)
  {
  }

  function Put(r: Run): (s: Bytes)
    requires r.skip <= MAX_RUN && |r.data| <= MAX_RUN
  {
    Uleb(r.skip) + Uleb(|r.data|) + r.data
  }

  predicate RunsOk(runs: seq<Run>, first: bool)
  {
    forall i :: 0 <= i < |runs| ==>
      runs[i].skip <= MAX_RUN && 0 < |runs[i].data| <= MAX_RUN && (i > 0 || !first ==> runs[i].skip > 0)
  }

  function Flat(runs: seq<Run>): (s: Bytes)
    requires RunsOk(runs, true)
  {
    if runs == [] then [] else Put(runs[0]) + Flat(runs[1..])
  }

  /** The runs written out behind dst. */
  function WriteRuns(dst: Bytes, runs: seq<Run>): (s: Bytes)
    requires RunsOk(runs, true)
    ensures |dst| <= |s|
    decreases runs
  {
    if runs == [] then dst else WriteRuns(dst + Uleb(runs[0].skip) + Uleb(|runs[0].data|) + runs[0].data, runs[1..])
  }

  lemma {:induction false} WriteRunsIsFlat(dst: Bytes, runs: seq<Run>)
    requires RunsOk(runs, true)
    ensures WriteRuns(dst, runs) == dst + Flat(runs)
    decreases runs
  {
    if runs != [] {
      var r := runs[0];
      Regroup(dst, Uleb(r.skip), Uleb(|r.data|), r.data, Flat(runs[1..]));
      WriteRunsIsFlat(dst + Uleb(r.skip) + Uleb(|r.data|) + r.data, runs[1..]);
    }
  }

  lemma Regroup(a: Bytes, b: Bytes, c: Bytes, d: Bytes, e: Bytes)
    ensures a + (b + c + d + e) == a + b + c + d + e
  {
  }

  /** The XBZRLE code of a page against an old one. */
  function Code(old_: Bytes, new_: Bytes): (s: Bytes)
    requires |old_| == |new_| <= MAX_RUN
  {
    WriteRuns([], RunsOf(old_, new_, 0))
  }

  // ---------- the meaning of a code ----------

  /** The run at the start of src and the number of bytes it takes. */
  function GetRun(src: Bytes, first: bool): (r: Option<(Run, nat)>)
    ensures r.Some? ==> 0 < r.value.1 <= |src|
  {
    if |src| < 2 then None
    else
      match UlebRead(src)
      case None => None
      case Some((n, z)) =>
        if (!first && z == 0) || |src| < n + 2 then None
        else
          match UlebRead(src[n..])
          case None => None
          case Some((m, c)) => if c == 0 || n + m + c > |src| then None
                               else Some((Run(z, src[n + m..n + m + c]), n + m + c))
  }

  function Parse(src: Bytes, first: bool): (r: Option<seq<Run>>)
    decreases |src|
  {
    if src == [] then Some([])
    else
      match GetRun(src, first)
      case None => None
      case Some((run, used)) =>
        match Parse(src[used..], false)
        case None => None
        case Some(rest) => Some([run] + rest)
  }

  /** dst with data written over it at position d. */
  function Patch(dst: Bytes, d: nat, data: Bytes): (s: Bytes)
    requires d + |data| <= |dst|
    ensures |s| == |dst|
  {
    dst[..d] + data + dst[d + |data|..]
  }

  /** Writes the changed bytes of the runs over a page, from position d on. */
  function Play(runs: seq<Run>, dst: Bytes, d: nat): (r: Option<Bytes>)
    decreases runs
  {
    if runs == [] then Some(dst)
    else
      var at, data := d + runs[0].skip, runs[0].data;
      if at + |data| > |dst| then None else Play(runs[1..], Patch(dst, at, data), at + |data|)
  }

  /** What decoding src over a page gives, or None for an ill-formed code. */
  function Apply(src: Bytes, first: bool, dst: Bytes, d: nat): (r: Option<Bytes>)
  {
    match Parse(src, first)
    case None => None
    case Some(runs) => Play(runs, dst, d)
  }

  lemma GetPut(r: Run, rest: Bytes, first: bool)
    requires r.skip <= MAX_RUN && 0 < |r.data| <= MAX_RUN && (!first ==> r.skip > 0)
    ensures GetRun(Put(r) + rest, first) == Some((r, |Put(r)|))
    ensures (Put(r) + rest)[|Put(r)|..] == rest
  {
    var uz, ud := Uleb(r.skip), Uleb(|r.data|);
    var src := Put(r) + rest;
    var tail := ud + (r.data + rest);
    assert src == uz + tail;
    UlebReadBack(r.skip, tail);
    UlebReadBack(|r.data|, r.data + rest);
    assert src[|uz|..] == tail;
    assert src[|uz| + |ud|..|uz| + |ud| + |r.data|] == r.data;
  }

  lemma ParseOne(src: Bytes, first: bool, run: Run, used: nat, rest: Bytes)
    requires src != [] && GetRun(src, first) == Some((run, used)) && src[used..] == rest
    ensures Parse(src, first) == if Parse(rest, false).None? then None else Some([run] + Parse(rest, false).value)
  {
  }

  lemma ParsePut(r: Run, rest: Bytes, first: bool)
    requires r.skip <= MAX_RUN && 0 < |r.data| <= MAX_RUN && (!first ==> r.skip > 0)
    ensures Parse(Put(r) + rest, first) == if Parse(rest, false).None? then None
                                           else Some([r] + Parse(rest, false).value)
  {
    GetPut(r, rest, first);
    ParseOne(Put(r) + rest, first, r, |Put(r)|, rest);
  }

  lemma {:induction false} ParseFlat(runs: seq<Run>, first: bool)
    requires RunsOk(runs, true) && RunsOk(runs, first)
    ensures Parse(Flat(runs), first) == Some(runs)
    decreases runs
  {
    if runs != [] {
      ParsePut(runs[0], Flat(runs[1..]), first);
      ParseFlat(runs[1..], false);
      assert [runs[0]] + runs[1..] == runs;
    }
  }

  /** The page while positions below k are done: new up to k, old from there. */
  function Partial(old_: Bytes, new_: Bytes, k: nat): (s: Bytes)
    requires |old_| == |new_| && k <= |old_|
    ensures |s| == |old_|
  {
    new_[..k] + old_[k..]
  }

  lemma PartialNext(old_: Bytes, new_: Bytes, k: nat, z: nat, e: nat)
    requires |old_| == |new_| && k <= z <= e <= |old_|
    requires forall i :: k <= i < z ==> old_[i] == new_[i]
    ensures Patch(Partial(old_, new_, k), z, new_[z..e]) == Partial(old_, new_, e)
  {
    var dst := Partial(old_, new_, k);
    assert dst[..z] == new_[..z];
    assert dst[e..] == old_[e..];
    assert new_[..z] + new_[z..e] == new_[..e];
  }

  lemma PlayOne(r: Run, rest: seq<Run>, dst: Bytes, d: nat)
    requires d + r.skip + |r.data| <= |dst|
    ensures Play([r] + rest, dst, d) == Play(rest, Patch(dst, d + r.skip, r.data), d + r.skip + |r.data|)
  {
    assert ([r] + rest)[1..] == rest;
  }

  lemma {:induction false} PlayRuns(old_: Bytes, new_: Bytes, k: nat)
    requires |old_| == |new_| && k <= |old_|
    ensures Play(RunsOf(old_, new_, k), Partial(old_, new_, k), k) == Some(new_)
    decreases |old_| - k
  {
    var z := RunEnd(old_, new_, k, true);
    if z == |old_| {
      assert Partial(old_, new_, k) == new_;
    } else {
      var e := RunEnd(old_, new_, z, false);
      PartialNext(old_, new_, k, z, e);
      RunsCons(old_, new_, k, z, e);
      PlayOne(Run(z - k, new_[z..e]), RunsOf(old_, new_, e), Partial(old_, new_, k), k);
      PlayRuns(old_, new_, e);
    }
  }

  lemma CodeParses(old_: Bytes, new_: Bytes)
    requires |old_| == |new_| <= MAX_RUN
    ensures Parse(Code(old_, new_), true) == Some(RunsOf(old_, new_, 0))
  {
    var runs := RunsOf(old_, new_, 0);
    WriteRunsIsFlat([], runs);
    assert [] + Flat(runs) == Flat(runs);
    ParseFlat(runs, true);
  }

  /** The code is empty just when the page has not changed. */
  lemma CodeEmpty(old_: Bytes, new_: Bytes)
    requires |old_| == |new_| <= MAX_RUN
    ensures Code(old_, new_) == [] <==> old_ == new_
  {
    var z := RunEnd(old_, new_, 0, true);
    if z == |old_| { assert old_ == new_; } else { assert old_[z] != new_[z]; }
  }

  /** Decoding what was encoded against the old page gives the new page. */
  lemma RoundTrip(old_: Bytes, new_: Bytes)
    requires |old_| == |new_| <= MAX_RUN
    ensures Apply(Code(old_, new_), true, old_, 0) == Some(new_)
  {
    CodeParses(old_, new_);
    PlayRuns(old_, new_, 0);
    assert Partial(old_, new_, 0) == old_;
  }

  // ---------- the word-at-a-time tests ----------

  function Nibble(n: nat): bv8
    requires n < 16
  {
    (if n >= 8 then 8 else 0) | (if n % 8 >= 4 then 4 else 0) | (if n % 4 >= 2 then 2 else 0)
    | (if n % 2 == 1 then 1 else 0)
  }

  /** The bits of a byte. */
  function Bits(b: byte): bv8
  {
    (Nibble(b as int / 16) << 4) | Nibble(b as int % 16)
  }

  /** Bit i is digit i of the binary number. */
  lemma NibbleBits(n: nat)
    requires n < 16
    ensures Nibble(n) & 1 != 0 <==> n % 2 == 1
    ensures Nibble(n) & 2 != 0 <==> n / 2 % 2 == 1
    ensures Nibble(n) & 4 != 0 <==> n / 4 % 2 == 1
    ensures Nibble(n) & 8 != 0 <==> n / 8 % 2 == 1
  {
  }

  lemma NibbleInjective(a: nat, b: nat)
    requires a < 16 && b < 16
    ensures Nibble(a) == Nibble(b) <==> a == b
    ensures Nibble(a) <= 15
  {
  }

  lemma BitsInjective(a: byte, b: byte)
    ensures Bits(a) == Bits(b) <==> a == b
  {
    NibbleInjective(a as int / 16, b as int / 16);
    NibbleInjective(a as int % 16, b as int % 16);
    NibbleInjective(b as int / 16, a as int / 16);
    NibbleInjective(b as int % 16, a as int % 16);
    JoinInjective(Nibble(a as int / 16), Nibble(a as int % 16), Nibble(b as int / 16), Nibble(b as int % 16));
  }

  lemma JoinInjective(x: bv8, y: bv8, u: bv8, v: bv8)
    requires x <= 15 && y <= 15 && u <= 15 && v <= 15
    ensures (x << 4) | y == (u << 4) | v ==> x == u && y == v
  {
  }

  /** Eight bytes as one little-endian machine word. */
  function Compose(x0: bv8, x1: bv8, x2: bv8, x3: bv8, x4: bv8, x5: bv8, x6: bv8, x7: bv8): bv64
  {
    (x0 as bv64) | ((x1 as bv64) << 8) | ((x2 as bv64) << 16) | ((x3 as bv64) << 24) |
    ((x4 as bv64) << 32) | ((x5 as bv64) << 40) | ((x6 as bv64) << 48) | ((x7 as bv64) << 56)
  }

  function Word(a: Bytes, i: nat): bv64
    requires i + LONG <= |a|
  {
    Compose(Bits(a[i]), Bits(a[i + 1]), Bits(a[i + 2]), Bits(a[i + 3]),
            Bits(a[i + 4]), Bits(a[i + 5]), Bits(a[i + 6]), Bits(a[i + 7]))
  }

  /** The test that the encoder applies to the exclusive-or of two words. */
  predicate HasZeroByte(x: bv64)
  {
    (x - 0x0101010101010101) & !x & (0x0101010101010101 << 7) != 0
  }

  lemma ComposeInjective(x0: bv8, x1: bv8, x2: bv8, x3: bv8, x4: bv8, x5: bv8, x6: bv8, x7: bv8,
                         y0: bv8, y1: bv8, y2: bv8, y3: bv8, y4: bv8, y5: bv8, y6: bv8, y7: bv8)
    ensures Compose(x0, x1, x2, x3, x4, x5, x6, x7) == Compose(y0, y1, y2, y3, y4, y5, y6, y7) <==>
            x0 == y0 && x1 == y1 && x2 == y2 && x3 == y3 && x4 == y4 && x5 == y5 && x6 == y6 && x7 == y7
  {
  }

  lemma ComposeXor(x0: bv8, x1: bv8, x2: bv8, x3: bv8, x4: bv8, x5: bv8, x6: bv8, x7: bv8,
                   y0: bv8, y1: bv8, y2: bv8, y3: bv8, y4: bv8, y5: bv8, y6: bv8, y7: bv8)
    ensures Compose(x0, x1, x2, x3, x4, x5, x6, x7) ^ Compose(y0, y1, y2, y3, y4, y5, y6, y7) ==
            Compose(x0 ^ y0, x1 ^ y1, x2 ^ y2, x3 ^ y3, x4 ^ y4, x5 ^ y5, x6 ^ y6, x7 ^ y7)
  {
  }

  lemma ZeroByteExact(x0: bv8, x1: bv8, x2: bv8, x3: bv8, x4: bv8, x5: bv8, x6: bv8, x7: bv8)
    ensures HasZeroByte(Compose(x0, x1, x2, x3, x4, x5, x6, x7)) <==>
            x0 == 0 || x1 == 0 || x2 == 0 || x3 == 0 || x4 == 0 || x5 == 0 || x6 == 0 || x7 == 0
  {
  }

  lemma XorZero(x: bv8, y: bv8)
    ensures x ^ y == 0 <==> x == y
  {
  }

  /** The zero-byte test is exact, no matter how the borrows of the subtraction run: on the
      exclusive-or of two words it fires just when some byte is equal in both. */
  lemma EqualByteExact(x0: bv8, x1: bv8, x2: bv8, x3: bv8, x4: bv8, x5: bv8, x6: bv8, x7: bv8,
                       y0: bv8, y1: bv8, y2: bv8, y3: bv8, y4: bv8, y5: bv8, y6: bv8, y7: bv8)
    ensures HasZeroByte(Compose(x0, x1, x2, x3, x4, x5, x6, x7) ^ Compose(y0, y1, y2, y3, y4, y5, y6, y7)) <==>
            x0 == y0 || x1 == y1 || x2 == y2 || x3 == y3 || x4 == y4 || x5 == y5 || x6 == y6 || x7 == y7
  {
    ComposeXor(x0, x1, x2, x3, x4, x5, x6, x7, y0, y1, y2, y3, y4, y5, y6, y7);
    ZeroByteExact(x0 ^ y0, x1 ^ y1, x2 ^ y2, x3 ^ y3, x4 ^ y4, x5 ^ y5, x6 ^ y6, x7 ^ y7);
    XorZero(x0, y0);
    XorZero(x1, y1);
    XorZero(x2, y2);
    XorZero(x3, y3);
    XorZero(x4, y4);
    XorZero(x5, y5);
    XorZero(x6, y6);
    XorZero(x7, y7);
  }

  lemma BitsInjectiveAt(a: Bytes, b: Bytes, i: nat)
    requires i + LONG <= |a| == |b|
    ensures forall k :: i <= k < i + LONG ==> (Bits(a[k]) == Bits(b[k]) <==> a[k] == b[k])
  {
    forall k | i <= k < i + LONG
      ensures Bits(a[k]) == Bits(b[k]) <==> a[k] == b[k]
    {
      BitsInjective(a[k], b[k]);
    }
  }

  method SameWord(a: Bytes, b: Bytes, i: nat) returns (same: bool)
    requires i + LONG <= |a| == |b|
    ensures same <==> forall k :: i <= k < i + LONG ==> a[k] == b[k]
  {
    same := Word(a, i) == Word(b, i);
    ComposeInjective(
      Bits(a[i]), Bits(a[i + 1]), Bits(a[i + 2]), Bits(a[i + 3]),
      Bits(a[i + 4]), Bits(a[i + 5]), Bits(a[i + 6]), Bits(a[i + 7]),
      Bits(b[i]), Bits(b[i + 1]), Bits(b[i + 2]), Bits(b[i + 3]),
      Bits(b[i + 4]), Bits(b[i + 5]), Bits(b[i + 6]), Bits(b[i + 7]));
    BitsInjectiveAt(a, b, i);
    assert same <==>
      && a[i] == b[i] && a[i + 1] == b[i + 1] && a[i + 2] == b[i + 2] && a[i + 3] == b[i + 3]
      && a[i + 4] == b[i + 4] && a[i + 5] == b[i + 5] && a[i + 6] == b[i + 6] && a[i + 7] == b[i + 7];
  }

  method EqualByteTest(x0: bv8, x1: bv8, x2: bv8, x3: bv8, x4: bv8, x5: bv8, x6: bv8, x7: bv8,
                       y0: bv8, y1: bv8, y2: bv8, y3: bv8, y4: bv8, y5: bv8, y6: bv8, y7: bv8) returns (some: bool)
    ensures some <==> x0 == y0 || x1 == y1 || x2 == y2 || x3 == y3 || x4 == y4 || x5 == y5 || x6 == y6 || x7 == y7
  {
    some := HasZeroByte(Compose(x0, x1, x2, x3, x4, x5, x6, x7) ^ Compose(y0, y1, y2, y3, y4, y5, y6, y7));
    EqualByteExact(x0, x1, x2, x3, x4, x5, x6, x7, y0, y1, y2, y3, y4, y5, y6, y7);
  }

  method SomeSameByte(a: Bytes, b: Bytes, i: nat) returns (some: bool)
    requires i + LONG <= |a| == |b|
    ensures some <==> exists k :: i <= k < i + LONG && a[k] == b[k]
  {
    some := EqualByteTest(
      Bits(a[i]), Bits(a[i + 1]), Bits(a[i + 2]), Bits(a[i + 3]),
      Bits(a[i + 4]), Bits(a[i + 5]), Bits(a[i + 6]), Bits(a[i + 7]),
      Bits(b[i]), Bits(b[i + 1]), Bits(b[i + 2]), Bits(b[i + 3]),
      Bits(b[i + 4]), Bits(b[i + 5]), Bits(b[i + 6]), Bits(b[i + 7]));
    BitsInjectiveAt(a, b, i);
    assert some <==>
      || a[i] == b[i] || a[i + 1] == b[i + 1] || a[i + 2] == b[i + 2] || a[i + 3] == b[i + 3]
      || a[i + 4] == b[i + 4] || a[i + 5] == b[i + 5] || a[i + 6] == b[i + 6] || a[i + 7] == b[i + 7];
  }

  // ---------- the encoder and the decoder ----------

  /** Skips unchanged bytes: singly to a word boundary, then by words, then singly. */
  method ScanSame(old_: Bytes, new_: Bytes, start: nat) returns (i: nat)
    requires |old_| == |new_| && |old_| % LONG == 0 && start <= |old_|
    ensures i == RunEnd(old_, new_, start, true)
  {
    var slen := |old_|;
    i := start;
    var res := (slen - i) % LONG;
    while res > 0 && old_[i] == new_[i]
      invariant start <= i <= slen && 0 <= res < LONG && (slen - i - res) % LONG == 0 && i + res <= slen
      invariant forall k :: start <= k < i ==> old_[k] == new_[k]
    {
      i, res := i + 1, res - 1;
    }
    if res == 0 {
      while i < slen
        invariant start <= i <= slen && (slen - i) % LONG == 0
        invariant forall k :: start <= k < i ==> old_[k] == new_[k]
      {
        var same := SameWord(old_, new_, i);
        if !same { break; }
        i := i + LONG;
      }
      while i < slen && old_[i] == new_[i]
        invariant start <= i <= slen
        invariant forall k :: start <= k < i ==> old_[k] == new_[k]
      {
        i := i + 1;
      }
    }
    RunEndIs(old_, new_, start, true, i);
  }

  /** Skips changed bytes: singly to a word boundary, then by words up to one that holds an
      unchanged byte. */
  method ScanChanged(old_: Bytes, new_: Bytes, start: nat) returns (i: nat)
    requires |old_| == |new_| && |old_| % LONG == 0 && start <= |old_|
    ensures i == RunEnd(old_, new_, start, false)
  {
    var slen := |old_|;
    i := start;
    var res := (slen - i) % LONG;
    while res > 0 && old_[i] != new_[i]
      invariant start <= i <= slen && 0 <= res < LONG && (slen - i - res) % LONG == 0 && i + res <= slen
      invariant forall k :: start <= k < i ==> old_[k] != new_[k]
    {
      i, res := i + 1, res - 1;
    }
    if res == 0 {
      var found := false;
      while i < slen && !found
        invariant start <= i <= slen && (found || (slen - i) % LONG == 0)
        invariant forall k :: start <= k < i ==> old_[k] != new_[k]
        invariant found ==> i < slen && old_[i] == new_[i]
        decreases slen - i, !found
      {
        found := SomeSameByte(old_, new_, i);
        if found {
          while old_[i] != new_[i]
            invariant start <= i < slen
            invariant forall k :: start <= k < i ==> old_[k] != new_[k]
            invariant exists k :: i <= k < slen && old_[k] == new_[k]
            decreases slen - i
          {
            i := i + 1;
          }
        } else {
          i := i + LONG;
        }
      }
    }
    RunEndIs(old_, new_, start, false, i);
  }

  /** dst holds the code up to where the runs from position k on begin. */
  ghost predicate Written(dst: Bytes, old_: Bytes, new_: Bytes, k: nat, whole: Bytes)
    requires |old_| == |new_| && k <= |old_|
  {
    var runs := RunsOf(old_, new_, k);
    RunsOk(runs, true) && WriteRuns(dst, runs) == whole
  }

  lemma WrittenNext(dst: Bytes, old_: Bytes, new_: Bytes, k: nat, z: nat, e: nat, whole: Bytes)
    requires |old_| == |new_| <= MAX_RUN && k <= z < e <= |old_|
    requires z == RunEnd(old_, new_, k, true) && e == RunEnd(old_, new_, z, false)
    requires Written(dst, old_, new_, k, whole)
    ensures Written(dst + Uleb(z - k) + Uleb(e - z) + new_[z..e], old_, new_, e, whole)
  {
    RunsCons(old_, new_, k, z, e);
    assert RunsOf(old_, new_, k)[1..] == RunsOf(old_, new_, e);
  }

  lemma WrittenFits(dst: Bytes, old_: Bytes, new_: Bytes, k: nat, whole: Bytes)
    requires |old_| == |new_| && k <= |old_| && Written(dst, old_, new_, k, whole)
    ensures |dst| <= |whole|
    ensures if RunEnd(old_, new_, k, true) == |old_| then dst == whole else |dst| + 3 <= |whole|
  {
  }

  /** Writes the run that has just been found behind dst; ok is false on overflow. */
  method PutRun(old_: Bytes, new_: Bytes, i: nat, z: nat, dst: Bytes, dlen: nat) returns (ok: bool, e: nat, next: Bytes)
    requires |old_| == |new_| <= MAX_RUN && |old_| % LONG == 0 && i <= z < |old_| && old_[z] != new_[z]
    ensures e == RunEnd(old_, new_, z, false) && z <= e <= |old_|
    ensures next == dst + Uleb(z - i) + Uleb(e - z) + new_[z..e]
    ensures ok <==> |next| <= dlen
  {
    e := ScanChanged(old_, new_, z);
    next := dst + Uleb(z - i);
    ok := |next| + 2 <= dlen;
    next := next + Uleb(e - z);
    ok := ok && |next| + (e - z) <= dlen;
    next := next + new_[z..e];
  }

  /** The encoder gives up if the code does not fit.  It also wants two bytes to spare if the last byte of
      the page is unchanged, although it has nothing more to write then. */
  predicate Overflows(old_: Bytes, new_: Bytes, dlen: nat)
    requires |old_| == |new_| <= MAX_RUN
  {
    var n, size := |old_|, |Code(old_, new_)|;
    size > dlen || (size + 2 > dlen && n > 0 && old_[n - 1] == new_[n - 1])
  }

  /** xbzrle_encode_buffer: None is its overflow result. */
  method Encode(old_: Bytes, new_: Bytes, dlen: nat) returns (r: Option<Bytes>)
    requires |old_| == |new_| <= MAX_RUN && |old_| % LONG == 0
    ensures r == if Overflows(old_, new_, dlen) then None else Some(Code(old_, new_))
  {
    var slen := |old_|;
    var i: nat, dst: Bytes := 0, [];
    ghost var whole := Code(old_, new_);
    while i < slen
      invariant i <= slen && |dst| <= dlen && (i > 0 ==> old_[i - 1] != new_[i - 1])
      invariant Written(dst, old_, new_, i, whole)
    {
      WrittenFits(dst, old_, new_, i, whole);
      if |dst| + 2 > dlen { return None; }
      var z := ScanSame(old_, new_, i);
      if z - i == slen { CodeEmpty(old_, new_); return Some([]); }
      if z == slen { return Some(dst); }
      var ok, e, next := PutRun(old_, new_, i, z, dst, dlen);
      WrittenNext(dst, old_, new_, i, z, e, whole);
      WrittenFits(next, old_, new_, e, whole);
      if !ok { return None; }
      i, dst := e, next;
    }
    WrittenFits(dst, old_, new_, i, whole);
    r := Some(dst);
  }

  /** Reads one run; the caller checks it against the page. */
  method ReadRun(src: Bytes, first: bool) returns (r: Option<(Run, nat)>)
    ensures r == GetRun(src, first)
  {
    if |src| < 2 { return None; }
    var z := UlebRead(src);
    if z.None? || (!first && z.value.1 == 0) { return None; }
    var i := z.value.0;
    if |src| - i < 2 { return None; }
    var c := UlebRead(src[i..]);
    if c.None? || c.value.1 == 0 { return None; }
    i := i + c.value.0;
    if i + c.value.1 > |src| { return None; }
    r := Some((Run(z.value.1, src[i..i + c.value.1]), i + c.value.1));
  }

  /** xbzrle_decode_buffer: the page is changed run by run; None is its error result. */
  method Decode(src: Bytes, page: Bytes) returns (r: Option<Bytes>)
    ensures r == Apply(src, true, page, 0)
  {
    var s, d: nat, dst, first := src, 0, page, true;
    ghost var target := Apply(src, true, page, 0);
    while s != []
      invariant Apply(s, first, dst, d) == target
      decreases |s|
    {
      var g := ReadRun(s, first);
      if g.None? { return None; }
      var (run, used) := g.value;
      ParseOne(s, first, run, used, s[used..]);
      d := d + run.skip;
      if d + |run.data| > |dst| { return None; }
      dst, d := Patch(dst, d, run.data), d + |run.data|;
      s, first := s[used..], false;
    }
    r := Some(dst);
  }
}
