/**
 Merging of write requests: sorted by start, neighbours that touch or overlap become one request
 over a scatter list made of pieces of both.
 */
module MultiWrite {
  import opened Basics
  import opened Storage

  const SECTOR := 512
  const IOV_MAX := 1024

  /** A scatter list; an entry is its bytes. */
  type Iov = seq<Bytes>

  datatype Request = Request(sector: nat, sectors: nat, iov: Iov)

  function Flat(iov: Iov): (s: Bytes)
  {
    if iov == [] then [] else iov[0] + Flat(iov[1..])
  }

  predicate RequestOk(r: Request)
  {
    |Flat(r.iov)| == r.sectors * SECTOR
  }

  predicate AllOk(reqs: seq<Request>)
  {
    forall i :: 0 <= i < |reqs| ==> RequestOk(reqs[i])
  }

  predicate Ascending(reqs: seq<Request>)
  {
    forall i, j :: 0 <= i < j < |reqs| ==> reqs[i].sector <= reqs[j].sector
  }

  /** The disk after the requests have been written in order. */
  function Apply(disk: Bytes, reqs: seq<Request>): (disk': Bytes)
  {
    if reqs == [] then disk
    else
      var last := reqs[|reqs| - 1];
      Store(Apply(disk, reqs[..|reqs| - 1]), last.sector * SECTOR, Flat(last.iov))
  }

  lemma ApplySnoc(disk: Bytes, reqs: seq<Request>, r: Request)
    ensures Apply(disk, reqs + [r]) == Store(Apply(disk, reqs), r.sector * SECTOR, Flat(r.iov))
  {
    assert (reqs + [r])[..|reqs|] == reqs;
  }

  // ---------- pieces of scatter lists ----------

  function Min(a: nat, b: nat): (m: nat)
  {
    if a < b then a else b
  }

  /** The entries that qemu_iovec_concat takes over: up to n bytes from offset on. */
  function Taken(iov: Iov, offset: nat, n: nat): (piece: Iov)
  {
    if n == 0 || iov == [] then []
    else if offset < |iov[0]| then
      var len := Min(|iov[0]| - offset, n);
      [iov[0][offset..offset + len]] + Taken(iov[1..], 0, n - len)
    else Taken(iov[1..], offset - |iov[0]|, n)
  }

  lemma {:induction false} TakenIs(iov: Iov, offset: nat, n: nat)
    requires offset + n <= |Flat(iov)|
    ensures Flat(Taken(iov, offset, n)) == Flat(iov)[offset..offset + n]
  {
    if n > 0 && iov != [] {
      var first, rest := iov[0], Flat(iov[1..]);
      assert Flat(iov) == first + rest;
      if offset < |first| {
        var len := Min(|first| - offset, n);
        var more := Taken(iov[1..], 0, n - len);
        assert Taken(iov, offset, n) == [first[offset..offset + len]] + more;
        TakenIs(iov[1..], 0, n - len);
        hide Taken, Flat;
        FlatCons(first[offset..offset + len], more);
        SliceFirst(first, rest, offset, len, n);
      } else {
        TakenIs(iov[1..], offset - |first|, n);
        hide Flat;
        assert (first + rest)[offset..offset + n] == rest[offset - |first|..offset - |first| + n];
      }
    }
  }

  lemma FlatCons(b: Bytes, iov: Iov)
    ensures Flat([b] + iov) == b + Flat(iov)
  {
    assert ([b] + iov)[1..] == iov;
  }

  lemma SliceFirst(a: Bytes, b: Bytes, offset: nat, len: nat, n: nat)
    requires offset < |a| && len == Min(|a| - offset, n) && offset + n <= |a| + |b|
    ensures a[offset..offset + len] + b[..n - len] == (a + b)[offset..offset + n]
  {
  }

  lemma {:induction false} FlatAdd(a: Iov, b: Iov)
    ensures Flat(a + b) == Flat(a) + Flat(b)
  {
    if a == [] {
      assert a + b == b;
    } else {
      FlatAdd(a[1..], b);
      assert (a + b)[1..] == a[1..] + b && (a + b)[0] == a[0];
      assert a[0] + (Flat(a[1..]) + Flat(b)) == (a[0] + Flat(a[1..])) + Flat(b);
    }
  }

  /** Cutting a scatter list in two takes at most one more entry. */
  lemma {:induction false} TakenCount(iov: Iov, cut: nat, from: nat, n: nat)
    requires cut <= from
    ensures |Taken(iov, 0, cut)| + |Taken(iov, from, n)| <= |iov| + 1
  {
    if iov != [] {
      var len := |iov[0]|;
      if cut == 0 {
        TakenShort(iov, from, n);
      } else if cut <= len {
        assert |Taken(iov, 0, cut)| <= 1 + |Taken(iov[1..], 0, 0)|;
        TakenShort(iov, from, n);
      } else {
        TakenCount(iov[1..], cut - len, from - len, n);
      }
    }
  }

  lemma {:induction false} TakenShort(iov: Iov, from: nat, n: nat)
    ensures |Taken(iov, from, n)| <= |iov|
  {
    if iov != [] && n > 0 {
      if from < |iov[0]| {
        TakenShort(iov[1..], 0, n - Min(|iov[0]| - from, n));
      } else {
        TakenShort(iov[1..], from - |iov[0]|, n);
      }
    }
  }

  /** qemu_iovec_concat, with its assertion that the offset lies within the source. */
  method Concat(dst: Iov, src: Iov, offset: nat, n: nat) returns (dst': Iov)
    requires offset <= |Flat(src)|
    ensures dst' == dst + Taken(src, offset, n)
  {
    dst' := dst;
    if n == 0 { return; }
    var i, done, skip := 0, 0, offset;
    assert src[i..] == src;
    while done < n && i < |src|
      invariant 0 <= i <= |src| && 0 <= done <= n && 0 <= skip <= |Flat(src[i..])|
      invariant dst' + Taken(src[i..], skip, n - done) == dst + Taken(src, offset, n)
      invariant done > 0 ==> skip == 0
    {
      assert src[i..][1..] == src[i + 1..];
      if skip < |src[i]| {
        var len := Min(|src[i]| - skip, n - done);
        dst' := dst' + [src[i][skip..skip + len]];
        done := done + len;
        skip := 0;
      } else {
        skip := skip - |src[i]|;
      }
      i := i + 1;
    }
    assert skip == 0;
  }

  // ---------- merging two requests ----------

  /** `a` with `b` written over it from d on. */
  function Over(a: Bytes, d: nat, b: Bytes): (c: Bytes)
    requires d <= |a|
    ensures |c| == Max(|a|, d + |b|)
    ensures forall i :: 0 <= i < |c| ==> c[i] == if d <= i < d + |b| then b[i - d] else a[i]
  {
    a[..d] + b + if d + |b| < |a| then a[d + |b|..] else []
  }

  /** Writing a and then b, which starts within or right after a, is one write. */
  lemma StoreOver(disk: Bytes, pos: nat, a: Bytes, d: nat, b: Bytes)
    requires d <= |a|
    ensures Store(Store(disk, pos, a), pos + d, b) == Store(disk, pos, Over(a, d, b))
  {
    var two, one, c := Store(Store(disk, pos, a), pos + d, b), Store(disk, pos, Over(a, d, b)), Over(a, d, b);
    var mid := Store(disk, pos, a);
    forall i: nat | i < |one|
      ensures two[i] == one[i]
    {
      assert two[i] == At(two, i) && one[i] == At(one, i);
      assert At(mid, i) == if pos <= i < pos + |a| then a[i - pos] else At(disk, i);
    }
  }

  predicate Mergeable(a: Request, b: Request)
  {
    a.sector <= b.sector <= a.sector + a.sectors
  }

  /** The request that stands for a followed by b. */
  ghost predicate Stands(r: Request, a: Request, b: Request)
  {
    && r.sector == a.sector && r.sectors <= a.sectors + b.sectors && |r.iov| <= |a.iov| + |b.iov| + 1 && RequestOk(r)
    && a.sector <= b.sector && (b.sector - a.sector) * SECTOR <= |Flat(a.iov)|
    && Flat(r.iov) == Over(Flat(a.iov), (b.sector - a.sector) * SECTOR, Flat(b.iov))
  }

  /** Head of a, all of b, and what is left of a behind b. */
  ghost function Pieces(a: Iov, b: Iov, size: nat): (iov: Iov)
  {
    var total, whole := size + |Flat(b)|, |Flat(a)|;
    Taken(a, 0, size) + Taken(b, 0, |Flat(b)|) + if total < whole then Taken(a, total, whole - total) else []
  }

  method MergePair(a: Request, b: Request) returns (r: Request)
    requires Mergeable(a, b) && RequestOk(a) && RequestOk(b)
    ensures Stands(r, a, b)
  {
    hide Taken, Flat;
    var size := (b.sector - a.sector) * SECTOR;
    var iov := Concat([], a.iov, 0, size);
    iov := Concat(iov, b.iov, 0, |Flat(b.iov)|);
    var whole, total := |Flat(a.iov)|, size + |Flat(b.iov)|;
    if total < whole {
      iov := Concat(iov, a.iov, total, whole - total);
    }
    assert iov == Pieces(a.iov, b.iov, size);
    PiecesFlat(a.iov, b.iov, size);
    PiecesCount(a.iov, b.iov, size, total, if total < whole then whole - total else 0);
    r := Request(a.sector, |Flat(iov)| / SECTOR, iov);
  }

  lemma PiecesFlat(a: Iov, b: Iov, size: nat)
    requires size <= |Flat(a)|
    ensures Flat(Pieces(a, b, size)) == Over(Flat(a), size, Flat(b))
  {
    hide Taken, Flat;
    var fa, fb, x, y := Flat(a), Flat(b), Taken(a, 0, size), Taken(b, 0, |Flat(b)|);
    TakenIs(a, 0, size);
    TakenIs(b, 0, |fb|);
    FlatAdd(x, y);
    var total, whole := size + |fb|, |fa|;
    if total < whole {
      TakenIs(a, total, whole - total);
      FlatAdd(x + y, Taken(a, total, whole - total));
      assert fa[0..size] + fb[0..|fb|] + fa[total..total + (whole - total)] == Over(fa, size, fb);
    } else {
      assert x + y + [] == x + y;
      assert fa[0..size] + fb[0..|fb|] == Over(fa, size, fb);
    }
  }

  lemma PiecesCount(a: Iov, b: Iov, size: nat, total: nat, n: nat)
    requires size <= total
    ensures |Taken(a, 0, size)| + |Taken(b, 0, |Flat(b)|)| + |Taken(a, total, n)| <= |a| + |b| + 1
  {
    TakenCount(a, size, total, n);
    TakenShort(b, 0, |Flat(b)|);
  }

  // ---------- merging them all ----------

  /** Two lists of requests that leave every disk the same. */
  ghost predicate SameEffect(x: seq<Request>, y: seq<Request>)
  {
    forall disk :: Apply(disk, x) == Apply(disk, y)
  }

  lemma SameTwice(x: seq<Request>, y: seq<Request>, z: seq<Request>)
    requires SameEffect(x, y) && SameEffect(z, y)
    ensures SameEffect(x, z)
  {
    forall disk
      ensures Apply(disk, x) == Apply(disk, z)
    {
      assert Apply(disk, x) == Apply(disk, y);
    }
  }

  lemma SameNext(x: seq<Request>, y: seq<Request>, r: Request)
    requires SameEffect(x, y)
    ensures SameEffect(x + [r], y + [r])
  {
    forall disk
      ensures Apply(disk, x + [r]) == Apply(disk, y + [r])
    {
      ApplySnoc(disk, x, r);
      ApplySnoc(disk, y, r);
    }
  }

  lemma SameMerged(front: seq<Request>, y: seq<Request>, r: Request, a: Request, b: Request)
    requires SameEffect(front + [a], y) && Stands(r, a, b)
    ensures SameEffect(front + [r], y + [b])
  {
    forall disk
      ensures Apply(disk, front + [r]) == Apply(disk, y + [b])
    {
      ApplySnoc(disk, front, r);
      ApplySnoc(disk, front, a);
      ApplySnoc(disk, y, b);
      StoreOver(Apply(disk, front), a.sector * SECTOR, Flat(a.iov), (b.sector - a.sector) * SECTOR, Flat(b.iov));
    }
  }

  /** Lengths and scatter lists stay within their limits. */
  predicate Limited(r: Request, maxTransfer: nat)
  {
    (maxTransfer > 0 ==> r.sectors <= maxTransfer) && |r.iov| <= IOV_MAX
  }

  predicate AllLimited(reqs: seq<Request>, maxTransfer: nat)
  {
    forall i :: 0 <= i < |reqs| ==> Limited(reqs[i], maxTransfer)
  }

  /** Entries of scatter lists, and one more for each request. */
  function Entries(reqs: seq<Request>): (n: nat)
  {
    if reqs == [] then 0 else Entries(reqs[..|reqs| - 1]) + |reqs[|reqs| - 1].iov| + 1
  }

  lemma EntriesNext(reqs: seq<Request>, r: Request)
    ensures Entries(reqs + [r]) == Entries(reqs) + |r.iov| + 1
  {
    assert (reqs + [r])[..|reqs|] == reqs;
  }

  lemma {:induction false} EntriesPrefix(reqs: seq<Request>, i: nat)
    requires i <= |reqs|
    ensures Entries(reqs[..i]) <= Entries(reqs)
  {
    if i < |reqs| {
      var front := reqs[..|reqs| - 1];
      EntriesPrefix(front, i);
      assert front[..i] == reqs[..i];
    } else {
      assert reqs[..i] == reqs;
    }
  }

  /** No limit ever stands in the way of a merge. */
  predicate Unlimited(s: seq<Request>, maxTransfer: nat)
  {
    maxTransfer == 0 && Entries(s) <= IOV_MAX
  }

  /** Between any two requests there is a sector that neither writes. */
  ghost predicate Spaced(reqs: seq<Request>)
  {
    forall i, j :: 0 <= i < j < |reqs| && j == i + 1 ==> reqs[i].sector + reqs[i].sectors < reqs[j].sector
  }

  /** The first i of the sorted requests s have become `done`. */
  ghost predicate Merged(done: seq<Request>, s: seq<Request>, i: nat, maxTransfer: nat)
  {
    && 0 < |done| <= i <= |s| && SameEffect(done, s[..i]) && Ascending(done) && AllOk(done)
    && done[|done| - 1].sector <= s[i - 1].sector
    && (AllLimited(s, maxTransfer) ==> AllLimited(done, maxTransfer))
    && Entries(done) <= Entries(s[..i]) && (Unlimited(s, maxTransfer) ==> Spaced(done))
  }

  lemma MergeNext(done: seq<Request>, s: seq<Request>, i: nat, maxTransfer: nat, r: Request)
    requires Merged(done, s, i, maxTransfer) && i < |s| && Ascending(s) && Stands(r, done[|done| - 1], s[i])
    requires |done[|done| - 1].iov| + |s[i].iov| + 1 <= IOV_MAX
    requires maxTransfer > 0 ==> done[|done| - 1].sectors + s[i].sectors <= maxTransfer
    ensures Merged(done[..|done| - 1] + [r], s, i + 1, maxTransfer)
  {
    hide SameEffect, Over, Flat, Entries;
    var front, a := done[..|done| - 1], done[|done| - 1];
    assert front + [a] == done;
    EntriesNext(front, a);
    EntriesNext(front, r);
    EntriesNext(s[..i], s[i]);
    SameMerged(front, s[..i], r, a, s[i]);
    assert s[..i + 1] == s[..i] + [s[i]];
    var done' := front + [r];
    assert forall k :: 0 <= k < |done'| ==> done'[k] == if k < |front| then done[k] else r;
  }

  lemma KeepNext(done: seq<Request>, s: seq<Request>, i: nat, maxTransfer: nat)
    requires Merged(done, s, i, maxTransfer) && i < |s| && Ascending(s) && AllOk(s)
    requires var a, b := done[|done| - 1], s[i];
             || b.sector > a.sector + a.sectors || |a.iov| + |b.iov| + 1 > IOV_MAX
               || (maxTransfer > 0 && a.sectors + b.sectors > maxTransfer)
    ensures Merged(done + [s[i]], s, i + 1, maxTransfer)
  {
    hide SameEffect, Flat, Entries;
    KeepForced(done, s, i);
    EntriesNext(done, s[i]);
    EntriesNext(s[..i], s[i]);
    SameNext(done, s[..i], s[i]);
    assert s[..i + 1] == s[..i] + [s[i]];
    forall k | 0 <= k < |done|
      ensures done[k].sector <= s[i].sector
    {
      assert done[k].sector <= done[|done| - 1].sector <= s[i - 1].sector <= s[i].sector;
    }
  }

  lemma KeepForced(done: seq<Request>, s: seq<Request>, i: nat)
    requires 0 < |done| && i < |s| && Entries(done) <= Entries(s[..i])
    ensures |done[|done| - 1].iov| + |s[i].iov| + 1 <= Entries(s)
  {
    EntriesNext(s[..i], s[i]);
    assert s[..i + 1] == s[..i] + [s[i]];
    EntriesPrefix(s, i + 1);
    assert Entries(done) == Entries(done[..|done| - 1]) + |done[|done| - 1].iov| + 1;
  }

  /** The loop of multiwrite_merge, in place: reqs[..n] is what remains. */
  method MergeSorted(reqs: array<Request>, maxTransfer: nat) returns (n: nat)
    requires reqs.Length > 0 && AllOk(reqs[..]) && Ascending(reqs[..])
    modifies reqs
    ensures n <= reqs.Length && Merged(reqs[..n], old(reqs[..]), reqs.Length, maxTransfer)
  {
    hide Merged, Stands, SameEffect, RequestOk, Flat;
    ghost var s := reqs[..];
    var out, i := 0, 1;
    MergedOne(s, maxTransfer);
    assert reqs[..1] == [s[0]];
    while i < reqs.Length
      invariant 0 <= out < i <= reqs.Length == |s|
      invariant forall j :: i <= j < reqs.Length ==> reqs[j] == s[j]
      invariant Merged(reqs[..out + 1], s, i, maxTransfer) && RequestOk(reqs[out])
      invariant reqs[out].sector <= s[i - 1].sector
    {
      var a, b := reqs[out], reqs[i];
      assert b == s[i];
      ghost var done := reqs[..out + 1];
      var merge := b.sector <= a.sector + a.sectors;
      if |a.iov| + |b.iov| + 1 > IOV_MAX { merge := false; }
      if maxTransfer > 0 && a.sectors + b.sectors > maxTransfer { merge := false; }
      if merge {
        var r := MergePair(a, b);
        MergeNext(done, s, i, maxTransfer, r);
        StandsOk(r, a, b);
        reqs[out] := r;
        assert reqs[..out + 1] == done[..|done| - 1] + [r];
      } else {
        KeepNext(done, s, i, maxTransfer);
        out := out + 1;
        reqs[out] := b;
        assert reqs[..out + 1] == done + [s[i]];
      }
      i := i + 1;
    }
    n := out + 1;
    assert s[..i] == s;
  }

  lemma MergedOne(s: seq<Request>, maxTransfer: nat)
    requires s != [] && AllOk(s)
    ensures Merged([s[0]], s, 1, maxTransfer)
  {
    assert s[..1] == [s[0]];
  }

  lemma StandsOk(r: Request, a: Request, b: Request)
    requires Stands(r, a, b)
    ensures RequestOk(r) && r.sector == a.sector
  {
  }

  // ---------- sorting ----------

  function Insert(r: Request, s: seq<Request>): (t: seq<Request>)
    ensures multiset(t) == multiset{r} + multiset(s) && (Ascending(s) ==> Ascending(t))
    ensures t != [] && (t[0] == r || (s != [] && t[0] == s[0]))
  {
    if s == [] || r.sector <= s[0].sector then
      [r] + s
    else
      assert s == [s[0]] + s[1..];
      [s[0]] + Insert(r, s[1..])
  }

  function Sorted(s: seq<Request>): (t: seq<Request>)
    ensures multiset(t) == multiset(s) && Ascending(t)
  {
    if s == [] then []
    else
      assert s == [s[0]] + s[1..];
      Insert(s[0], Sorted(s[1..]))
  }

  lemma PermutedOk(s: seq<Request>, t: seq<Request>)
    requires multiset(s) == multiset(t) && AllOk(s)
    ensures AllOk(t) && |t| == |s|
  {
    assert |s| == |multiset(s)| && |t| == |multiset(t)|;
    forall i | 0 <= i < |t|
      ensures RequestOk(t[i])
    {
      assert t[i] in multiset(t);
      assert t[i] in multiset(s);
    }
  }

  // ---------- the order of submission ----------

  predicate Covers(r: Request, i: nat)
  {
    r.sector * SECTOR <= i < r.sector * SECTOR + |Flat(r.iov)|
  }

  /** No byte is written by two different requests. */
  ghost predicate Disjoint(reqs: seq<Request>)
  {
    forall r, t, i: nat :: r in reqs && t in reqs && Covers(r, i) && Covers(t, i) ==> r == t
  }

  lemma {:induction false} ApplyLength(disk: Bytes, reqs: seq<Request>, n: nat)
    ensures |Apply(disk, reqs)| <= n <==> |disk| <= n && forall r :: r in reqs ==>
              r.sector * SECTOR + |Flat(r.iov)| <= n
  {
    if reqs != [] {
      var front, last := reqs[..|reqs| - 1], reqs[|reqs| - 1];
      ApplyLength(disk, front, n);
      assert reqs == front + [last];
    }
  }

  lemma {:induction false} ApplyHits(disk: Bytes, reqs: seq<Request>, r: Request, i: nat)
    requires Disjoint(reqs) && r in reqs && Covers(r, i)
    ensures At(Apply(disk, reqs), i) == Flat(r.iov)[i - r.sector * SECTOR]
  {
    var front, last := reqs[..|reqs| - 1], reqs[|reqs| - 1];
    assert reqs == front + [last];
    ApplySnoc(disk, front, last);
    if !Covers(last, i) {
      ApplyHits(disk, front, r, i);
    }
  }

  lemma {:induction false} ApplyMisses(disk: Bytes, reqs: seq<Request>, i: nat)
    requires forall r :: r in reqs ==> !Covers(r, i)
    ensures At(Apply(disk, reqs), i) == At(disk, i)
  {
    if reqs != [] {
      var front, last := reqs[..|reqs| - 1], reqs[|reqs| - 1];
      assert reqs == front + [last];
      ApplySnoc(disk, front, last);
      ApplyMisses(disk, front, i);
      assert last in reqs;
    }
  }

  /** Disjoint requests may be written in any order. */
  lemma AnyOrder(s: seq<Request>, t: seq<Request>)
    requires multiset(s) == multiset(t) && Disjoint(s)
    ensures SameEffect(s, t)
  {
    assert forall r :: r in s <==> r in multiset(s);
    assert forall r :: r in t <==> r in multiset(t);
    forall disk
      ensures Apply(disk, s) == Apply(disk, t)
    {
      var x, y := Apply(disk, s), Apply(disk, t);
      ApplyLength(disk, s, |y|);
      ApplyLength(disk, t, |y|);
      ApplyLength(disk, s, |x|);
      ApplyLength(disk, t, |x|);
      forall i | 0 <= i < |x|
        ensures x[i] == y[i]
      {
        SameByte(disk, s, t, i);
      }
    }
  }

  lemma SameByte(disk: Bytes, s: seq<Request>, t: seq<Request>, i: nat)
    requires Disjoint(s) && forall r :: r in s <==> r in t
    ensures At(Apply(disk, s), i) == At(Apply(disk, t), i)
  {
    if r :| r in s && Covers(r, i) {
      ApplyHits(disk, s, r, i);
      ApplyHits(disk, t, r, i);
    } else {
      ApplyMisses(disk, s, i);
      ApplyMisses(disk, t, i);
    }
  }

  /** multiwrite_merge: the requests that remain do what all of them do in an order sorted by
      start, and lie in that order themselves.  Disjoint ones do what the callers have submitted. */
  method Merge(reqs: array<Request>, maxTransfer: nat) returns (n: nat, ghost sorted: seq<Request>)
    requires reqs.Length > 0 && AllOk(reqs[..])
    modifies reqs
    ensures multiset(sorted) == multiset(old(reqs[..])) && Ascending(sorted)
    ensures 0 < n <= reqs.Length && SameEffect(reqs[..n], sorted) && Ascending(reqs[..n])
    ensures Disjoint(old(reqs[..])) ==> SameEffect(reqs[..n], old(reqs[..]))
    ensures AllLimited(sorted, maxTransfer) ==> AllLimited(reqs[..n], maxTransfer)
    ensures Unlimited(sorted, maxTransfer) ==> Spaced(reqs[..n])
  {
    hide SameEffect, Disjoint;
    var s := Sorted(reqs[..]);
    if Disjoint(reqs[..]) { AnyOrder(reqs[..], s); }
    sorted := s;
    PermutedOk(reqs[..], s);
    forall i | 0 <= i < reqs.Length { reqs[i] := s[i]; }
    assert reqs[..] == s;
    n := MergeSorted(reqs, maxTransfer);
    assert s[..reqs.Length] == s;
    if Disjoint(old(reqs[..])) { SameTwice(reqs[..n], s, old(reqs[..])); }
  }
}
