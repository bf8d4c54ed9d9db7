/**
 Files and images as bytes that read as zeroes beyond their end and grow when written there.
 */
module Storage {
  import opened Basics

  /** The image, zero-extended. */
  function At(disk: Bytes, i: nat): (b: byte)
  {
    if i < |disk| then disk[i] else 0
  }

  function Slice(disk: Bytes, pos: nat, n: nat): (s: Bytes)
    ensures |s| == n && forall i :: 0 <= i < n ==> s[i] == At(disk, pos + i)
  {
    seq(n, i requires 0 <= i => At(disk, pos + i))
  }

  function Zeroes(n: nat): (s: Bytes)
    ensures |s| == n && forall i :: 0 <= i < n ==> s[i] == 0
  {
    seq(n, _ => 0)
  }

  function Max(a: nat, b: nat): (m: nat)
  {
    if a < b then b else a
  }

  /** Exactly the bytes from pos on have become `data`. */
  ghost predicate Wrote(disk: Bytes, disk': Bytes, pos: nat, data: Bytes)
  {
    forall i: nat :: At(disk', i) == if pos <= i < pos + |data| then data[i - pos] else At(disk, i)
  }

  /** Nothing outside lo..hi has changed. */
  ghost predicate Outside(disk: Bytes, disk': Bytes, lo: nat, hi: nat)
  {
    forall i: nat :: !(lo <= i < hi) ==> At(disk', i) == At(disk, i)
  }

  lemma WroteTwice(disk: Bytes, disk1: Bytes, disk2: Bytes, pos: nat, a: Bytes, b: Bytes)
    requires Wrote(disk, disk1, pos, a) && Wrote(disk1, disk2, pos + |a|, b)
    ensures Wrote(disk, disk2, pos, a + b)
  {
    forall i: nat
      ensures At(disk2, i) == if pos <= i < pos + |a + b| then (a + b)[i - pos] else At(disk, i)
    {
      assert At(disk1, i) == if pos <= i < pos + |a| then a[i - pos] else At(disk, i);
    }
  }

  lemma WroteNothing(disk: Bytes, pos: nat)
    ensures Wrote(disk, disk, pos, [])
  {
  }

  lemma WrotePart(disk: Bytes, disk': Bytes, pos: nat, a: Bytes, b: Bytes)
    requires Wrote(disk, disk', pos, a + b)
    ensures a == Slice(disk, pos, |a|) ==> Wrote(disk, disk', pos + |a|, b)
    ensures b == Slice(disk, pos + |a|, |b|) ==> Wrote(disk, disk', pos, a)
  {
    var all := a + b;
    forall i: nat
      ensures a == Slice(disk, pos, |a|) ==>
                At(disk', i) == if pos + |a| <= i < pos + |a| + |b| then b[i - pos - |a|] else At(disk, i)
      ensures b == Slice(disk, pos + |a|, |b|) ==>
                At(disk', i) == if pos <= i < pos + |a| then a[i - pos] else At(disk, i)
    {
      assert At(disk', i) == if pos <= i < pos + |all| then all[i - pos] else At(disk, i);
      if pos <= i < pos + |a| {
        assert all[i - pos] == a[i - pos];
        assert Slice(disk, pos, |a|)[i - pos] == At(disk, pos + (i - pos));
      } else if pos + |a| <= i < pos + |all| {
        assert all[i - pos] == b[i - pos - |a|];
        assert Slice(disk, pos + |a|, |b|)[i - pos - |a|] == At(disk, pos + |a| + (i - pos - |a|));
      }
    }
  }

  /** Bytes written back as they were read are not a change. */
  lemma WrotePadded(disk: Bytes, disk': Bytes, lo: nat, head: Bytes, data: Bytes, tail: Bytes)
    requires head == Slice(disk, lo, |head|) && tail == Slice(disk, lo + |head| + |data|, |tail|)
    requires Wrote(disk, disk', lo, head + data + tail)
    ensures Wrote(disk, disk', lo + |head|, data)
  {
    hide Wrote, Slice;
    WrotePart(disk, disk', lo, head + data, tail);
    WrotePart(disk, disk', lo, head, data);
  }

  function Store(disk: Bytes, pos: nat, data: Bytes): (disk': Bytes)
    ensures |disk'| == Max(|disk|, pos + |data|) && Wrote(disk, disk', pos, data)
  {
    seq(Max(|disk|, pos + |data|), i requires 0 <= i => if pos <= i < pos + |data| then data[i - pos] else At(disk, i))
  }
}
