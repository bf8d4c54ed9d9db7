/**
 An overlay image on a backing image: committing the overlay into the backing image, and asking
 where in a chain of images a sector is allocated.
 */
module Commit {
  import opened Basics

  const SECTOR := 512
  const COMMIT_BUF_SECTORS := 2048

  type Sector = s: Bytes | |s| == SECTOR witness seq(SECTOR, _ => 0)

  function ZeroSector(): (s: Sector)
  {
    seq(SECTOR, _ => 0)
  }

  /** An image by sectors; None is a sector that it does not allocate. */
  type Layer = seq<Option<Sector>>

  /** What a sector reads as through the overlay. */
  function View(top: Layer, backing: seq<Sector>, s: nat): (data: Sector)
    requires s < |top|
  {
    if top[s].Some? then top[s].value
    else if s < |backing| then backing[s]
    else ZeroSector()
  }

  ghost predicate SameView(top: Layer, backing: seq<Sector>, top': Layer, backing': seq<Sector>)
  {
    |top'| == |top| && forall s :: 0 <= s < |top| ==> View(top', backing', s) == View(top, backing, s)
  }

  /** Everything of the overlay up to sector n is in the backing image. */
  ghost predicate CopiedUpTo(top: Layer, backing: seq<Sector>, n: nat)
    requires n <= |top| <= |backing|
  {
    forall s :: 0 <= s < n && top[s].Some? ==> backing[s] == top[s].value
  }

  /** The backing image may have grown by zeroes up to `length`, and has changed otherwise only
      where the overlay has data of its own. */
  ghost predicate Under(top: Layer, backing: seq<Sector>, backing': seq<Sector>)
  {
    && |backing'| >= |backing|
    && (forall s :: 0 <= s < |backing'| && (s < |top| ==> top[s].None?) ==>
          backing'[s] == if s < |backing| then backing[s] else ZeroSector())
  }

  lemma UnderKeepsView(top: Layer, backing: seq<Sector>, backing': seq<Sector>)
    requires Under(top, backing, backing')
    ensures SameView(top, backing, top, backing')
  {
  }

  /** Once all is copied, sectors can be dropped from the overlay in any number. */
  lemma DropKeepsView(top: Layer, backing: seq<Sector>, top': Layer)
    requires |top'| == |top| <= |backing| && CopiedUpTo(top, backing, |top|)
    requires forall s :: 0 <= s < |top| ==> top'[s] == top[s] || top'[s].None?
    ensures SameView(top, backing, top', backing)
  {
  }

  /** Sectors lo..lo+|data| replaced. */
  function Replace(backing: seq<Sector>, lo: nat, data: seq<Sector>): (backing': seq<Sector>)
    requires lo + |data| <= |backing|
    ensures |backing'| == |backing|
    ensures forall s :: 0 <= s < |backing| ==> backing'[s] == if lo <= s < lo + |data| then data[s - lo] else backing[s]
  {
    backing[..lo] + data + backing[lo + |data|..]
  }

  class Overlay {
    var top: Layer
    var backing: seq<Sector>
    const inserted: bool
    const hasBacking: bool
    const busy: bool
    const hasMakeEmpty: bool
    /** A driver or the host has let the commit down. */
    ghost var failed: bool

    constructor (top: Layer, backing: seq<Sector>, inserted: bool, hasBacking: bool, busy: bool, hasMakeEmpty: bool)
      ensures this.top == top && this.backing == backing && !failed
      ensures this.inserted == inserted && this.hasBacking == hasBacking
      ensures this.busy == busy && this.hasMakeEmpty == hasMakeEmpty
    {
      this.top, this.backing, failed := top, backing, false;
      this.inserted, this.hasBacking, this.busy, this.hasMakeEmpty := inserted, hasBacking, busy, hasMakeEmpty;
    }

    // ---------- the drivers ----------

    /** bdrv_truncate of the backing image to a greater length: new sectors read as zeroes. */
    method Grow(length: nat) returns (ok: bool)
      requires length > |backing|
      modifies `backing, `failed
      ensures Under(top, old(backing), backing) && (ok ==> |backing| == length) && (!ok ==> backing == old(backing))
      ensures failed == (old(failed) || !ok)
    {
      ok := *;
      failed := failed || !ok;
      if ok {
        backing := backing + seq(length - |backing|, _ => ZeroSector());
      }
    }

    /** bdrv_is_allocated on the overlay: a run of at least one sector in the same state. */
    method IsAllocated(sector: nat, max: nat) returns (ok: bool, present: bool, n: nat)
      requires sector < |top| && max > 0
      modifies `failed
      ensures failed == (old(failed) || !ok)
      ensures ok ==> 0 < n <= max && sector + n <= |top| && forall s :: sector <= s < sector + n ==>
                top[s].Some? == present
    {
      ok, present, n := *, top[sector].Some?, 1;
      failed := failed || !ok;
      while n < max && sector + n < |top| && top[sector + n].Some? == present
        invariant 0 < n <= max && sector + n <= |top| && failed == (old(failed) || !ok)
        invariant forall s :: sector <= s < sector + n ==> top[s].Some? == present
      {
        var more: bool := *;
        if !more { return; }
        n := n + 1;
      }
    }

    method ReadTop(sector: nat, n: nat) returns (ok: bool, data: seq<Sector>)
      requires sector + n <= |top|
      modifies `failed
      ensures failed == (old(failed) || !ok)
      ensures ok ==> |data| == n && forall i :: 0 <= i < n ==> data[i] == View(top, backing, sector + i)
    {
      ok := *;
      failed := failed || !ok;
      var t, b := top, backing;
      data := seq<Sector>(n, i requires 0 <= i && sector + i < |t| => View(t, b, sector + i));
    }

    /** A write that fails may have changed any of its sectors. */
    method WriteBacking(sector: nat, data: seq<Sector>) returns (ok: bool)
      requires sector + |data| <= |backing|
      modifies `backing, `failed
      ensures |backing| == old(|backing|) && failed == (old(failed) || !ok)
      ensures forall s :: 0 <= s < |backing| && !(sector <= s < sector + |data|) ==> backing[s] == old(backing)[s]
      ensures ok ==> forall i :: 0 <= i < |data| ==> backing[sector + i] == data[i]
    {
      ok := *;
      failed := failed || !ok;
      var written := data;
      if !ok {
        written := *;
        if |written| != |data| { return; }
      }
      backing := Replace(backing, sector, written);
    }

    /** bdrv_make_empty: if it fails, some sectors may be gone and others not. */
    method MakeEmpty() returns (ok: bool)
      modifies `top, `failed
      ensures |top| == old(|top|) && failed == (old(failed) || !ok) && forall s :: 0 <= s < |top| ==>
                top[s] == old(top)[s] || top[s].None?
      ensures ok ==> forall s :: 0 <= s < |top| ==> top[s].None?
    {
      ok := *;
      failed := failed || !ok;
      var left: set<nat> := *;
      top := seq(|top|, s requires 0 <= s < |top| reads this => if !ok && s in left then top[s] else None);
    }

    // ---------- bdrv_commit ----------

    /** One run of the loop: copied if the overlay allocates it. */
    method CopyRun(sector: nat) returns (ok: bool, n: nat)
      requires sector < |top| <= |backing| && CopiedUpTo(top, backing, sector)
      modifies `backing, `failed
      ensures Under(top, old(backing), backing) && |backing| == old(|backing|) && failed == (old(failed) || !ok)
      ensures ok ==> 0 < n <= |top| - sector && CopiedUpTo(top, backing, sector + n)
    {
      var present;
      ok, present, n := IsAllocated(sector, COMMIT_BUF_SECTORS);
      if ok && present {
        var data;
        ok, data := ReadTop(sector, n);
        if ok {
          ok := WriteBacking(sector, data);
          forall s | ok && sector <= s < sector + n
            ensures top[s].Some? && backing[s] == top[s].value
          {
            var i := s - sector;
            assert backing[sector + i] == data[i] && data[i] == View(top, old(backing), sector + i);
          }
        }
      }
    }

    /** The copy loop. */
    method CopyAll() returns (ok: bool)
      requires |top| <= |backing|
      modifies `backing, `failed
      ensures Under(top, old(backing), backing) && |backing| == old(|backing|) && failed == (old(failed) || !ok)
      ensures ok ==> CopiedUpTo(top, backing, |top|)
    {
      ok := true;
      var sector := 0;
      while sector < |top|
        invariant ok && failed == old(failed)
        invariant 0 <= sector <= |top| <= |backing| == old(|backing|) && Under(top, old(backing), backing)
        invariant CopiedUpTo(top, backing, sector)
      {
        var n;
        ok, n := CopyRun(sector);
        if !ok { return; }
        sector := sector + n;
      }
    }

    /** bdrv_commit.  Whatever happens, the overlay reads as before; on success the backing image
        alone reads so too, and beyond the overlay's end it is unchanged. */
    method Commit() returns (ok: bool)
      modifies `top, `backing, `failed
      ensures SameView(old(top), old(backing), top, backing) && |backing| >= old(|backing|)
      ensures forall s :: |top| <= s < old(|backing|) ==> backing[s] == old(backing)[s]
      ensures ok ==> |top| <= |backing| && forall s :: 0 <= s < |top| ==> backing[s] == View(old(top), old(backing), s)
      ensures !old(failed) ==> (ok <==> inserted && hasBacking && !busy && !failed)
      ensures ok && hasMakeEmpty ==> forall s :: 0 <= s < |top| ==> top[s].None?
    {
      if !inserted || !hasBacking || busy { return false; }
      var reopened: bool := *;
      if !reopened {
        failed := true;
        return false;
      }
      if |top| > |backing| {
        ok := Grow(|top|);
        if !ok { return; }
      }
      ghost var grown := backing;
      UnderKeepsView(top, old(backing), backing);
      var memory: bool := *;
      if !memory {
        failed := true;
        return false;
      }
      ok := CopyAll();
      UnderKeepsView(top, grown, backing);
      if !ok { return; }
      ghost var was := top;
      if hasMakeEmpty {
        ok := MakeEmpty();
        DropKeepsView(was, backing, top);
      }
      assert forall s :: 0 <= s < |was| ==> backing[s] == View(was, backing, s);
    }
  }

  // ---------- a chain of images ----------

  predicate Allocates(image: Layer, s: nat)
  {
    s < |image| && image[s].Some?
  }

  /** Reading sector s through a chain, top first: the end of an image reads as zeroes, whatever
      lies behind it. */
  function ChainRead(chain: seq<Layer>, s: nat): (data: Sector)
  {
    if chain == [] || s >= |chain[0]| then ZeroSector()
    else if chain[0][s].Some? then chain[0][s].value
    else ChainRead(chain[1..], s)
  }

  /** bdrv_is_allocated on one image, for a sector that may lie beyond its end. */
  method Status(image: Layer, sector: nat, max: nat, works: bool) returns (ok: bool, present: bool, n: nat)
    requires max > 0
    ensures ok == works
    ensures ok && sector >= |image| ==> !present && n == 0
    ensures ok && sector < |image| ==> 0 < n <= max && sector + n <= |image|
    ensures ok ==> forall s :: sector <= s < sector + n ==> Allocates(image, s) == present
  {
    ok := works;
    if sector >= |image| { return ok, false, 0; }
    present, n := image[sector].Some?, 1;
    while n < max && sector + n < |image| && image[sector + n].Some? == present
      invariant 0 < n <= max && sector + n <= |image|
      invariant forall s :: sector <= s < sector + n ==> Allocates(image, s) == present
    {
      var more: bool := *;
      if !more { return; }
      n := n + 1;
    }
  }

  /** Nothing in chain[..k] allocates any of the n sectors. */
  ghost predicate Absent(chain: seq<Layer>, k: nat, sector: nat, n: nat)
    requires k <= |chain|
  {
    forall j, s :: 0 <= j < k && sector <= s < sector + n ==> !Allocates(chain[j], s)
  }

  /** None of the first k images allocates the sector. */
  ghost predicate NotBefore(chain: seq<Layer>, k: nat, sector: nat)
    requires k <= |chain|
  {
    forall j :: 0 <= j < k ==> !Allocates(chain[j], sector)
  }

  /** Image j allocates all n sectors, is the first to allocate the first of them, and the drivers have
      answered up to it. */
  ghost predicate Holder(chain: seq<Layer>, base: nat, sector: nat, n: nat, works: seq<bool>, j: int)
    requires base <= |chain| == |works|
  {
    && 0 <= j < base && NotBefore(chain, j, sector) && (forall i :: 0 <= i <= j ==> works[i])
    && forall s :: sector <= s < sector + n ==> Allocates(chain[j], s)
  }

  /** bdrv_is_allocated_above, for chain[base] as base (or no base if base == |chain|): the images
      before the base count, the base itself does not.  Yes means that some image allocates all n
      sectors, and that it is the first that allocates the first of them; no means that none allocates
      any of them.  `works` says which drivers answer. */
  method IsAllocatedAbove(chain: seq<Layer>, base: nat, sector: nat, max: nat, works: seq<bool>)
    returns (ok: bool, present: bool, n: nat)
    requires base <= |chain| == |works| && max > 0
    ensures ok && present ==> 0 < n <= max && exists j :: Holder(chain, base, sector, n, works, j)
    ensures ok && !present ==> n <= max && Absent(chain, base, sector, n) && forall j :: 0 <= j < base ==> works[j]
    ensures !ok ==> exists k :: 0 <= k < base && !works[k] && NotBefore(chain, k, sector)
    ensures ok && !present && (base > 0 ==> sector < |chain[0]|) ==> n > 0
  {
    n := max;
    var k := 0;
    while k < base
      invariant 0 <= k <= base && n <= max && Absent(chain, k, sector, n) && NotBefore(chain, k, sector)
      invariant forall j :: 0 <= j < k ==> works[j]
      invariant (base > 0 ==> sector < |chain[0]|) ==> n > 0
    {
      var run;
      ok, present, run := Status(chain[k], sector, max, works[k]);
      if !ok { return; }
      if present {
        assert Holder(chain, base, sector, run, works, k);
        return true, true, run;
      }
      assert forall s :: sector <= s < sector + run ==> !Allocates(chain[k], s);
      if n > run && (k == 0 || sector + run < |chain[k]|) {
        n := run;
      }
      k := k + 1;
    }
    ok, present := true, false;
  }

  /** A sector that no image above the base allocates reads as the base does, if and only if no
      image above the base ends before it, or the base has zeroes there. */
  lemma {:induction false} AbsentReads(chain: seq<Layer>, base: nat, s: nat)
    requires base <= |chain| && Absent(chain, base, s, 1)
    ensures ChainRead(chain, s) == ChainRead(chain[base..], s) <==>
            (forall j :: 0 <= j < base ==> s < |chain[j]|) || ChainRead(chain[base..], s) == ZeroSector()
  {
    if base == 0 {
      assert chain[0..] == chain;
    } else {
      assert !Allocates(chain[0], s);
      assert Absent(chain[1..], base - 1, s, 1);
      AbsentReads(chain[1..], base - 1, s);
      assert chain[1..][base - 1..] == chain[base..];
      assert forall j :: 0 < j < base ==> chain[j] == chain[1..][j - 1];
      if s < |chain[0]| {
        assert (forall j :: 0 <= j < base - 1 ==> s < |chain[1..][j]|) <==>
          (forall j :: 0 <= j < base ==> s < |chain[j]|) by {
          assert forall j :: 0 <= j < base - 1 ==> chain[1..][j] == chain[j + 1];
        }
      }
    }
  }

  /** Sector 1 is allocated neither on top nor in the short image between, yet the base's data
      does not show through. */
  lemma ShortImageHides(data: Sector)
    requires data != ZeroSector()
    ensures var chain := [[None, None], [None], [None, Some(data)]];
            Absent(chain, 2, 1, 1) && ChainRead(chain[2..], 1) == data && ChainRead(chain, 1) == ZeroSector()
  {
    var chain: seq<Layer> := [[None, None], [None], [None, Some(data)]];
    assert chain[2..] == [[None, Some(data)]];
    assert chain[1..][0] == [None];
  }
}
