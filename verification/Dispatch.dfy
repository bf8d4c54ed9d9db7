/**
 The dispatch map of an address space: memory sections are added one by one to a page map,
 partial pages going through sub-page tables, and the finished map is compressed.  The
 specification is the flat view: a list of disjoint sections, searched by address.
 */
module Dispatch {
  import opened PageTable
  import opened PhysMap

  const PAGE_SIZE := 4096
  const PAGES := 0x10_0000_0000_0000
  const ADDRESSES := 0x1_0000_0000_0000_0000

  datatype Region = IoUnassigned | IoNotDirty | IoRom | IoWatch | Subpage(id: nat) | Client(id: nat)

  /** A memory region section: `start` is its offset within the address space and `off` its
      offset within the region. */
  datatype Section = Section(mr: Region, start: nat, off: nat, size: nat)

  datatype SubTable = SubTable(base: nat, sub: seq<nat>)

  predicate Covers(s: Section, addr: nat)
  {
    s.start <= addr < s.start + s.size
  }

  predicate Disjoint(s: Section, t: Section)
  {
    s.start + s.size <= t.start || t.start + t.size <= s.start
  }

  /** A section a memory listener may hand over. */
  predicate ClientSection(s: Section)
  {
    s.mr.Client? && s.size > 0 && s.start + s.size <= ADDRESSES
  }

  /** p is s cut down to a sub-range: addresses of p mean the same region offset in both. */
  predicate PartOf(p: Section, s: Section)
  {
    && p.mr == s.mr
    && s.start <= p.start && p.start + p.size <= s.start + s.size
    && p.off - p.start == s.off - s.start
  }

  const UNASSIGNED_SECTION := Section(IoUnassigned, 0, 0, ADDRESSES)

  const DUMMIES := [UNASSIGNED_SECTION, Section(IoNotDirty, 0, 0, ADDRESSES),
                    Section(IoRom, 0, 0, ADDRESSES), Section(IoWatch, 0, 0, ADDRESSES)]

  /** What section number n may stand for as the entry of page idx: nothing, a section made of
      whole pages around idx, or the sub-page table of exactly this page. */
  predicate PageOk(n: nat, sections: seq<Section>, subs: seq<SubTable>, pieces: set<Section>, idx: nat)
  {
    n != UNASSIGNED ==>
      && 4 <= n < |sections|
      && var s := sections[n];
         match s.mr
         case Client(_) =>
           && s in pieces
           && s.start <= idx * PAGE_SIZE && (idx + 1) * PAGE_SIZE <= s.start + s.size
         case Subpage(id) =>
           && s.start == idx * PAGE_SIZE && s.size == PAGE_SIZE
           && id < |subs| && SubOk(subs[id], sections, pieces) && subs[id].base == s.start
         case _ => false
  }

  predicate SubOk(t: SubTable, sections: seq<Section>, pieces: set<Section>)
  {
    && |t.sub| == PAGE_SIZE
    && (forall o :: 0 <= o < PAGE_SIZE && t.sub[o] != UNASSIGNED ==> SubEntryOk(t, sections, pieces, o))
  }

  /** A page entry that leads to a sub-page table leads to one in which something is registered. */
  predicate PageUsed(n: nat, sections: seq<Section>, subs: seq<SubTable>)
  {
    n < |sections| && sections[n].mr.Subpage? && sections[n].mr.id < |subs| ==>
      var t := subs[sections[n].mr.id];
      exists o :: 0 <= o < |t.sub| && t.sub[o] != UNASSIGNED
  }

  predicate SubEntryOk(t: SubTable, sections: seq<Section>, pieces: set<Section>, o: nat)
    requires o < |t.sub|
  {
    && 4 <= t.sub[o] < |sections|
    && sections[t.sub[o]] in pieces
    && Covers(sections[t.sub[o]], t.base + o)
  }

  /** The section that page entry n gives for an address, sub-page tables resolved. */
  function Answer(n: nat, sections: seq<Section>, subs: seq<SubTable>, addr: nat): (s: Section)
  {
    if n >= |sections| then UNASSIGNED_SECTION
    else if sections[n].mr.Subpage? then
      var id := sections[n].mr.id;
      if id < |subs| && |subs[id].sub| == PAGE_SIZE && subs[id].sub[addr % PAGE_SIZE] < |sections|
      then sections[subs[id].sub[addr % PAGE_SIZE]] else UNASSIGNED_SECTION
    else sections[n]
  }

  lemma StepLevels()
    ensures Step(LEVELS) == 4 * PAGES
  {
    assert Step(3) == 512 * 512 * 512;
    assert Step(LEVELS) == 512 * (512 * (512 * Step(3)));
  }

  /** A page with an entry holds a byte of some registered piece. */
  lemma PageTaken(n: nat, sections: seq<Section>, subs: seq<SubTable>, pieces: set<Section>, idx: nat)
    returns (p: Section, addr: nat)
    requires PageOk(n, sections, subs, pieces, idx) && PageUsed(n, sections, subs) && n != UNASSIGNED
    ensures p in pieces && Covers(p, addr) && addr / PAGE_SIZE == idx
  {
    var s := sections[n];
    if s.mr.Client? {
      p, addr := s, idx * PAGE_SIZE;
    } else {
      var t := subs[s.mr.id];
      var o :| 0 <= o < PAGE_SIZE && t.sub[o] != UNASSIGNED;
      assert SubEntryOk(t, sections, pieces, o);
      p, addr := sections[t.sub[o]], t.base + o;
    }
  }

  /** More sections and more pieces leave a page entry and its answers as they were. */
  lemma PageGrow(n: nat, sections: seq<Section>, sections': seq<Section>, subs: seq<SubTable>, subs': seq<SubTable>,
                 pieces: set<Section>, pieces': set<Section>, idx: nat)
    requires PageOk(n, sections, subs, pieces, idx)
    requires 0 < |sections| && !sections[UNASSIGNED].mr.Subpage?
    requires sections <= sections' && pieces <= pieces' && |subs| <= |subs'|
    requires n < |sections| && sections[n].mr.Subpage? && sections[n].mr.id < |subs| ==>
               subs'[sections[n].mr.id] == subs[sections[n].mr.id]
    ensures PageOk(n, sections', subs', pieces', idx)
    ensures PageUsed(n, sections, subs) ==> PageUsed(n, sections', subs')
    ensures forall addr: nat :: addr / PAGE_SIZE == idx ==>
              Answer(n, sections', subs', addr) == Answer(n, sections, subs, addr)
  {
    if n != UNASSIGNED && sections[n].mr.Subpage? {
      var t := subs[sections[n].mr.id];
      forall o | 0 <= o < PAGE_SIZE && t.sub[o] != UNASSIGNED
        ensures SubEntryOk(t, sections', pieces', o)
      {
        assert SubEntryOk(t, sections, pieces, o);
      }
      forall addr: nat | addr / PAGE_SIZE == idx
        ensures Answer(n, sections', subs', addr) == Answer(n, sections, subs, addr)
      {
        var o := addr % PAGE_SIZE;
        if t.sub[o] != UNASSIGNED { assert SubEntryOk(t, sections, pieces, o); }
      }
    }
  }

  /** Entering one more piece into a sub-page table. */
  lemma TableGrow(t: SubTable, t': SubTable, sections: seq<Section>, pieces: set<Section>, piece: Section)
    requires SubOk(t, sections, pieces) && 4 <= |sections| && piece.size > 0
    requires t'.base == t.base <= piece.start && piece.start + piece.size <= t.base + PAGE_SIZE && |t'.sub| == PAGE_SIZE
    requires forall o :: 0 <= o < PAGE_SIZE ==>
               t'.sub[o] == if Covers(piece, t.base + o) then |sections| else t.sub[o]
    ensures SubOk(t', sections + [piece], pieces + {piece})
    ensures exists o :: 0 <= o < PAGE_SIZE && t'.sub[o] != UNASSIGNED
  {
    forall o | 0 <= o < PAGE_SIZE && t'.sub[o] != UNASSIGNED
      ensures SubEntryOk(t', sections + [piece], pieces + {piece}, o)
    {
      if !Covers(piece, t.base + o) { assert SubEntryOk(t, sections, pieces, o); }
    }
    assert t'.sub[piece.start - t.base] != UNASSIGNED;
  }

  /** Changing the table of another page. */
  lemma PageElsewhere(n: nat, sections: seq<Section>, sections': seq<Section>, subs: seq<SubTable>,
                      subs': seq<SubTable>, pieces: set<Section>, pieces': set<Section>, idx: nat, id: nat)
    requires PageOk(n, sections, subs, pieces, idx)
    requires 0 < |sections| && !sections[UNASSIGNED].mr.Subpage?
    requires sections <= sections' && pieces <= pieces' && |subs| == |subs'|
    requires id < |subs| && subs[id].base != idx * PAGE_SIZE
    requires forall k :: 0 <= k < |subs| && k != id ==> subs'[k] == subs[k]
    ensures PageOk(n, sections', subs', pieces', idx)
    ensures PageUsed(n, sections, subs) ==> PageUsed(n, sections', subs')
    ensures forall addr: nat :: addr / PAGE_SIZE == idx ==>
              Answer(n, sections', subs', addr) == Answer(n, sections, subs, addr)
  {
    PageGrow(n, sections, sections', subs, subs', pieces, pieces', idx);
  }

  /** Answers of the page whose table got one more piece. */
  lemma AnswerHere(n: nat, sections: seq<Section>, piece: Section, subs: seq<SubTable>, subs': seq<SubTable>,
                   pieces: set<Section>, id: nat, addr: nat)
    requires n < |sections| && sections[n].mr == Subpage(id) && 0 < |sections|
    requires id < |subs| && |subs'| == |subs| && SubOk(subs[id], sections, pieces) && |subs'[id].sub| == PAGE_SIZE
    requires subs[id].base == addr - addr % PAGE_SIZE
    requires forall o :: 0 <= o < PAGE_SIZE ==>
               subs'[id].sub[o] == if Covers(piece, subs[id].base + o) then |sections| else subs[id].sub[o]
    ensures Answer(n, sections + [piece], subs', addr) ==
            if Covers(piece, addr) then piece else Answer(n, sections, subs, addr)
  {
    var o := addr % PAGE_SIZE;
    if subs[id].sub[o] != UNASSIGNED { assert SubEntryOk(subs[id], sections, pieces, o); }
  }

  /** Everything a lookup depends on, together with the registered pieces: client sections cut
      at page boundaries. */
  datatype View = View(nodes: seq<Node>, root: Entry, sections: seq<Section>, subs: seq<SubTable>, pieces: set<Section>)

  function Look(nodes: seq<Node>, root: Entry, idx: nat): (n: nat)
  {
    Walk(nodes, root, LEVELS, idx)
  }

  function AnswerAt(v: View, addr: nat): (s: Section)
  {
    Answer(Look(v.nodes, v.root, addr / PAGE_SIZE), v.sections, v.subs, addr)
  }

  /** The page entries make sense, and every address of a piece is answered with that piece. */
  ghost predicate Coherent(v: View)
  {
    && 4 <= |v.sections| <= PAGE_SIZE && v.sections[..4] == DUMMIES
    && (forall p :: p in v.pieces ==> ClientSection(p))
    && (forall idx: nat :: idx < PAGES ==> PageOk(Look(v.nodes, v.root, idx), v.sections, v.subs, v.pieces, idx))
    && (forall idx: nat :: PAGES <= idx < 4 * PAGES ==> Look(v.nodes, v.root, idx) == UNASSIGNED)
    && (forall p, addr: nat :: p in v.pieces && Covers(p, addr) ==> AnswerAt(v, addr) == p)
  }

  /** Sub-page tables are in use, except perhaps that of page `open`. */
  ghost predicate Used(v: View, open: nat)
  {
    forall idx: nat :: idx < PAGES && idx != open ==> PageUsed(Look(v.nodes, v.root, idx), v.sections, v.subs)
  }

  /** v' maps the pages [first, first+num) to a new section s, and nothing else differs. */
  ghost predicate Mapped(v: View, v': View, s: Section, first: nat, num: nat)
  {
    && v'.sections == v.sections + [s] && |v'.sections| <= PAGE_SIZE
    && forall idx: nat :: idx < 4 * PAGES ==>
         Look(v'.nodes, v'.root, idx) == if first <= idx < first + num then |v.sections| else Look(v.nodes, v.root, idx)
  }

  predicate CoversPage(s: Section, idx: nat)
  {
    s.start <= idx * PAGE_SIZE && (idx + 1) * PAGE_SIZE <= s.start + s.size
  }

  /** Whole pages of these pieces lead to them directly, and not to a sub-page table. */
  ghost predicate Direct(v: View, direct: set<Section>)
  {
    forall p, idx: nat :: p in direct && CoversPage(p, idx) && idx < 4 * PAGES ==>
      Look(v.nodes, v.root, idx) < |v.sections| && v.sections[Look(v.nodes, v.root, idx)] == p
  }

  /** Mapping pages that no direct piece covers. */
  lemma DirectMapped(v: View, v': View, s: Section, first: nat, num: nat, direct: set<Section>, direct': set<Section>)
    requires Direct(v, direct) && Mapped(v, v', s, first, num) && (direct' == direct || direct' == direct + {s})
    requires forall p, idx: nat :: p in direct && first <= idx < first + num ==> !CoversPage(p, idx)
    requires s in direct' ==> forall idx: nat :: CoversPage(s, idx) ==> first <= idx < first + num
    ensures Direct(v', direct')
  {
    hide Look;
  }

  lemma DirectEntered(v: View, v': View, piece: Section, idx: nat, id: nat, direct: set<Section>)
    requires Direct(v, direct) && Entered(v, v', piece, idx, id)
    ensures Direct(v', direct)
  {
    hide Look;
  }

  /** A page that is not assigned is not a whole page of a direct piece. */
  lemma UnassignedNotDirect(v: View, direct: set<Section>, idx: nat)
    requires Coherent(v) && Direct(v, direct) && direct <= v.pieces && idx < PAGES
    requires Look(v.nodes, v.root, idx) == UNASSIGNED
    ensures forall p :: p in direct ==> !CoversPage(p, idx)
  {
    hide Look;
    assert v.sections[..4][0] == DUMMIES[0];
  }

  /** The whole pages of `section` that end at hi at the latest belong to direct pieces of it. */
  ghost predicate PagesDirect(direct: set<Section>, section: Section, hi: nat)
  {
    forall idx: nat :: section.start <= idx * PAGE_SIZE && (idx + 1) * PAGE_SIZE <= hi ==>
      DirectPage(direct, section, idx)
  }

  predicate DirectPage(direct: set<Section>, section: Section, idx: nat)
  {
    exists p :: p in direct && PartOf(p, section) && CoversPage(p, idx)
  }

  lemma PagesDirectNext(direct: set<Section>, section: Section, now: Section, whole: bool)
    requires PagesDirect(direct, section, now.start) && PartOf(now, section)
    requires if whole then now.start % PAGE_SIZE == 0 && now.size % PAGE_SIZE == 0
             else now.start % PAGE_SIZE + now.size <= PAGE_SIZE && PartialPage(now, section)
    ensures PagesDirect(if whole then direct + {now} else direct, section, now.start + now.size)
  {
    var direct' := if whole then direct + {now} else direct;
    forall idx: nat | section.start <= idx * PAGE_SIZE && (idx + 1) * PAGE_SIZE <= now.start + now.size
      ensures DirectPage(direct', section, idx)
    {
      if (idx + 1) * PAGE_SIZE <= now.start {
        assert DirectPage(direct, section, idx);
        var p :| p in direct && PartOf(p, section) && CoversPage(p, idx);
        assert p in direct';
      } else {
        assert whole;
        assert now in direct' && CoversPage(now, idx);
      }
    }
  }

  /** A head or a tail: no whole page of the section ends in it. */
  predicate PartialPage(now: Section, section: Section)
  {
    if now.start % PAGE_SIZE == 0 then now.size < PAGE_SIZE else now.start == section.start
  }

  lemma PagesDirectMore(direct: set<Section>, direct': set<Section>, section: Section, hi: nat)
    requires PagesDirect(direct, section, hi) && direct <= direct'
    ensures PagesDirect(direct', section, hi)
  {
    forall idx: nat | section.start <= idx * PAGE_SIZE && (idx + 1) * PAGE_SIZE <= hi
      ensures DirectPage(direct', section, idx)
    {
      assert DirectPage(direct, section, idx);
      var p :| p in direct && PartOf(p, section) && CoversPage(p, idx);
      assert p in direct';
    }
  }

  /** A page that one section of the list covers is answered with a part of that section, without any
      sub-page table. */
  ghost predicate WholePagesDirect(v: View, list: seq<Section>)
  {
    forall i, idx: nat :: 0 <= i < |list| && CoversPage(list[i], idx) && idx < PAGES ==>
      var n := Look(v.nodes, v.root, idx);
      n < |v.sections| && PartOf(v.sections[n], list[i]) && CoversPage(v.sections[n], idx)
  }

  lemma DirectFlat(v: View, direct: set<Section>, list: seq<Section>)
    requires Direct(v, direct)
    requires forall i :: 0 <= i < |list| ==> PagesDirect(direct, list[i], list[i].start + list[i].size)
    ensures WholePagesDirect(v, list)
  {
    hide Look;
    forall i, idx: nat | 0 <= i < |list| && CoversPage(list[i], idx) && idx < PAGES
      ensures var n := Look(v.nodes, v.root, idx);
              n < |v.sections| && PartOf(v.sections[n], list[i]) && CoversPage(v.sections[n], idx)
    {
      assert DirectPage(direct, list[i], idx);
      var p :| p in direct && PartOf(p, list[i]) && CoversPage(p, idx);
    }
  }

  /** Pages that a new piece covers completely are free. */
  lemma WholePagesFree(v: View, piece: Section, idx: nat)
    requires Coherent(v) && Used(v, PAGES) && idx < PAGES
    requires piece.start <= idx * PAGE_SIZE && (idx + 1) * PAGE_SIZE <= piece.start + piece.size
    requires forall p :: p in v.pieces ==> Disjoint(p, piece)
    ensures Look(v.nodes, v.root, idx) == UNASSIGNED
  {
    if Look(v.nodes, v.root, idx) != UNASSIGNED {
      var p, addr := PageTaken(Look(v.nodes, v.root, idx), v.sections, v.subs, v.pieces, idx);
    }
  }

  lemma MultipageCoherent(v: View, v': View, piece: Section)
    requires Coherent(v) && Used(v, PAGES) && ClientSection(piece)
    requires piece.start % PAGE_SIZE == 0 && piece.size % PAGE_SIZE == 0
    requires forall p :: p in v.pieces ==> Disjoint(p, piece)
    requires Mapped(v, v', piece, piece.start / PAGE_SIZE, piece.size / PAGE_SIZE)
    requires v'.subs == v.subs && v'.pieces == v.pieces + {piece}
    ensures Coherent(v') && Used(v', PAGES)
  {
    hide Look;
    var first, num := piece.start / PAGE_SIZE, piece.size / PAGE_SIZE;
    forall idx: nat | idx < PAGES
      ensures PageOk(Look(v'.nodes, v'.root, idx), v'.sections, v'.subs, v'.pieces, idx)
      ensures PageUsed(Look(v'.nodes, v'.root, idx), v'.sections, v'.subs)
    {
      if !(first <= idx < first + num) {
        PageGrow(Look(v.nodes, v.root, idx), v.sections, v'.sections, v.subs, v'.subs, v.pieces, v'.pieces, idx);
      }
    }
    forall p, addr: nat | p in v'.pieces && Covers(p, addr)
      ensures AnswerAt(v', addr) == p
    {
      var idx := addr / PAGE_SIZE;
      if p != piece {
        assert AnswerAt(v, addr) == p;
        PageGrow(Look(v.nodes, v.root, idx), v.sections, v'.sections, v.subs, v'.subs, v.pieces, v'.pieces, idx);
      }
    }
  }

  /** A fresh, empty sub-page table for page idx. */
  lemma NewTableCoherent(v: View, v': View, idx: nat)
    requires Coherent(v) && Used(v, PAGES) && idx < PAGES && Look(v.nodes, v.root, idx) == UNASSIGNED
    requires Mapped(v, v', Section(Subpage(|v.subs|), idx * PAGE_SIZE, 0, PAGE_SIZE), idx, 1)
    requires v'.subs == v.subs + [SubTable(idx * PAGE_SIZE, seq(PAGE_SIZE, _ => UNASSIGNED))]
    requires v'.pieces == v.pieces
    ensures Coherent(v') && Used(v', idx) && HasTable(v', idx, |v.subs|)
  {
    hide Look;
    forall k: nat | k < PAGES
      ensures PageOk(Look(v'.nodes, v'.root, k), v'.sections, v'.subs, v'.pieces, k)
      ensures k != idx ==> PageUsed(Look(v'.nodes, v'.root, k), v'.sections, v'.subs)
    {
      if k != idx {
        PageGrow(Look(v.nodes, v.root, k), v.sections, v'.sections, v.subs, v'.subs, v.pieces, v'.pieces, k);
      }
    }
    forall p, addr: nat | p in v'.pieces && Covers(p, addr)
      ensures AnswerAt(v', addr) == p
    {
      assert AnswerAt(v, addr) == p;
      var k := addr / PAGE_SIZE;
      PageGrow(Look(v.nodes, v.root, k), v.sections, v'.sections, v.subs, v'.subs, v.pieces, v'.pieces, k);
    }
  }

  /** Page idx is answered through sub-page table id. */
  predicate HasTable(v: View, idx: nat, id: nat)
  {
    var n := Look(v.nodes, v.root, idx);
    UNASSIGNED < n < |v.sections| && v.sections[n].mr == Subpage(id)
  }

  /** One more piece in the sub-page table of page idx. */
  ghost predicate Entered(v: View, v': View, piece: Section, idx: nat, id: nat)
  {
    && v'.nodes == v.nodes && v'.root == v.root
    && v'.sections == v.sections + [piece] && |v'.sections| <= PAGE_SIZE
    && v'.pieces == v.pieces + {piece}
    && |v'.subs| == |v.subs| && id < |v.subs|
    && v'.subs[id].base == v.subs[id].base && |v'.subs[id].sub| == |v.subs[id].sub| == PAGE_SIZE
    && (forall k :: 0 <= k < |v.subs| && k != id ==> v'.subs[k] == v.subs[k])
    && (forall o :: 0 <= o < PAGE_SIZE ==>
          v'.subs[id].sub[o] == if Covers(piece, idx * PAGE_SIZE + o) then |v.sections| else v.subs[id].sub[o])
  }

  lemma SubpageCoherent(v: View, v': View, piece: Section, idx: nat, id: nat)
    requires Coherent(v) && Used(v, idx) && ClientSection(piece) && idx < PAGES
    requires idx * PAGE_SIZE <= piece.start && piece.start + piece.size <= (idx + 1) * PAGE_SIZE
    requires forall p :: p in v.pieces ==> Disjoint(p, piece)
    requires HasTable(v, idx, id) && Entered(v, v', piece, idx, id)
    ensures Coherent(v') && Used(v', PAGES)
  {
    hide PageOk, PageUsed, Look, Answer, HasTable;
    forall k: nat | k < PAGES
      ensures PageOk(Look(v'.nodes, v'.root, k), v'.sections, v'.subs, v'.pieces, k)
      ensures PageUsed(Look(v'.nodes, v'.root, k), v'.sections, v'.subs)
    {
      if k != idx { EnteredElsewhere(v, v', piece, idx, id, k); } else { EnteredHere(v, v', piece, idx, id); }
    }
    forall p, addr: nat | p in v'.pieces && Covers(p, addr)
      ensures AnswerAt(v', addr) == p
    {
      if p != piece { assert AnswerAt(v, addr) == p && Disjoint(p, piece); }
      EnteredAnswer(v, v', piece, idx, id, addr);
    }
  }

  lemma EnteredHere(v: View, v': View, piece: Section, idx: nat, id: nat)
    requires Coherent(v) && ClientSection(piece) && idx < PAGES
    requires idx * PAGE_SIZE <= piece.start && piece.start + piece.size <= (idx + 1) * PAGE_SIZE
    requires HasTable(v, idx, id) && Entered(v, v', piece, idx, id)
    ensures PageOk(Look(v'.nodes, v'.root, idx), v'.sections, v'.subs, v'.pieces, idx)
    ensures PageUsed(Look(v'.nodes, v'.root, idx), v'.sections, v'.subs)
  {
    hide Look;
    assert PageOk(Look(v.nodes, v.root, idx), v.sections, v.subs, v.pieces, idx);
    TableGrow(v.subs[id], v'.subs[id], v.sections, v.pieces, piece);
  }

  lemma EnteredAnswer(v: View, v': View, piece: Section, idx: nat, id: nat, addr: nat)
    requires Coherent(v) && ClientSection(piece) && idx < PAGES && addr / PAGE_SIZE < PAGES
    requires idx * PAGE_SIZE <= piece.start && piece.start + piece.size <= (idx + 1) * PAGE_SIZE
    requires HasTable(v, idx, id) && Entered(v, v', piece, idx, id)
    ensures AnswerAt(v', addr) == if Covers(piece, addr) then piece else AnswerAt(v, addr)
  {
    hide Look;
    var k := addr / PAGE_SIZE;
    assert PageOk(Look(v.nodes, v.root, k), v.sections, v.subs, v.pieces, k);
    if k == idx {
      AnswerHere(Look(v.nodes, v.root, k), v.sections, piece, v.subs, v'.subs, v.pieces, id, addr);
    } else {
      EnteredElsewhere(v, v', piece, idx, id, k);
    }
  }

  lemma EnteredElsewhere(v: View, v': View, piece: Section, idx: nat, id: nat, k: nat)
    requires Coherent(v) && k < PAGES && idx < PAGES && k != idx
    requires HasTable(v, idx, id) && Entered(v, v', piece, idx, id)
    ensures var n := Look(v.nodes, v.root, k);
            && PageOk(n, v'.sections, v'.subs, v'.pieces, k)
            && (PageUsed(n, v.sections, v.subs) ==> PageUsed(n, v'.sections, v'.subs))
            && forall addr: nat :: addr / PAGE_SIZE == k ==>
                 Answer(n, v'.sections, v'.subs, addr) == Answer(n, v.sections, v.subs, addr)
  {
    hide Look;
    assert PageOk(Look(v.nodes, v.root, idx), v.sections, v.subs, v.pieces, idx);
    assert k * PAGE_SIZE != idx * PAGE_SIZE;
    PageElsewhere(Look(v.nodes, v.root, k), v.sections, v'.sections, v.subs, v'.subs, v.pieces, v'.pieces, k, id);
  }

  /** phys_page_find: the walk, then the range check on the section it ends in. */
  function Found(v: View, addr: nat): (n: nat)
  {
    var s := Look(v.nodes, v.root, addr / PAGE_SIZE);
    if s < |v.sections| && (v.sections[s].size >= ADDRESSES || Covers(v.sections[s], addr)) then s else UNASSIGNED
  }

  /** Before compression the range check changes nothing. */
  lemma FoundIsLook(v: View, addr: nat)
    requires Coherent(v) && addr < ADDRESSES
    ensures Found(v, addr) == Look(v.nodes, v.root, addr / PAGE_SIZE)
  {
    assert PageOk(Look(v.nodes, v.root, addr / PAGE_SIZE), v.sections, v.subs, v.pieces, addr / PAGE_SIZE);
  }

  /** Skip compression preserves meaning: although a compressed walk ignores address bits, the
      range check rejects every section it reaches by mistake. */
  lemma CompressionPreservesFound(v: View, v': View, addr: nat)
    requires Coherent(v) && addr < ADDRESSES
    requires v' == v.(nodes := v'.nodes, root := v'.root)
    requires Coarser(v.nodes, v.root, v'.nodes, v'.root, LEVELS, 0)
    ensures Found(v', addr) == Found(v, addr)
    ensures Look(v'.nodes, v'.root, addr / PAGE_SIZE) < |v.sections|
  {
    var idx := addr / PAGE_SIZE;
    StepLevels();
    assert Within(idx, LEVELS, 0);
    var o, n := Look(v.nodes, v.root, idx), Look(v'.nodes, v'.root, idx);
    assert CoarserAt(v.nodes, v.root, n, LEVELS, 0, idx);
    assert PageOk(o, v.sections, v.subs, v.pieces, idx);
    if n != o {
      var x: nat :| Within(x, LEVELS, 0) && Look(v.nodes, v.root, x) == n;
      assert x < PAGES && PageOk(n, v.sections, v.subs, v.pieces, x);
      var s := v.sections[n];
      assert s in v.pieces && Covers(s, addr) ==> AnswerAt(v, addr) == s;
    }
  }

  lemma WholePages(start: nat, size: nat)
    requires start % PAGE_SIZE == 0 && size >= PAGE_SIZE
    ensures var w := size - size % PAGE_SIZE;
            && w % PAGE_SIZE == 0 && 0 < w <= size && size - w < PAGE_SIZE
            && (start + w) % PAGE_SIZE == 0
  {
  }

  /** Sections still needed for the rest of one mem_add, at most. */
  function Cost(left: nat): nat
  {
    if left == 0 then 0 else if left < PAGE_SIZE then 2 else 3
  }

  /** The parts of `section` among the pieces cover it up to address hi. */
  ghost predicate Tiled(pieces: set<Section>, section: Section, hi: nat)
  {
    forall addr: nat :: section.start <= addr < hi ==> InSomePart(pieces, section, addr)
  }

  /** The new pieces are parts of `section` below address hi, and tile it up to there. */
  ghost predicate Progress(before: set<Section>, pieces: set<Section>, section: Section, hi: nat)
  {
    && before <= pieces
    && (forall p :: p in pieces - before ==> PartOf(p, section) && p.start + p.size <= hi)
    && Tiled(pieces, section, hi)
  }

  predicate InSomePart(pieces: set<Section>, section: Section, addr: nat)
  {
    exists p :: p in pieces && PartOf(p, section) && Covers(p, addr)
  }

  lemma TiledNext(pieces: set<Section>, section: Section, p: Section)
    requires Tiled(pieces, section, p.start) && PartOf(p, section)
    ensures Tiled(pieces + {p}, section, p.start + p.size)
  {
    forall addr: nat | section.start <= addr < p.start + p.size
      ensures InSomePart(pieces + {p}, section, addr)
    {
      if addr < p.start {
        assert InSomePart(pieces, section, addr);
        var q :| q in pieces && PartOf(q, section) && Covers(q, addr);
        assert q in pieces + {p};
      } else {
        assert p in pieces + {p} && Covers(p, addr);
      }
    }
  }

  /** Addresses outside every piece are unassigned. */
  lemma AnswerElsewhere(v: View, addr: nat)
    requires Coherent(v) && addr < ADDRESSES
    ensures AnswerAt(v, addr) == UNASSIGNED_SECTION
            || (AnswerAt(v, addr) in v.pieces && Covers(AnswerAt(v, addr), addr))
  {
    var idx := addr / PAGE_SIZE;
    var n := Look(v.nodes, v.root, idx);
    assert PageOk(n, v.sections, v.subs, v.pieces, idx);
    assert v.sections[..4][0] == DUMMIES[0];
    if n != UNASSIGNED && v.sections[n].mr.Subpage? {
      var t := v.subs[v.sections[n].mr.id];
      if t.sub[addr % PAGE_SIZE] != UNASSIGNED { assert SubEntryOk(t, v.sections, v.pieces, addr % PAGE_SIZE); }
    }
  }

  predicate PairwiseDisjoint(list: seq<Section>)
  {
    forall i, j :: 0 <= i < j < |list| ==> Disjoint(list[i], list[j])
  }

  /** Lookups answer as a search of the flat list would. */
  ghost predicate RefinesFlat(v: View, list: seq<Section>)
  {
    forall addr: nat :: addr < ADDRESSES ==> FlatAt(list, addr, AnswerAt(v, addr))
  }

  /** s is the answer of the flat list for an address: a part of the covering section that
      covers the address too, or unassigned if no section covers it. */
  predicate FlatAt(list: seq<Section>, addr: nat, s: Section)
  {
    && (forall i :: 0 <= i < |list| && Covers(list[i], addr) ==> PartOf(s, list[i]) && Covers(s, addr))
    && ((forall i :: 0 <= i < |list| ==> !Covers(list[i], addr)) ==> s == UNASSIGNED_SECTION)
  }

  /** The pieces are exactly the parts of the listed sections. */
  ghost predicate PiecesOf(pieces: set<Section>, list: seq<Section>)
  {
    && (forall p :: p in pieces ==> exists i :: 0 <= i < |list| && PartOf(p, list[i]))
    && (forall i :: 0 <= i < |list| ==> Tiled(pieces, list[i], list[i].start + list[i].size))
  }

  lemma PiecesRefineFlat(v: View, list: seq<Section>)
    requires Coherent(v) && PiecesOf(v.pieces, list)
    ensures RefinesFlat(v, list)
  {
    forall addr: nat | addr < ADDRESSES
      ensures FlatAt(list, addr, AnswerAt(v, addr))
    {
      AnswerElsewhere(v, addr);
      forall i | 0 <= i < |list| && Covers(list[i], addr)
        ensures PartOf(AnswerAt(v, addr), list[i]) && Covers(AnswerAt(v, addr), addr)
      {
        assert InSomePart(v.pieces, list[i], addr);
      }
    }
  }

  lemma PiecesNext(pieces: set<Section>, pieces': set<Section>, list: seq<Section>, s: Section)
    requires PiecesOf(pieces, list) && pieces <= pieces'
    requires forall p :: p in pieces' - pieces ==> PartOf(p, s)
    requires Tiled(pieces', s, s.start + s.size)
    ensures PiecesOf(pieces', list + [s])
  {
    var list' := list + [s];
    forall p | p in pieces'
      ensures exists i :: 0 <= i < |list'| && PartOf(p, list'[i])
    {
      if p in pieces {
        var i :| 0 <= i < |list| && PartOf(p, list[i]);
        assert PartOf(p, list'[i]);
      } else {
        assert PartOf(p, list'[|list|]);
      }
    }
    forall i | 0 <= i < |list|
      ensures Tiled(pieces', list[i], list[i].start + list[i].size)
    {
      forall addr: nat | list[i].start <= addr < list[i].start + list[i].size
        ensures InSomePart(pieces', list[i], addr)
      {
        assert InSomePart(pieces, list[i], addr);
      }
    }
  }

  lemma NoPieces(list: seq<Section>)
    ensures PiecesOf({}, list[..0])
  {
  }

  lemma PiecesApart(pieces: set<Section>, list: seq<Section>, i: nat)
    requires PairwiseDisjoint(list) && i < |list| && PiecesOf(pieces, list[..i])
    ensures forall p :: p in pieces ==> Disjoint(p, list[i])
  {
    forall p | p in pieces
      ensures Disjoint(p, list[i])
    {
      var j :| 0 <= j < |list[..i]| && PartOf(p, list[..i][j]);
    }
  }

  lemma NothingAdded(direct: set<Section>, pieces: set<Section>, section: Section)
    ensures Progress(pieces, pieces, section, section.start) && PagesDirect(direct, section, section.start)
  {
  }

  class AddressSpaceDispatch {
    const pmap: PhysPageMap
    var sections: seq<Section>
    var subs: seq<SubTable>
    ghost var pieces: set<Section>
    ghost var direct: set<Section>

    ghost function V(): View
      reads this, pmap
    {
      View(pmap.nodes, pmap.root, sections, subs, pieces)
    }

    ghost predicate Valid()
      reads this, pmap
    {
      && pmap.Building() && |pmap.nodes| <= 11 * |sections|
      && Coherent(V()) && Used(V(), PAGES) && direct <= pieces && Direct(V(), direct)
    }

    /** mem_begin. */
    constructor ()
      ensures Valid() && fresh(pmap) && pieces == {} && direct == {} && sections == DUMMIES
    {
      pmap := new PhysPageMap();
      sections, subs, pieces, direct := DUMMIES, [], {}, {};
      new;
      assert forall idx: nat :: pmap.Lookup(idx) == Look(pmap.nodes, pmap.root, idx);
    }

    /** phys_section_add; ok is false where its assertion on the section count fails. */
    method SectionAdd(s: Section) returns (ok: bool, n: nat)
      modifies `sections
      ensures ok == (old(|sections|) < PAGE_SIZE)
      ensures ok ==> n == old(|sections|) && sections == old(sections) + [s]
      ensures !ok ==> sections == old(sections)
    {
      ok, n := |sections| < PAGE_SIZE, |sections|;
      if ok { sections := sections + [s]; }
    }

    method PhysPageFind(addr: nat) returns (n: nat)
      requires pmap.Valid() && |sections| > 0 && Look(pmap.nodes, pmap.root, addr / PAGE_SIZE) < |sections|
      ensures n == Found(V(), addr)
    {
      var s := pmap.Find(addr / PAGE_SIZE);
      if sections[s].size >= ADDRESSES || Covers(sections[s], addr) {
        n := s;
      } else {
        n := UNASSIGNED;
      }
    }

    /** Points free pages at a new section. */
    method MapPages(s: Section, first: nat, num: nat) returns (ok: bool)
      requires Valid() && num > 0 && first + num <= PAGES
      requires forall idx: nat :: first <= idx < first + num ==> Look(pmap.nodes, pmap.root, idx) == UNASSIGNED
      modifies `sections, pmap
      ensures ok == (old(|sections|) < PAGE_SIZE)
      ensures ok ==> pmap.Building() && |pmap.nodes| <= 11 * |sections|
      ensures ok ==> Mapped(old(V()), V(), s, first, num)
    {
      var n;
      ok, n := SectionAdd(s);
      if ok {
        StepLevels();
        ghost var v := old(V());
        assert forall idx: nat :: pmap.Lookup(idx) == Look(v.nodes, v.root, idx);
        pmap.FreeOpens(first, num);
        pmap.Set(first, num, n);
        assert forall idx: nat :: pmap.Lookup(idx) == Look(pmap.nodes, pmap.root, idx);
      }
    }

    lemma FreeNotDirect(first: nat, num: nat)
      requires Valid() && first + num <= PAGES
      requires forall idx: nat :: first <= idx < first + num ==> Look(pmap.nodes, pmap.root, idx) == UNASSIGNED
      ensures forall p, idx: nat :: p in direct && first <= idx < first + num ==> !CoversPage(p, idx)
    {
      forall p, idx: nat | p in direct && first <= idx < first + num
        ensures !CoversPage(p, idx)
      {
        UnassignedNotDirect(V(), direct, idx);
      }
    }

    /** register_multipage: whole pages. */
    method RegisterMultipage(piece: Section) returns (ok: bool)
      requires Valid() && ClientSection(piece)
      requires piece.start % PAGE_SIZE == 0 && piece.size % PAGE_SIZE == 0
      requires forall p :: p in pieces ==> Disjoint(p, piece)
      modifies this, pmap
      ensures ok ==> Valid() && pieces == old(pieces) + {piece} && |sections| == old(|sections|) + 1
      ensures ok ==> direct == old(direct) + {piece}
      ensures old(|sections|) < PAGE_SIZE ==> ok
    {
      var first, num := piece.start / PAGE_SIZE, piece.size / PAGE_SIZE;
      forall idx: nat | first <= idx < first + num
        ensures Look(pmap.nodes, pmap.root, idx) == UNASSIGNED
      {
        WholePagesFree(V(), piece, idx);
      }
      FreeNotDirect(first, num);
      ok := MapPages(piece, first, num);
      pieces, direct := pieces + {piece}, direct + {piece};
      if ok {
        MultipageCoherent(old(V()), V(), piece);
        DirectMapped(old(V()), V(), piece, first, num, old(direct), direct);
      }
    }

    /** The sub-page table of page idx, made and mapped on first use. */
    method OpenSubpage(idx: nat) returns (ok: bool, id: nat)
      requires Valid() && idx < PAGES
      requires forall p :: p in pieces ==> !(p.start <= idx * PAGE_SIZE && (idx + 1) * PAGE_SIZE <= p.start + p.size)
      modifies `sections, `subs, pmap
      ensures ok ==> pmap.Building() && |pmap.nodes| <= 11 * |sections|
      ensures ok ==> Coherent(V()) && Used(V(), idx) && HasTable(V(), idx, id)
      ensures ok ==> |sections| <= old(|sections|) + 1 && Direct(V(), direct)
      ensures old(|sections|) < PAGE_SIZE ==> ok
    {
      var base := idx * PAGE_SIZE;
      assert PageOk(Look(pmap.nodes, pmap.root, idx), sections, subs, pieces, idx);
      assert base / PAGE_SIZE == idx;
      FoundIsLook(V(), base);
      var existing := PhysPageFind(base);
      if sections[existing].mr.Subpage? {
        return true, sections[existing].mr.id;
      }
      forall k: nat | idx <= k < idx + 1
        ensures Look(pmap.nodes, pmap.root, k) == UNASSIGNED
      {
        assert k == idx;
      }
      id := |subs|;
      FreeNotDirect(idx, 1);
      ok := MapPages(Section(Subpage(id), base, 0, PAGE_SIZE), idx, 1);
      subs := subs + [SubTable(base, seq(PAGE_SIZE, _ => UNASSIGNED))];
      if ok {
        NewTableCoherent(old(V()), V(), idx);
        DirectMapped(old(V()), V(), Section(Subpage(id), base, 0, PAGE_SIZE), idx, 1, direct, direct);
      }
    }

    /** subpage_register: entries start..end of a table now name section n. */
    method SubpageRegister(id: nat, start: nat, end: nat, n: nat)
      requires id < |subs| && |subs[id].sub| == PAGE_SIZE && start <= end < PAGE_SIZE
      modifies `subs
      ensures |subs| == old(|subs|) && subs[id].base == old(subs[id].base) && |subs[id].sub| == PAGE_SIZE
      ensures forall k :: 0 <= k < |subs| && k != id ==> subs[k] == old(subs[k])
      ensures forall o :: 0 <= o < PAGE_SIZE ==>
                subs[id].sub[o] == if start <= o <= end then n else old(subs[id].sub[o])
    {
      var i := start;
      while i <= end
        invariant start <= i <= end + 1
        invariant |subs| == old(|subs|) && subs[id].base == old(subs[id].base) && |subs[id].sub| == PAGE_SIZE
        invariant forall k :: 0 <= k < |subs| && k != id ==> subs[k] == old(subs[k])
        invariant forall o :: 0 <= o < PAGE_SIZE ==>
                    subs[id].sub[o] == if start <= o < i then n else old(subs[id].sub[o])
      {
        subs := subs[id := subs[id].(sub := subs[id].sub[i := n])];
        i := i + 1;
      }
    }

    /** register_subpage: a piece that stays inside one page. */
    method RegisterSubpage(piece: Section) returns (ok: bool)
      requires Valid() && ClientSection(piece)
      requires piece.start % PAGE_SIZE + piece.size <= PAGE_SIZE
      requires forall p :: p in pieces ==> Disjoint(p, piece)
      modifies this, pmap
      ensures ok ==> Valid() && pieces == old(pieces) + {piece} && |sections| <= old(|sections|) + 2
      ensures direct == old(direct)
      ensures old(|sections|) + 2 <= PAGE_SIZE ==> ok
    {
      var idx, start := piece.start / PAGE_SIZE, piece.start % PAGE_SIZE;
      var id, n;
      ok, id := OpenSubpage(idx);
      if !ok { return; }
      ghost var v := V();
      assert PageOk(Look(v.nodes, v.root, idx), sections, subs, pieces, idx);
      ok, n := SectionAdd(piece);
      if !ok { return; }
      SubpageRegister(id, start, start + piece.size - 1, n);
      pieces := pieces + {piece};
      SubpageCoherent(v, V(), piece, idx, id);
      DirectEntered(v, V(), piece, idx, id, direct);
    }

    /** Registers the next part of a section, as whole pages or inside one page. */
    method RegisterPart(now: Section, whole: bool, ghost section: Section, ghost before: set<Section>)
      returns (ok: bool)
      requires Valid() && ClientSection(section) && PartOf(now, section) && now.size > 0
      requires if whole then now.start % PAGE_SIZE == 0 && now.size % PAGE_SIZE == 0
               else now.start % PAGE_SIZE + now.size <= PAGE_SIZE && PartialPage(now, section)
      requires forall p :: p in before ==> Disjoint(p, section)
      requires Progress(before, pieces, section, now.start) && PagesDirect(direct, section, now.start)
      modifies this, pmap
      ensures ok ==> Valid() && Progress(before, pieces, section, now.start + now.size)
      ensures ok ==> old(direct) <= direct && PagesDirect(direct, section, now.start + now.size)
      ensures ok ==> |sections| <= old(|sections|) + if whole then 1 else 2
      ensures old(|sections|) + (if whole then 1 else 2) <= PAGE_SIZE ==> ok
    {
      hide PagesDirect;
      PagesDirectNext(direct, section, now, whole);
      ghost var soFar := pieces;
      if whole {
        ok := RegisterMultipage(now);
      } else {
        ok := RegisterSubpage(now);
      }
      if ok { TiledNext(soFar, section, now); }
    }

    /** The whole pages, or the tail, at the start of what remains of a section. */
    method RegisterNext(remain: Section, ghost section: Section, ghost before: set<Section>)
      returns (ok: bool, now: Section)
      requires Valid() && ClientSection(section) && PartOf(remain, section) && remain.size > 0
      requires remain.start % PAGE_SIZE == 0
      requires forall p :: p in before ==> Disjoint(p, section)
      requires Progress(before, pieces, section, remain.start) && PagesDirect(direct, section, remain.start)
      modifies this, pmap
      ensures ok ==> Valid() && Progress(before, pieces, section, remain.start + now.size)
      ensures ok ==> old(direct) <= direct && PagesDirect(direct, section, remain.start + now.size)
      ensures 0 < now.size <= remain.size && (now.size < remain.size ==> (remain.start + now.size) % PAGE_SIZE == 0)
      ensures ok ==> |sections| + Cost(remain.size - now.size) <= old(|sections|) + Cost(remain.size)
      ensures old(|sections|) + Cost(remain.size) <= PAGE_SIZE ==> ok
    {
      now := remain;
      if remain.size < PAGE_SIZE {
        ok := RegisterPart(now, false, section, before);
      } else {
        // remain.start is at a page boundary here, so the branch for a misaligned start is dead
        WholePages(remain.start, remain.size);
        now := now.(size := remain.size - remain.size % PAGE_SIZE);
        ok := RegisterPart(now, true, section, before);
      }
    }

    /** mem_add: a head up to the next page boundary, whole pages, and a tail. */
    method MemAdd(section: Section) returns (ok: bool)
      requires Valid() && ClientSection(section)
      requires forall p :: p in pieces ==> Disjoint(p, section)
      modifies this, pmap
      ensures ok ==> Valid() && Progress(old(pieces), pieces, section, section.start + section.size)
      ensures ok ==> old(direct) <= direct && PagesDirect(direct, section, section.start + section.size)
      ensures ok ==> |sections| <= old(|sections|) + 5
      ensures old(|sections|) + 5 <= PAGE_SIZE ==> ok
    {
      hide PagesDirect, Progress, Coherent, Direct, Used;
      NothingAdded(direct, pieces, section);
      var now, remain := section, section;
      ok := true;
      if now.start % PAGE_SIZE != 0 {
        var left := PAGE_SIZE - now.start % PAGE_SIZE;
        now := now.(size := if left < now.size then left else now.size);
        ok := RegisterPart(now, false, section, old(pieces));
        if !ok { return; }
      } else {
        now := now.(size := 0);
      }
      while remain.size != now.size
        invariant Valid() && Progress(old(pieces), pieces, section, remain.start + now.size)
        invariant old(direct) <= direct && PagesDirect(direct, section, remain.start + now.size)
        invariant PartOf(remain, section) && remain.start + remain.size == section.start + section.size
        invariant now.size <= remain.size
        invariant now.size < remain.size ==> (remain.start + now.size) % PAGE_SIZE == 0
        invariant |sections| + Cost(remain.size - now.size) <= old(|sections|) + 5
        decreases remain.size - now.size
      {
        remain := Section(remain.mr, remain.start + now.size, remain.off + now.size, remain.size - now.size);
        ok, now := RegisterNext(remain, section, old(pieces));
        if !ok { return; }
      }
    }

    /** The finished, compressed map. */
    ghost predicate Committed(built: View)
      reads this, pmap
    {
      && pmap.Valid() && Coherent(built)
      && V() == built.(nodes := pmap.nodes, root := pmap.root)
      && Coarser(built.nodes, built.root, pmap.nodes, pmap.root, LEVELS, 0) && Tight(pmap.nodes, pmap.root, LEVELS)
    }

    /** mem_commit, without the publication of the new map. */
    method Commit()
      requires Valid()
      modifies pmap
      ensures Committed(old(V()))
    {
      pmap.CompactAll();
    }

    /** address_space_lookup_region on a finished map. */
    method LookupRegion(addr: nat, resolveSubpage: bool, ghost built: View) returns (s: Section)
      requires Committed(built) && addr < ADDRESSES
      ensures resolveSubpage ==> s == AnswerAt(built, addr)
      ensures !resolveSubpage ==> s == built.sections[Look(built.nodes, built.root, addr / PAGE_SIZE)]
    {
      CompressionPreservesFound(built, V(), addr);
      FoundIsLook(built, addr);
      var n := PhysPageFind(addr);
      s := sections[n];
      if resolveSubpage && s.mr.Subpage? {
        var k := subs[s.mr.id].sub[addr % PAGE_SIZE];
        s := sections[k];
      }
    }
  }

  /** A whole update of an address space: begin, add every section, commit.  The finished
      dispatch map refines the flat view, for every list of non-empty disjoint sections. */
  method BuildDispatch(list: seq<Section>) returns (ok: bool, d: AddressSpaceDispatch, ghost built: View)
    requires forall i :: 0 <= i < |list| ==> ClientSection(list[i])
    requires PairwiseDisjoint(list)
    ensures fresh(d) && fresh(d.pmap)
    ensures ok ==> d.Committed(built) && RefinesFlat(built, list) && WholePagesDirect(built, list)
    ensures 4 + 5 * |list| <= PAGE_SIZE ==> ok
  {
    hide PiecesOf, RefinesFlat, ClientSection, Disjoint, PairwiseDisjoint, PagesDirect, WholePagesDirect;
    d := new AddressSpaceDispatch();
    ok, built := true, d.V();
    NoPieces(list);
    var i := 0;
    while i < |list|
      invariant 0 <= i <= |list|
      invariant fresh(d) && fresh(d.pmap)
      invariant d.Valid() && PiecesOf(d.pieces, list[..i])
      invariant |d.sections| <= 4 + 5 * i
      invariant forall j :: 0 <= j < i ==> PagesDirect(d.direct, list[j], list[j].start + list[j].size)
    {
      PiecesApart(d.pieces, list, i);
      ghost var before, direct := d.pieces, d.direct;
      ok := d.MemAdd(list[i]);
      if !ok { return; }
      forall j | 0 <= j < i
        ensures PagesDirect(d.direct, list[j], list[j].start + list[j].size)
      {
        PagesDirectMore(direct, d.direct, list[j], list[j].start + list[j].size);
      }
      PiecesNext(before, d.pieces, list[..i], list[i]);
      assert list[..i] + [list[i]] == list[..i + 1];
      i := i + 1;
    }
    assert list[..i] == list;
    built := d.V();
    PiecesRefineFlat(built, list);
    DirectFlat(built, d.direct, list);
    d.Commit();
  }
}
