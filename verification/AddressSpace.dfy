/** Address spaces as maps from page numbers, and what may change while one of them grows or
    shrinks. */
module AddressSpace {
  import opened PageTables

  const VPAGES: nat := 0x10_0000
  const UPAGES: nat := 0x8_0000   // KERNBASE / PGSIZE

  /** The page table entry for virtual page w. */
  function PteAt(m: Mem, d: nat, w: nat): Word
    requires d < |m.pages| && w < VPAGES
  {
    Pte(m, d, w / 1024, w % 1024)
  }

  lemma SplitPage(w: nat, i: nat, j: nat)
    requires j < 1024
    ensures (w / 1024 == i && w % 1024 == j) <==> w == i * 1024 + j
  {
  }

  /** A page of the address space d: directory, page table or user page. */
  predicate Of(o: Owner, p: nat, d: nat) {
    Mine(o, p, d) || (o.User? && o.dir == d)
  }

  /** Only d grew: no page that was in use changed hands, and none but d's directory and page
      tables changed contents.  Page u is excepted. */
  ghost predicate Grown(m: Mem, owner: map<nat, Owner>, r: Mem, o: map<nat, Owner>, d: nat, u: nat) {
    && |r.pages| == |m.pages| == TOP && o.Keys == owner.Keys
    && (forall p {:trigger owner[p]} {:trigger o[p]} :: p in owner && p < TOP && p != u && owner[p] != Free ==>
          o[p] == owner[p] && (Mine(owner[p], p, d) || r.pages[p] == m.pages[p]))
    && (forall p {:trigger owner[p]} {:trigger o[p]} :: p in owner && p < TOP && p != u && owner[p] == Free ==>
          o[p] == Free || Of(o[p], p, d))
  }

  lemma GrownTwice(m: Mem, owner: map<nat, Owner>, m1: Mem, o1: map<nat, Owner>, r: Mem, o: map<nat, Owner>, d: nat, u: nat)
    requires Grown(m, owner, m1, o1, d, u) && Grown(m1, o1, r, o, d, u)
    ensures Grown(m, owner, r, o, d, u)
  {
  }

  /** The entries of d outside one page are as they were. */
  ghost predicate SameBut(m: Mem, r: Mem, d: nat, w: nat, n: nat) {
    && |r.pages| == |m.pages| && d < |m.pages|
    && forall v {:trigger PteAt(r, d, v)} :: 0 <= v < VPAGES && !(w <= v < w + n) ==> PteAt(r, d, v) == PteAt(m, d, v)
  }

  /** The other address spaces map as before. */
  lemma OtherSpaces(m: Mem, lo: nat, owner: map<nat, Owner>, r: Mem, o: map<nat, Owner>, d: nat, u: nat, d': nat)
    requires Owned(m, lo, owner) && Grown(m, owner, r, o, d, u) && DirAt(m, owner, d') && d' != d
    requires u in owner ==> owner[u] == Free || owner[u] == Held
    ensures DirAt(r, o, d') && SameBut(m, r, d', 0, 0)
  {
    forall v {:trigger PteAt(r, d', v)} | 0 <= v < VPAGES ensures PteAt(r, d', v) == PteAt(m, d', v) {
      assert Pde(r, d', v / 1024) == Pde(m, d', v / 1024);
      if Present(Pde(m, d', v / 1024)) {
        assert owner[Pfn(Pde(m, d', v / 1024))] == Table(d', v / 1024);
      }
    }
  }

  /** User pages of d from virtual page `from` up to `to` went back to the free list; no other
      page changed hands, and none but these and d's page tables changed contents. */
  ghost predicate Shrunk(m: Mem, owner: map<nat, Owner>, r: Mem, o: map<nat, Owner>, d: nat, from: nat, to: nat) {
    PagesLeft(m, owner, r, o, d, from, to) && Unmapped(m, r, d, from, to)
  }

  ghost predicate PagesLeft(m: Mem, owner: map<nat, Owner>, r: Mem, o: map<nat, Owner>, d: nat, from: nat, to: nat) {
    && |r.pages| == |m.pages| == TOP && o.Keys == owner.Keys && d < TOP && r.pages[d] == m.pages[d]
    && (forall p {:trigger owner[p]} {:trigger o[p]} :: p in owner && p < TOP ==>
          o[p] == if Leaving(owner[p], d, from, to) then Free else owner[p])
    && (forall p {:trigger owner[p]} {:trigger o[p]} :: p in owner && p < TOP && o[p] != Free && !Mine(owner[p], p, d) ==>
          r.pages[p] == m.pages[p])
  }

  /** d's entries from virtual page `from` up to `to` are gone, its others as they were. */
  ghost predicate Unmapped(m: Mem, r: Mem, d: nat, from: nat, to: nat) {
    && |r.pages| == |m.pages| == TOP && d < TOP
    && (forall v {:trigger PteAt(r, d, v)} :: 0 <= v < VPAGES && !(from <= v < to) ==> PteAt(r, d, v) == PteAt(m, d, v))
    && (forall v {:trigger PteAt(r, d, v)} :: from <= v < to && v < VPAGES ==> !Present(PteAt(r, d, v)))
  }

  predicate Leaving(o: Owner, d: nat, from: nat, to: nat) {
    o.User? && o.dir == d && from <= o.i * 1024 + o.j < to
  }

  lemma ShrunkNot(m: Mem, lo: nat, owner: map<nat, Owner>, d: nat, from: nat)
    requires Owned(m, lo, owner) && DirAt(m, owner, d)
    ensures Shrunk(m, owner, m, owner, d, from, from)
  {
  }

  /** A user page is given back and its entry cleared. */
  ghost function Released(m: Mem, d: nat, w: nat): Mem
    requires |m.pages| == TOP && d < TOP && w < UPAGES
    requires Pfn(Pde(m, d, w / 1024)) < TOP && Pfn(PteAt(m, d, w)) < TOP
  {
    Given(WithPte(m, d, w / 1024, w % 1024, 0), Pfn(PteAt(m, d, w)))
  }

  lemma ReleaseKeeps(m: Mem, lo: nat, owner: map<nat, Owner>, d: nat, w: nat)
    requires Owned(m, lo, owner) && DirAt(m, owner, d) && w < UPAGES && Present(PteAt(m, d, w))
    ensures var t, u := Pfn(Pde(m, d, w / 1024)), Pfn(PteAt(m, d, w));
            && t in owner && t < TOP && owner[t] == Table(d, w / 1024)
            && u in owner && lo <= u < TOP && owner[u] == User(d, w / 1024, w % 1024)
            && Owned(Released(m, d, w), lo, owner[u := Free])
    ensures forall v {:trigger PteAt(Released(m, d, w), d, v)} :: 0 <= v < VPAGES ==>
              PteAt(Released(m, d, w), d, v) == if v == w then 0 else PteAt(m, d, v)
  {
    var i, j := w / 1024, w % 1024;
    var u, t := Pfn(PteAt(m, d, w)), Pfn(Pde(m, d, i));
    UnmapKeeps(m, lo, owner, d, i, j);
    StorePte(m, lo, owner, d, i, j, 0);
    var m2, o2 := WithPte(m, d, i, j, 0), owner[u := Held];
    GiveKeeps(m2, lo, o2, u);
    assert o2[u := Free] == owner[u := Free];
    forall v {:trigger PteAt(Released(m, d, w), d, v)} | 0 <= v < VPAGES
      ensures PteAt(Released(m, d, w), d, v) == if v == w then 0 else PteAt(m, d, v)
    {
      SplitPage(w, v / 1024, v % 1024);
      assert Pte(Released(m, d, w), d, v / 1024, v % 1024) == Pte(m2, d, v / 1024, v % 1024);
    }
  }

  /** One more page leaves. */
  lemma ShrunkMore(m: Mem, lo: nat, owner: map<nat, Owner>, m1: Mem, o1: map<nat, Owner>, d: nat, from: nat, w: nat)
    requires Owned(m, lo, owner) && Shrunk(m, owner, m1, o1, d, from, w) && Owned(m1, lo, o1) && DirAt(m1, o1, d)
    requires from <= w < UPAGES && Present(PteAt(m1, d, w))
    ensures Pfn(Pde(m1, d, w / 1024)) < TOP && Pfn(PteAt(m1, d, w)) < TOP
    ensures Shrunk(m, owner, Released(m1, d, w), o1[Pfn(PteAt(m1, d, w)) := Free], d, from, w + 1)
  {
    ReleaseKeeps(m1, lo, o1, d, w);
    OneLeaves(m1, lo, o1, d, w);
    SplitPage(w, w / 1024, w % 1024);
    var t, u := Pfn(Pde(m1, d, w / 1024)), Pfn(PteAt(m1, d, w));
    assert o1[t] == Table(d, w / 1024) && o1[u] == User(d, w / 1024, w % 1024);
    PagesLeftMore(m, owner, m1, o1, Released(m1, d, w), d, from, w, t, u);
    UnmappedMore(m, m1, Released(m1, d, w), d, from, w);
  }

  lemma PagesLeftMore(m: Mem, owner: map<nat, Owner>, m1: Mem, o1: map<nat, Owner>, r: Mem, d: nat, from: nat, w: nat, t: nat, u: nat)
    requires PagesLeft(m, owner, m1, o1, d, from, w) && from <= w && d in o1 && o1[d] == Dir
    requires |r.pages| == TOP && u in o1 && u < TOP && Leaving(o1[u], d, w, w + 1)
    requires forall p {:trigger o1[p]} :: p in o1 && Leaving(o1[p], d, w, w + 1) ==> p == u
    requires t in o1 && t < TOP && o1[t].Table? && o1[t].dir == d
    requires forall p :: 0 <= p < TOP && p != t && p != u ==> r.pages[p] == m1.pages[p]
    ensures PagesLeft(m, owner, r, o1[u := Free], d, from, w + 1)
  {
  }

  lemma UnmappedMore(m: Mem, m1: Mem, r: Mem, d: nat, from: nat, w: nat)
    requires Unmapped(m, m1, d, from, w) && |r.pages| == TOP && from <= w < VPAGES
    requires forall v {:trigger PteAt(r, d, v)} :: 0 <= v < VPAGES ==> PteAt(r, d, v) == if v == w then 0 else PteAt(m1, d, v)
    ensures Unmapped(m, r, d, from, w + 1)
  {
  }

  lemma OneLeaves(m: Mem, lo: nat, owner: map<nat, Owner>, d: nat, w: nat)
    requires Owned(m, lo, owner) && DirAt(m, owner, d) && w < UPAGES
    ensures forall p {:trigger owner[p]} :: p in owner && Leaving(owner[p], d, w, w + 1) ==> p == Pfn(PteAt(m, d, w))
  {
    forall p {:trigger owner[p]} | p in owner && Leaving(owner[p], d, w, w + 1) ensures p == Pfn(PteAt(m, d, w)) {
      assert Points(m, owner, p);
      SplitPage(w, owner[p].i, owner[p].j);
    }
  }

  // ---- growing by zeroed pages -----------------------------------------------------------

  /** d's virtual pages from `from` up to `to` are mapped to zeroed pages of their own; its other
      entries are as they were. */
  ghost predicate ZeroMapped(m: Mem, r: Mem, o: map<nat, Owner>, d: nat, from: nat, to: nat) {
    && |r.pages| == |m.pages| == TOP && d < TOP && from <= to <= VPAGES && SameBut(m, r, d, from, to - from)
    && forall v {:trigger PteAt(r, d, v)} {:trigger ZeroAt(r, o, d, v)} :: from <= v < to ==> ZeroAt(r, o, d, v)
  }

  ghost predicate ZeroAt(r: Mem, o: map<nat, Owner>, d: nat, v: nat)
    requires |r.pages| == TOP && d < TOP && v < VPAGES
  {
    var e := PteAt(r, d, v);
    && Present(e) && Flags(e) == 7 && Pfn(e) < TOP && Pfn(e) in o && o[Pfn(e)] == User(d, v / 1024, v % 1024)
    && r.pages[Pfn(e)] == ZeroPage()
  }

  /** As Grown, with page u, free in m, in the caller's hands. */
  ghost predicate Spare(m: Mem, owner: map<nat, Owner>, r: Mem, o: map<nat, Owner>, d: nat, u: nat) {
    Grown(m, owner, r, o, d, u) && u in o && u < TOP && o[u] == Held && owner[u] == Free
  }

  lemma SpareTaken(m: Mem, owner: map<nat, Owner>, m0: Mem, lo: nat, o0: map<nat, Owner>, r: Mem, d: nat, u: nat)
    requires Grown(m, owner, m0, o0, d, TOP) && u in o0 && u < TOP && o0[u] == Free && |r.pages| == TOP
    requires forall p :: 0 <= p < TOP && p != u ==> r.pages[p] == m0.pages[p]
    ensures Spare(m, owner, r, o0[u := Held], d, u)
  {
  }

  lemma PtesKept(m: Mem, r: Mem, owner: map<nat, Owner>, d: nat)
    requires SamePtes(m, r, owner) && DirAt(m, owner, d)
    ensures SameBut(m, r, d, 0, 0)
  {
    forall v {:trigger PteAt(r, d, v)} | 0 <= v < VPAGES ensures PteAt(r, d, v) == PteAt(m, d, v) {
      assert Pte(r, d, v / 1024, v % 1024) == Pte(m, d, v / 1024, v % 1024);
    }
  }

  lemma PageMappedGrown(m: Mem, owner: map<nat, Owner>, m1: Mem, o1: map<nat, Owner>, r: Mem, o: map<nat, Owner>, d: nat, u: nat)
    requires Spare(m, owner, m1, o1, d, u) && Grown(m1, o1, r, o, d, u) && o[u].User? && o[u].dir == d
    ensures Grown(m, owner, r, o, d, TOP)
  {
  }

  /** One more zeroed page. */
  lemma PageMapped(m: Mem, m0: Mem, o0: map<nat, Owner>, m1: Mem, o1: map<nat, Owner>, r: Mem, o: map<nat, Owner>,
                   d: nat, from: nat, a: nat, u: nat)
    requires ZeroMapped(m, m0, o0, d, from, a) && a < VPAGES && u in o0 && u < TOP && o0[u] == Free
    requires |m1.pages| == TOP && m1.pages == m0.pages[u := ZeroPage()] && o1 == o0[u := Held] && SameBut(m0, m1, d, 0, 0)
    requires Grown(m1, o1, r, o, d, u) && SameBut(m1, r, d, a, 1)
    requires PteAt(r, d, a) == MkPte(u, 6) && o[u] == User(d, a / 1024, a % 1024) && r.pages[u] == m1.pages[u]
    ensures ZeroMapped(m, r, o, d, from, a + 1)
  {
    forall v {:trigger PteAt(r, d, v)} | 0 <= v < VPAGES && v != a ensures PteAt(r, d, v) == PteAt(m0, d, v) {
      assert PteAt(r, d, v) == PteAt(m1, d, v);
    }
    forall v {:trigger ZeroAt(r, o, d, v)} | from <= v < a + 1 ensures ZeroAt(r, o, d, v) {
      if v < a {
        assert ZeroAt(m0, o0, d, v);
        assert o0[Pfn(PteAt(m0, d, v))] != Free;
      }
    }
    assert SameBut(m, r, d, from, a + 1 - from);
  }

  lemma SameThrough(m: Mem, m0: Mem, r: Mem, d: nat, w: nat, n: nat)
    requires SameBut(m, m0, d, w, n) && SameBut(m0, r, d, 0, 0)
    ensures SameBut(m, r, d, w, n)
  {
    forall v {:trigger PteAt(r, d, v)} | 0 <= v < VPAGES && !(w <= v < w + n) ensures PteAt(r, d, v) == PteAt(m, d, v) {
      assert PteAt(r, d, v) == PteAt(m0, d, v);
    }
  }

  /** deallocuvm takes back what was added since m. */
  lemma Undone(m: Mem, lo: nat, owner: map<nat, Owner>, m1: Mem, o1: map<nat, Owner>, r: Mem, o: map<nat, Owner>,
               d: nat, from: nat, to: nat, u: nat)
    requires Owned(m, lo, owner) && DirAt(m, owner, d) && Grown(m, owner, m1, o1, d, u) && Shrunk(m1, o1, r, o, d, from, to)
    requires from <= to <= UPAGES && SameBut(m, m1, d, from, to - from)
    requires forall v {:trigger PteAt(m, d, v)} :: from <= v < to ==> !Present(PteAt(m, d, v))
    ensures Grown(m, owner, r, o, d, u) && Unmapped(m, r, d, from, to)
  {
    forall p {:trigger owner[p]} | p in owner && p < TOP ensures !Leaving(owner[p], d, from, to) {
      assert Points(m, owner, p);
      if owner[p].User? && owner[p].dir == d {
        var v := owner[p].i * 1024 + owner[p].j;
        SplitPage(v, owner[p].i, owner[p].j);
        assert PteAt(m, d, v) == Pte(m, d, owner[p].i, owner[p].j);
      }
    }
    forall v {:trigger PteAt(r, d, v)} | 0 <= v < VPAGES && !(from <= v < to) ensures PteAt(r, d, v) == PteAt(m, d, v) {
      assert PteAt(r, d, v) == PteAt(m1, d, v);
    }
  }

  lemma SpareGiven(m: Mem, owner: map<nat, Owner>, m2: Mem, o2: map<nat, Owner>, d: nat, u: nat)
    requires Spare(m, owner, m2, o2, d, u)
    ensures Grown(m, owner, Given(m2, u), o2[u := Free], d, TOP)
  {
  }

  lemma UnmappedThrough(m: Mem, m2: Mem, r: Mem, d: nat, from: nat, to: nat)
    requires Unmapped(m, m2, d, from, to) && SameBut(m2, r, d, 0, 0)
    ensures Unmapped(m, r, d, from, to)
  {
    forall v {:trigger PteAt(r, d, v)} | 0 <= v < VPAGES ensures PteAt(r, d, v) == PteAt(m2, d, v) {
    }
  }

  // ---- whole address spaces ----------------------------------------------------------------

  /** Nobody gained or lost a page, and no page in use changed contents. */
  ghost predicate Restored(m: Mem, owner: map<nat, Owner>, r: Mem, o: map<nat, Owner>) {
    && |r.pages| == |m.pages| == TOP && o == owner
    && forall p {:trigger owner[p]} :: p in owner && p < TOP && owner[p] != Free ==> r.pages[p] == m.pages[p]
  }

  /** Every page of d is free, and nothing else changed. */
  ghost predicate Gone(m: Mem, owner: map<nat, Owner>, r: Mem, o: map<nat, Owner>, d: nat) {
    && |r.pages| == |m.pages| == TOP && o.Keys == owner.Keys
    && (forall p {:trigger owner[p]} {:trigger o[p]} :: p in owner && p < TOP ==>
          && o[p] == (if Of(owner[p], p, d) then Free else owner[p])
          && (o[p] != Free ==> r.pages[p] == m.pages[p]))
  }

  /** An address space that was built since m and then freed leaves no trace. */
  lemma BuiltAndGone(m: Mem, lo: nat, owner: map<nat, Owner>, m1: Mem, o1: map<nat, Owner>, r: Mem, o: map<nat, Owner>, d: nat)
    requires Owned(m, lo, owner) && d in owner && owner[d] == Free
    requires Grown(m, owner, m1, o1, d, TOP) && Gone(m1, o1, r, o, d)
    ensures Restored(m, owner, r, o)
  {
    forall p {:trigger owner[p]} | p in owner
      ensures p < TOP && o[p] == owner[p] && (owner[p] != Free ==> r.pages[p] == m.pages[p])
    {
      assert Points(m, owner, p);
    }
  }

  /** The entry the kernel's map gives to virtual page v; the kernel's data starts at page
      `data`. */
  function KernPte(v: nat, data: nat): Word
    requires v < VPAGES
  {
    if v < 0x8_0000 then 0
    else if v < 0x8_0100 then MkPte(v - 0x8_0000, 2)
    else if v < 0x8_0000 + data then MkPte(v - 0x8_0000, 0)
    else if v < 0x8_E000 then MkPte(v - 0x8_0000, 2)
    else if v < 0xF_E000 then 0
    else MkPte(v, 2)
  }

  /** d maps the kernel as every process does, and below KERNBASE nothing from page n on. */
  ghost predicate KernelFrom(m: Mem, d: nat, data: nat, n: nat) {
    && |m.pages| == TOP && d < TOP
    && forall v {:trigger PteAt(m, d, v)} :: n <= v < VPAGES ==> PteAt(m, d, v) == KernPte(v, data)
  }

  /** c's first n pages hold what d's hold, under the same flags, in pages of c's own. */
  ghost predicate Copied(m: Mem, o: map<nat, Owner>, d: nat, c: nat, n: nat) {
    && |m.pages| == TOP && d < TOP && c < TOP && n <= UPAGES
    && forall v {:trigger PteAt(m, c, v)} {:trigger CopiedAt(m, o, d, c, v)} :: 0 <= v < n ==> CopiedAt(m, o, d, c, v)
  }

  ghost predicate CopiedAt(m: Mem, o: map<nat, Owner>, d: nat, c: nat, v: nat)
    requires |m.pages| == TOP && d < TOP && c < TOP && v < VPAGES
  {
    var e, f := PteAt(m, d, v), PteAt(m, c, v);
    && Present(f) && Flags(f) == Flags(e) && Pfn(e) < TOP && Pfn(f) < TOP
    && Pfn(f) in o && o[Pfn(f)] == User(c, v / 1024, v % 1024) && m.pages[Pfn(f)] == m.pages[Pfn(e)]
  }

  /** The copies lie on pages that differ from one another. */
  lemma CopiesDisjoint(m: Mem, o: map<nat, Owner>, d: nat, c: nat, n: nat, v: nat, w: nat)
    requires Copied(m, o, d, c, n) && v < n && w < n && v != w
    ensures Pfn(PteAt(m, c, v)) != Pfn(PteAt(m, c, w))
  {
    assert CopiedAt(m, o, d, c, v) && CopiedAt(m, o, d, c, w);
    SplitPage(v, w / 1024, w % 1024);
    SplitPage(w, w / 1024, w % 1024);
  }

  /** The copies lie on pages that differ from the parent's. */
  lemma CopiesApart(m: Mem, lo: nat, o: map<nat, Owner>, d: nat, c: nat, n: nat, v: nat, w: nat)
    requires Owned(m, lo, o) && DirAt(m, o, d) && Copied(m, o, d, c, n) && c != d
    requires v < n && w < UPAGES && Present(PteAt(m, d, w))
    ensures Pfn(PteAt(m, c, v)) != Pfn(PteAt(m, d, w))
  {
    assert CopiedAt(m, o, d, c, v);
    UnmapKeeps(m, lo, o, d, w / 1024, w % 1024);
  }

  /** One more page copied: page u, filled with what d's page i holds, is mapped as c's page i. */
  lemma CopyMore(m: Mem, lo: nat, owner: map<nat, Owner>, m0: Mem, o0: map<nat, Owner>, m1: Mem, o1: map<nat, Owner>,
                 r: Mem, o: map<nat, Owner>, d: nat, c: nat, i: nat, u: nat)
    requires Owned(m, lo, owner) && DirAt(m, owner, d) && i < UPAGES && Present(PteAt(m, d, i))
    requires Grown(m, owner, m0, o0, c, TOP) && Copied(m0, o0, d, c, i) && SameBut(m, m0, d, 0, 0) && SameBut(m, r, d, 0, 0)
    requires u in o0 && u < TOP && o0[u] == Free && o1 == o0[u := Held] && Pfn(PteAt(m, d, i)) < TOP
    requires |m1.pages| == TOP && m1.pages == m0.pages[u := m0.pages[Pfn(PteAt(m, d, i))]] && SameBut(m0, m1, c, 0, 0)
    requires Grown(m1, o1, r, o, c, u) && SameBut(m1, r, c, i, 1)
    requires PteAt(r, c, i) == MkPte(u, Flags(PteAt(m, d, i))) && o[u] == User(c, i / 1024, i % 1024) && r.pages[u] == m1.pages[u]
    ensures Copied(r, o, d, c, i + 1)
  {
    SourceKept(m, lo, owner, m0, o0, m1, o1, r, o, d, c, i, u);
    assert CopiedAt(r, o, d, c, i);
    hide Owned;
    forall v {:trigger CopiedAt(r, o, d, c, v)} | 0 <= v < i ensures CopiedAt(r, o, d, c, v) {
      assert PteAt(r, d, v) == PteAt(m, d, v) == PteAt(m0, d, v);
      assert CopiedAt(m0, o0, d, c, v);
      assert PteAt(r, c, v) == PteAt(m1, c, v) == PteAt(m0, c, v);
      FlagsPresent(PteAt(m, d, v), PteAt(r, c, v));
      SourceKept(m, lo, owner, m0, o0, m1, o1, r, o, d, c, v, u);
      UserKept(m0, o0, m1, o1, r, o, c, Pfn(PteAt(m0, c, v)), u);
    }
  }

  lemma FlagsPresent(e: nat, f: nat)
    requires Flags(e) == Flags(f)
    ensures Present(e) <==> Present(f)
  {
    LowBit(e);
    LowBit(f);
  }

  lemma LowBit(e: nat)
    ensures e % 2 == e % 4096 % 2
  {
    assert e == 2 * (2048 * (e / 4096)) + e % 4096;
  }

  /** The pages being copied do not change. */
  lemma SourceKept(m: Mem, lo: nat, owner: map<nat, Owner>, m0: Mem, o0: map<nat, Owner>, m1: Mem, o1: map<nat, Owner>,
                   r: Mem, o: map<nat, Owner>, d: nat, c: nat, v: nat, u: nat)
    requires Owned(m, lo, owner) && DirAt(m, owner, d) && v < UPAGES && Present(PteAt(m, d, v))
    requires Grown(m, owner, m0, o0, c, TOP) && u in o0 && u < TOP && o0[u] == Free && o1 == o0[u := Held]
    requires |m1.pages| == TOP && (forall p :: 0 <= p < TOP && p != u ==> m1.pages[p] == m0.pages[p]) && Grown(m1, o1, r, o, c, u)
    ensures var p := Pfn(PteAt(m, d, v)); p < TOP && p != u && r.pages[p] == m0.pages[p]
  {
    var p := Pfn(PteAt(m, d, v));
    assert owner[p] == User(d, v / 1024, v % 1024);
    UserKept(m0, o0, m1, o1, r, o, c, p, u);
  }

  lemma UserKept(m0: Mem, o0: map<nat, Owner>, m1: Mem, o1: map<nat, Owner>, r: Mem, o: map<nat, Owner>, c: nat, p: nat, u: nat)
    requires |m0.pages| == TOP && p in o0 && p < TOP && o0[p].User?
    requires u in o0 && u < TOP && o0[u] == Free && o1 == o0[u := Held]
    requires |m1.pages| == TOP && (forall q :: 0 <= q < TOP && q != u ==> m1.pages[q] == m0.pages[q]) && Grown(m1, o1, r, o, c, u)
    ensures p != u && o[p] == o0[p] && r.pages[p] == m0.pages[p]
  {
    assert o1[p] == o0[p];
  }
}
