/** Physical memory as one value: the free pages, the two-level page tables of every address
    space, and the owner of every page. */
module PageTables {
  const PGSIZE: nat := 4096
  const TOP: nat := 0xE000           // PHYSTOP / PGSIZE
  const KERNBASE: nat := 0x8000_0000
  const UDIR: nat := 512             // page directory entries below KERNBASE

  type Word = x: nat | x < 0x1_0000_0000 witness 0
  type Page = s: seq<Word> | |s| == 1024 witness seq(1024, _ => 0)

  /** memset(v, 0, PGSIZE) */
  function ZeroPage(): (s: Page)
    ensures forall j :: 0 <= j < 1024 ==> s[j] == 0
  {
    seq(1024, _ => 0)
  }

  /** What kfree leaves in a page: junk, and in its first word the next free page. */
  function FreedPage(next: Word): (s: Page)
    ensures s[0] == next
  {
    [next] + seq(1023, _ => 0x0101_0101)
  }

  // ---- entries: a page number and 12 bits of flags ----------------------------------

  predicate Present(e: nat) {
    e % 2 == 1
  }

  function Pfn(e: nat): nat {
    e / 4096
  }

  function Flags(e: nat): nat {
    e % 4096
  }

  /** pa | perm | PTE_P, for the page-aligned pa of page p. */
  function MkPte(p: nat, perm: nat): (e: Word)
    requires p < 0x10_0000 && perm < 4096
    ensures Present(e) && Pfn(e) == p && Flags(e) == if Present(perm) then perm else perm + 1
  {
    p * 4096 + if perm % 2 == 1 then perm else perm + 1
  }

  // ---- owners -----------------------------------------------------------------------

  /** Held pages belong to the caller: kernel stacks, or pages on their way somewhere. */
  datatype Owner = Free | Held | Dir | Table(dir: nat, i: nat) | User(dir: nat, i: nat, j: nat)

  datatype Mem = Mem(pages: seq<Page>, free: seq<nat>, head: Word)

  /** P2V of page p's address. */
  function Ka(p: nat): (a: Word)
    requires p < TOP
  {
    p * 4096 + KERNBASE
  }

  function Pde(m: Mem, d: nat, i: nat): Word
    requires d < |m.pages| && i < 1024
  {
    m.pages[d][i]
  }

  /** The page table entry that d's directory leads to, 0 if there is no table. */
  function Pte(m: Mem, d: nat, i: nat, j: nat): Word
    requires d < |m.pages| && i < 1024 && j < 1024
  {
    if Present(Pde(m, d, i)) && Pfn(Pde(m, d, i)) < |m.pages| then m.pages[Pfn(Pde(m, d, i))][j] else 0
  }

  /** The invariant.  `owner` is total on the pages kalloc manages, so free pages, page
      tables, user pages and held pages partition them. */
  ghost predicate Owned(m: Mem, lo: nat, owner: map<nat, Owner>) {
    && |m.pages| == TOP && 0 < lo <= TOP
    && (forall p {:trigger p in owner} :: p in owner <==> lo <= p < TOP)
    && FreeOk(m, owner) && Linked(m) && DirsOk(m, owner) && TablesOk(m, owner)
    && (forall p {:trigger owner[p]} :: p in owner ==> p < TOP && Points(m, owner, p))
  }

  /** The free list has exactly the free pages, each once. */
  ghost predicate FreeOk(m: Mem, owner: map<nat, Owner>) {
    && (forall k {:trigger m.free[k]} :: 0 <= k < |m.free| ==> m.free[k] in owner && owner[m.free[k]] == Free)
    && (forall k, l {:trigger m.free[k], m.free[l]} :: 0 <= k < l < |m.free| ==> m.free[k] != m.free[l])
    && (forall p {:trigger owner[p]} :: p in owner && owner[p] == Free ==> p in m.free)
  }

  /** The pointer to the k-th free page. */
  ghost function Next(m: Mem, k: nat): nat {
    if k < |m.free| && m.free[k] < TOP then Ka(m.free[k]) else 0
  }

  /** kmem.freelist and the next pointers in the free pages. */
  ghost predicate Linked(m: Mem) {
    && m.head == Next(m, 0)
    && forall k {:trigger LinkOk(m, k)} :: 0 <= k < |m.free| ==> LinkOk(m, k)
  }

  ghost predicate LinkOk(m: Mem, k: nat)
    requires k < |m.free|
  {
    m.free[k] < |m.pages| && m.pages[m.free[k]][0] == Next(m, k + 1)
  }

  ghost predicate DirsOk(m: Mem, owner: map<nat, Owner>)
    requires |m.pages| == TOP
  {
    forall d, i {:trigger Pde(m, d, i)} :: d in owner && d < TOP && owner[d] == Dir && 0 <= i < 1024 && Present(Pde(m, d, i)) ==>
      Pfn(Pde(m, d, i)) in owner && owner[Pfn(Pde(m, d, i))] == Table(d, i)
  }

  ghost predicate TablesOk(m: Mem, owner: map<nat, Owner>)
    requires |m.pages| == TOP
  {
    forall d, i, j {:trigger Pte(m, d, i, j)} ::
      d in owner && d < TOP && owner[d] == Dir && 0 <= i < UDIR && 0 <= j < 1024 && Present(Pte(m, d, i, j)) ==>
      Pfn(Pte(m, d, i, j)) in owner && owner[Pfn(Pte(m, d, i, j))] == User(d, i, j)
  }

  ghost predicate Points(m: Mem, owner: map<nat, Owner>, p: nat)
    requires |m.pages| == TOP && p in owner && p < TOP
  {
    match owner[p]
    case Table(d, i) => d in owner && d < TOP && owner[d] == Dir && i < 1024 && Present(Pde(m, d, i)) && Pfn(Pde(m, d, i)) == p
    case User(d, i, j) =>
      d in owner && d < TOP && owner[d] == Dir && i < UDIR && j < 1024 && Present(Pte(m, d, i, j)) && Pfn(Pte(m, d, i, j)) == p
    case _ => true
  }

  ghost predicate DirAt(m: Mem, owner: map<nat, Owner>, d: nat) {
    d in owner && owner[d] == Dir && d < |m.pages|
  }

  function WithPage(m: Mem, p: nat, s: Page): (r: Mem)
    requires p < |m.pages|
    ensures |r.pages| == |m.pages| && r.free == m.free && r.head == m.head
  {
    Mem(m.pages[p := s], m.free, m.head)
  }

  // ---- kalloc and kfree ---------------------------------------------------------------

  /** kalloc takes the first free page. */
  ghost function Taken(m: Mem): Mem
    requires m.free != [] && m.free[0] < |m.pages|
  {
    Mem(m.pages, m.free[1..], m.pages[m.free[0]][0])
  }

  lemma TakeKeeps(m: Mem, lo: nat, owner: map<nat, Owner>)
    requires Owned(m, lo, owner) && m.free != []
    ensures var p := m.free[0];
            && p in owner && owner[p] == Free && lo <= p < TOP && m.head == Ka(p)
            && Owned(Taken(m), lo, owner[p := Held])
  {
    var p := m.free[0];
    assert owner[p] == Free;
    SameTables(m, Taken(m), lo, owner, owner[p := Held]);
    TakeFree(m, owner);
  }

  lemma TakeFree(m: Mem, owner: map<nat, Owner>)
    requires FreeOk(m, owner) && Linked(m) && m.free != []
    ensures m.free[0] < |m.pages|
    ensures FreeOk(Taken(m), owner[m.free[0] := Held]) && Linked(Taken(m))
  {
    var p := m.free[0];
    assert LinkOk(m, 0);
    var r, o := Taken(m), owner[p := Held];
    assert forall k {:trigger r.free[k]} :: 0 <= k < |r.free| ==> r.free[k] == m.free[k + 1] && r.free[k] != m.free[0];
    forall k | 0 <= k < |r.free| ensures LinkOk(r, k) {
      assert LinkOk(m, k + 1);
      assert Next(r, k + 1) == Next(m, k + 2);
    }
    forall q {:trigger o[q]} | q in o && o[q] == Free ensures q in r.free {
      assert owner[q] == Free && q in m.free && q != m.free[0];
      assert m.free == [m.free[0]] + r.free;
    }
  }

  /** kfree of page p: junk, and the page becomes the head of the list. */
  ghost function Given(m: Mem, p: nat): Mem
    requires p < |m.pages| && p < TOP
  {
    Mem(m.pages[p := FreedPage(m.head)], [p] + m.free, Ka(p))
  }

  lemma GiveFree(m: Mem, owner: map<nat, Owner>, p: nat)
    requires FreeOk(m, owner) && Linked(m) && p in owner && owner[p] != Free && p < |m.pages| && p < TOP
    ensures FreeOk(Given(m, p), owner[p := Free]) && Linked(Given(m, p))
  {
    var r, o := Given(m, p), owner[p := Free];
    assert r.free[0] == p;
    forall k {:trigger r.free[k]} | 0 < k < |r.free| ensures r.free[k] == m.free[k - 1] && r.free[k] != p && o[r.free[k]] == Free {
      assert owner[m.free[k - 1]] == Free;
    }
    forall k | 0 <= k < |r.free| ensures LinkOk(r, k) {
      if 0 < k {
        assert LinkOk(m, k - 1);
        assert Next(r, k + 1) == Next(m, k);
      } else {
        assert Next(r, 1) == Next(m, 0);
      }
    }
    forall k, l {:trigger r.free[k], r.free[l]} | 0 <= k < l < |r.free| ensures r.free[k] != r.free[l] {
      assert 0 < k ==> m.free[k - 1] != m.free[l - 1];
    }
    forall q {:trigger o[q]} | q in o && o[q] == Free ensures q in r.free {
      if q != p {
        assert owner[q] == Free;
      }
    }
  }

  /** The tables are read the same way, and owners differ only between Free and Held. */
  lemma SameTables(m: Mem, r: Mem, lo: nat, owner: map<nat, Owner>, o: map<nat, Owner>)
    requires Owned(m, lo, owner) && |r.pages| == TOP && o.Keys == owner.Keys
    requires forall p {:trigger owner[p]} {:trigger o[p]} :: p in owner ==>
               o[p] == owner[p] || (o[p] in {Free, Held} && owner[p] in {Free, Held})
    requires forall p {:trigger owner[p]} :: p in owner && (owner[p] == Dir || owner[p].Table?) ==> r.pages[p] == m.pages[p]
    ensures DirsOk(r, o) && TablesOk(r, o) && forall p {:trigger o[p]} :: p in o ==> p < TOP && Points(r, o, p)
    ensures forall d, i, j :: DirAt(m, owner, d) && 0 <= i < 1024 && 0 <= j < 1024 ==> Pte(r, d, i, j) == Pte(m, d, i, j)
  {
    SameEntries(m, r, lo, owner, o);
    hide FreeOk, Linked, Pte, Pde;
    forall p | p in o ensures p < TOP && Points(r, o, p) {
      assert Points(m, owner, p);
    }
  }

  lemma SameEntries(m: Mem, r: Mem, lo: nat, owner: map<nat, Owner>, o: map<nat, Owner>)
    requires Owned(m, lo, owner) && |r.pages| == TOP && o.Keys == owner.Keys
    requires forall p {:trigger owner[p]} {:trigger o[p]} :: p in owner ==>
               o[p] == owner[p] || (o[p] in {Free, Held} && owner[p] in {Free, Held})
    requires forall p {:trigger owner[p]} :: p in owner && (owner[p] == Dir || owner[p].Table?) ==> r.pages[p] == m.pages[p]
    ensures DirsOk(r, o) && TablesOk(r, o)
    ensures forall d, i {:trigger Pde(r, d, i)} {:trigger Pde(m, d, i)} ::
              DirAt(m, owner, d) && 0 <= i < 1024 ==> Pde(r, d, i) == Pde(m, d, i)
    ensures forall d, i, j {:trigger Pte(r, d, i, j)} {:trigger Pte(m, d, i, j)} ::
              DirAt(m, owner, d) && 0 <= i < 1024 && 0 <= j < 1024 ==> Pte(r, d, i, j) == Pte(m, d, i, j)
  {
    forall d, i {:trigger Pde(r, d, i)} | d in o && d < TOP && o[d] == Dir && 0 <= i < 1024
      ensures Pde(r, d, i) == Pde(m, d, i)
      ensures Present(Pde(r, d, i)) ==> Pfn(Pde(r, d, i)) in owner && owner[Pfn(Pde(r, d, i))] == Table(d, i)
    {
      assert owner[d] == Dir && r.pages[d] == m.pages[d];
    }
    hide FreeOk, Linked;
    forall d, i, j {:trigger Pte(r, d, i, j)} {:trigger Pte(m, d, i, j)} |
      d in o && d < TOP && o[d] == Dir && 0 <= i < 1024 && 0 <= j < 1024
      ensures Pte(r, d, i, j) == Pte(m, d, i, j)
    {
      assert Pde(r, d, i) == Pde(m, d, i);
    }
  }

  /** Free pages keep their links. */
  lemma SameFree(m: Mem, r: Mem, owner: map<nat, Owner>, o: map<nat, Owner>)
    requires FreeOk(m, owner) && Linked(m) && r.free == m.free && r.head == m.head && |r.pages| == |m.pages|
    requires o.Keys == owner.Keys && forall p {:trigger owner[p]} {:trigger o[p]} :: p in owner ==> (o[p] == Free <==> owner[p] == Free)
    requires forall p {:trigger r.pages[p]} :: p in owner && p < |m.pages| && owner[p] == Free ==> r.pages[p] == m.pages[p]
    ensures FreeOk(r, o) && Linked(r)
  {
    assert Next(r, 0) == Next(m, 0);
    forall k | 0 <= k < |r.free| ensures LinkOk(r, k) {
      assert LinkOk(m, k) && Next(r, k + 1) == Next(m, k + 1);
      assert owner[m.free[k]] == Free;
      assert r.pages[m.free[k]] == m.pages[m.free[k]];
    }
  }

  /** A held page is filled. */
  lemma FillKeeps(m: Mem, lo: nat, owner: map<nat, Owner>, p: nat, s: Page)
    requires Owned(m, lo, owner) && p in owner && owner[p] == Held
    ensures p < TOP && Owned(WithPage(m, p, s), lo, owner) && SamePtes(m, WithPage(m, p, s), owner)
  {
    SameTables(m, WithPage(m, p, s), lo, owner, owner);
    SameFree(m, WithPage(m, p, s), owner, owner);
  }

  /** Every directory maps as before. */
  ghost predicate SamePtes(m: Mem, r: Mem, owner: map<nat, Owner>) {
    && |r.pages| == |m.pages|
    && forall d, i, j {:trigger Pte(r, d, i, j)} ::
         DirAt(m, owner, d) && 0 <= i < 1024 && 0 <= j < 1024 ==> Pte(r, d, i, j) == Pte(m, d, i, j)
  }

  /** kfree of a held page. */
  lemma GiveKeeps(m: Mem, lo: nat, owner: map<nat, Owner>, p: nat)
    requires Owned(m, lo, owner) && p in owner && owner[p] == Held
    ensures p < TOP && Owned(Given(m, p), lo, owner[p := Free]) && SamePtes(m, Given(m, p), owner)
  {
    SameTables(m, Given(m, p), lo, owner, owner[p := Free]);
    GiveFree(m, owner, p);
  }

  // ---- page tables ------------------------------------------------------------------------

  /** walkpgdir's new page table. */
  ghost function TableLinked(m: Mem, d: nat, i: nat, t: nat): Mem
    requires d < |m.pages| && i < 1024 && t < TOP
  {
    WithPage(m, d, m.pages[d][i := MkPte(t, 7)])
  }

  lemma LinkTableKeeps(m: Mem, lo: nat, owner: map<nat, Owner>, d: nat, i: nat, t: nat)
    requires Owned(m, lo, owner) && DirAt(m, owner, d) && i < 1024 && !Present(Pde(m, d, i))
    requires t in owner && owner[t] == Held && t < TOP && m.pages[t] == ZeroPage()
    ensures Owned(TableLinked(m, d, i, t), lo, owner[t := Table(d, i)]) && SamePtes(m, TableLinked(m, d, i, t), owner)
    ensures Present(Pde(TableLinked(m, d, i, t), d, i)) && Pfn(Pde(TableLinked(m, d, i, t), d, i)) == t
  {
    var r, o := TableLinked(m, d, i, t), owner[t := Table(d, i)];
    SameFree(m, r, owner, o);
    TableLinkedPtes(m, lo, owner, d, i, t);
    TableLinkedPoints(m, lo, owner, d, i, t);
    TableLinkedTables(m, lo, owner, d, i, t);
    hide Points, FreeOk, Linked, TablesOk, LinkOk, Next;
  }

  lemma TableLinkedTables(m: Mem, lo: nat, owner: map<nat, Owner>, d: nat, i: nat, t: nat)
    requires Owned(m, lo, owner) && DirAt(m, owner, d) && i < 1024 && !Present(Pde(m, d, i))
    requires t in owner && owner[t] == Held && t < TOP && m.pages[t] == ZeroPage()
    requires SamePtes(m, TableLinked(m, d, i, t), owner)
    ensures TablesOk(TableLinked(m, d, i, t), owner[t := Table(d, i)])
  {
    hide Points, FreeOk, Linked, DirsOk;
    var r, o := TableLinked(m, d, i, t), owner[t := Table(d, i)];
    forall d', i', j' {:trigger Pte(r, d', i', j')} |
      d' in o && d' < TOP && o[d'] == Dir && 0 <= i' < UDIR && 0 <= j' < 1024 && Present(Pte(r, d', i', j'))
      ensures Pfn(Pte(r, d', i', j')) in o && o[Pfn(Pte(r, d', i', j'))] == User(d', i', j')
    {
      assert DirAt(m, owner, d') && Pte(r, d', i', j') == Pte(m, d', i', j');
    }
  }

  lemma TableLinkedPoints(m: Mem, lo: nat, owner: map<nat, Owner>, d: nat, i: nat, t: nat)
    requires Owned(m, lo, owner) && DirAt(m, owner, d) && i < 1024 && !Present(Pde(m, d, i))
    requires t in owner && owner[t] == Held && t < TOP && m.pages[t] == ZeroPage()
    requires SamePtes(m, TableLinked(m, d, i, t), owner)
    ensures var r, o := TableLinked(m, d, i, t), owner[t := Table(d, i)];
            forall p {:trigger o[p]} :: p in o ==> p < TOP && Points(r, o, p)
  {
    var r, o := TableLinked(m, d, i, t), owner[t := Table(d, i)];
    forall p {:trigger o[p]} | p in o ensures p < TOP && Points(r, o, p) {
      if p != t {
        assert Points(m, owner, p);
      }
    }
  }

  /** A zeroed page table maps nothing. */
  lemma TableLinkedPtes(m: Mem, lo: nat, owner: map<nat, Owner>, d: nat, i: nat, t: nat)
    requires Owned(m, lo, owner) && DirAt(m, owner, d) && i < 1024 && !Present(Pde(m, d, i))
    requires t in owner && owner[t] == Held && t < TOP && m.pages[t] == ZeroPage()
    ensures var r := TableLinked(m, d, i, t);
            && (forall d', i' {:trigger Pde(r, d', i')} :: DirAt(m, owner, d') && 0 <= i' < 1024 ==>
                  Pde(r, d', i') == if d' == d && i' == i then MkPte(t, 7) else Pde(m, d', i'))
            && SamePtes(m, r, owner)
  {
    var r := TableLinked(m, d, i, t);
    forall d', i', j' {:trigger Pte(r, d', i', j')} | DirAt(m, owner, d') && 0 <= i' < 1024 && 0 <= j' < 1024
      ensures Pte(r, d', i', j') == Pte(m, d', i', j')
    {
      if !(d' == d && i' == i) && Present(Pde(m, d', i')) {
        assert owner[Pfn(Pde(m, d', i'))] == Table(d', i');
      }
    }
  }

  /** One page table entry stored. */
  ghost function WithPte(m: Mem, d: nat, i: nat, j: nat, e: Word): Mem
    requires d < |m.pages| && i < 1024 && j < 1024 && Pfn(Pde(m, d, i)) < |m.pages|
  {
    WithPage(m, Pfn(Pde(m, d, i)), m.pages[Pfn(Pde(m, d, i))][j := e])
  }

  lemma StorePte(m: Mem, lo: nat, owner: map<nat, Owner>, d: nat, i: nat, j: nat, e: Word)
    requires Owned(m, lo, owner) && DirAt(m, owner, d) && i < 1024 && j < 1024 && Present(Pde(m, d, i))
    ensures Pfn(Pde(m, d, i)) < TOP && owner[Pfn(Pde(m, d, i))] == Table(d, i)
    ensures var r := WithPte(m, d, i, j, e);
            && (forall d', i' {:trigger Pde(r, d', i')} :: DirAt(m, owner, d') && 0 <= i' < 1024 ==> Pde(r, d', i') == Pde(m, d', i'))
            && (forall d', i', j' {:trigger Pte(r, d', i', j')} {:trigger Pte(m, d', i', j')} ::
                  DirAt(m, owner, d') && 0 <= i' < 1024 && 0 <= j' < 1024 ==>
                  Pte(r, d', i', j') == if d' == d && i' == i && j' == j then e else Pte(m, d', i', j'))
            && FreeOk(r, owner) && Linked(r) && DirsOk(r, owner)
  {
    var t := Pfn(Pde(m, d, i));
    assert owner[t] == Table(d, i);
    var r := WithPte(m, d, i, j, e);
    SameFree(m, r, owner, owner);
    forall d', i' {:trigger Pde(r, d', i')} | DirAt(m, owner, d') && 0 <= i' < 1024 ensures Pde(r, d', i') == Pde(m, d', i') {
    }
    forall d', i', j' {:trigger Pte(r, d', i', j')} {:trigger Pte(m, d', i', j')} |
      DirAt(m, owner, d') && 0 <= i' < 1024 && 0 <= j' < 1024
      ensures Pte(r, d', i', j') == if d' == d && i' == i && j' == j then e else Pte(m, d', i', j')
    {
      assert Pde(r, d', i') == Pde(m, d', i');
      if Present(Pde(m, d', i')) {
        assert owner[Pfn(Pde(m, d', i'))] == Table(d', i');
      }
    }
  }

  /** A held page becomes a user page. */
  lemma MapUserKeeps(m: Mem, lo: nat, owner: map<nat, Owner>, d: nat, i: nat, j: nat, u: nat, e: Word)
    requires Owned(m, lo, owner) && DirAt(m, owner, d) && i < UDIR && j < 1024 && Present(Pde(m, d, i))
    requires !Present(Pte(m, d, i, j)) && u in owner && owner[u] == Held && Present(e) && Pfn(e) == u
    ensures Pfn(Pde(m, d, i)) < TOP
    ensures Owned(WithPte(m, d, i, j, e), lo, owner[u := User(d, i, j)])
  {
    StorePte(m, lo, owner, d, i, j, e);
    var r, o := WithPte(m, d, i, j, e), owner[u := User(d, i, j)];
    SameFree(m, r, owner, o);
    MapUserPoints(m, lo, owner, d, i, j, u, e);
    hide Points, FreeOk, Linked;
    forall d', i', j' {:trigger Pte(r, d', i', j')} |
      d' in o && d' < TOP && o[d'] == Dir && 0 <= i' < UDIR && 0 <= j' < 1024 && Present(Pte(r, d', i', j'))
      ensures Pfn(Pte(r, d', i', j')) in o && o[Pfn(Pte(r, d', i', j'))] == User(d', i', j')
    {
      assert owner[d'] == Dir;
    }
  }

  lemma MapUserPoints(m: Mem, lo: nat, owner: map<nat, Owner>, d: nat, i: nat, j: nat, u: nat, e: Word)
    requires Owned(m, lo, owner) && DirAt(m, owner, d) && i < UDIR && j < 1024 && Present(Pde(m, d, i))
    requires !Present(Pte(m, d, i, j)) && u in owner && owner[u] == Held && Present(e) && Pfn(e) == u
    ensures Pfn(Pde(m, d, i)) < TOP
    ensures var r, o := WithPte(m, d, i, j, e), owner[u := User(d, i, j)];
            forall p {:trigger o[p]} :: p in o ==> p < TOP && Points(r, o, p)
  {
    StorePte(m, lo, owner, d, i, j, e);
    hide FreeOk, Linked, DirsOk, TablesOk;
    var r, o := WithPte(m, d, i, j, e), owner[u := User(d, i, j)];
    forall p {:trigger o[p]} | p in o ensures p < TOP && Points(r, o, p) {
      assert Points(m, owner, p);
    }
  }

  /** Entries of the kernel half own nothing. */
  lemma MapKernelKeeps(m: Mem, lo: nat, owner: map<nat, Owner>, d: nat, i: nat, j: nat, e: Word)
    requires Owned(m, lo, owner) && DirAt(m, owner, d) && UDIR <= i < 1024 && j < 1024 && Present(Pde(m, d, i))
    ensures Pfn(Pde(m, d, i)) < TOP && Owned(WithPte(m, d, i, j, e), lo, owner)
  {
    StorePte(m, lo, owner, d, i, j, e);
    var r := WithPte(m, d, i, j, e);
    forall p {:trigger owner[p]} | p in owner ensures p < TOP && Points(r, owner, p) {
      assert Points(m, owner, p);
    }
  }

  /** A user page's entry is cleared, and the page is held again. */
  lemma UnmapKeeps(m: Mem, lo: nat, owner: map<nat, Owner>, d: nat, i: nat, j: nat)
    requires Owned(m, lo, owner) && DirAt(m, owner, d) && i < UDIR && j < 1024 && Present(Pte(m, d, i, j))
    ensures Pfn(Pde(m, d, i)) < TOP && Pfn(Pte(m, d, i, j)) in owner && owner[Pfn(Pte(m, d, i, j))] == User(d, i, j)
    ensures Owned(WithPte(m, d, i, j, 0), lo, owner[Pfn(Pte(m, d, i, j)) := Held])
  {
    var u := Pfn(Pte(m, d, i, j));
    assert owner[u] == User(d, i, j);
    StorePte(m, lo, owner, d, i, j, 0);
    var r, o := WithPte(m, d, i, j, 0), owner[u := Held];
    SameFree(m, r, owner, o);
    forall d', i', j' {:trigger Pte(r, d', i', j')} |
      d' in o && d' < TOP && o[d'] == Dir && 0 <= i' < UDIR && 0 <= j' < 1024 && Present(Pte(r, d', i', j'))
      ensures Pfn(Pte(r, d', i', j')) in o && o[Pfn(Pte(r, d', i', j'))] == User(d', i', j')
    {
      assert owner[d'] == Dir;
      assert owner[Pfn(Pte(m, d', i', j'))] == User(d', i', j');
    }
    forall p {:trigger o[p]} | p in o ensures p < TOP && Points(r, o, p) {
      assert Points(m, owner, p);
    }
  }

  /** What belongs to the address space d besides its user pages. */
  predicate Mine(o: Owner, p: nat, d: nat) {
    (o == Dir && p == d) || (o.Table? && o.dir == d)
  }

  ghost function Abandoned(owner: map<nat, Owner>, d: nat): (o: map<nat, Owner>)
    ensures o.Keys == owner.Keys
  {
    map p | p in owner :: if Mine(owner[p], p, d) then Held else owner[p]
  }

  /** Without user pages, an address space can be taken apart. */
  lemma AbandonKeeps(m: Mem, lo: nat, owner: map<nat, Owner>, d: nat)
    requires Owned(m, lo, owner) && DirAt(m, owner, d)
    requires forall p :: p in owner && owner[p].User? ==> owner[p].dir != d
    ensures Owned(m, lo, Abandoned(owner, d))
  {
    var o := Abandoned(owner, d);
    SameFree(m, m, owner, o);
    forall d', i {:trigger Pde(m, d', i)} | d' in o && d' < TOP && o[d'] == Dir && 0 <= i < 1024 && Present(Pde(m, d', i))
      ensures Pfn(Pde(m, d', i)) in o && o[Pfn(Pde(m, d', i))] == Table(d', i)
    {
      assert owner[Pfn(Pde(m, d', i))] == Table(d', i);
    }
    forall d', i, j {:trigger Pte(m, d', i, j)} |
      d' in o && d' < TOP && o[d'] == Dir && 0 <= i < UDIR && 0 <= j < 1024 && Present(Pte(m, d', i, j))
      ensures Pfn(Pte(m, d', i, j)) in o && o[Pfn(Pte(m, d', i, j))] == User(d', i, j)
    {
      assert owner[Pfn(Pte(m, d', i, j))] == User(d', i, j);
    }
    forall p {:trigger o[p]} | p in o ensures p < TOP && Points(m, o, p) {
      assert Points(m, owner, p);
    }
  }

  /** A zeroed page becomes a page directory that maps nothing. */
  lemma NewDirKeeps(m: Mem, lo: nat, owner: map<nat, Owner>, d: nat)
    requires Owned(m, lo, owner) && d in owner && owner[d] == Held && d < TOP && m.pages[d] == ZeroPage()
    ensures Owned(m, lo, owner[d := Dir])
    ensures forall i, j :: 0 <= i < 1024 && 0 <= j < 1024 ==> Pte(m, d, i, j) == 0
  {
    var o := owner[d := Dir];
    SameFree(m, m, owner, o);
    forall p {:trigger o[p]} | p in o ensures p < TOP && Points(m, o, p) {
      assert Points(m, owner, p);
    }
  }
}
