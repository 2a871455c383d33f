/** kalloc.c and vm.c: the page allocator and the two-level page tables over it.  Addresses
    of pages are page numbers here, so 0 is the null pointer. */
module Vm {
  import opened PageTables
  import opened AddressSpace
  import opened Wrappers

  class Kernel {
    const lo: nat    // the first page after the kernel's end
    const data: nat  // the page where the kernel's data starts
    const pages: array<Page>
    var freelist: Word
    ghost var free: seq<nat>
    ghost var owner: map<nat, Owner>

    ghost function View(): Mem
      reads this, pages
    {
      Mem(pages[..], free, freelist)
    }

    ghost predicate Valid()
      reads this, pages
    {
      Owned(View(), lo, owner)
    }

    /** The machine as the boot loader leaves it: the pages above the kernel are the caller's. */
    constructor (lo: nat, data: nat)
      requires 0 < lo <= TOP
      ensures Valid() && this.lo == lo && this.data == data && fresh(pages)
      ensures free == [] && forall p :: p in owner ==> owner[p] == Held
    {
      this.lo, this.data := lo, data;
      pages := new Page[TOP](_ => ZeroPage());
      freelist, free := 0, [];
      owner := map p: nat | p < TOP && Managed(lo, p) :: Held;
    }

    /** The ghost owners follow a completed step. */
    ghost method Settle(o: map<nat, Owner>)
      requires Owned(View(), lo, o)
      modifies this`owner
      ensures Valid() && owner == o
    {
      owner := o;
    }

    // ---- kalloc.c ----------------------------------------------------------------

    method Kalloc() returns (r: nat)
      requires Valid()
      modifies this
      ensures Valid()
      ensures r == 0 <==> old(free) == []
      ensures r == 0 ==> View() == old(View()) && owner == old(owner)
      ensures r != 0 ==> lo <= r < TOP && r in old(owner) && old(owner)[r] == Free
      ensures r != 0 ==> View() == Taken(old(View())) && owner == old(owner)[r := Held]
    {
      ListHead(View(), lo, owner);
      if freelist == 0 {
        r := 0;
      } else {
        r := (freelist - KERNBASE) / PGSIZE;
        Take(r);
      }
    }

    method Take(r: nat)
      requires Valid() && free != [] && r == free[0]
      modifies this
      ensures Valid() && lo <= r < TOP && r in old(owner) && old(owner)[r] == Free
      ensures View() == Taken(old(View())) && owner == old(owner)[r := Held]
    {
      TakeKeeps(View(), lo, owner);
      freelist := pages[r][0];
      free := free[1..];
      Settle(owner[r := Held]);
    }

    /** kfree; its precondition is that it does not panic. */
    method Kfree(v: nat)
      requires lo <= v < TOP == pages.Length
      modifies pages, this`freelist, this`free
      ensures View() == Given(old(View()), v)
    {
      pages[v] := FreedPage(freelist);
      freelist := Ka(v);
      free := [v] + free;
    }

    /** freerange: the pages from `from` up to `to` go to the allocator. */
    method Freerange(from: nat, to: nat)
      requires Valid() && lo <= from <= to <= TOP && forall p :: from <= p < to ==> p in owner && owner[p] == Held
      modifies this, pages
      ensures Valid() && owner == FreedRange(old(owner), from, to)
    {
      ghost var o := owner;
      var p := from;
      FreedNone(o, from);
      while p < to
        invariant from <= p <= to && Valid() && owner == FreedRange(o, from, p)
      {
        FreedOneMore(o, from, p);
        Release(p);
        p := p + 1;
      }
    }

    /** kfree of a page the caller holds. */
    method Release(v: nat)
      requires Valid() && v in owner && owner[v] == Held
      modifies this, pages
      ensures Valid() && View() == Given(old(View()), v) && owner == old(owner)[v := Free]
      ensures SamePtes(old(View()), View(), old(owner))
    {
      GiveKeeps(View(), lo, owner, v);
      Kfree(v);
      Settle(owner[v := Free]);
    }

    /** memset(p, 0, PGSIZE) or memmove into a page the caller holds. */
    method Fill(p: nat, s: Page)
      requires Valid() && p in owner && owner[p] == Held
      modifies pages
      ensures p < TOP && Valid() && View() == WithPage(old(View()), p, s) && SamePtes(old(View()), View(), owner)
    {
      FillKeeps(View(), lo, owner, p, s);
      pages[p] := s;
      assert View() == WithPage(old(View()), p, s);
    }

    // ---- walkpgdir and mappages ----------------------------------------------------

    /** walkpgdir: the page table for directory entry i, or 0.  With alloc it fails only when
        memory has run out. */
    method Walkpgdir(d: nat, i: nat, alloc: bool) returns (t: nat)
      requires Valid() && DirAt(View(), owner, d) && i < 1024
      modifies this, pages
      ensures Valid() && SamePtes(old(View()), View(), old(owner))
      ensures Grown(old(View()), old(owner), View(), owner, d, TOP)
      ensures t != 0 <==> Present(Pde(View(), d, i))
      ensures t != 0 ==> t == Pfn(Pde(View(), d, i)) < TOP
      ensures t == 0 ==> (alloc ==> old(free) == [])
      ensures t == 0 || !alloc ==> View() == old(View()) && owner == old(owner)
      ensures Present(Pde(old(View()), d, i)) ==> t != 0
      ensures t != 0 ==> |free| == |old(free)| - if Present(Pde(old(View()), d, i)) then 0 else 1
    {
      var e := pages[d][i];
      if Present(e) {
        assert e == Pde(View(), d, i) && owner[Pfn(e)] == Table(d, i);
        t := Pfn(e);
      } else if !alloc {
        t := 0;
      } else {
        t := NewTable(d, i);
      }
    }

    method NewTable(d: nat, i: nat) returns (t: nat)
      requires Valid() && DirAt(View(), owner, d) && i < 1024 && !Present(Pde(View(), d, i))
      modifies this, pages
      ensures Valid() && SamePtes(old(View()), View(), old(owner))
      ensures Grown(old(View()), old(owner), View(), owner, d, TOP)
      ensures t != 0 ==> Present(Pde(View(), d, i)) && t == Pfn(Pde(View(), d, i)) < TOP
      ensures t == 0 ==> old(free) == [] && View() == old(View()) && owner == old(owner)
      ensures t != 0 ==> |free| == |old(free)| - 1
    {
      hide FreeOk, Linked, TablesOk, Points;
      ghost var m, o := View(), owner;
      t := KallocZeroed();
      if t != 0 {
        assert DirAt(View(), owner, d) && SamePtes(m, View(), o);
        LinkTable(d, i, t);
        NewTableGrows(m, o, View(), d, i, t);
      }
    }

    /** kalloc and memset. */
    method KallocZeroed() returns (r: nat)
      requires Valid()
      modifies this, pages
      ensures Valid() && SamePtes(old(View()), View(), old(owner))
      ensures r == 0 <==> old(free) == []
      ensures r == 0 ==> View() == old(View()) && owner == old(owner)
      ensures r != 0 ==> lo <= r < TOP && r in old(owner) && old(owner)[r] == Free && owner == old(owner)[r := Held]
      ensures r != 0 ==> View().pages == old(View()).pages[r := ZeroPage()]
      ensures r != 0 ==> |free| == |old(free)| - 1
    {
      r := Kalloc();
      if r != 0 {
        Fill(r, ZeroPage());
      }
    }

    method LinkTable(d: nat, i: nat, t: nat)
      requires Valid() && DirAt(View(), owner, d) && i < 1024 && !Present(Pde(View(), d, i))
      requires t in owner && owner[t] == Held && t < TOP && View().pages[t] == ZeroPage()
      modifies this`owner, pages
      ensures Valid() && owner == old(owner)[t := Table(d, i)]
      ensures View() == TableLinked(old(View()), d, i, t) && SamePtes(old(View()), View(), old(owner))
      ensures Present(Pde(View(), d, i)) && t == Pfn(Pde(View(), d, i))
    {
      LinkTableKeeps(View(), lo, owner, d, i, t);
      pages[d] := pages[d][i := MkPte(t, 7)];
      assert View() == TableLinked(old(View()), d, i, t);
      Settle(owner[t := Table(d, i)]);
    }

    /** One round of mappages: the page table for virtual page w, and the entry in it. */
    method MapOne(d: nat, w: nat, p: nat, perm: nat) returns (ok: bool)
      requires Valid() && DirAt(View(), owner, d) && w < VPAGES && p < VPAGES && perm < 4096
      requires !Present(PteAt(View(), d, w)) && (w < UPAGES ==> p in owner && owner[p] == Held)
      modifies this, pages
      ensures Valid() && DirAt(View(), owner, d)
      ensures Grown(old(View()), old(owner), View(), owner, d, Exempt(w, p))
      ensures ok ==> PteAt(View(), d, w) == MkPte(p, perm) && SameBut(old(View()), View(), d, w, 1)
      ensures ok && w < UPAGES ==> owner[p] == User(d, w / 1024, w % 1024) && View().pages[p] == old(View()).pages[p]
      ensures !ok ==> View() == old(View()) && owner == old(owner) && free == []
      ensures !ok ==> !Present(Pde(old(View()), d, w / 1024))
      ensures ok ==> |free| == |old(free)| - if Present(Pde(old(View()), d, w / 1024)) then 0 else 1
    {
      ghost var m, o := View(), owner;
      var t := Walkpgdir(d, w / 1024, true);
      ok := t != 0;
      if ok {
        StillUnmapped(m, lo, o, View(), owner, d, w, p);
        MapIn(d, w, t, p, perm, m, o);
      }
    }

    method MapIn(d: nat, w: nat, t: nat, p: nat, perm: nat, ghost m: Mem, ghost o: map<nat, Owner>)
      requires Valid() && DirAt(View(), owner, d) && w < VPAGES && p < VPAGES && perm < 4096
      requires Present(Pde(View(), d, w / 1024)) && t == Pfn(Pde(View(), d, w / 1024))
      requires !Present(PteAt(View(), d, w)) && (w < UPAGES ==> p in owner && owner[p] == Held)
      requires DirAt(m, o, d) && SamePtes(m, View(), o) && Grown(m, o, View(), owner, d, TOP)
      modifies this`owner, pages
      ensures Valid() && DirAt(View(), owner, d) && Grown(m, o, View(), owner, d, Exempt(w, p))
      ensures PteAt(View(), d, w) == MkPte(p, perm) && SameBut(m, View(), d, w, 1)
      ensures w < UPAGES ==> owner[p] == User(d, w / 1024, w % 1024) && View().pages[p] == old(View()).pages[p]
    {
      ghost var m1, o1 := View(), owner;
      StoreEntry(d, w, t, p, perm);
      MapGrows(m, o, m1, o1, View(), owner, d, t, w, p);
      MapSame(m, m1, o, View(), d, w);
    }

    /** The entry maps its page, with the permissions given and the present bit. */
    method StoreEntry(d: nat, w: nat, t: nat, p: nat, perm: nat)
      requires Valid() && DirAt(View(), owner, d) && w < VPAGES && p < VPAGES && perm < 4096
      requires Present(Pde(View(), d, w / 1024)) && t == Pfn(Pde(View(), d, w / 1024))
      requires !Present(PteAt(View(), d, w)) && (w < UPAGES ==> p in owner && owner[p] == Held)
      modifies this`owner, pages
      ensures Valid() && DirAt(View(), owner, d)
      ensures t in old(owner) && t < TOP && old(owner)[t] == Table(d, w / 1024)
      ensures View().pages == old(View()).pages[t := old(View()).pages[t][w % 1024 := MkPte(p, perm)]]
      ensures owner == if w < UPAGES then old(owner)[p := User(d, w / 1024, w % 1024)] else old(owner)
      ensures PteAt(View(), d, w) == MkPte(p, perm) && SameBut(old(View()), View(), d, w, 1)
    {
      ghost var m, o := View(), owner;
      StorePteAt(m, lo, o, d, w, MkPte(p, perm));
      if w < UPAGES {
        MapUserKeeps(m, lo, o, d, w / 1024, w % 1024, p, MkPte(p, perm));
        o := owner[p := User(d, w / 1024, w % 1024)];
      } else {
        MapKernelKeeps(m, lo, o, d, w / 1024, w % 1024, MkPte(p, perm));
      }
      pages[t] := pages[t][w % 1024 := MkPte(p, perm)];
      assert View() == WithPte(m, d, w / 1024, w % 1024, MkPte(p, perm));
      Settle(o);
    }

    /** mappages.  The addresses are 32-bit and the loop ends when they are equal, which it
        reaches even for the region that ends at 2^32.  User pages are mapped one at a time.
        Its precondition on the entries is that it does not panic with "remap". */
    method Mappages(d: nat, va: nat, size: nat, p: nat, perm: nat) returns (ok: bool)
      requires Valid() && DirAt(View(), owner, d) && 0 < size && va + size <= TWO_32 && perm < 4096
      requires p + PagesIn(va, size) <= VPAGES
      requires forall v {:trigger PteAt(View(), d, v)} :: va / 4096 <= v < va / 4096 + PagesIn(va, size) ==> !Present(PteAt(View(), d, v))
      requires va / 4096 < UPAGES ==> PagesIn(va, size) == 1 && p in owner && owner[p] == Held
      modifies this, pages
      ensures Valid() && DirAt(View(), owner, d)
      ensures Grown(old(View()), old(owner), View(), owner, d, Exempt(va / 4096, p))
      ensures SameBut(old(View()), View(), d, va / 4096, PagesIn(va, size))
      ensures ok ==> Run(View(), d, va / 4096, PagesIn(va, size), p, perm)
      ensures ok && va / 4096 < UPAGES ==>
                owner[p] == User(d, va / 4096 / 1024, va / 4096 % 1024) && View().pages[p] == old(View()).pages[p]
      ensures !ok ==> free == [] && (va / 4096 < UPAGES ==> View() == old(View()) && owner == old(owner))
      ensures |free| + TablesFor(va / 4096, PagesIn(va, size)) >= |old(free)|
      ensures !ok ==> |old(free)| < TablesFor(va / 4096, PagesIn(va, size))
      ensures PagesIn(va, size) == 1 && Present(Pde(old(View()), d, va / 4096 / 1024)) ==> ok && |free| == |old(free)|
    {
      LastPage(va, size);
      ok := MapRun(d, va / PGSIZE, (va + size - 1) % TWO_32 / PGSIZE, p, perm);
    }

    /** mappages's loop, from page `first` to page `last`. */
    method MapRun(d: nat, first: nat, last: nat, p: nat, perm: nat) returns (ok: bool)
      requires Valid() && DirAt(View(), owner, d) && first <= last < VPAGES && p + (last - first) < VPAGES && perm < 4096
      requires forall v {:trigger PteAt(View(), d, v)} :: first <= v <= last ==> !Present(PteAt(View(), d, v))
      requires first < UPAGES ==> first == last && p in owner && owner[p] == Held
      modifies this, pages
      ensures Valid() && DirAt(View(), owner, d)
      ensures Grown(old(View()), old(owner), View(), owner, d, Exempt(first, p))
      ensures SameBut(old(View()), View(), d, first, last - first + 1)
      ensures ok ==> Run(View(), d, first, last - first + 1, p, perm)
      ensures ok && first < UPAGES ==> owner[p] == User(d, first / 1024, first % 1024) && View().pages[p] == old(View()).pages[p]
      ensures !ok ==> free == [] && (first < UPAGES ==> View() == old(View()) && owner == old(owner))
      ensures |free| + TablesFor(first, last - first + 1) >= |old(free)|
      ensures !ok ==> |old(free)| < TablesFor(first, last - first + 1)
      ensures first == last && Present(Pde(old(View()), d, first / 1024)) ==> ok && |free| == |old(free)|
    {
      ghost var m, o := View(), owner;
      ok := MapOne(d, first, p, perm);
      OneMapped(m, View(), d, first, last - first + 1, p, perm, ok);
      if ok && first != last {
        ok := MapRest(d, first, last, p, perm, m, o, |m.free|);
      }
    }

    /** The remaining rounds, for a region of the kernel half. */
    method MapRest(d: nat, first: nat, last: nat, p: nat, perm: nat, ghost m: Mem, ghost o: map<nat, Owner>, ghost f: nat)
      returns (ok: bool)
      requires UPAGES <= first < last < VPAGES && p + (last - first) < VPAGES && perm < 4096
      requires Valid() && DirAt(View(), owner, d) && Grown(m, o, View(), owner, d, TOP)
      requires Progress(m, View(), d, first, 1, p, perm)
      requires forall v {:trigger PteAt(m, d, v)} :: first <= v <= last ==> !Present(PteAt(m, d, v))
      requires |free| + TablesFor(first, 1) >= f
      modifies this, pages
      ensures Valid() && DirAt(View(), owner, d) && Grown(m, o, View(), owner, d, TOP)
      ensures SameBut(m, View(), d, first, last - first + 1)
      ensures ok ==> Run(View(), d, first, last - first + 1, p, perm)
      ensures !ok ==> free == []
      ensures |free| + TablesFor(first, last - first + 1) >= f && (!ok ==> f < TablesFor(first, last - first + 1))
    {
      hide TablesFor, Owned, Grown, Progress;
      RunSoFar(m, View(), d, first, 1, p, perm);
      var a: nat, pa := first, p;
      ghost var n, k := last - first + 1, 1;
      ok := true;
      while a != last
        invariant a == first + k - 1 <= last && pa == p + k - 1 && k >= 1
        invariant Valid() && DirAt(View(), owner, d) && Grown(m, o, View(), owner, d, TOP)
        invariant Progress(m, View(), d, first, k, p, perm) && |free| + TablesFor(first, k) >= f
        invariant Run(View(), d, first, k, p, perm) && SameBut(m, View(), d, first, k)
        decreases last - a
      {
        assert (a + 1) % VPAGES == a + 1;
        a, pa := (a + 1) % VPAGES, pa + 1;
        ok := MapNext(d, a, pa, perm, m, o, first, n, p, k, f);
        if !ok {
          return;
        }
        k := k + 1;
        RunSoFar(m, View(), d, first, k, p, perm);
      }
      assert k == n;
    }

    method MapNext(d: nat, w: nat, pa: nat, perm: nat, ghost m: Mem, ghost o: map<nat, Owner>,
                   ghost first: nat, ghost n: nat, ghost p: nat, ghost k: nat, ghost f: nat)
      returns (ok: bool)
      requires Valid() && DirAt(View(), owner, d) && UPAGES <= first && first + n <= VPAGES && perm < 4096
      requires w == first + k && pa == p + k < VPAGES && k < n
      requires Grown(m, o, View(), owner, d, TOP) && Progress(m, View(), d, first, k, p, perm)
      requires forall v {:trigger PteAt(m, d, v)} :: first <= v < first + n ==> !Present(PteAt(m, d, v))
      requires |free| + TablesFor(first, k) >= f && k > 0
      modifies this, pages
      ensures Valid() && DirAt(View(), owner, d) && Grown(m, o, View(), owner, d, TOP)
      ensures ok ==> Progress(m, View(), d, first, k + 1, p, perm)
      ensures !ok ==> free == [] && SameBut(m, View(), d, first, n)
      ensures ok ==> |free| + TablesFor(first, k + 1) >= f
      ensures !ok ==> |free| + TablesFor(first, n) >= f && f < TablesFor(first, n)
    {
      hide Owned;
      ghost var m1, o1 := View(), owner;
      assert PteAt(m1, d, w) == PteAt(m, d, w);
      LastMapped(m1, d, first, k, p, perm);
      SameOrNextTable(first, k, n);
      ok := MapOne(d, w, pa, perm);
      GrownTwice(m, o, m1, o1, View(), owner, d, TOP);
      if ok {
        MoreMapped(m, m1, View(), d, first, k, p, perm);
      } else {
        Wider(m, m1, d, first, k, n);
      }
    }

    // ---- deallocuvm and freevm ---------------------------------------------------------

    /** deallocuvm.  No kfree in it panics. */
    method Deallocuvm(d: nat, oldsz: nat, newsz: nat) returns (r: nat)
      requires Valid() && DirAt(View(), owner, d) && oldsz <= KERNBASE
      modifies this, pages
      ensures Valid() && DirAt(View(), owner, d) && r == if newsz < oldsz then newsz else oldsz
      ensures newsz >= oldsz ==> View() == old(View()) && owner == old(owner)
      ensures newsz < oldsz ==> Shrunk(old(View()), old(owner), View(), owner, d, PgUp(newsz), PgUp(oldsz))
    {
      if newsz >= oldsz {
        return oldsz;
      }
      UnmapPages(d, PgUp(newsz), oldsz);
      return newsz;
    }

    method UnmapPages(d: nat, from: nat, oldsz: nat)
      requires Valid() && DirAt(View(), owner, d) && oldsz <= KERNBASE && from <= PgUp(oldsz)
      modifies this, pages
      ensures Valid() && DirAt(View(), owner, d)
      ensures Shrunk(old(View()), old(owner), View(), owner, d, from, PgUp(oldsz))
    {
      ghost var m, o, to := View(), owner, PgUp(oldsz);
      var a := from;
      ShrunkNot(m, lo, o, d, from);
      while a * PGSIZE < oldsz
        invariant from <= a && Valid() && DirAt(View(), owner, d)
        invariant Shrunk(m, o, View(), owner, d, from, Lesser(a, to))
        decreases UPAGES - Lesser(a, UPAGES)
      {
        a := UnmapRound(d, a, from, to, m, o);
      }
    }

    /** One round: the page's entry is cleared, or a missing page table is skipped. */
    method UnmapRound(d: nat, a: nat, ghost from: nat, ghost to: nat, ghost m: Mem, ghost o: map<nat, Owner>) returns (a': nat)
      requires Valid() && DirAt(View(), owner, d) && from <= a < to <= UPAGES
      requires Owned(m, lo, o) && Shrunk(m, o, View(), owner, d, from, a)
      modifies this, pages
      ensures Valid() && DirAt(View(), owner, d) && a < a'
      ensures Shrunk(m, o, View(), owner, d, from, Lesser(a', to))
    {
      var t := Walkpgdir(d, a / 1024, false);
      if t == 0 {
        // PGADDR(PDX(a) + 1, 0, 0) - PGSIZE, and then the loop's own PGSIZE
        a' := NextTable(a);
        SkipTable(m, lo, o, View(), owner, d, from, a, to);
      } else {
        a' := UnmapEntry(d, a, t, from, to, m, o);
      }
    }

    method UnmapEntry(d: nat, a: nat, t: nat, ghost from: nat, ghost to: nat, ghost m: Mem, ghost o: map<nat, Owner>)
      returns (a': nat)
      requires Valid() && DirAt(View(), owner, d) && from <= a < to <= UPAGES
      requires Present(Pde(View(), d, a / 1024)) && t == Pfn(Pde(View(), d, a / 1024)) < TOP
      requires Owned(m, lo, o) && Shrunk(m, o, View(), owner, d, from, a)
      modifies this, pages
      ensures Valid() && DirAt(View(), owner, d) && a' == a + 1 && Shrunk(m, o, View(), owner, d, from, Lesser(a', to))
    {
      a' := a + 1;
      assert Lesser(a', to) == a';
      var pte := pages[t][a % 1024];
      assert pte == PteAt(View(), d, a);
      if Present(pte) {
        ShrunkMore(m, lo, o, View(), owner, d, from, a);
        DropPage(d, a, t, Pfn(pte));
      } else {
        ShrunkPast(m, lo, o, View(), owner, d, from, a);
      }
    }

    /** The page goes back to the free list and its entry is cleared. */
    method DropPage(d: nat, a: nat, t: nat, u: nat)
      requires Valid() && DirAt(View(), owner, d) && a < UPAGES && Present(PteAt(View(), d, a))
      requires t == Pfn(Pde(View(), d, a / 1024)) < TOP && u == Pfn(PteAt(View(), d, a)) < TOP
      modifies this, pages
      ensures Valid() && View() == Released(old(View()), d, a) && owner == old(owner)[u := Free]
    {
      ReleaseKeeps(View(), lo, owner, d, a);
      ghost var m := View();
      Kfree(u);
      pages[t] := pages[t][a % 1024 := 0];
      assert View() == Released(m, d, a);
      Settle(owner[u := Free]);
    }

    /** freevm: every page of the address space goes back to the free list, once; nothing
        else changes. */
    method Freevm(d: nat)
      requires Valid() && DirAt(View(), owner, d)
      modifies this, pages
      ensures Valid() && Gone(old(View()), old(owner), View(), owner, d)
    {
      ghost var m, o := View(), owner;
      var r := Deallocuvm(d, KERNBASE, 0);
      NoUserLeft(m, lo, o, View(), owner, d);
      ghost var m1, o1 := View(), owner;
      Dismantle(d);
      ShrunkThenGone(m, o, m1, o1, View(), owner, d);
    }

    /** Without user pages: the page tables go, and then the directory. */
    method Dismantle(d: nat)
      requires Valid() && DirAt(View(), owner, d)
      requires forall p :: p in owner && owner[p].User? ==> owner[p].dir != d
      modifies this, pages
      ensures Valid() && Gone(old(View()), old(owner), View(), owner, d)
    {
      ghost var m1, o1 := View(), owner;
      AbandonKeeps(m1, lo, o1, d);
      Settle(Abandoned(o1, d));
      FreeTables(d, m1, o1);
      ghost var m2, o2 := View(), owner;
      Release(d);
      AllGone(m1, lo, o1, m2, o2, View(), owner, d);
    }

    method FreeTables(d: nat, ghost m1: Mem, ghost o1: map<nat, Owner>)
      requires Valid() && Owned(m1, lo, o1) && DirAt(m1, o1, d) && View() == m1 && owner == Abandoned(o1, d)
      modifies this, pages
      ensures Valid() && TablesGone(m1, o1, View(), owner, d, 1024)
    {
      var i := 0;
      while i < 1024
        invariant i <= 1024 && Valid() && TablesGone(m1, o1, View(), owner, d, i)
      {
        FreeTable(d, i, m1, o1);
        i := i + 1;
      }
    }

    method FreeTable(d: nat, i: nat, ghost m1: Mem, ghost o1: map<nat, Owner>)
      requires Valid() && Owned(m1, lo, o1) && DirAt(m1, o1, d) && i < 1024 && TablesGone(m1, o1, View(), owner, d, i)
      modifies this, pages
      ensures Valid() && TablesGone(m1, o1, View(), owner, d, i + 1)
    {
      var e := pages[d][i];
      assert e == Pde(m1, d, i);
      ghost var m2, o2 := View(), owner;
      if Present(e) {
        assert o1[Pfn(e)] == Table(d, i);
        Release(Pfn(e));
      }
      OneTableGone(m1, lo, o1, m2, o2, View(), owner, d, i);
    }

    // ---- allocuvm ------------------------------------------------------------------

    /** allocuvm.  When memory runs out the user mapping is what it was, though page tables
        may have been added. */
    method Allocuvm(d: nat, oldsz: nat, newsz: nat) returns (r: nat)
      requires Valid() && DirAt(View(), owner, d)
      requires forall v {:trigger PteAt(View(), d, v)} :: PgUp(oldsz) <= v < PgUp(newsz) && v < UPAGES ==> !Present(PteAt(View(), d, v))
      modifies this, pages
      ensures Valid() && DirAt(View(), owner, d) && Grown(old(View()), old(owner), View(), owner, d, TOP)
      ensures newsz >= KERNBASE ==> r == 0
      ensures newsz < oldsz && newsz < KERNBASE ==> r == oldsz
      ensures newsz >= KERNBASE || newsz < oldsz ==> View() == old(View()) && owner == old(owner)
      ensures oldsz <= newsz < KERNBASE ==> r == newsz || r == 0
      ensures oldsz <= newsz < KERNBASE && r == newsz ==>
                ZeroMapped(old(View()), View(), owner, d, PgUp(oldsz), PgUp(newsz))
      ensures oldsz <= newsz < KERNBASE && r != newsz ==> Unmapped(old(View()), View(), d, PgUp(oldsz), PgUp(newsz))
      ensures oldsz <= newsz < KERNBASE && r != newsz ==>
                |old(free)| < PgUp(newsz) - PgUp(oldsz) + TablesFor(PgUp(oldsz), PgUp(newsz) - PgUp(oldsz))
    {
      if newsz >= KERNBASE {
        return 0;
      }
      if newsz < oldsz {
        return oldsz;
      }
      var ok := AllocPages(d, oldsz, newsz);
      return if ok then newsz else 0;
    }

    method AllocPages(d: nat, oldsz: nat, newsz: nat) returns (ok: bool)
      requires Valid() && DirAt(View(), owner, d) && oldsz <= newsz < KERNBASE
      requires forall v {:trigger PteAt(View(), d, v)} :: PgUp(oldsz) <= v < PgUp(newsz) ==> !Present(PteAt(View(), d, v))
      modifies this, pages
      ensures Valid() && DirAt(View(), owner, d) && Grown(old(View()), old(owner), View(), owner, d, TOP)
      ensures ok ==> ZeroMapped(old(View()), View(), owner, d, PgUp(oldsz), PgUp(newsz))
      ensures !ok ==> Unmapped(old(View()), View(), d, PgUp(oldsz), PgUp(newsz))
      ensures !ok ==> |old(free)| < PgUp(newsz) - PgUp(oldsz) + TablesFor(PgUp(oldsz), PgUp(newsz) - PgUp(oldsz))
    {
      ghost var m, o := View(), owner;
      var a := PgUp(oldsz);
      ghost var f := |free|;
      ok := true;
      while ok && a * PGSIZE < newsz
        invariant PgUp(oldsz) <= a <= PgUp(newsz)
        invariant Valid() && DirAt(View(), owner, d) && Grown(m, o, View(), owner, d, TOP)
        invariant ok ==> ZeroMapped(m, View(), owner, d, PgUp(oldsz), a)
        invariant ok ==> |free| + Spent(PgUp(oldsz), a) >= f
        invariant !ok ==> f < Spent(PgUp(oldsz), PgUp(newsz))
        invariant !ok ==> Unmapped(m, View(), d, PgUp(oldsz), PgUp(newsz))
        decreases PgUp(newsz) - a, ok
      {
        ok := AllocRound(d, a, oldsz, newsz, m, o, f);
        if ok {
          a := a + 1;
        }
      }
    }

    method AllocRound(d: nat, a: nat, oldsz: nat, newsz: nat, ghost m: Mem, ghost o: map<nat, Owner>, ghost f: nat)
      returns (ok: bool)
      requires Valid() && DirAt(View(), owner, d) && oldsz <= newsz < KERNBASE && PgUp(oldsz) <= a < PgUp(newsz)
      requires Owned(m, lo, o) && DirAt(m, o, d) && Grown(m, o, View(), owner, d, TOP)
      requires ZeroMapped(m, View(), owner, d, PgUp(oldsz), a)
      requires forall v {:trigger PteAt(m, d, v)} :: PgUp(oldsz) <= v < PgUp(newsz) ==> !Present(PteAt(m, d, v))
      requires |free| + Spent(PgUp(oldsz), a) >= f
      modifies this, pages
      ensures Valid() && DirAt(View(), owner, d) && Grown(m, o, View(), owner, d, TOP)
      ensures ok ==> ZeroMapped(m, View(), owner, d, PgUp(oldsz), a + 1)
      ensures !ok ==> Unmapped(m, View(), d, PgUp(oldsz), PgUp(newsz))
      ensures ok ==> |free| + Spent(PgUp(oldsz), a + 1) >= f
      ensures !ok ==> f < Spent(PgUp(oldsz), PgUp(newsz))
    {
      var mem;
      assert PteAt(View(), d, a) == PteAt(m, d, a);
      mem, ok := AllocPage(d, a, PgUp(oldsz), m, o, f);
      SpentMore(PgUp(oldsz), a, PgUp(newsz));
      if !ok {
        Undo(d, oldsz, newsz, mem, m, o);
      }
    }

    /** kalloc, memset and mappages for one page. */
    method AllocPage(d: nat, a: nat, ghost from: nat, ghost m: Mem, ghost o: map<nat, Owner>, ghost f: nat)
      returns (mem: nat, ok: bool)
      requires Valid() && DirAt(View(), owner, d) && from <= a < UPAGES && !Present(PteAt(View(), d, a))
      requires Grown(m, o, View(), owner, d, TOP) && ZeroMapped(m, View(), owner, d, from, a)
      requires |free| + Spent(from, a) >= f
      modifies this, pages
      ensures Valid() && DirAt(View(), owner, d)
      ensures ok ==> mem != 0 && Grown(m, o, View(), owner, d, TOP) && ZeroMapped(m, View(), owner, d, from, a + 1)
      ensures !ok && mem == 0 ==> Grown(m, o, View(), owner, d, TOP)
      ensures !ok && mem != 0 ==> Spare(m, o, View(), owner, d, mem)
      ensures !ok ==> SameBut(m, View(), d, from, a - from)
      ensures ok ==> |free| + Spent(from, a + 1) >= f
      ensures !ok ==> f < Spent(from, a + 1)
    {
      ghost var m0, o0 := View(), owner;
      mem := KallocZeroed();
      ok := mem != 0;
      if ok {
        SpareTaken(m, o, m0, lo, o0, View(), d, mem);
        PtesKept(m0, View(), o0, d);
        assert PteAt(View(), d, a) == PteAt(m0, d, a);
        ok := MapFresh(d, a, from, m, o, m0, o0, mem, f);
      }
    }

    method MapFresh(d: nat, a: nat, ghost from: nat, ghost m: Mem, ghost o: map<nat, Owner>,
                    ghost m0: Mem, ghost o0: map<nat, Owner>, mem: nat, ghost f: nat)
      returns (ok: bool)
      requires Valid() && DirAt(View(), owner, d) && from <= a < UPAGES && !Present(PteAt(View(), d, a))
      requires Spare(m, o, View(), owner, d, mem) && ZeroMapped(m, m0, o0, d, from, a) && SameBut(m0, View(), d, 0, 0)
      requires mem in o0 && o0[mem] == Free && View().pages == m0.pages[mem := ZeroPage()] && owner == o0[mem := Held]
      requires |free| + Spent(from, a) + 1 >= f
      modifies this, pages
      ensures Valid() && DirAt(View(), owner, d)
      ensures ok ==> Grown(m, o, View(), owner, d, TOP) && ZeroMapped(m, View(), owner, d, from, a + 1)
      ensures !ok ==> Spare(m, o, View(), owner, d, mem) && SameBut(m, View(), d, from, a - from)
      ensures ok ==> |free| + Spent(from, a + 1) >= f
      ensures !ok ==> f < Spent(from, a + 1)
    {
      hide TablesFor, FreeOk, Linked, DirsOk, TablesOk, Points;
      ghost var m1, o1 := View(), owner;
      OnePage(a);
      if from < a {
        PageBefore(m0, View(), o0, d, from, a);
      }
      SameOrNextTable(from, a - from, a - from + 1);
      OneTable(a);
      ok := Mappages(d, a * PGSIZE, PGSIZE, mem, 6);
      if ok {
        assert PteAt(View(), d, a) == MkPte(mem, 6);
        PageMappedGrown(m, o, m1, o1, View(), owner, d, mem);
        PageMapped(m, m0, o0, m1, o1, View(), owner, d, from, a, mem);
      } else {
        SameThrough(m, m0, m1, d, from, a - from);
      }
    }

    /** deallocuvm of what had been added, and kfree of the page that was not mapped. */
    method Undo(d: nat, oldsz: nat, newsz: nat, mem: nat, ghost m: Mem, ghost o: map<nat, Owner>)
      requires Valid() && DirAt(View(), owner, d) && oldsz <= newsz < KERNBASE && PgUp(oldsz) < PgUp(newsz)
      requires Owned(m, lo, o) && DirAt(m, o, d)
      requires if mem == 0 then Grown(m, o, View(), owner, d, TOP) else Spare(m, o, View(), owner, d, mem)
      requires SameBut(m, View(), d, PgUp(oldsz), PgUp(newsz) - PgUp(oldsz))
      requires forall v {:trigger PteAt(m, d, v)} :: PgUp(oldsz) <= v < PgUp(newsz) ==> !Present(PteAt(m, d, v))
      modifies this, pages
      ensures Valid() && DirAt(View(), owner, d) && Grown(m, o, View(), owner, d, TOP)
      ensures Unmapped(m, View(), d, PgUp(oldsz), PgUp(newsz))
    {
      ghost var m1, o1 := View(), owner;
      var r := Deallocuvm(d, newsz, oldsz);
      ghost var m2, o2 := View(), owner;
      Undone(m, lo, o, m1, o1, m2, o2, d, PgUp(oldsz), PgUp(newsz), if mem == 0 then TOP else mem);
      if mem != 0 {
        Release(mem);
        SpareGiven(m, o, m2, o2, d, mem);
        PtesKept(m2, View(), o2, d);
        UnmappedThrough(m, m2, View(), d, PgUp(oldsz), PgUp(newsz));
      }
    }

    // ---- setupkvm and copyuvm --------------------------------------------------------

    /** setupkvm: a directory with the kernel's mappings, or 0 and everything as before. */
    method Setupkvm() returns (d: nat)
      requires Valid() && 0x100 < data < TOP
      modifies this, pages
      ensures Valid()
      ensures d == 0 ==> Restored(old(View()), old(owner), View(), owner)
      ensures d != 0 ==> DirAt(View(), owner, d) && d in old(owner) && old(owner)[d] == Free
      ensures d != 0 ==> Grown(old(View()), old(owner), View(), owner, d, TOP) && KernelFrom(View(), d, data, 0)
      ensures d == 0 ==> |old(free)| < 1 + KERNEL_TABLES
      ensures d != 0 ==> |free| + 1 + KERNEL_TABLES >= |old(free)|
    {
      hide FreeOk, Linked, DirsOk, TablesOk, Points, KernelFrom, MappedTo, SamePtes;
      ghost var m, o := View(), owner;
      d := KallocZeroed();
      if d != 0 {
        NewDir(d);
        var ok := MapKernel(d, m, o);
        if !ok {
          Unbuild(d, m, o);
          d := 0;
        }
      }
    }

    /** freevm of an address space that was begun after m. */
    method Unbuild(d: nat, ghost m: Mem, ghost o: map<nat, Owner>)
      requires Valid() && DirAt(View(), owner, d) && Owned(m, lo, o) && d in o && o[d] == Free
      requires Grown(m, o, View(), owner, d, TOP)
      modifies this, pages
      ensures Valid() && Restored(m, o, View(), owner)
    {
      ghost var m1, o1 := View(), owner;
      Freevm(d);
      BuiltAndGone(m, lo, o, m1, o1, View(), owner, d);
    }

    ghost method NewDir(d: nat)
      requires Valid() && d in owner && owner[d] == Held && d < TOP && View().pages[d] == ZeroPage()
      modifies this`owner
      ensures Valid() && DirAt(View(), owner, d) && owner == old(owner)[d := Dir] && View() == old(View())
      ensures MappedTo(View(), d, data, 0)
    {
      NewDirKeeps(View(), lo, owner, d);
      Settle(owner[d := Dir]);
    }

    method MapKernel(d: nat, ghost m: Mem, ghost o: map<nat, Owner>) returns (ok: bool)
      requires Valid() && DirAt(View(), owner, d) && 0x100 < data < TOP
      requires MappedTo(View(), d, data, 0) && Grown(m, o, View(), owner, d, TOP)
      modifies this, pages
      ensures Valid() && DirAt(View(), owner, d) && Grown(m, o, View(), owner, d, TOP)
      ensures ok ==> KernelFrom(View(), d, data, 0)
      ensures |free| + KERNEL_TABLES >= |old(free)| && (!ok ==> |old(free)| < KERNEL_TABLES)
    {
      hide KernelTables, TablesFor, FirstPage, PageCount, Owned, Grown;
      NoKernelTables(data);
      var k := 0;
      ghost var f := |free|;
      ok := true;
      while ok && k < 4
        invariant k <= 4 && KernelTables(k, data) <= KERNEL_TABLES
        invariant if ok then |free| + KernelTables(k, data) >= f else f < KERNEL_TABLES
        invariant k <= 4 && Valid() && DirAt(View(), owner, d) && Grown(m, o, View(), owner, d, TOP)
        invariant ok ==> MappedTo(View(), d, data, k)
        decreases 4 - k, ok
      {
        KernelTablesMore(k, data);
        ok := MapRegion(d, k, m, o);
        k := k + 1;
      }
    }

    method MapRegion(d: nat, k: nat, ghost m: Mem, ghost o: map<nat, Owner>) returns (ok: bool)
      requires Valid() && DirAt(View(), owner, d) && 0x100 < data < TOP && k < 4
      requires MappedTo(View(), d, data, k) && Grown(m, o, View(), owner, d, TOP)
      modifies this, pages
      ensures Valid() && DirAt(View(), owner, d) && Grown(m, o, View(), owner, d, TOP)
      ensures ok ==> MappedTo(View(), d, data, k + 1)
      ensures |free| + TablesFor(FirstPage(k, data), PageCount(k, data)) >= |old(free)|
      ensures !ok ==> |old(free)| < TablesFor(FirstPage(k, data), PageCount(k, data))
    {
      ghost var m1, o1 := View(), owner;
      var r := Region(k, data);
      var size := (r.end - r.start) % TWO_32;
      RegionFits(k, data);
      RegionPages(k, data);
      RegionReady(m1, d, data, k, FirstPage(k, data), PageCount(k, data));
      ok := Mappages(d, r.virt, size, r.start / PGSIZE, r.perm);
      GrownTwice(m, o, m1, o1, View(), owner, d, TOP);
      if ok {
        RegionMapped(m1, View(), d, data, k);
      }
    }

    /** copyuvm: a copy of d's first sz bytes, pages of its own; or 0 and everything as before.
        Its precondition on the entries is that it does not panic. */
    method Copyuvm(d: nat, sz: nat) returns (c: nat)
      requires Valid() && DirAt(View(), owner, d) && sz <= KERNBASE && 0x100 < data < TOP
      requires forall v {:trigger PteAt(View(), d, v)} :: 0 <= v < PgUp(sz) ==> Present(PteAt(View(), d, v))
      modifies this, pages
      ensures Valid()
      ensures c == 0 ==> Restored(old(View()), old(owner), View(), owner)
      ensures c != 0 ==> DirAt(View(), owner, c) && c in old(owner) && old(owner)[c] == Free
      ensures c != 0 ==> Grown(old(View()), old(owner), View(), owner, c, TOP) && SameBut(old(View()), View(), d, 0, 0)
      ensures c != 0 ==> KernelFrom(View(), c, data, PgUp(sz)) && Copied(View(), owner, d, c, PgUp(sz))
      ensures c == 0 ==> |old(free)| < 1 + KERNEL_TABLES + Spent(0, PgUp(sz))
    {
      ghost var m, o := View(), owner;
      c := Setupkvm();
      if c != 0 {
        var ok := CopyPages(d, c, sz, m, o);
        if ok {
          OtherSpaces(m, lo, o, View(), owner, c, TOP, d);
        } else {
          Unbuild(c, m, o);
          c := 0;
        }
      }
    }

    method CopyPages(d: nat, c: nat, sz: nat, ghost m: Mem, ghost o: map<nat, Owner>) returns (ok: bool)
      requires Valid() && DirAt(View(), owner, c) && sz <= KERNBASE && KernelFrom(View(), c, data, 0)
      requires Owned(m, lo, o) && DirAt(m, o, d) && c in o && o[c] == Free && Grown(m, o, View(), owner, c, TOP)
      requires forall v {:trigger PteAt(m, d, v)} :: 0 <= v < PgUp(sz) ==> Present(PteAt(m, d, v))
      modifies this, pages
      ensures Valid() && DirAt(View(), owner, c) && Grown(m, o, View(), owner, c, TOP)
      ensures ok ==> d < TOP && c < TOP && KernelFrom(View(), c, data, PgUp(sz)) && Copied(View(), owner, d, c, PgUp(sz))
      ensures !ok ==> |old(free)| < Spent(0, PgUp(sz))
    {
      var i := 0;
      ghost var f := |free|;
      ok := true;
      while ok && i * PGSIZE < sz
        invariant if ok then |free| + Spent(0, i) >= f else f < Spent(0, PgUp(sz))
        invariant i <= PgUp(sz) && Valid() && DirAt(View(), owner, c) && Grown(m, o, View(), owner, c, TOP)
        invariant ok ==> KernelFrom(View(), c, data, i) && Copied(View(), owner, d, c, i)
        decreases PgUp(sz) - i, ok
      {
        ok := CopyPage(d, c, i, m, o, f);
        SpentMore(0, i, PgUp(sz));
        i := i + 1;
      }
    }

    method CopyPage(d: nat, c: nat, i: nat, ghost m: Mem, ghost o: map<nat, Owner>, ghost f: nat) returns (ok: bool)
      requires Valid() && DirAt(View(), owner, c) && i < UPAGES && KernelFrom(View(), c, data, i) && Copied(View(), owner, d, c, i)
      requires Owned(m, lo, o) && DirAt(m, o, d) && c in o && o[c] == Free && Grown(m, o, View(), owner, c, TOP)
      requires Present(PteAt(m, d, i))
      requires |free| + Spent(0, i) >= f
      modifies this, pages
      ensures Valid() && DirAt(View(), owner, c) && Grown(m, o, View(), owner, c, TOP)
      ensures ok ==> KernelFrom(View(), c, data, i + 1) && Copied(View(), owner, d, c, i + 1)
      ensures if ok then |free| + Spent(0, i + 1) >= f else f < Spent(0, i + 1)
    {
      hide FreeOk, Linked, DirsOk, TablesOk, Points, KernelFrom, Copied, TablesFor;
      OtherSpaces(m, lo, o, View(), owner, c, TOP, d);
      assert PteAt(View(), d, i) == PteAt(m, d, i);
      var pte := Lookup(d, i);
      ghost var m0, o0 := View(), owner;
      SpentMore(0, i, i + 1);
      var mem := KallocCopy(Pfn(pte));
      ok := mem != 0;
      if ok {
        PtesKept(m0, View(), o0, c);
        ok := MapCopy(d, c, i, mem, pte, m, o, m0, o0, f);
      }
    }

    method Lookup(d: nat, i: nat) returns (pte: Word)
      requires Valid() && DirAt(View(), owner, d) && i < UPAGES && Present(PteAt(View(), d, i))
      modifies this, pages
      ensures View() == old(View()) && owner == old(owner) && pte == PteAt(View(), d, i)
      ensures Pfn(pte) < TOP && Pfn(pte) in owner && owner[Pfn(pte)].User?
    {
      assert owner[Pfn(PteAt(View(), d, i))] == User(d, i / 1024, i % 1024);
      var t := Walkpgdir(d, i / 1024, false);
      pte := pages[t][i % 1024];
    }

    /** kalloc, and memmove of page p into the new page. */
    method KallocCopy(p: nat) returns (r: nat)
      requires Valid() && p < TOP && p in owner && owner[p].User?
      modifies this, pages
      ensures Valid() && SamePtes(old(View()), View(), old(owner))
      ensures r == 0 ==> View() == old(View()) && owner == old(owner)
      ensures r != 0 ==> lo <= r < TOP && r in old(owner) && old(owner)[r] == Free && owner == old(owner)[r := Held]
      ensures r != 0 ==> View().pages == old(View()).pages[r := old(View()).pages[p]]
      ensures r == 0 ==> old(free) == []
      ensures r != 0 ==> |free| == |old(free)| - 1
    {
      r := Kalloc();
      if r != 0 {
        Fill(r, pages[p]);
      }
    }

    /** mappages of the copy, or kfree. */
    method MapCopy(d: nat, c: nat, i: nat, mem: nat, pte: Word,
                   ghost m: Mem, ghost o: map<nat, Owner>, ghost m0: Mem, ghost o0: map<nat, Owner>, ghost f: nat)
      returns (ok: bool)
      requires Valid() && DirAt(View(), owner, c) && i < UPAGES && KernelFrom(m0, c, data, i) && Copied(m0, o0, d, c, i)
      requires Owned(m, lo, o) && DirAt(m, o, d) && c in o && o[c] == Free && Grown(m, o, m0, o0, c, TOP)
      requires pte == PteAt(m, d, i) && Present(pte) && Pfn(pte) < TOP && SameBut(m, m0, d, 0, 0) && SameBut(m0, View(), c, 0, 0)
      requires mem in o0 && mem < TOP && o0[mem] == Free && owner == o0[mem := Held]
      requires View().pages == m0.pages[mem := m0.pages[Pfn(pte)]]
      requires |free| + Spent(0, i) + 1 >= f
      modifies this, pages
      ensures Valid() && DirAt(View(), owner, c) && Grown(m, o, View(), owner, c, TOP)
      ensures ok ==> KernelFrom(View(), c, data, i + 1) && Copied(View(), owner, d, c, i + 1)
      ensures if ok then |free| + Spent(0, i + 1) >= f else f < Spent(0, i + 1)
    {
      hide TablesFor, FreeOk, Linked, DirsOk, TablesOk, Points;
      ghost var m1, o1 := View(), owner;
      SpareTaken(m, o, m0, lo, o0, m1, c, mem);
      OnePage(i);
      assert PteAt(m1, c, i) == PteAt(m0, c, i);
      if i > 0 {
        CopyBefore(m0, m1, o0, d, c, i);
      }
      SameOrNextTable(0, i, i + 1);
      OneTable(i);
      ok := Mappages(c, i * PGSIZE, PGSIZE, mem, Flags(pte));
      if ok {
        assert PteAt(View(), c, i) == MkPte(mem, Flags(pte));
        PageMappedGrown(m, o, m1, o1, View(), owner, c, mem);
        OtherSpaces(m, lo, o, View(), owner, c, TOP, d);
        CopyMore(m, lo, o, m0, o0, m1, o1, View(), owner, d, c, i, mem);
        KernelThrough(m0, m1, View(), c, data, i);
      } else {
        SpareGiven(m, o, m1, o1, c, mem);
        Release(mem);
      }
    }
  }

  lemma OneTable(w: nat)
    ensures TablesFor(w, 1) == 1
  {
  }

  lemma RunSoFar(m: Mem, r: Mem, d: nat, w: nat, n: nat, p: nat, perm: nat)
    requires Progress(m, r, d, w, n, p, perm)
    ensures Run(r, d, w, n, p, perm) && SameBut(m, r, d, w, n)
  {
  }

  // ---- how many free pages are enough -------------------------------------------------

  /** The page tables that n pages from `first` on lie in. */
  function TablesFor(first: nat, n: nat): nat {
    if n == 0 then 0 else (first + n - 1) / 1024 - first / 1024 + 1
  }

  /** The pages from `from` up to `to` with their page tables. */
  function Spent(from: nat, to: nat): nat
    requires from <= to
  {
    to - from + TablesFor(from, to - from)
  }

  const KERNEL_TABLES: nat := 66

  /** The page tables for the first k regions of the kernel. */
  function KernelTables(k: nat, data: nat): nat
    requires k <= 4 && 0x100 < data < TOP
  {
    if k == 0 then 0 else KernelTables(k - 1, data) + TablesFor(FirstPage(k - 1, data), PageCount(k - 1, data))
  }

  lemma NoKernelTables(data: nat)
    requires 0x100 < data < TOP
    ensures KernelTables(0, data) == 0
  {
  }

  lemma KernelTablesMore(k: nat, data: nat)
    requires k < 4 && 0x100 < data < TOP
    ensures KernelTables(k + 1, data) == KernelTables(k, data) + TablesFor(FirstPage(k, data), PageCount(k, data))
    ensures KernelTables(k + 1, data) <= KERNEL_TABLES
  {
    assert TablesFor(FirstPage(0, data), PageCount(0, data)) == 1;
    assert TablesFor(FirstPage(1, data), PageCount(1, data)) == (data - 1) / 1024 + 1;
    assert TablesFor(FirstPage(2, data), PageCount(2, data)) == 56 - data / 1024;
    assert TablesFor(FirstPage(3, data), PageCount(3, data)) == 8;
    assert KernelTables(1, data) == 1;
    assert KernelTables(2, data) == (data - 1) / 1024 + 2;
  }

  /** One more page lies in the table of the page before it, or in the next. */
  lemma SameOrNextTable(first: nat, k: nat, n: nat)
    requires k < n
    ensures TablesFor(first, k + 1) ==
            TablesFor(first, k) + if k > 0 && (first + k) / 1024 == (first + k - 1) / 1024 then 0 else 1
    ensures TablesFor(first, k + 1) <= TablesFor(first, n)
  {
  }

  lemma SpentMore(from: nat, a: nat, to: nat)
    requires from <= a < to
    ensures Spent(from, a) < Spent(from, a + 1) <= Spent(from, to)
  {
  }

  /** The page table of a page that is mapped is there. */
  lemma LastMapped(m: Mem, d: nat, first: nat, k: nat, p: nat, perm: nat)
    requires Run(m, d, first, k, p, perm) && k > 0
    ensures Present(Pde(m, d, (first + k - 1) / 1024))
  {
    assert PteAt(m, d, first + k - 1) == MkPte(p + k - 1, perm);
  }

  lemma PageBefore(m0: Mem, m: Mem, o0: map<nat, Owner>, d: nat, from: nat, a: nat)
    requires from < a < UPAGES && d < |m.pages| == TOP && SameBut(m0, m, d, 0, 0)
    requires |m0.pages| == TOP && forall v {:trigger ZeroAt(m0, o0, d, v)} :: from <= v < a ==> ZeroAt(m0, o0, d, v)
    ensures Present(Pde(m, d, (a - 1) / 1024))
  {
    assert ZeroAt(m0, o0, d, a - 1);
    assert PteAt(m, d, a - 1) == PteAt(m0, d, a - 1);
  }

  lemma CopyBefore(m0: Mem, m: Mem, o0: map<nat, Owner>, d: nat, c: nat, i: nat)
    requires 0 < i < UPAGES && SameBut(m0, m, c, 0, 0) && Copied(m0, o0, d, c, i)
    ensures Present(Pde(m, c, (i - 1) / 1024))
  {
    assert CopiedAt(m0, o0, d, c, i - 1);
    assert PteAt(m, c, i - 1) == PteAt(m0, c, i - 1);
  }

  lemma KernelThrough(m0: Mem, m1: Mem, r: Mem, c: nat, data: nat, i: nat)
    requires KernelFrom(m0, c, data, i) && SameBut(m0, m1, c, 0, 0) && SameBut(m1, r, c, i, 1)
    ensures KernelFrom(r, c, data, i + 1)
  {
    forall v {:trigger PteAt(r, c, v)} | i + 1 <= v < VPAGES ensures PteAt(r, c, v) == KernPte(v, data) {
      assert PteAt(r, c, v) == PteAt(m1, c, v) == PteAt(m0, c, v);
    }
  }

  /** kmap: a region of kernel virtual memory, the physical memory under it, and its flags. */
  datatype Kmap = Kmap(virt: nat, start: nat, end: nat, perm: nat)

  function Region(k: nat, data: nat): Kmap
    requires k < 4 && data < TOP
  {
    if k == 0 then Kmap(KERNBASE, 0, 0x10_0000, 2)
    else if k == 1 then Kmap(KERNBASE + 0x10_0000, 0x10_0000, data * PGSIZE, 0)
    else if k == 2 then Kmap(KERNBASE + data * PGSIZE, data * PGSIZE, 0xE00_0000, 2)
    else Kmap(0xFE00_0000, 0xFE00_0000, 0, 2)
  }

  /** The region of kmap that virtual page v lies in; 4 if none. */
  function RegionOf(v: nat, data: nat): nat {
    if v < 0x8_0000 then 4
    else if v < 0x8_0100 then 0
    else if v < 0x8_0000 + data then 1
    else if v < 0x8_E000 then 2
    else if v < 0xF_E000 then 4
    else 3
  }

  /** d maps the first k regions of kmap and nothing else. */
  ghost predicate MappedTo(m: Mem, d: nat, data: nat, k: nat) {
    && |m.pages| == TOP && d < TOP
    && forall v {:trigger PteAt(m, d, v)} :: 0 <= v < VPAGES ==>
         PteAt(m, d, v) == if RegionOf(v, data) < k then KernPte(v, data) else 0
  }

  /** The same in page numbers: where the region starts, how many pages it has, and the first
      physical page. */
  function FirstPage(k: nat, data: nat): nat {
    if k == 0 then 0x8_0000 else if k == 1 then 0x8_0100 else if k == 2 then 0x8_0000 + data else 0xF_E000
  }

  function PageCount(k: nat, data: nat): nat
    requires 0x100 < data < TOP
  {
    if k == 0 then 0x100 else if k == 1 then data - 0x100 else if k == 2 then TOP - data else 0x2000
  }

  function PhysPage(k: nat, data: nat): nat {
    if k == 0 then 0 else if k == 1 then 0x100 else if k == 2 then data else 0xF_E000
  }

  lemma RegionFits(k: nat, data: nat)
    requires k < 4 && 0x100 < data < TOP
    ensures var r := Region(k, data); var size := (r.end - r.start) % TWO_32;
            && 0 < size && r.virt + size <= TWO_32
            && r.virt / 4096 == FirstPage(k, data) && r.start / PGSIZE == PhysPage(k, data)
            && PagesIn(r.virt, size) == PageCount(k, data)
  {
  }

  lemma RegionPages(k: nat, data: nat)
    requires k < 4 && 0x100 < data < TOP
    ensures var first, n, p := FirstPage(k, data), PageCount(k, data), PhysPage(k, data);
            && UPAGES <= first && first + n <= VPAGES && p + n <= VPAGES
            && (forall v {:trigger RegionOf(v, data)} :: 0 <= v < VPAGES ==> (RegionOf(v, data) == k <==> first <= v < first + n))
            && (forall v {:trigger KernPte(v, data)} :: first <= v < first + n ==>
                  KernPte(v, data) == MkPte(p + (v - first), Region(k, data).perm))
  {
  }

  lemma RegionReady(m: Mem, d: nat, data: nat, k: nat, first: nat, n: nat)
    requires MappedTo(m, d, data, k) && first + n <= VPAGES
    requires forall v {:trigger RegionOf(v, data)} :: 0 <= v < VPAGES ==> (RegionOf(v, data) == k <==> first <= v < first + n)
    ensures forall v {:trigger PteAt(m, d, v)} :: first <= v < first + n ==> !Present(PteAt(m, d, v))
  {
    forall v {:trigger PteAt(m, d, v)} | first <= v < first + n ensures !Present(PteAt(m, d, v)) {
      assert RegionOf(v, data) == k;
    }
  }

  lemma RegionMapped(m: Mem, r: Mem, d: nat, data: nat, k: nat)
    requires k < 4 && 0x100 < data < TOP && MappedTo(m, d, data, k)
    requires SameBut(m, r, d, FirstPage(k, data), PageCount(k, data))
    requires Run(r, d, FirstPage(k, data), PageCount(k, data), PhysPage(k, data), Region(k, data).perm)
    ensures MappedTo(r, d, data, k + 1)
  {
    RegionPages(k, data);
    forall v {:trigger PteAt(r, d, v)} | 0 <= v < VPAGES
      ensures PteAt(r, d, v) == if RegionOf(v, data) < k + 1 then KernPte(v, data) else 0
    {
      assert RegionOf(v, data) == k || PteAt(r, d, v) == PteAt(m, d, v);
    }
  }

  /** PGROUNDUP, as a page number. */
  function PgUp(sz: nat): nat {
    (sz + 4095) / 4096
  }

  /** The page tables of d below entry n are free, the others and d itself in the caller's
      hands. */
  ghost predicate TablesGone(m1: Mem, o1: map<nat, Owner>, r: Mem, o: map<nat, Owner>, d: nat, n: nat) {
    && |r.pages| == |m1.pages| == TOP && o.Keys == o1.Keys && d < TOP && r.pages[d] == m1.pages[d]
    && (forall p {:trigger o1[p]} {:trigger o[p]} :: p in o1 && p < TOP ==>
          && o[p] == (if o1[p].Table? && o1[p].dir == d && o1[p].i < n then Free else if Mine(o1[p], p, d) then Held else o1[p])
          && (o[p] != Free ==> r.pages[p] == m1.pages[p]))
  }

  lemma OneTableGone(m1: Mem, lo: nat, o1: map<nat, Owner>, m2: Mem, o2: map<nat, Owner>, r: Mem, o: map<nat, Owner>, d: nat, i: nat)
    requires Owned(m1, lo, o1) && DirAt(m1, o1, d) && i < 1024 && TablesGone(m1, o1, m2, o2, d, i)
    requires if Present(Pde(m1, d, i)) then
               Pfn(Pde(m1, d, i)) < TOP && Pfn(Pde(m1, d, i)) in o2
               && r == Given(m2, Pfn(Pde(m1, d, i))) && o == o2[Pfn(Pde(m1, d, i)) := Free]
             else r == m2 && o == o2
    ensures TablesGone(m1, o1, r, o, d, i + 1)
  {
    if Present(Pde(m1, d, i)) {
      assert o1[Pfn(Pde(m1, d, i))] == Table(d, i);
    }
    forall p {:trigger o1[p]} | p in o1 && o1[p].Table? && o1[p].dir == d && o1[p].i == i
      ensures Present(Pde(m1, d, i)) && p == Pfn(Pde(m1, d, i))
    {
      assert Points(m1, o1, p);
    }
  }

  lemma NoUserLeft(m: Mem, lo: nat, owner: map<nat, Owner>, r: Mem, o: map<nat, Owner>, d: nat)
    requires Owned(m, lo, owner) && Shrunk(m, owner, r, o, d, 0, UPAGES)
    ensures forall p {:trigger owner[p]} {:trigger o[p]} :: p in owner && p < TOP ==>
              o[p] == if owner[p].User? && owner[p].dir == d then Free else owner[p]
    ensures forall p :: p in o && o[p].User? ==> o[p].dir != d
  {
    forall p {:trigger owner[p]} {:trigger o[p]} | p in owner && p < TOP
      ensures o[p] == if owner[p].User? && owner[p].dir == d then Free else owner[p]
    {
      assert Points(m, owner, p);
    }
  }

  lemma AllGone(m1: Mem, lo: nat, o1: map<nat, Owner>, m2: Mem, o2: map<nat, Owner>, r: Mem, o: map<nat, Owner>, d: nat)
    requires Owned(m1, lo, o1) && DirAt(m1, o1, d) && TablesGone(m1, o1, m2, o2, d, 1024)
    requires r == Given(m2, d) && o == o2[d := Free]
    requires forall p :: p in o1 && o1[p].User? ==> o1[p].dir != d
    ensures Gone(m1, o1, r, o, d)
  {
    forall p {:trigger o1[p]} | p in o1 && o1[p].Table? ensures o1[p].i < 1024 {
      assert Points(m1, o1, p);
    }
  }

  lemma ShrunkThenGone(m: Mem, owner: map<nat, Owner>, m1: Mem, o1: map<nat, Owner>, r: Mem, o: map<nat, Owner>, d: nat)
    requires PagesLeft(m, owner, m1, o1, d, 0, UPAGES) && Gone(m1, o1, r, o, d)
    requires forall p {:trigger owner[p]} {:trigger o1[p]} :: p in owner && p < TOP ==>
               o1[p] == if owner[p].User? && owner[p].dir == d then Free else owner[p]
    ensures Gone(m, owner, r, o, d)
  {
  }

  function Lesser(a: nat, b: nat): nat {
    if a < b then a else b
  }

  lemma NoTable(m: Mem, d: nat, a: nat)
    requires d < |m.pages| && a < UPAGES && !Present(Pde(m, d, a / 1024))
    ensures forall v {:trigger PteAt(m, d, v)} :: a <= v < (a / 1024 + 1) * 1024 ==> !Present(PteAt(m, d, v))
    ensures (a / 1024 + 1) * 1024 <= UPAGES
  {
    forall v {:trigger PteAt(m, d, v)} | a <= v < (a / 1024 + 1) * 1024 ensures !Present(PteAt(m, d, v)) {
      assert v / 1024 == a / 1024;
    }
  }

  /** The first page of the next page table. */
  function NextTable(a: nat): nat {
    (a / 1024 + 1) * 1024
  }

  lemma SkipTable(m: Mem, lo: nat, owner: map<nat, Owner>, r: Mem, o: map<nat, Owner>, d: nat, from: nat, a: nat, to: nat)
    requires Owned(m, lo, owner) && Owned(r, lo, o) && DirAt(r, o, d) && Shrunk(m, owner, r, o, d, from, a)
    requires from <= a < to <= UPAGES && !Present(Pde(r, d, a / 1024))
    ensures a < NextTable(a) && Shrunk(m, owner, r, o, d, from, Lesser(NextTable(a), to))
  {
    NoTable(r, d, a);
    ShrunkSkip(m, lo, owner, r, o, d, from, a, Lesser(NextTable(a), to));
  }

  lemma ShrunkPast(m: Mem, lo: nat, owner: map<nat, Owner>, r: Mem, o: map<nat, Owner>, d: nat, from: nat, w: nat)
    requires Owned(m, lo, owner) && Owned(r, lo, o) && DirAt(r, o, d) && Shrunk(m, owner, r, o, d, from, w)
    requires from <= w < UPAGES && !Present(PteAt(r, d, w))
    ensures Shrunk(m, owner, r, o, d, from, w + 1)
  {
    forall x {:trigger PteAt(r, d, x)} | w <= x < w + 1 ensures !Present(PteAt(r, d, x)) {
      assert x == w;
    }
    ShrunkSkip(m, lo, owner, r, o, d, from, w, w + 1);
  }

  /** Pages that are not mapped need not be visited. */
  lemma ShrunkSkip(m: Mem, lo: nat, owner: map<nat, Owner>, r: Mem, o: map<nat, Owner>, d: nat, from: nat, w: nat, v: nat)
    requires Owned(m, lo, owner) && Owned(r, lo, o) && DirAt(r, o, d) && Shrunk(m, owner, r, o, d, from, w)
    requires from <= w <= v <= UPAGES && forall x {:trigger PteAt(r, d, x)} :: w <= x < v ==> !Present(PteAt(r, d, x))
    ensures Shrunk(m, owner, r, o, d, from, v)
  {
    forall p {:trigger o[p]} | p in o && o[p].User? && o[p].dir == d ensures !(w <= o[p].i * 1024 + o[p].j < v) {
      assert Points(r, o, p);
      var x := o[p].i * 1024 + o[p].j;
      SplitPage(x, o[p].i, o[p].j);
      assert PteAt(r, d, x) == Pte(r, d, o[p].i, o[p].j);
    }
    forall x {:trigger PteAt(r, d, x)} | 0 <= x < VPAGES && !(from <= x < v) ensures PteAt(r, d, x) == PteAt(m, d, x) {
    }
  }

  /** How many pages the size bytes from va on touch. */
  function PagesIn(va: nat, size: nat): (n: nat)
    requires 0 < size
    ensures 0 < n && va / 4096 + n - 1 == (va + size - 1) / 4096
  {
    (va + size - 1) / 4096 - va / 4096 + 1
  }

  lemma OnePage(a: nat)
    ensures a * PGSIZE / 4096 == a && PagesIn(a * PGSIZE, PGSIZE) == 1
  {
  }

  /** Rounding the last address down, wrap-around included. */
  lemma LastPage(va: nat, size: nat)
    requires 0 < size && va + size <= TWO_32
    ensures (va + size - 1) % TWO_32 / PGSIZE == va / PGSIZE + PagesIn(va, size) - 1 < VPAGES
  {
  }

  /** The n virtual pages from w on are mapped to physical pages p, p+1, ... */
  ghost predicate Run(m: Mem, d: nat, w: nat, n: nat, p: nat, perm: nat) {
    && d < |m.pages| && w + n <= VPAGES && p + n <= VPAGES && perm < 4096
    && forall v {:trigger PteAt(m, d, v)} :: w <= v < w + n ==> PteAt(m, d, v) == MkPte(p + (v - w), perm)
  }

  ghost predicate Progress(m: Mem, r: Mem, d: nat, w: nat, n: nat, p: nat, perm: nat) {
    Run(r, d, w, n, p, perm) && SameBut(m, r, d, w, n)
  }

  lemma OneMapped(m: Mem, r: Mem, d: nat, w: nat, n: nat, p: nat, perm: nat, ok: bool)
    requires |r.pages| == |m.pages| && d < |m.pages| && w < VPAGES && p < VPAGES && perm < 4096 && 1 <= n
    requires if ok then PteAt(r, d, w) == MkPte(p, perm) && SameBut(m, r, d, w, 1) else r == m
    ensures (ok ==> Progress(m, r, d, w, 1, p, perm)) && SameBut(m, r, d, w, n)
  {
  }

  lemma Wider(m: Mem, r: Mem, d: nat, w: nat, k: nat, n: nat)
    requires SameBut(m, r, d, w, k) && k <= n
    ensures SameBut(m, r, d, w, n)
  {
  }

  lemma MoreMapped(m: Mem, m1: Mem, r: Mem, d: nat, w: nat, n: nat, p: nat, perm: nat)
    requires Progress(m, m1, d, w, n, p, perm) && SameBut(m1, r, d, w + n, 1)
    requires w + n < VPAGES && p + n < VPAGES && PteAt(r, d, w + n) == MkPte(p + n, perm)
    ensures Progress(m, r, d, w, n + 1, p, perm)
  {
  }

  /** kfree's test on the page, which must lie between `end` and PHYSTOP. */
  predicate Managed(lo: nat, p: nat) {
    lo <= p < TOP
  }

  ghost function FreedRange(owner: map<nat, Owner>, from: nat, to: nat): map<nat, Owner> {
    map p | p in owner :: if from <= p < to then Free else owner[p]
  }

  lemma FreedNone(owner: map<nat, Owner>, from: nat)
    ensures FreedRange(owner, from, from) == owner
  {
  }

  lemma FreedOneMore(owner: map<nat, Owner>, from: nat, p: nat)
    requires from <= p && p in owner
    ensures FreedRange(owner, from, p)[p := Free] == FreedRange(owner, from, p + 1)
    ensures p in FreedRange(owner, from, p) && FreedRange(owner, from, p)[p] == owner[p]
  {
  }

  /** A user page that is mapped changes hands; kernel mappings own nothing. */
  function Exempt(w: nat, p: nat): nat {
    if w < UPAGES then p else TOP
  }

  lemma StillUnmapped(m: Mem, lo: nat, owner: map<nat, Owner>, r: Mem, o: map<nat, Owner>, d: nat, w: nat, p: nat)
    requires Owned(m, lo, owner) && Owned(r, lo, o) && DirAt(m, owner, d) && SamePtes(m, r, owner) && w < VPAGES
    requires !Present(PteAt(m, d, w)) && Grown(m, owner, r, o, d, TOP)
    ensures DirAt(r, o, d) && !Present(PteAt(r, d, w))
    ensures p in owner && owner[p] == Held ==> p in o && o[p] == Held && r.pages[p] == m.pages[p]
  {
    assert Pte(r, d, w / 1024, w % 1024) == Pte(m, d, w / 1024, w % 1024);
  }

  lemma MapGrows(m: Mem, owner: map<nat, Owner>, m1: Mem, o1: map<nat, Owner>, r: Mem, o: map<nat, Owner>,
                 d: nat, t: nat, w: nat, p: nat)
    requires Grown(m, owner, m1, o1, d, TOP) && |r.pages| == TOP && w < VPAGES
    requires t in o1 && t < TOP && o1[t].Table? && o1[t].dir == d
    requires forall q :: 0 <= q < TOP && q != t ==> r.pages[q] == m1.pages[q]
    requires w < UPAGES ==> p in o1
    requires o == if w < UPAGES then o1[p := User(d, w / 1024, w % 1024)] else o1
    ensures Grown(m, owner, r, o, d, Exempt(w, p))
  {
  }

  lemma MapSame(m: Mem, m1: Mem, owner: map<nat, Owner>, r: Mem, d: nat, w: nat)
    requires SamePtes(m, m1, owner) && DirAt(m, owner, d) && SameBut(m1, r, d, w, 1)
    ensures SameBut(m, r, d, w, 1)
  {
    forall v {:trigger PteAt(r, d, v)} | 0 <= v < VPAGES && v != w ensures PteAt(r, d, v) == PteAt(m, d, v) {
      assert Pte(m1, d, v / 1024, v % 1024) == Pte(m, d, v / 1024, v % 1024);
    }
  }

  lemma StorePteAt(m: Mem, lo: nat, owner: map<nat, Owner>, d: nat, w: nat, e: Word)
    requires Owned(m, lo, owner) && DirAt(m, owner, d) && w < VPAGES && Present(Pde(m, d, w / 1024))
    ensures Pfn(Pde(m, d, w / 1024)) < TOP && owner[Pfn(Pde(m, d, w / 1024))] == Table(d, w / 1024)
    ensures var r := WithPte(m, d, w / 1024, w % 1024, e); PteAt(r, d, w) == e && SameBut(m, r, d, w, 1)
  {
    StorePte(m, lo, owner, d, w / 1024, w % 1024, e);
    var r := WithPte(m, d, w / 1024, w % 1024, e);
    forall v {:trigger PteAt(r, d, v)} | 0 <= v < VPAGES && v != w ensures PteAt(r, d, v) == PteAt(m, d, v) {
      SplitPage(v, w / 1024, w % 1024);
      SplitPage(w, w / 1024, w % 1024);
    }
  }

  lemma NewTableGrows(m: Mem, owner: map<nat, Owner>, r: Mem, d: nat, i: nat, t: nat)
    requires |m.pages| == |r.pages| == TOP && DirAt(m, owner, d) && d < TOP && t in owner && t < TOP && owner[t] == Free
    requires i < 1024 && r.pages == m.pages[t := ZeroPage()][d := m.pages[d][i := MkPte(t, 7)]]
    ensures Grown(m, owner, r, owner[t := Held][t := Table(d, i)], d, TOP)
  {
  }

  lemma ListHead(m: Mem, lo: nat, owner: map<nat, Owner>)
    requires Owned(m, lo, owner)
    ensures m.head == 0 <==> m.free == []
    ensures m.free != [] ==> m.free[0] < TOP && m.head == Ka(m.free[0]) && (m.head - KERNBASE) / PGSIZE == m.free[0]
  {
    FreeInRange(m, lo, owner);
  }

  lemma FreeInRange(m: Mem, lo: nat, owner: map<nat, Owner>)
    requires Owned(m, lo, owner)
    ensures forall k {:trigger m.free[k]} :: 0 <= k < |m.free| ==> lo <= m.free[k] < TOP
  {
    forall k {:trigger m.free[k]} | 0 <= k < |m.free| ensures lo <= m.free[k] < TOP {
      assert owner[m.free[k]] == Free;
    }
  }
}
