/** The user-level allocator of umalloc.c: malloc, free and morecore over one circular,
    address-ordered free list.  Addresses count header-sized units (8 bytes). */
module UMalloc {
  import opened FreeList
  import opened Wrappers

  const HEADER_BYTES: nat := 8
  const MIN_UNITS: nat := 4096
  const INT_LIMIT: nat := 0x8000_0000

  /** nunits, computed in 32-bit unsigned arithmetic. */
  function Units(nbytes: nat): (n: nat)
    ensures n >= 1
  {
    (nbytes + HEADER_BYTES - 1) % TWO_32 / HEADER_BYTES + 1
  }

  /** The units asked for leave room for nbytes behind the header, unless the rounding
      wraps around: exactly the last seven sizes do, and get no payload at all. */
  lemma UnitsSuffice(nbytes: nat)
    requires nbytes < TWO_32
    ensures (Units(nbytes) - 1) * HEADER_BYTES >= nbytes <==> nbytes <= TWO_32 - HEADER_BYTES
    ensures nbytes > TWO_32 - HEADER_BYTES ==> Units(nbytes) == 1
  {
  }

  /** sbrk takes an int: from 2^28 units on, nu * sizeof(Header) is no longer a positive
      int, and the call does not grow the process. */
  predicate Sbrkable(nu: nat) {
    0 < nu * HEADER_BYTES < INT_LIMIT
  }

  /** What morecore asks for when malloc needs room for nbytes. */
  function CoreUnits(nbytes: nat): (n: nat)
    ensures n >= MIN_UNITS && n >= Units(nbytes)
  {
    Core(Units(nbytes))
  }

  function Core(nunits: nat): (n: nat)
    ensures n >= MIN_UNITS && n >= nunits
  {
    if nunits < MIN_UNITS then MIN_UNITS else nunits
  }

  /** The sizes for which morecore's call of sbrk can grow the process. */
  lemma SbrkableSizes(nbytes: nat)
    requires nbytes < TWO_32
    ensures Sbrkable(CoreUnits(nbytes)) <==> nbytes <= INT_LIMIT - 16 || nbytes > TWO_32 - HEADER_BYTES
  {
  }

  /** The records of the allocator: the allocated blocks, the free list, where freep is
      in it, the units obtained from sbrk, and the program break. */
  datatype State = State(live: seq<Seg>, fl: seq<Seg>, at: nat, obtained: nat, brk: nat)

  /** malloc's outcome: the address after the header, null, or a call of sbrk with an
      argument that is not a positive int (what the process does then is not modelled). */
  datatype Result = Block(addr: nat) | OutOfMemory | BadSbrk

  // ---- the allocated blocks ------------------------------------------------------

  /** Free and allocated extents lie in [base, brk), pairwise disjoint, and every
      allocated block still has its size in its header. */
  ghost predicate Disjoint(mem: seq<Header>, base: nat, fl: seq<Seg>, live: seq<Seg>, brk: nat) {
    && brk <= |mem| && Below(fl, brk)
    && (forall a :: 0 <= a < |live| ==> BlockOk(mem, base, fl, live[a], brk))
    && (forall a, b :: 0 <= a < b < |live| ==> Apart(live[a].addr, live[a].size, live[b]))
  }

  ghost predicate Below(fl: seq<Seg>, brk: nat) {
    forall i :: 0 <= i < |fl| ==> fl[i].addr + fl[i].size <= brk
  }

  /** An allocated block: inside the heap, its size in its header, clear of free ones. */
  ghost predicate BlockOk(mem: seq<Header>, base: nat, fl: seq<Seg>, s: Seg, brk: nat)
    requires brk <= |mem|
  {
    && base < s.addr && 0 < s.size && s.addr + s.size <= brk && mem[s.addr].size == s.size
    && forall i :: 0 <= i < |fl| ==> Apart(s.addr, s.size, fl[i])
  }

  ghost predicate FreeListOk(mem: seq<Header>, base: nat, fl: seq<Seg>) {
    fl != [] && fl[0] == Seg(base, 0) && Sorted(fl) && Linked(mem, fl)
  }

  // ---- one free, one allocation, on values ---------------------------------------

  /** The header writes of free, once the place p = fl[k] is known. */
  function Relinked(mem: seq<Header>, bp: nat, p: nat): (m: seq<Header>)
    requires bp < |mem| && p < |mem| && mem[p].ptr < |mem|
    ensures |m| == |mem|
  {
    var up := mem[p].ptr;
    var b := if bp + mem[bp].size == up then Header(mem[up].ptr, mem[bp].size + mem[up].size)
             else Header(up, mem[bp].size);
    var m := mem[bp := b];
    if p + m[p].size == bp then m[p := Header(m[bp].ptr, m[p].size + m[bp].size)]
    else m[p := Header(bp, m[p].size)]
  }

  /** Which headers free changes, and to what. */
  lemma RelinkedFields(mem: seq<Header>, base: nat, fl: seq<Seg>, k: nat, s: Seg)
    requires FreeListOk(mem, base, fl) && FitsAfter(fl, k, s) && s.addr < |mem| && mem[s.addr].size == s.size
    ensures mem[fl[k].addr].ptr < |mem|
    ensures var m, p := Relinked(mem, s.addr, fl[k].addr), fl[k].addr;
            var up, after := MeetsUpper(fl, k, s), To(fl, k, s);
            var next := if after < |fl| then fl[after].addr else base;
            && (forall x :: 0 <= x < |mem| && x != p && x != s.addr ==> m[x] == mem[x])
            && (if MeetsLower(fl, k, s) then m[p] == Header(next, Joined(fl, k, s).size)
                else m[p] == Header(s.addr, fl[k].size) && m[s.addr] == Header(next, Joined(fl, k, s).size))
  {
    assert LinkAt(mem, fl, k);
    if k + 1 < |fl| {
      assert LinkAt(mem, fl, k + 1);
    }
  }

  /** The successors in the new list, in terms of the old one. */
  lemma FreedNext(fl: seq<Seg>, k: nat, s: Seg, x: nat)
    requires Sorted(fl) && FitsAfter(fl, k, s) && fl[0].size == 0 && x < |Freed(fl, k, s)|
    ensures var f, i, j := Freed(fl, k, s), From(fl, k, s), To(fl, k, s);
            && (x < k ==> f[x] == fl[x] && NextAddr(f, x) == NextAddr(fl, x))
            && (k <= x < i ==> f[x] == fl[k] && NextAddr(f, x) == s.addr)
            && (x == i ==> f[x] == Joined(fl, k, s) && NextAddr(f, x) == if j < |fl| then fl[j].addr else fl[0].addr)
            && (x > i ==> f[x] == fl[x - i - 1 + j] && NextAddr(f, x) == NextAddr(fl, x - i - 1 + j))
  {
    var f, i, j := Freed(fl, k, s), From(fl, k, s), To(fl, k, s);
    assert i > 0;
    assert f[0] == fl[0];
    assert i + 1 < |f| ==> f[i + 1] == fl[j];
  }

  lemma RelinkedAt(mem: seq<Header>, base: nat, fl: seq<Seg>, k: nat, s: Seg, x: nat)
    requires FreeListOk(mem, base, fl) && FitsAfter(fl, k, s) && s.addr < |mem| && mem[s.addr].size == s.size
    requires x < |Freed(fl, k, s)|
    ensures mem[fl[k].addr].ptr < |mem|
    ensures var m, f := Relinked(mem, s.addr, fl[k].addr), Freed(fl, k, s);
            f[x].addr < |m| && m[f[x].addr] == Header(NextAddr(f, x), f[x].size)
  {
    hide Linked, Sorted, Relinked;
    RelinkedFields(mem, base, fl, k, s);
    FreedNext(fl, k, s, x);
    var i := From(fl, k, s);
    if x < k {
      Untouched(mem, fl, k, s, x);
    } else if x > i {
      Untouched(mem, fl, k, s, x - i - 1 + To(fl, k, s));
    }
  }

  lemma RelinkedLinked(mem: seq<Header>, base: nat, fl: seq<Seg>, k: nat, s: Seg)
    requires FreeListOk(mem, base, fl) && FitsAfter(fl, k, s) && s.addr < |mem| && mem[s.addr].size == s.size
    ensures mem[fl[k].addr].ptr < |mem|
    ensures Linked(Relinked(mem, s.addr, fl[k].addr), Freed(fl, k, s))
  {
    RelinkedFields(mem, base, fl, k, s);
    forall x | 0 <= x < |Freed(fl, k, s)|
      ensures LinkAt(Relinked(mem, s.addr, fl[k].addr), Freed(fl, k, s), x)
    {
      RelinkedAt(mem, base, fl, k, s, x);
    }
  }

  lemma Untouched(mem: seq<Header>, fl: seq<Seg>, k: nat, s: Seg, y: nat)
    requires Sorted(fl) && Linked(mem, fl) && FitsAfter(fl, k, s) && y < |fl| && (y < k || y >= To(fl, k, s))
    ensures fl[y].addr < |mem| && fl[y].addr != fl[k].addr && fl[y].addr != s.addr
    ensures mem[fl[y].addr] == Header(NextAddr(fl, y), fl[y].size)
  {
    assert LinkAt(mem, fl, y);
    if y > k + 1 {
      assert fl[k + 1].addr < fl[y].addr;
    }
  }

  /** The place free finds suits the block being freed. */
  lemma PlaceFits(mem: seq<Header>, base: nat, fl: seq<Seg>, live: seq<Seg>, brk: nat, a: nat)
    requires FreeListOk(mem, base, fl) && Disjoint(mem, base, fl, live, brk) && a < |live|
    ensures FitsAfter(fl, Place(fl, live[a].addr), live[a])
    ensures forall i :: 0 <= i < |fl| ==> fl[i].addr != live[a].addr
  {
    assert BlockOk(mem, base, fl, live[a], brk);
    assert forall i :: 0 <= i < |fl| ==> Apart(live[a].addr, live[a].size, fl[i]);
  }

  /** A block that stays allocated is clear of the new list, and its header is untouched. */
  lemma OtherBlock(mem: seq<Header>, base: nat, fl: seq<Seg>, k: nat, s: Seg, c: Seg, brk: nat)
    requires FreeListOk(mem, base, fl) && FitsAfter(fl, k, s) && brk <= |mem|
    requires BlockOk(mem, base, fl, s, brk) && BlockOk(mem, base, fl, c, brk) && Apart(c.addr, c.size, s)
    ensures mem[fl[k].addr].ptr < |mem|
    ensures BlockOk(Relinked(mem, s.addr, fl[k].addr), base, Freed(fl, k, s), c, brk)
  {
    RelinkedFields(mem, base, fl, k, s);
    FreedApart(fl, k, s, c.addr, c.size);
    assert Apart(c.addr, c.size, fl[k]);
  }

  lemma FreedBelow(fl: seq<Seg>, k: nat, s: Seg, brk: nat)
    requires FitsAfter(fl, k, s) && s.addr + s.size <= brk && Below(fl, brk)
    ensures Below(Freed(fl, k, s), brk)
  {
  }

  lemma FreedDisjoint(mem: seq<Header>, base: nat, fl: seq<Seg>, live: seq<Seg>, brk: nat, a: nat, k: nat)
    requires FreeListOk(mem, base, fl) && Disjoint(mem, base, fl, live, brk) && a < |live|
    requires FitsAfter(fl, k, live[a])
    ensures mem[fl[k].addr].ptr < |mem|
    ensures Disjoint(Relinked(mem, live[a].addr, fl[k].addr), base, Freed(fl, k, live[a]), Without(live, a), brk)
  {
    assert BlockOk(mem, base, fl, live[a], brk);
    RelinkedFields(mem, base, fl, k, live[a]);
    FreedBelow(fl, k, live[a], brk);
    var l, f, m := Without(live, a), Freed(fl, k, live[a]), Relinked(mem, live[a].addr, fl[k].addr);
    forall b | 0 <= b < |l| ensures BlockOk(m, base, f, l[b], brk) {
      var c := if b < a then b else b + 1;
      assert l[b] == live[c] && (if c < a then Apart(live[c].addr, live[c].size, live[a]) else Apart(live[a].addr, live[a].size, live[c]));
      OtherBlock(mem, base, fl, k, live[a], live[c], brk);
    }
  }

  /** The header writes of malloc's two ways of taking n units from the block at p. */
  function Carved(mem: seq<Header>, prev: nat, p: nat, n: nat): (m: seq<Header>)
    requires prev < |mem| && p < |mem| && n <= mem[p].size && p + mem[p].size <= |mem| && 0 < n
    ensures |m| == |mem|
  {
    if mem[p].size == n then mem[prev := Header(mem[p].ptr, mem[prev].size)]
    else
      var m := mem[p := Header(mem[p].ptr, mem[p].size - n)];
      var q := p + m[p].size;
      m[q := Header(m[q].ptr, n)]
  }

  lemma CarvedLinked(mem: seq<Header>, base: nat, fl: seq<Seg>, i: nat, n: nat)
    requires FreeListOk(mem, base, fl) && 0 < i < |fl| && 0 < n <= fl[i].size && fl[i].addr + fl[i].size <= |mem|
    ensures Linked(Carved(mem, fl[i - 1].addr, fl[i].addr, n), Taken(fl, i, n))
  {
    var f := Taken(fl, i, n);
    var m := Carved(mem, fl[i - 1].addr, fl[i].addr, n);
    forall x | 0 <= x < |f| ensures LinkAt(m, f, x) {
      CarvedAt(mem, base, fl, i, n, x);
    }
  }

  lemma CarvedAt(mem: seq<Header>, base: nat, fl: seq<Seg>, i: nat, n: nat, x: nat)
    requires FreeListOk(mem, base, fl) && 0 < i < |fl| && 0 < n <= fl[i].size && fl[i].addr + fl[i].size <= |mem|
    requires x < |Taken(fl, i, n)|
    ensures var m, f := Carved(mem, fl[i - 1].addr, fl[i].addr, n), Taken(fl, i, n);
            f[x].addr < |m| && m[f[x].addr] == Header(NextAddr(f, x), f[x].size)
  {
    CarvedFields(mem, base, fl, i, n);
    TakenNext(fl, i, n, x);
    var y := if n == fl[i].size && x >= i then x + 1 else x;
    assert LinkAt(mem, fl, y);
    if y != i {
      assert if y < i then fl[y].addr < fl[i].addr else fl[i].addr + fl[i].size < fl[y].addr;
    }
    if y < i - 1 {
      assert fl[y].addr < fl[i - 1].addr;
    }
  }

  lemma CarvedFields(mem: seq<Header>, base: nat, fl: seq<Seg>, i: nat, n: nat)
    requires FreeListOk(mem, base, fl) && 0 < i < |fl| && 0 < n <= fl[i].size && fl[i].addr + fl[i].size <= |mem|
    ensures mem[fl[i].addr] == Header(NextAddr(fl, i), fl[i].size)
    ensures Carved(mem, fl[i - 1].addr, fl[i].addr, n)[TakenAddr(fl, i, n)].size == n
    ensures var m := Carved(mem, fl[i - 1].addr, fl[i].addr, n);
            if n == fl[i].size then
              m == mem[fl[i - 1].addr := Header(NextAddr(fl, i), fl[i - 1].size)]
            else
              && m[fl[i].addr] == Header(NextAddr(fl, i), fl[i].size - n)
              && m[TakenAddr(fl, i, n)].size == n
              && forall x :: 0 <= x < |mem| && x != fl[i].addr && x != TakenAddr(fl, i, n) ==> m[x] == mem[x]
  {
    assert LinkAt(mem, fl, i - 1) && LinkAt(mem, fl, i);
  }

  lemma TakenNext(fl: seq<Seg>, i: nat, n: nat, x: nat)
    requires 0 < i < |fl| && 0 < n <= fl[i].size && x < |Taken(fl, i, n)|
    ensures var f := Taken(fl, i, n);
            if n < fl[i].size then
              f[x] == (if x == i then Seg(fl[i].addr, fl[i].size - n) else fl[x]) && NextAddr(f, x) == NextAddr(fl, x)
            else
              f[x] == (if x < i then fl[x] else fl[x + 1])
              && NextAddr(f, x) == if x < i - 1 then NextAddr(fl, x) else if x == i - 1 then NextAddr(fl, i) else NextAddr(fl, x + 1)
  {
  }

  lemma CarvedKeeps(mem: seq<Header>, base: nat, fl: seq<Seg>, brk: nat, i: nat, n: nat, c: Seg)
    requires FreeListOk(mem, base, fl) && brk <= |mem| && Below(fl, brk)
    requires 0 < i < |fl| && 0 < n <= fl[i].size && BlockOk(mem, base, fl, c, brk)
    ensures mem[fl[i].addr].size == fl[i].size
    ensures Apart(c.addr, c.size, Seg(TakenAddr(fl, i, n), n))
    ensures BlockOk(Carved(mem, fl[i - 1].addr, fl[i].addr, n), base, Taken(fl, i, n), c, brk)
  {
    CarvedFields(mem, base, fl, i, n);
    CarvedElsewhere(mem, base, fl, brk, i, n, c);
    TakenClear(fl, i, n, c);
    hide Carved, Taken, FreeListOk;
  }

  lemma CarvedElsewhere(mem: seq<Header>, base: nat, fl: seq<Seg>, brk: nat, i: nat, n: nat, c: Seg)
    requires FreeListOk(mem, base, fl) && brk <= |mem| && Below(fl, brk)
    requires 0 < i < |fl| && 0 < n <= fl[i].size && BlockOk(mem, base, fl, c, brk)
    ensures mem[fl[i].addr].size == fl[i].size
    ensures Carved(mem, fl[i - 1].addr, fl[i].addr, n)[c.addr].size == c.size
  {
    CarvedFields(mem, base, fl, i, n);
    hide Carved, FreeListOk;
    assert Apart(c.addr, c.size, fl[i]) && Apart(c.addr, c.size, fl[i - 1]);
  }

  lemma TakenClear(fl: seq<Seg>, i: nat, n: nat, c: Seg)
    requires 0 < i < |fl| && 0 < n <= fl[i].size && 0 < c.size
    requires forall j :: 0 <= j < |fl| ==> Apart(c.addr, c.size, fl[j])
    ensures forall x :: 0 <= x < |Taken(fl, i, n)| ==> Apart(c.addr, c.size, Taken(fl, i, n)[x])
    ensures Apart(c.addr, c.size, Seg(TakenAddr(fl, i, n), n))
  {
    var f := Taken(fl, i, n);
    assert Apart(c.addr, c.size, fl[i]);
    forall x | 0 <= x < |f| ensures Apart(c.addr, c.size, f[x]) {
      TakenNext(fl, i, n, x);
      hide Taken;
      assert Apart(c.addr, c.size, fl[x]);
    }
  }

  lemma CarvedBlock(mem: seq<Header>, base: nat, fl: seq<Seg>, brk: nat, i: nat, n: nat)
    requires FreeListOk(mem, base, fl) && brk <= |mem| && Below(fl, brk)
    requires 0 < i < |fl| && 0 < n <= fl[i].size
    ensures mem[fl[i].addr].size == fl[i].size
    ensures Below(Taken(fl, i, n), brk)
    ensures BlockOk(Carved(mem, fl[i - 1].addr, fl[i].addr, n), base, Taken(fl, i, n),
                    Seg(TakenAddr(fl, i, n), n), brk)
  {
    CarvedFields(mem, base, fl, i, n);
    TakenApart(fl, i, n);
    assert fl[0].addr < fl[i].addr;
  }

  lemma DisjointSnoc(mem: seq<Header>, base: nat, fl: seq<Seg>, live: seq<Seg>, s: Seg, brk: nat)
    requires brk <= |mem| && Below(fl, brk) && BlockOk(mem, base, fl, s, brk)
    requires forall a :: 0 <= a < |live| ==> BlockOk(mem, base, fl, live[a], brk) && Apart(live[a].addr, live[a].size, s)
    requires forall a, b :: 0 <= a < b < |live| ==> Apart(live[a].addr, live[a].size, live[b])
    ensures Disjoint(mem, base, fl, live + [s], brk)
  {
  }

  lemma CarvedDisjoint(mem: seq<Header>, base: nat, fl: seq<Seg>, live: seq<Seg>, brk: nat, i: nat, n: nat)
    requires FreeListOk(mem, base, fl) && Disjoint(mem, base, fl, live, brk)
    requires 0 < i < |fl| && 0 < n <= fl[i].size
    ensures mem[fl[i].addr].size == fl[i].size
    ensures Disjoint(Carved(mem, fl[i - 1].addr, fl[i].addr, n), base, Taken(fl, i, n),
                     live + [Seg(TakenAddr(fl, i, n), n)], brk)
  {
    CarvedBlock(mem, base, fl, brk, i, n);
    var m, s, f := Carved(mem, fl[i - 1].addr, fl[i].addr, n), Seg(TakenAddr(fl, i, n), n), Taken(fl, i, n);
    forall a | 0 <= a < |live| ensures Apart(live[a].addr, live[a].size, s) && BlockOk(m, base, f, live[a], brk) {
      CarvedKeeps(mem, base, fl, brk, i, n, live[a]);
    }
    DisjointSnoc(m, base, f, live, s, brk);
  }

  /** Everything the allocator keeps true, over its memory and its records. */
  ghost predicate Sound(mem: seq<Header>, base: nat, brk: nat, freep: nat, fl: seq<Seg>, at: nat,
                        live: seq<Seg>, obtained: nat)
  {
    && 0 < base < brk <= |mem|
    && (freep == 0 ==> fl == [] && live == [] && obtained == 0)
    && (freep != 0 ==> FreeListOk(mem, base, fl) && at < |fl| && fl[at].addr == freep)
    && Disjoint(mem, base, fl, live, brk)
    && Total(fl) + Total(live) == obtained
  }

  /** free, on values: the state stays sound. */
  lemma FreeKeeps(mem: seq<Header>, base: nat, brk: nat, freep: nat, fl: seq<Seg>, at: nat,
                  live: seq<Seg>, obtained: nat, a: nat, k: nat)
    requires Sound(mem, base, brk, freep, fl, at, live, obtained) && a < |live|
    requires fl[0].addr < live[a].addr ==> k == Place(fl, live[a].addr)
    ensures k < |fl| && fl[k].addr < |mem| && mem[fl[k].addr].ptr < |mem|
    ensures fl[k].addr != live[a].addr && mem[fl[k].addr].ptr != live[a].addr
    ensures forall i :: 0 <= i < |fl| ==> fl[i].addr != live[a].addr
    ensures Sound(Relinked(mem, live[a].addr, fl[k].addr), base, brk, fl[k].addr, Freed(fl, k, live[a]), k,
                  Without(live, a), obtained)
  {
    var s := live[a];
    assert freep != 0 && BlockOk(mem, base, fl, s, brk);
    PlaceFits(mem, base, fl, live, brk, a);
    RelinkedLinked(mem, base, fl, k, s);
    FreedDisjoint(mem, base, fl, live, brk, a, k);
    FreedSorted(fl, k, s);
    FreedTotal(fl, k, s);
    WithoutSize(live, a);
    assert LinkAt(mem, fl, k);
  }

  lemma WithoutLast(l: seq<Seg>, s: Seg)
    ensures Without(l + [s], |l|) == l
  {
  }

  /** The freed block is on the new list, perhaps as part of a larger one. */
  lemma JoinedIsThere(fl: seq<Seg>, k: nat, s: Seg)
    requires k < |fl|
    ensures From(fl, k, s) < |Freed(fl, k, s)| && Freed(fl, k, s)[From(fl, k, s)].size >= s.size
  {
  }

  lemma TotalSnoc(a: seq<Seg>, s: Seg)
    ensures Total(a + [s]) == Total(a) + s.size
  {
    SamePrefix(a + [s], a, |a|);
  }

  /** malloc's first call makes the empty circle. */
  lemma FirstCall(mem: seq<Header>, base: nat, brk: nat)
    requires Sound(mem, base, brk, 0, [], 0, [], 0)
    ensures Sound(mem[base := Header(base, 0)], base, brk, base, [Seg(base, 0)], 0, [], 0)
  {
    var fl := [Seg(base, 0)];
    assert TotalTo(fl, 1) == TotalTo(fl, 0) + fl[0].size;
  }

  /** Taking n units from position i, on values. */
  lemma TakeKeeps(mem: seq<Header>, base: nat, brk: nat, freep: nat, fl: seq<Seg>, at: nat,
                  live: seq<Seg>, obtained: nat, i: nat, n: nat)
    requires Sound(mem, base, brk, freep, fl, at, live, obtained) && freep != 0
    requires 0 < i < |fl| && 0 < n <= fl[i].size
    ensures fl[i].addr + fl[i].size <= |mem| && mem[fl[i].addr].size == fl[i].size
    ensures i - 1 < |Taken(fl, i, n)| && fl[i - 1].addr > 0
    ensures Sound(Carved(mem, fl[i - 1].addr, fl[i].addr, n), base, brk, fl[i - 1].addr, Taken(fl, i, n), i - 1,
                  live + [Seg(TakenAddr(fl, i, n), n)], obtained)
  {
    assert LinkAt(mem, fl, i);
    assert fl[0].addr <= fl[i - 1].addr;
    CarvedLinked(mem, base, fl, i, n);
    CarvedDisjoint(mem, base, fl, live, brk, i, n);
    TakenSorted(fl, i, n);
    TakenTotal(fl, i, n);
    TotalSnoc(live, Seg(TakenAddr(fl, i, n), n));
  }

  /** A fresh region from sbrk counts as one allocated block, until it is freed. */
  lemma GrowKeeps(mem: seq<Header>, base: nat, brk: nat, freep: nat, fl: seq<Seg>, at: nat,
                  live: seq<Seg>, obtained: nat, p: nat, n: nat)
    requires Sound(mem, base, brk, freep, fl, at, live, obtained) && freep != 0
    requires brk <= p && 0 < n && p + n <= |mem|
    ensures Sound(mem[p := Header(mem[p].ptr, n)], base, p + n, freep, fl, at, live + [Seg(p, n)], obtained + n)
  {
    var m, s := mem[p := Header(mem[p].ptr, n)], Seg(p, n);
    forall i | 0 <= i < |fl| ensures fl[i].addr < p && m[fl[i].addr] == mem[fl[i].addr] && Apart(p, n, fl[i]) {
      assert fl[i].addr + fl[i].size <= brk && (i > 0 ==> fl[i].size > 0);
    }
    forall a | 0 <= a < |live| ensures BlockOk(m, base, fl, live[a], p + n) && Apart(live[a].addr, live[a].size, s) {
      assert BlockOk(mem, base, fl, live[a], brk);
    }
    LinkedKept(mem, m, fl);
    DisjointSnoc(m, base, fl, live, s, p + n);
    TotalSnoc(live, s);
  }

  /** Freeing what was just taken restores the list exactly: the tail end that was split
      off is joined again, a whole block goes back to its place. */
  lemma FreeUndoesTake(fl: seq<Seg>, i: nat, n: nat)
    requires Sorted(fl) && 0 < i < |fl| && 0 < n <= fl[i].size
    ensures var t, s := Taken(fl, i, n), Seg(TakenAddr(fl, i, n), n);
            t != [] && t[0].addr < s.addr && Freed(t, Place(t, s.addr), s) == fl
  {
    TakenSorted(fl, i, n);
    assert fl[i - 1].addr + fl[i - 1].size < fl[i].addr && fl[0].addr < fl[i].addr;
    if n < fl[i].size {
      RejoinTail(fl, i, n);
    } else {
      assert Taken(fl, i, n) == Without(fl, i) && Seg(TakenAddr(fl, i, n), n) == fl[i];
      Reinsert(fl, i);
    }
  }

  lemma RejoinTail(fl: seq<Seg>, i: nat, n: nat)
    requires Sorted(fl) && 0 < i < |fl| && 0 < n < fl[i].size && Sorted(Taken(fl, i, n))
    ensures var t, s := Taken(fl, i, n), Seg(TakenAddr(fl, i, n), n);
            t != [] && t[0].addr < s.addr && Freed(t, Place(t, s.addr), s) == fl
  {
    var t, s := Taken(fl, i, n), Seg(TakenAddr(fl, i, n), n);
    assert t[0].addr <= t[i].addr;
    PlaceUnique(t, s.addr, i);
    assert MeetsLower(t, i, s) && !MeetsUpper(t, i, s);
    assert Joined(t, i, s) == fl[i];
    assert Freed(t, i, s) == fl;
  }

  lemma Reinsert(fl: seq<Seg>, i: nat)
    requires Sorted(fl) && 0 < i < |fl| && Sorted(Without(fl, i))
    ensures var t := Without(fl, i);
            t != [] && t[0].addr < fl[i].addr && Freed(t, Place(t, fl[i].addr), fl[i]) == fl
  {
    var t := Without(fl, i);
    assert t[0] == fl[0] && fl[0].addr < fl[i].addr;
    PlaceUnique(t, fl[i].addr, i - 1);
    PutBack(fl, i);
  }

  /** Between its old neighbours the segment touches nothing. */
  lemma PutBack(fl: seq<Seg>, i: nat)
    requires Sorted(fl) && 0 < i < |fl|
    ensures Freed(Without(fl, i), i - 1, fl[i]) == fl
  {
    var t := Without(fl, i);
    assert !MeetsLower(t, i - 1, fl[i]) && !MeetsUpper(t, i - 1, fl[i]);
  }

  lemma PlaceUnique(fl: seq<Seg>, addr: nat, i: nat)
    requires Sorted(fl) && fl != [] && fl[0].addr < addr && i < |fl|
    requires fl[i].addr < addr && (i + 1 < |fl| ==> fl[i + 1].addr > addr)
    ensures Place(fl, addr) == i
  {
  }

  lemma StoreKeeps(mem: seq<Header>, base: nat, brk: nat, freep: nat, fl: seq<Seg>, at: nat,
                   live: seq<Seg>, obtained: nat, a: nat, u: nat, h: Header)
    requires Sound(mem, base, brk, freep, fl, at, live, obtained)
    requires a < |live| && live[a].addr < u < live[a].addr + live[a].size
    ensures u < |mem| && Sound(mem[u := h], base, brk, freep, fl, at, live, obtained)
  {
    assert BlockOk(mem, base, fl, live[a], brk);
    var m := mem[u := h];
    forall i | 0 <= i < |fl| ensures fl[i].addr != u {
      assert Apart(live[a].addr, live[a].size, fl[i]);
    }
    if freep != 0 {
      LinkedKept(mem, m, fl);
    }
    forall b | 0 <= b < |live| ensures BlockOk(m, base, fl, live[b], brk) {
      OtherHeader(mem, base, fl, live, brk, a, u, h, b);
    }
  }

  lemma OtherHeader(mem: seq<Header>, base: nat, fl: seq<Seg>, live: seq<Seg>, brk: nat, a: nat, u: nat, h: Header, b: nat)
    requires Disjoint(mem, base, fl, live, brk) && a < |live| && b < |live| && u < |mem|
    requires live[a].addr < u < live[a].addr + live[a].size
    ensures BlockOk(mem[u := h], base, fl, live[b], brk)
  {
    assert BlockOk(mem, base, fl, live[b], brk);
    assert b < a ==> Apart(live[b].addr, live[b].size, live[a]);
    assert a < b ==> Apart(live[a].addr, live[a].size, live[b]);
  }

  lemma LinkedKept(mem: seq<Header>, m: seq<Header>, fl: seq<Seg>)
    requires Linked(mem, fl) && |m| >= |mem| && forall i :: 0 <= i < |fl| ==> m[fl[i].addr] == mem[fl[i].addr]
    ensures Linked(m, fl)
  {
    forall i | 0 <= i < |fl| ensures LinkAt(m, fl, i) {
      assert LinkAt(mem, fl, i);
    }
  }

  class Allocator {
    const mem: array<Header>  // the headers, one slot per unit of the address space
    const base: nat           // the static header `base`
    var freep: nat            // 0 is the null pointer
    ghost var fl: seq<Seg>
    ghost var at: nat         // fl[at] is the block freep points to
    ghost var live: seq<Seg>  // allocated blocks, header included
    ghost var brk: nat        // nothing below is handed out by sbrk any more
    ghost var obtained: nat   // units handed out by sbrk so far

    ghost predicate Valid()
      reads this, mem
    {
      Sound(mem[..], base, brk, freep, fl, at, live, obtained)
    }

    constructor (base: nat, brk: nat, size: nat)
      requires 0 < base < brk <= size
      ensures Valid() && live == [] && fresh(mem) && mem.Length == size && this.base == base && this.brk == brk
    {
      mem := new Header[size];
      this.base, freep, this.brk := base, 0, brk;
      fl, at, live, obtained := [], 0, [], 0;
    }

    // ---- free ------------------------------------------------------------------

    /** Following a link: from one list position to the next around the circle. */
    method Follow(p: nat, ghost i: nat) returns (next: nat)
      requires FreeListOk(mem[..], base, fl) && i < |fl| && p == fl[i].addr
      ensures p < mem.Length && next == mem[p].ptr == NextAddr(fl, i) == fl[Succ(|fl|, i)].addr
    {
      assert LinkAt(mem[..], fl, i);
      next := mem[p].ptr;
    }

    /** free's search: it ends, at the last list position below bp. */
    method FindPlace(bp: nat) returns (p: nat)
      requires FreeListOk(mem[..], base, fl) && at < |fl| && fl[at].addr == freep && base < bp
      requires forall i :: 0 <= i < |fl| ==> fl[i].addr != bp
      ensures p == fl[Place(fl, bp)].addr
    {
      ghost var i: nat, t: nat := at, Place(fl, bp);
      p := freep;
      var next := Follow(p, i);
      while !(bp > p && bp < next)
        invariant i < |fl| && p == fl[i].addr && next == NextAddr(fl, i) == fl[Succ(|fl|, i)].addr
        decreases Steps(|fl|, i, t)
      {
        SearchStops(fl, bp, i);
        if p >= next && (bp > p || bp < next) {
          break;
        }
        p, i := next, Succ(|fl|, i);
        next := Follow(p, i);
      }
      SearchStops(fl, bp, i);
    }

    /** free's header updates. */
    method Join(bp: nat, p: nat)
      requires bp < mem.Length && p < mem.Length && bp != p && mem[p].ptr < mem.Length && mem[p].ptr != bp
      modifies mem
      ensures mem[..] == Relinked(old(mem[..]), bp, p)
    {
      var up := mem[p].ptr;
      if bp + mem[bp].size == up {
        mem[bp] := Header(mem[bp].ptr, mem[bp].size + mem[up].size);
        mem[bp] := Header(mem[up].ptr, mem[bp].size);
      } else {
        mem[bp] := Header(up, mem[bp].size);
      }
      if p + mem[p].size == bp {
        mem[p] := Header(mem[p].ptr, mem[p].size + mem[bp].size);
        mem[p] := Header(mem[bp].ptr, mem[p].size);
      } else {
        mem[p] := Header(bp, mem[p].size);
      }
    }

    /** freep becomes p, and the records follow. */
    method Settle(p: nat, ghost k: nat, ghost f: seq<Seg>, ghost l: seq<Seg>)
      requires Sound(mem[..], base, brk, p, f, k, l, obtained)
      modifies this`freep, this`fl, this`at, this`live
      ensures Valid() && freep == p && fl == f && at == k && live == l
    {
      freep, at, fl, live := p, k, f, l;
    }

    /** free of a block malloc returned (the ghost index says which).  It leaves the
        list, joined with the free blocks it touches; nothing else changes. */
    method Free(ap: nat, ghost a: nat)
      requires Valid() && a < |live| && live[a].addr + 1 == ap
      modifies this`freep, this`fl, this`at, this`live, mem
      ensures Valid() && freep != 0
      ensures live == Without(old(live), a)
      ensures fl == Freed(old(fl), Place(old(fl), ap - 1), old(live[a]))
      ensures at == Place(old(fl), ap - 1)
    {
      var bp := ap - 1;
      ghost var m, k := mem[..], Place(fl, bp);
      FreeKeeps(m, base, brk, freep, fl, at, live, obtained, a, k);
      hide Disjoint, Relinked;
      var p := FindPlace(bp);
      Join(bp, p);
      Settle(p, k, Freed(fl, k, live[a]), Without(live, a));
    }

    /** The program writes into the payload of one of its blocks: whatever it writes, the
        allocator's headers are elsewhere. */
    method Store(u: nat, h: Header, ghost a: nat)
      requires Valid() && a < |live| && live[a].addr < u < live[a].addr + live[a].size
      modifies mem
      ensures Valid() && mem[..] == old(mem[..])[u := h]
    {
      StoreKeeps(mem[..], base, brk, freep, fl, at, live, obtained, a, u, h);
      mem[u] := h;
    }

    // ---- malloc ----------------------------------------------------------------

    /** morecore; `answer` is what sbrk returns, None for -1.  The new region is joined
        to the list, where some block is then large enough. */
    method MoreCore(nu: nat, answer: Option<nat>) returns (p: Option<nat>, ghost j: nat)
      requires Valid() && freep != 0 && nu >= MIN_UNITS && Sbrkable(nu)
      requires answer.Some? ==> brk <= answer.value && answer.value + nu <= mem.Length
      modifies this, mem
      ensures Valid() && freep != 0 && live == old(live)
      ensures p == if answer.None? then None else Some(freep)
      ensures answer.None? ==> unchanged(this) && mem[..] == old(mem[..])
      ensures answer.Some? ==> j < |fl| && fl[j].size >= nu && obtained == old(obtained) + nu && brk == answer.value + nu
    {
      if answer.None? {
        p, j := None, 0;
      } else {
        j := GrowAndFree(answer.value, nu);
        p := Some(freep);
      }
    }

    /** The region becomes a block, which is then freed. */
    method GrowAndFree(hp: nat, nu: nat) returns (ghost j: nat)
      requires Valid() && freep != 0 && brk <= hp && 0 < nu && hp + nu <= mem.Length
      modifies this, mem
      ensures Valid() && freep != 0 && live == old(live)
      ensures j < |fl| && fl[j].size >= nu && obtained == old(obtained) + nu && brk == hp + nu
    {
      ghost var f, l, s := fl, live, Seg(hp, nu);
      Grow(hp, nu);
      WithoutLast(l, s);
      Free(hp + 1, |live| - 1);
      j := From(f, at, s);
      JoinedIsThere(f, at, s);
    }

    method Grow(hp: nat, nu: nat)
      requires Valid() && freep != 0 && brk <= hp && 0 < nu && hp + nu <= mem.Length
      modifies this`brk, this`live, this`obtained, mem
      ensures Valid() && brk == hp + nu && live == old(live) + [Seg(hp, nu)] && obtained == old(obtained) + nu
    {
      GrowKeeps(mem[..], base, brk, freep, fl, at, live, obtained, hp, nu);
      mem[hp] := Header(mem[hp].ptr, nu);
      brk, live, obtained := hp + nu, live + [Seg(hp, nu)], obtained + nu;
    }

    /** The whole block, or its tail end, leaves the list. */
    method Carve(prevp: nat, p: nat, n: nat) returns (q: nat)
      requires prevp < mem.Length && p < mem.Length && prevp != p && 0 < n <= mem[p].size && p + mem[p].size <= mem.Length
      modifies mem
      ensures mem[..] == Carved(old(mem[..]), prevp, p, n) && q == old(p + mem[p].size) - n
    {
      if mem[p].size == n {
        mem[prevp] := Header(mem[p].ptr, mem[prevp].size);
        q := p;
      } else {
        mem[p] := Header(mem[p].ptr, mem[p].size - n);
        q := p + mem[p].size;
        mem[q] := Header(mem[q].ptr, n);
      }
    }

    method Take(prevp: nat, p: nat, n: nat, ghost i: nat) returns (r: Result)
      requires Valid() && freep != 0 && 0 < i < |fl| && p == fl[i].addr && prevp == fl[i - 1].addr && 0 < n <= fl[i].size
      modifies this`freep, this`fl, this`at, this`live, mem
      ensures Valid() && freep == prevp != 0
      ensures r.Block? && r.addr > 0 && live == old(live) + [Seg(r.addr - 1, n)]
      ensures fl == Taken(old(fl), i, n) && r.addr - 1 == TakenAddr(old(fl), i, n)
    {
      TakeKeeps(mem[..], base, brk, freep, fl, at, live, obtained, i, n);
      ghost var m := mem[..];
      assert m[p].size == fl[i].size;
      var q := Carve(prevp, p, n);
      assert q == TakenAddr(fl, i, n);
      assert mem[..] == Carved(m, fl[i - 1].addr, fl[i].addr, n);
      Settle(prevp, i - 1, Taken(fl, i, n), live + [Seg(q, n)]);
      r := Block(q + 1);
      assert r.addr - 1 == q;
    }

    method Init()
      requires Valid() && freep == 0
      modifies this`freep, this`fl, this`at, mem
      ensures Valid() && freep != 0 && fl == [Seg(base, 0)]
    {
      FirstCall(mem[..], base, brk);
      mem[base] := Header(base, 0);
      freep, fl, at := base, [Seg(base, 0)], 0;
    }

    /** malloc.  `answer` is what sbrk would return if it were called.  A block of exactly
        nunits units is added to the allocated ones, and malloc gives up only when no free
        block was large enough and sbrk failed.  sbrk is called at most once: after that
        the search always succeeds. */
    method Malloc(nbytes: nat, answer: Option<nat>) returns (r: Result, ghost calls: nat)
      requires Valid() && nbytes < TWO_32
      requires answer.Some? ==> brk <= answer.value && answer.value + CoreUnits(nbytes) <= mem.Length
      modifies this, mem
      ensures Answered(r, calls, Units(nbytes), answer, old(Before()))
      ensures Valid()
    {
      if freep == 0 {
        Init();
      }
      r, calls := Search(Units(nbytes), answer);
    }

    /** The records as malloc finds them; its first call makes the list. */
    ghost function Before(): State
      reads this
    {
      if freep == 0 then State(live, [Seg(base, 0)], 0, obtained, brk) else State(live, fl, at, obtained, brk)
    }

    /** What malloc's answer means.  Without a call of sbrk the block is the first one
        after freep that is large enough, or its tail end. */
    ghost predicate Answered(r: Result, calls: nat, n: nat, answer: Option<nat>, was: State)
      reads this
    {
      && n >= 1 && calls <= 1 && (calls == 1 <==> NoneFits(was.fl, n))
      && (r.Block? ==> r.addr > 0 && live == was.live + [Seg(r.addr - 1, n)])
      && (r.Block? && calls == 0 ==> obtained == was.obtained && brk == was.brk && TookFirst(was, n, r.addr - 1))
      && (r.Block? && calls == 1 ==> answer.Some? && obtained == was.obtained + Core(n) && brk == answer.value + Core(n))
      && (!r.Block? ==> calls == 1 && live == was.live && fl == was.fl && obtained == was.obtained && brk == was.brk)
      && (r.BadSbrk? <==> calls == 1 && !Sbrkable(Core(n)))
      && (r.OutOfMemory? <==> calls == 1 && Sbrkable(Core(n)) && answer.None?)
    }

    ghost predicate TookFirst(was: State, n: nat, q: nat)
      requires n >= 1
      reads this
    {
      exists i :: FirstFit(was, n, i) && fl == Taken(was.fl, i, n) && q == TakenAddr(was.fl, i, n)
    }

    /** malloc's loop invariant: blocks passed over are too small; after morecore some
        block (fl[j]) is large enough. */
    ghost predicate Searching(prevp: nat, p: nat, pi: nat, j: nat, calls: nat, n: nat, answer: Option<nat>,
                              was: State)
      reads this, mem
    {
      && Valid() && freep != 0 && n >= 1 && live == was.live && calls <= 1
      && Walking(prevp, p, pi, n)
      && (if calls == 0 then
            fl == was.fl && at == was.at && obtained == was.obtained && brk == was.brk
            && (answer.Some? ==> brk <= answer.value && answer.value + Core(n) <= mem.Length)
          else
            Refilled(j, n) && obtained == was.obtained + Core(n) && answer.Some? && brk == answer.value + Core(n)
            && Sbrkable(Core(n)) && NoneFits(was.fl, n))
    }

    /** One round of malloc's loop. */
    method SearchStep(prevp: nat, p: nat, n: nat, answer: Option<nat>, ghost pi: nat, ghost j: nat, ghost calls: nat,
                      ghost was: State)
      returns (done: bool, r: Result, prevp': nat, p': nat, ghost pi': nat, ghost j': nat, ghost calls': nat)
      requires Searching(prevp, p, pi, j, calls, n, answer, was)
      modifies this, mem
      ensures done ==> Answered(r, calls', n, answer, was)
      ensures !done ==> Searching(prevp', p', pi', j', calls', n, answer, was)
      ensures !done ==> calls' > calls || (calls' == calls && fl == old(fl) && at == old(at)
                        && Steps(|fl|, Succ(|fl|, pi'), at) < Steps(|fl|, Succ(|fl|, pi), at))
      ensures Valid()
    {
      ghost var i := Succ(|fl|, pi);
      prevp', p', pi', j', calls' := prevp, p, pi, j, calls;
      r := OutOfMemory;
      var fits := FitsAt(p, n, i);
      if fits {
        done := true;
        r := TakeFit(prevp, p, n, answer, pi, j, calls, was);
      } else if p == freep {
        done, r, prevp', p', pi', j' := AskForMore(prevp, p, n, answer, pi, j, calls, was);
        calls' := 1;
      } else {
        done, prevp', pi' := false, p, i;
        p' := StepOver(prevp, p, n, answer, pi, j, calls, was);
      }
    }

    /** A block large enough. */
    method TakeFit(prevp: nat, p: nat, n: nat, answer: Option<nat>, ghost pi: nat, ghost j: nat, ghost calls: nat,
                   ghost was: State)
      returns (r: Result)
      requires Searching(prevp, p, pi, j, calls, n, answer, was)
      requires Succ(|fl|, pi) > 0 && fl[Succ(|fl|, pi)].size >= n
      modifies this, mem
      ensures Answered(r, calls, n, answer, was)
      ensures Valid()
    {
      hide Sound;
      ghost var i := Succ(|fl|, pi);
      FitsSomewhere(fl, i, n);
      WalkedToFit(State(live, fl, at, obtained, brk), n, pi);
      r := Take(prevp, p, n, i);
    }

    /** A block too small: on to the next. */
    method StepOver(prevp: nat, p: nat, n: nat, answer: Option<nat>, ghost pi: nat, ghost j: nat, ghost calls: nat,
                    ghost was: State)
      returns (p': nat)
      requires Searching(prevp, p, pi, j, calls, n, answer, was)
      requires p != freep && fl[Succ(|fl|, pi)].size < n
      ensures Searching(p, p', Succ(|fl|, pi), j, calls, n, answer, was)
      ensures Steps(|fl|, Succ(|fl|, Succ(|fl|, pi)), at) < Steps(|fl|, Succ(|fl|, pi), at)
    {
      PassOne(fl, at, pi, n);
      p' := Follow(p, Succ(|fl|, pi));
    }

    /** All the way around without success: morecore, then once more from freep. */
    method AskForMore(prevp: nat, p: nat, n: nat, answer: Option<nat>, ghost pi: nat, ghost j: nat, ghost calls: nat,
                      ghost was: State)
      returns (done: bool, r: Result, prevp': nat, p': nat, ghost pi': nat, ghost j': nat)
      requires Searching(prevp, p, pi, j, calls, n, answer, was)
      requires p == freep && fl[Succ(|fl|, pi)].size < n
      modifies this, mem
      ensures done ==> Answered(r, 1, n, answer, was)
      ensures !done ==> Searching(prevp', p', pi', j', 1, n, answer, was)
      ensures calls == 0 && Valid()
    {
      AllPassed(fl, at, pi, n);
      r, j' := Refill(n, answer);
      done, prevp', p', pi' := true, prevp, p, pi;
      if r.Block? {
        done, prevp', pi' := false, freep, at;
        p' := Follow(prevp', pi');
      }
    }

    /** malloc's loop. */
    method Search(n: nat, answer: Option<nat>) returns (r: Result, ghost calls: nat)
      requires Valid() && freep != 0 && n >= 1
      requires answer.Some? ==> brk <= answer.value && answer.value + Core(n) <= mem.Length
      modifies this, mem
      ensures Answered(r, calls, n, answer, old(Before()))
      ensures Valid()
    {
      ghost var was := Before();
      var done := false;
      calls, r := 0, OutOfMemory;
      var prevp := freep;
      ghost var pi: nat, j: nat := at, 0;
      var p := Follow(prevp, pi);
      while !done
        invariant done ==> Valid() && Answered(r, calls, n, answer, was)
        invariant !done ==> Searching(prevp, p, pi, j, calls, n, answer, was)
        decreases !done, 1 - calls, if done then 0 else Steps(|fl|, Succ(|fl|, pi), at)
      {
        done, r, prevp, p, pi, j, calls := SearchStep(prevp, p, n, answer, pi, j, calls, was);
      }
    }

    ghost predicate Refilled(j: nat, n: nat)
      reads this
    {
      j < |fl| && fl[j].size >= n
    }

    /** The call of morecore in malloc; Block(freep) stands for its success. */
    method Refill(nunits: nat, answer: Option<nat>) returns (r: Result, ghost j: nat)
      requires Valid() && freep != 0
      requires answer.Some? ==> brk <= answer.value && answer.value + Core(nunits) <= mem.Length
      modifies this, mem
      ensures Valid() && freep != 0 && live == old(live)
      ensures r == if !Sbrkable(Core(nunits)) then BadSbrk else if answer.None? then OutOfMemory else Block(freep)
      ensures r.Block? ==> Refilled(j, nunits) && obtained == old(obtained) + Core(nunits) && brk == answer.value + Core(nunits)
      ensures !r.Block? ==> unchanged(this) && mem[..] == old(mem[..])
    {
      var core := if nunits < MIN_UNITS then MIN_UNITS else nunits;
      if !Sbrkable(core) { return BadSbrk, 0; }
      var p;
      p, j := MoreCore(core, answer);
      r := if p.None? then OutOfMemory else Block(p.value);
    }

    method FitsAt(p: nat, n: nat, ghost i: nat) returns (fits: bool)
      requires FreeListOk(mem[..], base, fl) && i < |fl| && p == fl[i].addr && n > 0
      ensures fits == (fl[i].size >= n) && (fits ==> i > 0)
    {
      assert LinkAt(mem[..], fl, i);
      fits := mem[p].size >= n;
    }

    /** malloc's search has passed over blocks that are all too small. */
    ghost predicate Walking(prevp: nat, p: nat, pi: nat, n: nat)
      reads this
    {
      && pi < |fl| && at < |fl| && prevp == fl[pi].addr && p == fl[Succ(|fl|, pi)].addr
      && forall e :: 0 <= e < |fl| && Passed(at, e, pi) ==> fl[e].size < n
    }
  }

  /** Going around from freep, block i is the first that is large enough. */
  ghost predicate FirstFit(was: State, n: nat, i: nat) {
    && 0 < i < |was.fl| && was.at < |was.fl| && was.fl[i].size >= n
    && forall e :: 0 <= e < |was.fl| && e != i && (i == was.at || Passed(was.at, e, i)) ==> was.fl[e].size < n
  }

  lemma WalkedToFit(s: State, n: nat, pi: nat)
    requires s.at < |s.fl| && pi < |s.fl| && 0 < Succ(|s.fl|, pi) && s.fl[Succ(|s.fl|, pi)].size >= n
    requires forall e :: 0 <= e < |s.fl| && Passed(s.at, e, pi) ==> s.fl[e].size < n
    ensures FirstFit(s, n, Succ(|s.fl|, pi))
  {
  }

  lemma PassOne(fl: seq<Seg>, at: nat, pi: nat, n: nat)
    requires at < |fl| && pi < |fl| && Succ(|fl|, pi) != at && fl[Succ(|fl|, pi)].size < n
    requires forall e :: 0 <= e < |fl| && Passed(at, e, pi) ==> fl[e].size < n
    ensures forall e :: 0 <= e < |fl| && Passed(at, e, Succ(|fl|, pi)) ==> fl[e].size < n
  {
  }

  ghost predicate NoneFits(fl: seq<Seg>, n: nat) {
    forall i :: 0 <= i < |fl| ==> fl[i].size < n
  }

  lemma FitsSomewhere(fl: seq<Seg>, i: nat, n: nat)
    requires i < |fl| && fl[i].size >= n
    ensures !NoneFits(fl, n)
  {
  }

  /** Back at freep, every block has been looked at. */
  lemma AllPassed(fl: seq<Seg>, at: nat, pi: nat, n: nat)
    requires at < |fl| && pi < |fl| && Sorted(fl) && fl[Succ(|fl|, pi)].addr == fl[at].addr && fl[at].size < n
    requires forall e :: 0 <= e < |fl| && Passed(at, e, pi) ==> fl[e].size < n
    ensures NoneFits(fl, n)
  {
    assert Succ(|fl|, pi) == at;
    forall e | 0 <= e < |fl| ensures fl[e].size < n {
      assert e == at || Passed(at, e, pi);
    }
  }

  /** The next position around the circle. */
  function Succ(n: nat, i: nat): (j: nat)
    requires i < n
    ensures j < n
  {
    if i + 1 < n then i + 1 else 0
  }

  /** Going around from `at`, position e comes no later than pi. */
  ghost predicate Passed(at: nat, e: nat, pi: nat) {
    if at <= pi then at < e <= pi else e > at || e <= pi
  }

  /** How far it is around the circle from i to t. */
  function Steps(n: nat, i: nat, t: nat): nat
    requires i < n && t < n
  {
    if i <= t then t - i else n - i + t
  }

  /** free's two exit tests together hold exactly at the place below bp. */
  lemma SearchStops(fl: seq<Seg>, bp: nat, i: nat)
    requires fl != [] && Sorted(fl) && fl[0].addr < bp && i < |fl|
    requires forall j :: 0 <= j < |fl| ==> fl[j].addr != bp
    ensures var p, next := fl[i].addr, NextAddr(fl, i);
            ((bp > p && bp < next) || (p >= next && (bp > p || bp < next))) <==> i == Place(fl, bp)
  {
    var t := Place(fl, bp);
    assert t < i ==> fl[t + 1].addr <= fl[i].addr;
    assert i < t ==> fl[i + 1].addr <= fl[t].addr;
    assert fl[0].addr <= fl[i].addr;
  }
}