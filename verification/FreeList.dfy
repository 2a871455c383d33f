/** The free list of umalloc.c as a value: address-ordered segments, measured in
    header-sized units, starting with the empty segment of the static `base`. */
module FreeList {
  datatype Header = Header(ptr: nat, size: nat)
  datatype Seg = Seg(addr: nat, size: nat)

  /** Ascending, disjoint, and with a gap between any two: adjacent free blocks have
      been coalesced.  Only base is empty. */
  ghost predicate Sorted(fl: seq<Seg>) {
    && (forall i, j :: 0 <= i < j < |fl| ==> fl[i].addr + fl[i].size < fl[j].addr)
    && (forall i :: 1 <= i < |fl| ==> fl[i].size > 0)
  }

  function NextAddr(fl: seq<Seg>, i: nat): nat
    requires i < |fl|
  {
    if i + 1 < |fl| then fl[i + 1].addr else fl[0].addr
  }

  /** The headers in memory form one cycle through fl. */
  ghost predicate Linked(mem: seq<Header>, fl: seq<Seg>) {
    && (forall i :: 0 <= i < |fl| ==> fl[i].addr < |mem| && mem[fl[i].addr].size == fl[i].size)
    && (forall i {:trigger LinkAt(mem, fl, i)} :: 0 <= i < |fl| ==> LinkAt(mem, fl, i))
  }

  ghost predicate LinkAt(mem: seq<Header>, fl: seq<Seg>, i: nat)
    requires i < |fl|
  {
    fl[i].addr < |mem| && mem[fl[i].addr] == Header(NextAddr(fl, i), fl[i].size)
  }

  function Total(fl: seq<Seg>): nat {
    TotalTo(fl, |fl|)
  }

  /** The sizes of the first n segments together. */
  function TotalTo(fl: seq<Seg>, n: nat): nat
    requires n <= |fl|
  {
    if n == 0 then 0 else TotalTo(fl, n - 1) + fl[n - 1].size
  }

  lemma {:induction false} SamePrefix(a: seq<Seg>, b: seq<Seg>, n: nat)
    requires n <= |a| && n <= |b| && forall x :: 0 <= x < n ==> a[x] == b[x]
    ensures TotalTo(a, n) == TotalTo(b, n)
  {
    if n != 0 {
      SamePrefix(a, b, n - 1);
    }
  }

  lemma {:induction false} SameSuffix(a: seq<Seg>, i: nat, b: seq<Seg>, j: nat, n: nat)
    requires i + n <= |a| && j + n <= |b| && forall x :: i <= x < i + n ==> a[x] == b[j + x - i]
    ensures TotalTo(a, i + n) - TotalTo(a, i) == TotalTo(b, j + n) - TotalTo(b, j)
  {
    if n != 0 {
      SameSuffix(a, i, b, j, n - 1);
    }
  }

  ghost predicate Apart(a: nat, n: nat, s: Seg) {
    a + n <= s.addr || s.addr + s.size <= a
  }

  // ---- giving a block back ---------------------------------------------------

  /** The last list position below an address. */
  function Place(fl: seq<Seg>, addr: nat): (k: nat)
    requires fl != [] && fl[0].addr < addr
    ensures k < |fl| && fl[k].addr < addr && (k + 1 < |fl| ==> fl[k + 1].addr >= addr)
  {
    PlaceFrom(fl, addr, 0)
  }

  function PlaceFrom(fl: seq<Seg>, addr: nat, i: nat): (k: nat)
    requires i < |fl| && fl[i].addr < addr
    ensures k < |fl| && fl[k].addr < addr && (k + 1 < |fl| ==> fl[k + 1].addr >= addr)
    decreases |fl| - i
  {
    if i + 1 == |fl| || fl[i + 1].addr >= addr then i else PlaceFrom(fl, addr, i + 1)
  }

  predicate MeetsUpper(fl: seq<Seg>, k: nat, s: Seg) {
    k + 1 < |fl| && s.addr + s.size == fl[k + 1].addr
  }

  predicate MeetsLower(fl: seq<Seg>, k: nat, s: Seg)
    requires k < |fl|
  {
    fl[k].addr + fl[k].size == s.addr
  }

  /** fl with the segments i .. j-1 replaced by s. */
  function Splice(fl: seq<Seg>, i: nat, s: Seg, j: nat): (r: seq<Seg>)
    requires i <= j <= |fl|
    ensures |r| == i + 1 + |fl| - j && r[i] == s
    ensures forall x :: 0 <= x < i ==> r[x] == fl[x]
    ensures forall x :: i < x < |r| ==> r[x] == fl[x - i - 1 + j]
  {
    fl[..i] + [s] + fl[j..]
  }

  lemma SpliceSorted(fl: seq<Seg>, i: nat, s: Seg, j: nat)
    requires Sorted(fl) && 0 < i <= j <= |fl| && s.size > 0
    requires fl[i - 1].addr + fl[i - 1].size < s.addr
    requires j < |fl| ==> s.addr + s.size < fl[j].addr
    ensures Sorted(Splice(fl, i, s, j))
  {
    var r := Splice(fl, i, s, j);
    forall x, y | 0 <= x < y < |r| ensures r[x].addr + r[x].size < r[y].addr {
      if y == i && x < i - 1 {
        assert fl[x].addr + fl[x].size < fl[i - 1].addr;
      } else if x == i && y - i - 1 + j > j {
        assert fl[j].addr + fl[j].size < fl[y - i - 1 + j].addr;
      } else if x < i < y {
        assert fl[x].addr + fl[x].size < fl[y - i - 1 + j].addr;
      }
    }
  }

  /** The sizes of at most two replaced segments. */
  function RangeSize(fl: seq<Seg>, i: nat, j: nat): nat
    requires i <= j <= |fl| && j <= i + 2
  {
    (if i < j then fl[i].size else 0) + (if i + 1 < j then fl[i + 1].size else 0)
  }

  lemma SpliceSize(fl: seq<Seg>, i: nat, s: Seg, j: nat)
    requires i <= j <= |fl| && j <= i + 2
    ensures Total(Splice(fl, i, s, j)) + RangeSize(fl, i, j) == Total(fl) + s.size
  {
    var r := Splice(fl, i, s, j);
    SamePrefix(r, fl, i);
    SameSuffix(r, i + 1, fl, j, |fl| - j);
    assert j == i || j == i + 1 || j == i + 2;
  }

  /** s together with the segments it touches. */
  function Joined(fl: seq<Seg>, k: nat, s: Seg): Seg
    requires k < |fl|
  {
    Seg(if MeetsLower(fl, k, s) then fl[k].addr else s.addr,
        s.size + (if MeetsLower(fl, k, s) then fl[k].size else 0) + (if MeetsUpper(fl, k, s) then fl[k + 1].size else 0))
  }

  function From(fl: seq<Seg>, k: nat, s: Seg): (i: nat)
    requires k < |fl|
    ensures i <= |fl|
  {
    if MeetsLower(fl, k, s) then k else k + 1
  }

  function To(fl: seq<Seg>, k: nat, s: Seg): (j: nat)
    requires k < |fl|
    ensures k + 1 <= j <= |fl|
  {
    if MeetsUpper(fl, k, s) then k + 2 else k + 1
  }

  /** The list once s has been put after position k and joined with what it touches. */
  function Freed(fl: seq<Seg>, k: nat, s: Seg): seq<Seg>
    requires k < |fl|
  {
    Splice(fl, From(fl, k, s), Joined(fl, k, s), To(fl, k, s))
  }

  /** s fits between position k and the next one. */
  ghost predicate FitsAfter(fl: seq<Seg>, k: nat, s: Seg) {
    && k < |fl| && s.size > 0 && fl[0].addr < s.addr
    && fl[k].addr + fl[k].size <= s.addr
    && (k + 1 < |fl| ==> s.addr + s.size <= fl[k + 1].addr)
  }

  lemma FreedSorted(fl: seq<Seg>, k: nat, s: Seg)
    requires Sorted(fl) && FitsAfter(fl, k, s) && fl[0].size == 0
    ensures Sorted(Freed(fl, k, s)) && Freed(fl, k, s) != [] && Freed(fl, k, s)[0] == fl[0]
  {
    assert MeetsLower(fl, k, s) ==> k > 0;
    SpliceSorted(fl, From(fl, k, s), Joined(fl, k, s), To(fl, k, s));
  }

  lemma FreedTotal(fl: seq<Seg>, k: nat, s: Seg)
    requires k < |fl|
    ensures Total(Freed(fl, k, s)) == Total(fl) + s.size
  {
    SpliceSize(fl, From(fl, k, s), Joined(fl, k, s), To(fl, k, s));
  }

  /** A block clear of the old list and of s is clear of the new list. */
  lemma FreedApart(fl: seq<Seg>, k: nat, s: Seg, a: nat, n: nat)
    requires FitsAfter(fl, k, s) && n > 0
    requires Apart(a, n, s) && forall i :: 0 <= i < |fl| ==> Apart(a, n, fl[i])
    ensures forall i :: 0 <= i < |Freed(fl, k, s)| ==> Apart(a, n, Freed(fl, k, s)[i])
  {
  }

  // ---- taking a block --------------------------------------------------------

  /** The list once n units have been taken from position i: all of the segment, or
      its tail end. */
  function Taken(fl: seq<Seg>, i: nat, n: nat): seq<Seg>
    requires i < |fl| && n <= fl[i].size
  {
    if n == fl[i].size then Without(fl, i) else Splice(fl, i, Seg(fl[i].addr, fl[i].size - n), i + 1)
  }

  function Without(fl: seq<Seg>, i: nat): (r: seq<Seg>)
    requires i < |fl|
    ensures |r| == |fl| - 1 && forall x :: 0 <= x < |r| ==> r[x] == if x < i then fl[x] else fl[x + 1]
  {
    fl[..i] + fl[i + 1..]
  }

  /** Where the taken units are. */
  function TakenAddr(fl: seq<Seg>, i: nat, n: nat): nat
    requires i < |fl| && n <= fl[i].size
  {
    fl[i].addr + fl[i].size - n
  }

  lemma TakenSorted(fl: seq<Seg>, i: nat, n: nat)
    requires Sorted(fl) && 0 < i < |fl| && 0 < n <= fl[i].size
    ensures Sorted(Taken(fl, i, n)) && Taken(fl, i, n) != [] && Taken(fl, i, n)[0] == fl[0]
  {
    if n < fl[i].size {
      SpliceSorted(fl, i, Seg(fl[i].addr, fl[i].size - n), i + 1);
    }
  }

  lemma WithoutSize(fl: seq<Seg>, i: nat)
    requires i < |fl|
    ensures Total(Without(fl, i)) + fl[i].size == Total(fl)
  {
    var r := Without(fl, i);
    SamePrefix(r, fl, i);
    SameSuffix(r, i, fl, i + 1, |fl| - i - 1);
    assert TotalTo(fl, i + 1) == TotalTo(fl, i) + fl[i].size;
  }

  lemma TakenTotal(fl: seq<Seg>, i: nat, n: nat)
    requires i < |fl| && n <= fl[i].size
    ensures Total(Taken(fl, i, n)) + n == Total(fl)
  {
    if n == fl[i].size {
      WithoutSize(fl, i);
    } else {
      SpliceSize(fl, i, Seg(fl[i].addr, fl[i].size - n), i + 1);
    }
  }

  /** The taken units lie clear of what stays on the list. */
  lemma TakenApart(fl: seq<Seg>, i: nat, n: nat)
    requires Sorted(fl) && 0 < i < |fl| && 0 < n <= fl[i].size
    ensures forall j :: 0 <= j < |Taken(fl, i, n)| ==> Apart(TakenAddr(fl, i, n), n, Taken(fl, i, n)[j])
  {
  }
}
