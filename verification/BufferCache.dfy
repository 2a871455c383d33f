/** The in-memory disk (memide.c). */
module MemIde {
  import opened Blocks

  class MemIde {
    const image: array<Block>
    ghost var history: seq<seq<Block>>  // the disk after each block write so far

    constructor (blocks: seq<Block>)
      ensures fresh(image) && image[..] == blocks && history == []
    {
      image := new Block[|blocks|](i requires 0 <= i < |blocks| => blocks[i]);
      history := [];
    }

    /** One block write is atomic: the disk is crash-consistent only between writes. */
    method Write(blockno: nat, data: Block)
      requires blockno < image.Length
      modifies this, image
      ensures image[..] == old(image[..])[blockno := data]
      ensures history == old(history) + [image[..]]
    {
      image[blockno] := data;
      history := history + [image[..]];
    }
  }
}

/** The buffer cache (bio.c) over the in-memory disk. */
module BufferCache {
  import opened Blocks
  import opened LruRing
  import opened Wrappers
  import MemIde

  const ROOTDEV: nat := 1

  /** The buffers and the disk together represent one block map.  `pinned` maps each
      block whose buffer is B_DIRTY to that buffer; `pending` does so for buffers
      that their holder has modified but not yet passed to log_write or bwrite. */
  ghost predicate Coherent(s: Bufs, image: seq<Block>, logical: seq<Block>,
                           pinned: map<nat, nat>, pending: map<nat, nat>)
  {
    && |image| == |logical|
    && (forall k {:trigger s[k].valid} :: 0 <= k < NBUF && s[k].valid ==>
          s[k].dev == ROOTDEV && s[k].blockno < |logical| && s[k].data == logical[s[k].blockno])
    && (forall k :: 0 <= k < NBUF && s[k].dirty ==>
          s[k].valid && s[k].blockno in pinned && pinned[s[k].blockno] == k)
    && (forall b {:trigger pinned[b]} :: b in pinned ==>
          pinned[b] < NBUF && s[pinned[b]].dirty && s[pinned[b]].blockno == b)
    && (forall b {:trigger pending[b]} :: b in pending ==>
          pending[b] < NBUF && s[pending[b]].valid && s[pending[b]].holder != 0 && s[pending[b]].blockno == b)
    && (forall b :: 0 <= b < |image| && b !in pinned && b !in pending ==> image[b] == logical[b])
  }

  /** No two buffers hold the same block of a real device. */
  ghost predicate Unique(s: Bufs) {
    forall i, j :: 0 <= i < j < NBUF && s[i].dev == ROOTDEV && s[j].dev == ROOTDEV ==> s[i].blockno != s[j].blockno
  }

  /** A reference is held by the lock holder and by each process still waiting. */
  ghost predicate Counted(s: Bufs, waiting: seq<set<nat>>) {
    && |waiting| == NBUF
    && forall k :: 0 <= k < NBUF ==>
         0 !in waiting[k] && s[k].refcnt == |waiting[k]| + if s[k].holder != 0 then 1 else 0
  }

  /** The list is ordered by most recent final release. */
  ghost predicate Aged(order: seq<nat>, released: seq<nat>, now: nat) {
    && |released| == NBUF
    && (forall k :: 0 <= k < NBUF ==> released[k] < now)
    && (forall k :: 0 <= k < |order| ==> order[k] < NBUF)
    && (forall i, j :: 0 <= i < j < |order| ==> released[order[i]] > released[order[j]])
  }

  ghost predicate Complete(order: seq<nat>) {
    forall k :: 0 <= k < NBUF ==> k in order
  }

  predicate Holds(b: Buf, blockno: nat) {
    b.dev == ROOTDEV && b.blockno == blockno
  }

  /** As static storage starts out: no device, no data, no references. */
  ghost predicate Unused(s: Bufs) {
    forall k :: 0 <= k < NBUF ==>
      !s[k].valid && !s[k].dirty && s[k].dev == 0 && s[k].holder == 0 && s[k].refcnt == 0
  }

  /** The first b descriptors, last pushed first. */
  ghost predicate Stacked(order: seq<nat>, b: nat) {
    |order| == b && forall k :: 0 <= k < b ==> order[k] == b - 1 - k
  }

  predicate Evictable(b: Buf) {
    b.refcnt == 0 && !b.dirty
  }

  // ---- when a block can be had ----------------------------------------------

  /** A process holds the block's buffer. */
  ghost predicate Busy(s: Bufs, blockno: nat) {
    exists k :: 0 <= k < NBUF && Holds(s[k], blockno) && s[k].holder != 0
  }

  /** bget's panic: no buffer has the block, and none can be given to it. */
  ghost predicate NoBuffer(s: Bufs, blockno: nat) {
    forall k :: 0 <= k < NBUF ==> !Holds(s[k], blockno) && !Evictable(s[k])
  }

  /** Nobody holds a buffer or waits for one. */
  ghost predicate Resting(s: Bufs) {
    forall k :: 0 <= k < NBUF ==> s[k].holder == 0 && s[k].refcnt == 0
  }

  /** Only buffer b is held, by one process and with nobody waiting. */
  ghost predicate RestingBut(s: Bufs, b: nat) {
    && b < NBUF && s[b].refcnt == 1
    && forall k :: 0 <= k < NBUF && k != b ==> s[k].holder == 0 && s[k].refcnt == 0
  }

  function Below(n: nat): (r: set<nat>)
    ensures |r| == n && forall k: nat :: k in r <==> k < n
  {
    if n == 0 then {} else Below(n - 1) + {n - 1}
  }

  /** Which of the first n buffers are dirty. */
  ghost function DirtyTo(s: Bufs, n: nat): (r: set<nat>)
    requires n <= NBUF
    ensures forall k: nat :: k in r <==> k < n && s[k].dirty
  {
    if n == 0 then {} else if s[n - 1].dirty then DirtyTo(s, n - 1) + {n - 1} else DirtyTo(s, n - 1)
  }

  lemma {:induction false} SameCount(m: map<nat, nat>, d: set<nat>)
    requires forall b :: b in m ==> m[b] in d
    requires forall b, c :: b in m && c in m && m[b] == m[c] ==> b == c
    requires forall k :: k in d ==> exists b :: b in m && m[b] == k
    ensures |m| == |d|
    decreases |m|
  {
    if m != map[] {
      var b :| b in m;
      var r := m - {b};
      forall k | k in d - {m[b]} ensures exists c :: c in r && r[c] == k {
        var c :| c in m && m[c] == k;
        assert c in r;
      }
      assert m.Keys == r.Keys + {b};
      SameCount(r, d - {m[b]});
    }
  }

  /** As many blocks are pinned as buffers are dirty. */
  lemma PinnedAsDirty(s: Bufs, image: seq<Block>, logical: seq<Block>, pinned: map<nat, nat>, pending: map<nat, nat>)
    requires Coherent(s, image, logical, pinned, pending)
    ensures |pinned| == |DirtyTo(s, NBUF)|
  {
    var d := DirtyTo(s, NBUF);
    forall b, c | b in pinned && c in pinned && pinned[b] == pinned[c] ensures b == c {
      assert s[pinned[b]].blockno == b;
    }
    forall k | k in d ensures exists b :: b in pinned && pinned[b] == k {
      assert pinned[s[k].blockno] == k;
    }
    SameCount(pinned, d);
  }

  lemma AllDirty(s: Bufs)
    ensures |DirtyTo(s, NBUF)| <= NBUF
    ensures |DirtyTo(s, NBUF)| == NBUF <==> forall k :: 0 <= k < NBUF ==> s[k].dirty
  {
    var d, all := DirtyTo(s, NBUF), Below(NBUF);
    hide DirtyTo, Below;
    SubsetSize(d, all);
    if k: nat :| k < NBUF && !s[k].dirty {
      assert |d + {k}| == |d| + 1;
      SubsetSize(d + {k}, all);
    } else {
      assert d == all;
    }
  }

  lemma PinnedCount(s: Bufs, image: seq<Block>, logical: seq<Block>, pinned: map<nat, nat>, pending: map<nat, nat>)
    requires Coherent(s, image, logical, pinned, pending)
    ensures |pinned| <= NBUF
    ensures |pinned| == NBUF <==> forall k :: 0 <= k < NBUF ==> s[k].dirty
  {
    hide Coherent, DirtyTo;
    PinnedAsDirty(s, image, logical, pinned, pending);
    AllDirty(s);
  }

  /** When nobody holds a buffer, a block can be had exactly when its buffer is pinned or not
      all buffers are dirty. */
  lemma RestServes(s: Bufs, image: seq<Block>, logical: seq<Block>, pinned: map<nat, nat>, pending: map<nat, nat>, blockno: nat)
    requires Coherent(s, image, logical, pinned, pending) && Resting(s)
    ensures !Busy(s, blockno)
    ensures NoBuffer(s, blockno) <==> blockno !in pinned && |pinned| == NBUF
  {
    PinnedCount(s, image, logical, pinned, pending);
    if blockno in pinned {
      assert Holds(s[pinned[blockno]], blockno);
    }
    if |pinned| < NBUF {
      var k :| 0 <= k < NBUF && !s[k].dirty;
      assert Evictable(s[k]);
    }
  }

  /** A second block, too, if it is pinned or nothing is dirty. */
  lemma SecondServed(t: Bufs, b: nat, x: nat, y: nat, image: seq<Block>, logical: seq<Block>,
                     pinned: map<nat, nat>, pending: map<nat, nat>)
    requires Coherent(t, image, logical, pinned, pending) && RestingBut(t, b) && Holds(t[b], x) && x != y
    requires y in pinned || pinned == map[]
    ensures !Busy(t, y) && !NoBuffer(t, y)
  {
    if y in pinned {
      assert Holds(t[pinned[y]], y);
    } else {
      var k := if b == 0 then 1 else 0;
      assert Evictable(t[k]);
    }
  }

  /** Waiting is over at once exactly when nobody had the block's buffer. */
  lemma FreeToTake(s: Bufs, t: Bufs, b: nat, blockno: nat, released: seq<nat>, waiting: seq<set<nat>>)
    requires |released| == NBUF && Unique(s) && Counted(s, waiting)
    requires Hit(s, t, b, blockno) || Recycled(s, t, b, blockno, released)
    ensures t[b].holder == s[b].holder && t[b].refcnt == s[b].refcnt + 1 && (t[b].holder == 0 <==> !Busy(s, blockno))
    ensures Resting(s) ==> t[b].holder == 0 && RestingBut(t, b)
  {
  }

  lemma CameAndWent(waiting: seq<set<nat>>, b: nat, pid: nat)
    requires b < |waiting| && pid !in waiting[b]
    ensures waiting[b := waiting[b] + {pid}][b := waiting[b := waiting[b] + {pid}][b] - {pid}] == waiting
  {
  }

  lemma StillResting(s: Bufs, t: Bufs, b: nat)
    requires b < NBUF && t[b].refcnt == s[b].refcnt && forall k :: 0 <= k < NBUF && k != b ==> t[k] == s[k]
    ensures RestingBut(s, b) ==> RestingBut(t, b)
  {
  }

  /** Only buffers a and b are held. */
  ghost predicate RestingPair(s: Bufs, a: nat, b: nat) {
    && a < NBUF && b < NBUF && a != b && s[a].refcnt == s[b].refcnt == 1
    && forall k :: 0 <= k < NBUF && k != a && k != b ==> s[k].holder == 0 && s[k].refcnt == 0
  }

  lemma SecondHeld(s: Bufs, t: Bufs, a: nat, b: nat)
    requires RestingBut(s, a) && b < NBUF && a != b && t[b].refcnt == s[b].refcnt + 1
    requires forall k :: 0 <= k < NBUF && k != b ==> t[k] == s[k]
    ensures RestingPair(t, a, b) && RestingPair(t, b, a)
  {
  }

  lemma StillPair(s: Bufs, t: Bufs, a: nat, b: nat)
    requires RestingPair(s, a, b) && forall k :: 0 <= k < NBUF ==> t[k].holder == s[k].holder && t[k].refcnt == s[k].refcnt
    ensures RestingPair(t, a, b)
  {
  }

  lemma OneReleased(s: Bufs, t: Bufs, a: nat, b: nat)
    requires RestingPair(s, a, b) && OthersSame(s, t, a) && t[a].holder == 0 && t[a].refcnt == s[a].refcnt - 1
    ensures RestingBut(t, b)
  {
    forall k | 0 <= k < NBUF && k != b ensures t[k].holder == 0 && t[k].refcnt == 0 {
      assert k != a ==> Core(t[k]) == Core(s[k]);
    }
  }

  lemma LastReleased(s: Bufs, t: Bufs, b: nat)
    requires RestingBut(s, b) && OthersSame(s, t, b) && t[b].holder == 0 && t[b].refcnt == s[b].refcnt - 1
    ensures Resting(t)
  {
    forall k | 0 <= k < NBUF ensures t[k].holder == 0 && t[k].refcnt == 0 {
      assert k != b ==> Core(t[k]) == Core(s[k]);
    }
  }

  /** Holders stay what they were but for a buffer that nobody held. */
  lemma HoldersStay(s: Bufs, t: Bufs, b: nat, pending: map<nat, nat>, ops: set<nat>)
    requires 0 !in ops && b < NBUF && s[b].holder == 0 && forall k :: 0 <= k < NBUF && k != b ==> t[k] == s[k]
    requires forall x :: x in pending ==> pending[x] < NBUF && s[pending[x]].holder in ops
    ensures forall x :: x in pending ==> pending[x] < NBUF && t[pending[x]].holder in ops
    ensures OthersSame(s, t, b)
  {
  }

  lemma HoldersStayToo(s: Bufs, t: Bufs, waiting: seq<set<nat>>, pending: map<nat, nat>, ops: set<nat>)
    requires 0 !in ops && Counted(s, waiting) && forall k :: 0 <= k < NBUF ==> Core(t[k]) == Core(s[k]) || Evictable(s[k])
    requires forall x :: x in pending ==> pending[x] < NBUF && s[pending[x]].holder in ops
    ensures forall x :: x in pending ==> pending[x] < NBUF && t[pending[x]].holder in ops
    ensures forall k :: 0 <= k < NBUF && s[k].holder != 0 ==> Core(t[k]) == Core(s[k])
  {
  }

  // ---- facts used by the operations ----------------------------------------

  lemma CoherentByCores(s: Bufs, t: Bufs, image: seq<Block>, logical: seq<Block>,
                        pinned: map<nat, nat>, pending: map<nat, nat>, waiting: seq<set<nat>>)
    requires SameCores(s, t) && Coherent(s, image, logical, pinned, pending) && Unique(s) && Counted(s, waiting)
    ensures Coherent(t, image, logical, pinned, pending) && Unique(t) && Counted(t, waiting)
  {
    assert forall k :: 0 <= k <= HEAD ==> Core(s[k]) == Core(t[k]) && s[k].refcnt == t[k].refcnt;
  }

  /** A clean buffer nobody refers to can be given to another block. */
  lemma RecycleCoherent(s: Bufs, t: Bufs, k: nat, blockno: nat, released: seq<nat>, image: seq<Block>, logical: seq<Block>,
                        pinned: map<nat, nat>, pending: map<nat, nat>, waiting: seq<set<nat>>, pid: nat)
    requires Coherent(s, image, logical, pinned, pending) && Unique(s) && Counted(s, waiting)
    requires |released| == NBUF && Recycled(s, t, k, blockno, released) && pid != 0
    ensures Coherent(t, image, logical, pinned, pending) && Unique(t)
    ensures Counted(t, waiting[k := waiting[k] + {pid}])
  {
    assert waiting[k] == {};
  }

  function FrontOrder(order: seq<nat>, p: nat): (o: seq<nat>)
    requires p < |order|
    ensures o != [] && o[0] == order[p]
  {
    [order[p]] + Without(order, p)
  }

  lemma FrontRing(s: Bufs, order: seq<nat>, p: nat)
    requires Ring(s, order) && p < |order|
    ensures var b := order[p];
            && s[b].next <= HEAD && s[b].prev <= HEAD && s[b].next != b
            && Unlink(s, b)[HEAD].next <= HEAD
            && Ring(PushFront(Unlink(s, b), b), FrontOrder(order, p))
            && SameCores(s, PushFront(Unlink(s, b), b))
  {
    var b := order[p];
    UnlinkRing(s, order, p);
    UnlinkFields(s, order, p + 1);
    CycleDistinct(s, order, p, p + 1);
    WithoutDistinct(order, p);
    PushFrontRing(Unlink(s, b), Without(order, p), b);
    assert [b] + Without(order, p) == FrontOrder(order, p);
  }

  lemma PutThenRemove(p: map<nat, nat>, q: map<nat, nat>, n: nat, v: nat)
    ensures p[n := v] - {n} == p - {n}
    ensures q - {n} - {n} == q - {n}
  {
  }

  lemma UpdateTwice(s: Bufs, b: nat, x: Buf, y: Buf)
    requires b < NBUF
    ensures s[b := x][b := y] == s[b := y]
  {
  }

  lemma MoveToFront(order: seq<nat>, p: nat, released: seq<nat>, now: nat)
    requires Aged(order, released, now) && Complete(order) && p < |order| && Distinct(order)
    ensures Aged(FrontOrder(order, p), released[order[p] := now], now + 1)
    ensures Complete(FrontOrder(order, p))
  {
    var o := FrontOrder(order, p);
    var r := released[order[p] := now];
    WithoutDistinct(order, p);
    forall i, j | 0 <= i < j < |o| ensures r[o[i]] > r[o[j]] {
      if i > 0 {
        assert o[i] != order[p] && o[j] != order[p];
      }
    }
    forall k: nat | k < NBUF ensures k in o {
      assert k in order;
      var q :| 0 <= q < |order| && order[q] == k;
      if q < p { assert o[q + 1] == k; } else if q > p { assert o[q] == k; }
    }
  }

  ghost function PlaceOf(order: seq<nat>, b: nat): (p: nat)
    requires b in order
    ensures p < |order| && order[p] == b
  {
    var p :| 0 <= p < |order| && order[p] == b; p
  }

  /** Relinking a buffer at the front keeps everything the cache relies on. */
  lemma MovedFront(s: Bufs, order: seq<nat>, p: nat, released: seq<nat>, now: nat, image: seq<Block>,
                   logical: seq<Block>, pinned: map<nat, nat>, pending: map<nat, nat>, waiting: seq<set<nat>>)
    requires Coherent(s, image, logical, pinned, pending) && Unique(s) && Counted(s, waiting)
    requires Ring(s, order) && Complete(order) && Aged(order, released, now) && p < |order|
    ensures var b := order[p];
            && s[b].next <= HEAD && s[b].prev <= HEAD && s[b].next != b
            && Unlink(s, b)[HEAD].next <= HEAD
            && (var t := PushFront(Unlink(s, b), b);
                && SameCores(s, t) && Coherent(t, image, logical, pinned, pending) && Unique(t) && Counted(t, waiting)
                && Ring(t, FrontOrder(order, p)))
    ensures Complete(FrontOrder(order, p)) && Aged(FrontOrder(order, p), released[order[p] := now], now + 1)
  {
    FrontRing(s, order, p);
    MoveToFront(order, p, released, now);
    CoherentByCores(s, PushFront(Unlink(s, order[p]), order[p]), image, logical, pinned, pending, waiting);
  }

  /** A cache hit: one more reference to the buffer that holds the block. */
  ghost predicate Hit(s: Bufs, t: Bufs, b: nat, blockno: nat) {
    b < NBUF && Holds(s[b], blockno) && t == s[b := s[b].(refcnt := s[b].refcnt + 1)]
  }

  /** A miss: the least recently released clean unused buffer changes hands. */
  ghost predicate Recycled(s: Bufs, t: Bufs, b: nat, blockno: nat, released: seq<nat>)
    requires |released| == NBUF
  {
    && b < NBUF && Evictable(s[b])
    && (forall k :: 0 <= k < NBUF ==> !Holds(s[k], blockno))
    && (forall k :: 0 <= k < NBUF && Evictable(s[k]) ==> released[b] <= released[k])
    && t == s[b := s[b].(dev := ROOTDEV, blockno := blockno, valid := false, dirty := false, refcnt := 1)]
  }

  ghost predicate Stuck(s: Bufs, t: Bufs, blockno: nat) {
    t == s && forall k :: 0 <= k < NBUF ==> !Holds(s[k], blockno) && !Evictable(s[k])
  }

  lemma RingByLinks(s: Bufs, t: Bufs, order: seq<nat>)
    requires Ring(s, order)
    requires forall k :: 0 <= k <= HEAD ==> t[k].next == s[k].next && t[k].prev == s[k].prev
    ensures Ring(t, order)
  {
    forall k | 0 <= k < |Cycle(order)| - 1 ensures LinkedAt(t, Cycle(order), k) {
      assert LinkedAt(s, Cycle(order), k);
    }
  }

  lemma HitCoherent(s: Bufs, t: Bufs, b: nat, blockno: nat, image: seq<Block>, logical: seq<Block>,
                    pinned: map<nat, nat>, pending: map<nat, nat>, waiting: seq<set<nat>>, pid: nat)
    requires Coherent(s, image, logical, pinned, pending) && Unique(s) && Counted(s, waiting)
    requires Hit(s, t, b, blockno) && pid != 0 && pid !in waiting[b]
    ensures Coherent(t, image, logical, pinned, pending) && Unique(t)
    ensures Counted(t, waiting[b := waiting[b] + {pid}])
  {
  }

  lemma NoneHolds(order: seq<nat>, s: Bufs, blockno: nat, p: nat)
    requires Ring(s, order) && Complete(order) && 1 <= p < |Cycle(order)| && Cycle(order)[p] == HEAD
    requires forall q :: 1 <= q < p ==> !Holds(s[Cycle(order)[q]], blockno)
    ensures forall k :: 0 <= k < NBUF ==> !Holds(s[k], blockno)
  {
    assert p == |order| + 1;
    forall k: nat | k < NBUF ensures !Holds(s[k], blockno) {
      assert k in order;
      var i :| 0 <= i < |order| && order[i] == k;
      assert Cycle(order)[i + 1] == k;
    }
  }

  lemma NoneEvictable(order: seq<nat>, s: Bufs, p: nat)
    requires Ring(s, order) && Complete(order) && p < |Cycle(order)| - 1 && Cycle(order)[p] == HEAD
    requires forall q :: p < q < |Cycle(order)| - 1 ==> !Evictable(s[Cycle(order)[q]])
    ensures forall k :: 0 <= k < NBUF ==> !Evictable(s[k])
  {
    assert p == 0;
    forall k: nat | k < NBUF ensures !Evictable(s[k]) {
      assert k in order;
      var i :| 0 <= i < |order| && order[i] == k;
      assert Cycle(order)[i + 1] == k;
    }
  }

  /** The first evictable buffer met from the tail is the least recently released. */
  lemma Oldest(s: Bufs, order: seq<nat>, released: seq<nat>, now: nat, p: nat)
    requires Ring(s, order) && Complete(order) && Aged(order, released, now) && p < |order|
    requires forall q :: p + 1 < q < |Cycle(order)| - 1 ==> !Evictable(s[Cycle(order)[q]])
    ensures forall k :: 0 <= k < NBUF && Evictable(s[k]) ==> released[order[p]] <= released[k]
  {
    forall k: nat | k < NBUF && Evictable(s[k]) ensures released[order[p]] <= released[k] {
      assert k in order;
      var i :| 0 <= i < |order| && order[i] == k;
      assert Cycle(order)[i + 1] == k;
    }
  }

  // One buffer changes owner, contents or flags; the list links stay.

  lemma LockCoherent(s: Bufs, b: nat, pid: nat, image: seq<Block>, logical: seq<Block>,
                     pinned: map<nat, nat>, pending: map<nat, nat>, waiting: seq<set<nat>>)
    requires Coherent(s, image, logical, pinned, pending) && Unique(s) && Counted(s, waiting)
    requires b < NBUF && pid in waiting[b] && s[b].holder == 0
    ensures var t := s[b := s[b].(holder := pid)];
            Coherent(t, image, logical, pinned, pending) && Unique(t)
            && Counted(t, waiting[b := waiting[b] - {pid}])
  {
  }

  lemma ReadCoherent(s: Bufs, b: nat, image: seq<Block>, logical: seq<Block>,
                     pinned: map<nat, nat>, pending: map<nat, nat>, waiting: seq<set<nat>>)
    requires Coherent(s, image, logical, pinned, pending) && Unique(s) && Counted(s, waiting)
    requires b < NBUF && !s[b].valid && Holds(s[b], s[b].blockno) && s[b].blockno < |image|
    ensures var t := s[b := s[b].(valid := true, data := image[s[b].blockno])];
            Coherent(t, image, logical, pinned, pending) && Unique(t) && Counted(t, waiting)
  {
    assert s[b].blockno !in pinned && s[b].blockno !in pending;
  }

  lemma ModifyCoherent(s: Bufs, b: nat, data: Block, image: seq<Block>, logical: seq<Block>,
                       pinned: map<nat, nat>, pending: map<nat, nat>, waiting: seq<set<nat>>)
    requires Coherent(s, image, logical, pinned, pending) && Unique(s) && Counted(s, waiting)
    requires b < NBUF && s[b].valid && s[b].holder != 0
    ensures var t := s[b := s[b].(data := data)]; var n := s[b].blockno;
            Coherent(t, image, logical[n := data], pinned, pending[n := b]) && Unique(t) && Counted(t, waiting)
  {
  }

  lemma PinCoherent(s: Bufs, b: nat, image: seq<Block>, logical: seq<Block>,
                    pinned: map<nat, nat>, pending: map<nat, nat>, waiting: seq<set<nat>>)
    requires Coherent(s, image, logical, pinned, pending) && Unique(s) && Counted(s, waiting)
    requires b < NBUF && s[b].valid
    ensures var t := s[b := s[b].(dirty := true)]; var n := s[b].blockno;
            Coherent(t, image, logical, pinned[n := b], pending - {n}) && Unique(t) && Counted(t, waiting)
  {
  }

  lemma WriteCoherent(s: Bufs, b: nat, image: seq<Block>, logical: seq<Block>,
                      pinned: map<nat, nat>, pending: map<nat, nat>, waiting: seq<set<nat>>)
    requires Coherent(s, image, logical, pinned, pending) && Unique(s) && Counted(s, waiting)
    requires b < NBUF && s[b].valid
    ensures var t := s[b := s[b].(dirty := false)]; var n := s[b].blockno;
            Coherent(t, image[n := s[b].data], logical, pinned - {n}, pending - {n}) && Unique(t)
            && Counted(t, waiting)
  {
  }

  lemma ReleaseCoherent(s: Bufs, b: nat, image: seq<Block>, logical: seq<Block>,
                        pinned: map<nat, nat>, pending: map<nat, nat>, waiting: seq<set<nat>>)
    requires Coherent(s, image, logical, pinned, pending) && Unique(s) && Counted(s, waiting)
    requires b < NBUF && s[b].holder != 0 && s[b].blockno !in pending
    ensures s[b].refcnt > 0
    ensures var t := s[b := s[b].(holder := 0, refcnt := s[b].refcnt - 1)];
            Coherent(t, image, logical, pinned, pending) && Unique(t) && Counted(t, waiting)
  {
  }

  /** What binit leaves behind. */
  lemma Booted(s: Bufs, order: seq<nat>, image: seq<Block>)
    requires Unused(s) && Stacked(order, NBUF)
    ensures Coherent(s, image, image, map[], map[]) && Unique(s)
    ensures Counted(s, seq(30, _ => {}))
    ensures Complete(order) && Aged(order, seq(30, i => i), 30)
  {
    forall k: nat | k < NBUF ensures k in order {
      assert order[NBUF - 1 - k] == k;
    }
  }

  class BufferCache {
    const buf: array<Buf>
    const disk: MemIde.MemIde
    ghost var logical: seq<Block>
    ghost var pinned: map<nat, nat>
    ghost var pending: map<nat, nat>
    ghost var waiting: seq<set<nat>>
    ghost var order: seq<nat>
    ghost var released: seq<nat>
    ghost var now: nat

    ghost predicate Valid()
      reads this, buf, disk, disk.image
    {
      && buf.Length == 31
      && Coherent(buf[..], disk.image[..], logical, pinned, pending)
      && Unique(buf[..])
      && Counted(buf[..], waiting)
      && Ring(buf[..], order) && Complete(order)
      && Aged(order, released, now)
    }

    /** binit: every descriptor zeroed, then pushed at the head in turn. */
    constructor (disk: MemIde.MemIde)
      ensures Valid() && fresh(buf) && this.disk == disk
      ensures logical == disk.image[..] && pinned == map[] && pending == map[]
      ensures Unused(buf[..])
    {
      this.disk := disk;
      buf := new Buf[31](_ => Buf(false, false, 0, 0, 0, 0, 0, 0, ZeroBlock()));
      logical, pinned, pending := disk.image[..], map[], map[];
      waiting := seq(30, _ => {});
      order, released, now := [], seq(30, i => i), 30;
      new;
      hide Coherent, Unique, Counted, Aged, Complete;
      buf[HEAD] := buf[HEAD].(prev := HEAD, next := HEAD);
      ThreadAll();
      Booted(buf[..], order, disk.image[..]);
    }

    /** binit's loop: each buffer goes to the front. */
    method ThreadAll()
      requires buf.Length == 31 && Unused(buf[..]) && order == [] && Ring(buf[..], order)
      modifies buf, this`order
      ensures Unused(buf[..]) && Ring(buf[..], order) && Stacked(order, NBUF)
    {
      for b := 0 to NBUF
        invariant Unused(buf[..]) && Ring(buf[..], order) && Stacked(order, b)
      {
        PushFrontRing(buf[..], order, b);
        SpliceFront(b);
        order := [b] + order;
      }
    }

    method SpliceFront(b: nat)
      requires buf.Length == 31 && b < NBUF && buf[HEAD].next <= HEAD
      modifies buf
      ensures buf[..] == PushFront(old(buf[..]), b)
    {
      buf[b] := buf[b].(next := buf[HEAD].next, prev := HEAD);
      buf[buf[HEAD].next] := buf[buf[HEAD].next].(prev := b);
      buf[HEAD] := buf[HEAD].(next := b);
    }

    method SpliceOut(b: nat)
      requires buf.Length == 31 && b < NBUF && buf[b].next <= HEAD && buf[b].prev <= HEAD
      requires buf[b].next != b
      modifies buf
      ensures buf[..] == Unlink(old(buf[..]), b)
    {
      buf[buf[b].next] := buf[buf[b].next].(prev := buf[b].prev);
      buf[buf[b].prev] := buf[buf[b].prev].(next := buf[b].next);
    }

    /** bget's first loop: from the most recently released end, a buffer that holds
        the block. */
    method FindCached(blockno: nat) returns (b: nat)
      requires buf.Length == 31 && Ring(buf[..], order) && Complete(order)
      ensures b == HEAD ==> forall k :: 0 <= k < NBUF ==> !Holds(buf[k], blockno)
      ensures b != HEAD ==> b < NBUF && Holds(buf[b], blockno)
    {
      ghost var c := Cycle(order);
      ghost var p := 1;
      assert c[0] == HEAD && LinkedAt(buf[..], c, 0);
      b := buf[HEAD].next;
      while b != HEAD
        invariant 1 <= p < |c| && b == c[p]
        invariant forall q :: 1 <= q < p ==> !Holds(buf[c[q]], blockno)
        decreases |c| - p
      {
        if buf[b].dev == ROOTDEV && buf[b].blockno == blockno {
          return;
        }
        assert LinkedAt(buf[..], c, p);
        b, p := buf[b].next, p + 1;
      }
      NoneHolds(order, buf[..], blockno, p);
    }

    /** bget's second loop: from the other end, a clean buffer nobody refers to. */
    method FindEvictable() returns (b: nat)
      requires buf.Length == 31 && Ring(buf[..], order) && Complete(order) && Aged(order, released, now)
      ensures b == HEAD ==> forall k :: 0 <= k < NBUF ==> !Evictable(buf[k])
      ensures b != HEAD ==> b < NBUF && Evictable(buf[b])
                            && forall k :: 0 <= k < NBUF && Evictable(buf[k]) ==> released[b] <= released[k]
    {
      ghost var c := Cycle(order);
      ghost var p := |c| - 2;
      assert c[|c| - 1] == HEAD && LinkedAt(buf[..], c, p);
      b := buf[HEAD].prev;
      while b != HEAD
        invariant 0 <= p < |c| - 1 && b == c[p]
        invariant forall q :: p < q < |c| - 1 ==> !Evictable(buf[c[q]])
        decreases p
      {
        if buf[b].refcnt == 0 && !buf[b].dirty {
          Oldest(buf[..], order, released, now, p - 1);
          return;
        }
        assert LinkedAt(buf[..], c, p - 1);
        b, p := buf[b].prev, p - 1;
      }
      NoneEvictable(order, buf[..], p);
    }

    /** bget up to the point where the caller waits for the buffer's sleep lock.  It
        fails exactly when the kernel would panic for lack of buffers. */
    method Bget(blockno: nat, pid: nat) returns (b: nat, ok: bool)
      requires Valid() && pid != 0
      requires forall k :: 0 <= k < NBUF ==> pid !in waiting[k]
      modifies this`waiting, buf
      ensures Valid()
      ensures ok ==> Hit(old(buf[..]), buf[..], b, blockno)
                     || Recycled(old(buf[..]), buf[..], b, blockno, released)
      ensures ok ==> b < NBUF && waiting == old(waiting)[b := old(waiting[b]) + {pid}]
      ensures ok <==> !NoBuffer(old(buf[..]), blockno)
      ensures !ok ==> Stuck(old(buf[..]), buf[..], blockno) && waiting == old(waiting)
    {
      hide Coherent, Unique, Ring;
      b := FindCached(blockno);
      if b != HEAD {
        TakeCached(b, blockno, pid);
        return b, true;
      }
      b := FindEvictable();
      if b == HEAD {
        return b, false;
      }
      Recycle(b, blockno, pid);
      return b, true;
    }

    /** One more reference to a buffer that holds the block. */
    method TakeCached(b: nat, blockno: nat, pid: nat)
      requires Valid() && pid != 0 && b < NBUF && Holds(buf[b], blockno) && pid !in waiting[b]
      modifies this`waiting, buf
      ensures Valid() && Hit(old(buf[..]), buf[..], b, blockno) && waiting == old(waiting)[b := old(waiting[b]) + {pid}]
    {
      hide Coherent, Unique, Ring;
      ghost var s: Bufs := buf[..];
      buf[b] := buf[b].(refcnt := buf[b].refcnt + 1);
      HitCoherent(s, buf[..], b, blockno, disk.image[..], logical, pinned, pending, waiting, pid);
      RingByLinks(s, buf[..], order);
      waiting := waiting[b := waiting[b] + {pid}];
    }

    /** A clean buffer nobody refers to is given to the block. */
    method Recycle(b: nat, blockno: nat, pid: nat)
      requires Valid() && pid != 0 && b < NBUF && Evictable(buf[b])
      requires forall k :: 0 <= k < NBUF ==> !Holds(buf[k], blockno)
      requires forall k :: 0 <= k < NBUF && Evictable(buf[k]) ==> released[b] <= released[k]
      modifies this`waiting, buf
      ensures Valid() && Recycled(old(buf[..]), buf[..], b, blockno, released)
      ensures waiting == old(waiting)[b := old(waiting[b]) + {pid}]
    {
      hide Coherent, Unique, Ring;
      ghost var s: Bufs := buf[..];
      buf[b] := buf[b].(dev := ROOTDEV, blockno := blockno, valid := false, dirty := false, refcnt := 1);
      RecycleCoherent(s, buf[..], b, blockno, released, disk.image[..], logical, pinned, pending, waiting, pid);
      RingByLinks(s, buf[..], order);
      waiting := waiting[b := waiting[b] + {pid}];
    }

    /** The wait in bget is over: the buffer's sleep lock is free and pid takes it. */
    method AcquireBuf(b: nat, pid: nat)
      requires Valid() && b < NBUF && pid in waiting[b] && buf[b].holder == 0
      modifies this`waiting, buf
      ensures Valid()
      ensures buf[..] == old(buf[..])[b := old(buf[b]).(holder := pid)]
      ensures waiting == old(waiting)[b := old(waiting[b]) - {pid}]
    {
      hide Unique, Ring;
      ghost var s: Bufs := buf[..];
      buf[b] := buf[b].(holder := pid);
      assert buf[..] == s[b := s[b].(holder := pid)];
      LockCoherent(s, b, pid, disk.image[..], logical, pinned, pending, waiting);
      RingByLinks(s, buf[..], order);
      waiting := waiting[b := waiting[b] - {pid}];
    }

    /** iderw on a buffer that is not valid yet: the block is read from the disk. */
    method IderwRead(b: nat)
      requires Valid() && b < NBUF && buf[b].holder != 0 && !buf[b].valid
      requires buf[b].dev == ROOTDEV && buf[b].blockno < disk.image.Length
      modifies buf
      ensures Valid()
      ensures buf[..] == old(buf[..])[b := old(buf[b]).(valid := true, data := logical[old(buf[b]).blockno])]
    {
      ghost var s: Bufs := buf[..];
      buf[b] := buf[b].(data := disk.image[buf[b].blockno], valid := true);
      ghost var t: Bufs := s[b := s[b].(valid := true, data := disk.image[s[b].blockno])];
      assert buf[..] == t;
      ReadCoherent(s, b, disk.image[..], logical, pinned, pending, waiting);
      RingByLinks(s, t, order);
    }

    /** iderw on a dirty buffer: the block is written to the disk. */
    method IderwWrite(b: nat)
      requires Valid() && b < NBUF && buf[b].holder != 0 && buf[b].dirty
      modifies this`pinned, this`pending, buf, disk, disk.image
      ensures Valid()
      ensures buf[..] == old(buf[..])[b := old(buf[b]).(dirty := false)]
      ensures pinned == old(pinned) - {buf[b].blockno} && pending == old(pending) - {buf[b].blockno}
      ensures disk.image[..] == old(disk.image[..])[buf[b].blockno := buf[b].data]
      ensures disk.history == old(disk.history) + [disk.image[..]]
    {
      ghost var s: Bufs := buf[..];
      ghost var image := disk.image[..];
      WriteCoherent(s, b, image, logical, pinned, pending, waiting);
      buf[b] := buf[b].(dirty := false);
      assert buf[..] == s[b := s[b].(dirty := false)];
      RingByLinks(s, buf[..], order);
      disk.Write(buf[b].blockno, buf[b].data);
      pinned, pending := pinned - {buf[b].blockno}, pending - {buf[b].blockno};
    }

    /** bread.  When another process holds the buffer the caller would sleep; that, and
        running out of buffers, is reported as not ok. */
    method Bread(blockno: nat, pid: nat) returns (b: nat, ok: bool)
      requires Valid() && pid != 0 && blockno < disk.image.Length
      requires forall k :: 0 <= k < NBUF ==> pid !in waiting[k]
      modifies this`waiting, buf
      ensures Valid()
      ensures ok ==> b < NBUF && old(buf[b]).holder == 0 && waiting == old(waiting)
      ensures ok ==> buf[b].holder == pid && buf[b].valid && Holds(buf[b], blockno) && buf[b].data == logical[blockno]
      ensures ok ==> forall k :: 0 <= k < NBUF && k != b ==> buf[k] == old(buf[k])
      ensures ok ==> buf[b].refcnt == old(buf[b]).refcnt + 1
      ensures ok <==> !Busy(old(buf[..]), blockno) && !NoBuffer(old(buf[..]), blockno)
      ensures old(Resting(buf[..])) ==> (ok <==> blockno in pinned || |pinned| < NBUF)
      ensures ok && old(Resting(buf[..])) ==> RestingBut(buf[..], b)
      ensures !ok ==> forall k :: 0 <= k < NBUF ==> Core(buf[k]) == old(Core(buf[k])) || old(Evictable(buf[k]))
    {
      hide Coherent, Unique, Ring, Aged, Complete, Busy, NoBuffer, Resting, RestingBut, Evictable, Core;
      if Resting(buf[..]) { RestMeans(blockno); }
      ghost var w := waiting;
      b, ok := GetNow(blockno, pid);
      if ok {
        ghost var t: Bufs := buf[..];
        LockAndRead(b, blockno, pid);
        CameAndWent(w, b, pid);
        StillResting(t, buf[..], b);
      }
    }

    lemma SameSize()
      requires Valid()
      ensures |logical| == disk.image.Length
    {
    }

    lemma RestMeans(blockno: nat)
      requires Valid() && Resting(buf[..])
      ensures !Busy(buf[..], blockno) && (NoBuffer(buf[..], blockno) <==> blockno !in pinned && |pinned| >= NBUF)
    {
      PinnedCount(buf[..], disk.image[..], logical, pinned, pending);
      RestServes(buf[..], disk.image[..], logical, pinned, pending, blockno);
    }

    /** bget; ok means that there is nothing to wait for. */
    method GetNow(blockno: nat, pid: nat) returns (b: nat, ok: bool)
      requires Valid() && pid != 0
      requires forall k :: 0 <= k < NBUF ==> pid !in waiting[k]
      modifies this`waiting, buf
      ensures Valid()
      ensures ok <==> !Busy(old(buf[..]), blockno) && !NoBuffer(old(buf[..]), blockno)
      ensures ok ==> b < NBUF && waiting == old(waiting)[b := old(waiting[b]) + {pid}]
      ensures ok ==> buf[b].holder == 0 == old(buf[b]).holder && Holds(buf[b], blockno)
      ensures ok ==> buf[b].refcnt == old(buf[b]).refcnt + 1
      ensures ok ==> forall k :: 0 <= k < NBUF && k != b ==> buf[k] == old(buf[k])
      ensures ok && Resting(old(buf[..])) ==> RestingBut(buf[..], b)
      ensures !ok ==> forall k :: 0 <= k < NBUF ==> Core(buf[k]) == old(Core(buf[k])) || old(Evictable(buf[k]))
    {
      ghost var s: Bufs, w := buf[..], waiting;
      b, ok := Bget(blockno, pid);
      if ok {
        FreeToTake(s, buf[..], b, blockno, released, w);
        ok := buf[b].holder == 0;
      }
      hide Unique, Coherent, Ring, Aged, Complete, Busy, NoBuffer, Resting, RestingBut, Counted;
    }

    method LockAndRead(b: nat, blockno: nat, pid: nat)
      requires Valid() && b < NBUF && pid in waiting[b] && buf[b].holder == 0 && pid != 0
      requires Holds(buf[b], blockno) && blockno < disk.image.Length
      modifies this`waiting, buf
      ensures Valid() && waiting == old(waiting)[b := old(waiting[b]) - {pid}]
      ensures buf[b].holder == pid && buf[b].valid && Holds(buf[b], blockno) && buf[b].data == logical[blockno]
      ensures buf[b].refcnt == old(buf[b].refcnt) && forall k :: 0 <= k < NBUF && k != b ==> buf[k] == old(buf[k])
    {
      hide Unique, Ring, Aged, Complete;
      AcquireBuf(b, pid);
      if !buf[b].valid {
        IderwRead(b);
      }
    }

    /** The holder changes the contents. */
    method Modify(b: nat, data: Block)
      requires Valid() && b < NBUF && buf[b].holder != 0 && buf[b].valid
      modifies this`logical, this`pending, buf
      ensures Valid()
      ensures buf[..] == old(buf[..])[b := old(buf[b]).(data := data)]
      ensures logical == old(logical)[buf[b].blockno := data]
      ensures pending == old(pending)[buf[b].blockno := b]
    {
      hide Unique, Ring;
      ghost var s: Bufs := buf[..];
      buf[b] := buf[b].(data := data);
      assert buf[..] == s[b := s[b].(data := data)];
      ModifyCoherent(s, b, data, disk.image[..], logical, pinned, pending, waiting);
      RingByLinks(s, buf[..], order);
      logical, pending := logical[buf[b].blockno := data], pending[buf[b].blockno := b];
    }

    /** The buffer becomes dirty: from now on it is not recycled before iderw. */
    method SetDirty(b: nat)
      requires Valid() && b < NBUF && buf[b].holder != 0 && buf[b].valid
      modifies this`pinned, this`pending, buf
      ensures Valid()
      ensures buf[..] == old(buf[..])[b := old(buf[b]).(dirty := true)]
      ensures pinned == old(pinned)[buf[b].blockno := b] && pending == old(pending) - {buf[b].blockno}
    {
      hide Unique, Ring;
      ghost var s: Bufs := buf[..];
      buf[b] := buf[b].(dirty := true);
      assert buf[..] == s[b := s[b].(dirty := true)];
      PinCoherent(s, b, disk.image[..], logical, pinned, pending, waiting);
      RingByLinks(s, buf[..], order);
      pinned, pending := pinned[buf[b].blockno := b], pending - {buf[b].blockno};
    }

    /** bwrite: exactly one block write, of the buffer's contents to its own block. */
    method Bwrite(b: nat)
      requires Valid() && b < NBUF && buf[b].holder != 0 && buf[b].valid
      modifies this`pinned, this`pending, buf, disk, disk.image
      ensures Valid()
      ensures buf[..] == old(buf[..])[b := old(buf[b]).(dirty := false)]
      ensures pinned == old(pinned) - {buf[b].blockno} && pending == old(pending) - {buf[b].blockno}
      ensures disk.image[..] == old(disk.image[..])[buf[b].blockno := buf[b].data]
      ensures disk.history == old(disk.history) + [disk.image[..]]
    {
      ghost var s: Bufs := buf[..];
      PutThenRemove(pinned, pending, buf[b].blockno, b);
      SetDirty(b);
      UpdateTwice(s, b, s[b].(dirty := true), s[b].(dirty := false));
      IderwWrite(b);
    }

    /** brelse: one reference fewer; at the last one the buffer becomes the most
        recently released. */
    method Brelse(b: nat)
      requires Valid() && b < NBUF && buf[b].holder != 0 && buf[b].blockno !in pending
      modifies this`order, this`released, this`now, buf
      ensures Valid()
      ensures forall k :: 0 <= k < NBUF && k != b ==> Core(buf[k]) == old(Core(buf[k])) && buf[k].refcnt == old(buf[k].refcnt)
      ensures buf[b].holder == 0 && buf[b].refcnt == old(buf[b].refcnt) - 1
      ensures Core(buf[b]) == old(Core(buf[b].(holder := 0)))
      ensures if buf[b].refcnt == 0
              then released == old(released)[b := old(now)] && order != [] && order[0] == b
              else released == old(released) && order == old(order)
    {
      ghost var s: Bufs := buf[..];
      ReleaseCoherent(s, b, disk.image[..], logical, pinned, pending, waiting);
      buf[b] := buf[b].(holder := 0, refcnt := buf[b].refcnt - 1);
      ghost var t: Bufs := buf[..];
      assert t == s[b := s[b].(holder := 0, refcnt := s[b].refcnt - 1)];
      RingByLinks(s, t, order);
      if buf[b].refcnt == 0 {
        MoveFront(b);
      }
    }

    /** The buffer leaves its place in the list and becomes the first after the head. */
    method MoveFront(b: nat)
      requires Valid() && b < NBUF
      modifies this`order, this`released, this`now, buf
      ensures Valid() && SameCores(old(buf[..]), buf[..])
      ensures released == old(released)[b := old(now)] && order != [] && order[0] == b
    {
      hide Unique, Ring;
      ghost var p := PlaceOf(order, b);
      MovedFront(buf[..], order, p, released, now, disk.image[..], logical, pinned, pending, waiting);
      Relink(b);
      order, released, now := FrontOrder(order, p), released[b := now], now + 1;
    }

    method Relink(b: nat)
      requires buf.Length == 31 && b < NBUF && buf[b].next <= HEAD && buf[b].prev <= HEAD
      requires buf[b].next != b && Unlink(buf[..], b)[HEAD].next <= HEAD
      modifies buf
      ensures buf[..] == PushFront(Unlink(old(buf[..]), b), b)
    {
      SpliceOut(b);
      SpliceFront(b);
    }
  }
}
