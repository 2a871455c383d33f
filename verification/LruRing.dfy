/** The buffer descriptors of bio.c and the intrusive doubly linked list through
    them.  Pointers are indices into the descriptor array; the list head is the
    last descriptor. */
module LruRing {
  import opened Blocks

  const NBUF: nat := 30
  const HEAD: nat := 30

  datatype Buf = Buf(valid: bool, dirty: bool, dev: nat, blockno: nat, holder: nat,
                     refcnt: nat, prev: nat, next: nat, data: Block)

  type Bufs = s: seq<Buf> | |s| == 31 witness seq(31, _ => Buf(false, false, 0, 0, 0, 0, 0, 0, ZeroBlock()))

  /** Neighbours along c point at each other. */
  ghost predicate Linked(s: Bufs, c: seq<nat>) {
    && (forall k :: 0 <= k < |c| ==> c[k] <= HEAD)
    && (forall k {:trigger LinkedAt(s, c, k)} :: 0 <= k < |c| - 1 ==> LinkedAt(s, c, k))
  }

  predicate LinkedAt(s: Bufs, c: seq<nat>, k: nat)
    requires k + 1 < |c| && c[k] <= HEAD && c[k + 1] <= HEAD
  {
    s[c[k]].next == c[k + 1] && s[c[k + 1]].prev == c[k]
  }

  ghost predicate Distinct(c: seq<nat>) {
    forall i, j :: 0 <= i < j < |c| ==> c[i] != c[j]
  }

  /** order, framed by the head, is one cycle through distinct descriptors. */
  ghost predicate Ring(s: Bufs, order: seq<nat>) {
    && (forall k :: 0 <= k < |order| ==> order[k] < NBUF)
    && Distinct(order)
    && Linked(s, Cycle(order))
  }

  /** The rest of a descriptor: what the list operations leave alone. */
  function Core(b: Buf): (bool, bool, nat, nat, nat, Block) {
    (b.valid, b.dirty, b.dev, b.blockno, b.holder, b.data)
  }

  ghost predicate SameCores(s: Bufs, t: Bufs) {
    forall k :: 0 <= k <= HEAD ==> Core(s[k]) == Core(t[k]) && s[k].refcnt == t[k].refcnt
  }

  /** Every buffer but b keeps its contents, its flags and its references. */
  ghost predicate OthersSame(s: Bufs, t: Bufs, b: nat) {
    forall k :: 0 <= k < NBUF && k != b ==> Core(s[k]) == Core(t[k]) && s[k].refcnt == t[k].refcnt
  }

  /** The neighbours of b are linked to each other; b's own links stay. */
  function Unlink(s: Bufs, b: nat): Bufs
    requires b <= HEAD && s[b].next <= HEAD && s[b].prev <= HEAD
  {
    var t := s[s[b].next := s[s[b].next].(prev := s[b].prev)];
    t[t[b].prev := t[t[b].prev].(next := t[b].next)]
  }

  /** b comes between the head and the node that was first. */
  function PushFront(s: Bufs, b: nat): Bufs
    requires b <= HEAD && s[HEAD].next <= HEAD
  {
    var t := s[b := s[b].(next := s[HEAD].next, prev := HEAD)];
    var u := t[t[HEAD].next := t[t[HEAD].next].(prev := b)];
    u[HEAD := u[HEAD].(next := b)]
  }

  function Without(c: seq<nat>, q: nat): (d: seq<nat>)
    requires q < |c|
    ensures |d| == |c| - 1
    ensures forall k :: 0 <= k < |d| ==> d[k] == if k < q then c[k] else c[k + 1]
  {
    c[..q] + c[q + 1..]
  }

  /** The cycle written out from the head back to the head. */
  function Cycle(order: seq<nat>): seq<nat> {
    [HEAD] + order + [HEAD]
  }

  lemma CycleDistinct(s: Bufs, order: seq<nat>, i: nat, j: nat)
    requires Ring(s, order) && i < j <= |order|
    ensures Cycle(order)[i] != Cycle(order)[j] && Cycle(order)[i + 1] != Cycle(order)[j + 1]
  {
  }

  lemma UnlinkFields(s: Bufs, order: seq<nat>, q: nat)
    requires Ring(s, order) && 1 <= q <= |order|
    ensures var c := Cycle(order);
            && s[c[q]].next == c[q + 1] && s[c[q]].prev == c[q - 1]
            && (var t := Unlink(s, c[q]);
                && (forall x :: 0 <= x <= HEAD ==> t[x].next == if x == c[q - 1] then c[q + 1] else s[x].next)
                && (forall x :: 0 <= x <= HEAD ==> t[x].prev == if x == c[q + 1] then c[q - 1] else s[x].prev)
                && SameCores(t, s))
  {
    var c := Cycle(order);
    assert LinkedAt(s, c, q - 1) && LinkedAt(s, c, q);
    CycleDistinct(s, order, q - 1, q);
  }

  lemma UnlinkAt(s: Bufs, order: seq<nat>, q: nat, k: nat)
    requires Ring(s, order) && 1 <= q <= |order| && k < |order|
    ensures var c := Cycle(order);
            && s[c[q]].next <= HEAD && s[c[q]].prev <= HEAD
            && Without(c, q)[k] <= HEAD && Without(c, q)[k + 1] <= HEAD
            && LinkedAt(Unlink(s, c[q]), Without(c, q), k)
  {
    var c := Cycle(order);
    UnlinkFields(s, order, q);
    if k < q - 1 {
      assert LinkedAt(s, c, k);
      CycleDistinct(s, order, k, q - 1);
      CycleDistinct(s, order, k, q);
    } else if k > q - 1 {
      assert LinkedAt(s, c, k + 1);
      CycleDistinct(s, order, q - 1, k + 1);
      CycleDistinct(s, order, q, k + 1);
    }
  }

  lemma CycleWithout(order: seq<nat>, p: nat)
    requires p < |order|
    ensures Cycle(Without(order, p)) == Without(Cycle(order), p + 1)
  {
  }

  lemma WithoutDistinct(order: seq<nat>, p: nat)
    requires p < |order| && Distinct(order)
    ensures Distinct(Without(order, p)) && order[p] !in Without(order, p)
  {
  }

  /** Unlinking takes exactly that descriptor out of the cycle. */
  lemma UnlinkRing(s: Bufs, order: seq<nat>, p: nat)
    requires Ring(s, order) && p < |order|
    ensures s[order[p]].next <= HEAD && s[order[p]].prev <= HEAD
    ensures Ring(Unlink(s, order[p]), Without(order, p))
    ensures SameCores(Unlink(s, order[p]), s)
  {
    UnlinkFields(s, order, p + 1);
    WithoutDistinct(order, p);
    UnlinkLinked(s, order, p);
  }

  lemma UnlinkLinked(s: Bufs, order: seq<nat>, p: nat)
    requires Ring(s, order) && p < |order|
    ensures s[order[p]].next <= HEAD && s[order[p]].prev <= HEAD
    ensures Linked(Unlink(s, order[p]), Cycle(Without(order, p)))
  {
    UnlinkFields(s, order, p + 1);
    var t := Unlink(s, order[p]);
    var d := Cycle(Without(order, p));
    CycleWithout(order, p);
    forall k | 0 <= k < |d| - 1 ensures LinkedAt(t, d, k) {
      UnlinkAt(s, order, p + 1, k);
    }
  }

  /** Pushing puts the descriptor first and keeps the rest in order. */
  lemma PushFrontRing(s: Bufs, order: seq<nat>, b: nat)
    requires Ring(s, order) && b < NBUF && b !in order
    ensures s[HEAD].next <= HEAD
    ensures Ring(PushFront(s, b), [b] + order)
    ensures SameCores(PushFront(s, b), s)
  {
    var c := Cycle(order);
    assert LinkedAt(s, c, 0);
    var d := Cycle([b] + order);
    var t := PushFront(s, b);
    forall k | 0 <= k < |d| - 1 ensures LinkedAt(t, d, k) {
      if k >= 2 {
        assert d[k] == c[k - 1] && d[k + 1] == c[k];
        assert LinkedAt(s, c, k - 1);
      }
    }
  }
}
