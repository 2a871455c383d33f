/** Files as byte sequences: what one block-sized step of writei does to every file. */
module FileBytes {
  import opened Blocks
  import opened FsBlocks
  import opened Wrappers

  const MAXBYTES: nat := 71680  // MAXFILE * BSIZE

  function BlocksFor(size: nat): nat {
    (size + 511) / 512
  }

  function Max(a: nat, b: nat): nat {
    if a < b then b else a
  }

  /** Byte o of file i, counting bytes past the end as they lie in the last block. */
  function ByteAt(fs: Fs, i: nat, o: nat): Byte
    requires i < |fs.inodes| && |fs.inodes[i].addrs| == NDIRECT + 1 && Ind(fs, i) < |fs.disk| && o < MAXBYTES
    requires Slot(fs, i, o / 512) < |fs.disk|
  {
    Content(fs, i, o / 512)[o % 512]
  }

  /** The file's contents. */
  ghost function Bytes(fs: Fs, sb: Super, i: nat): (s: seq<Byte>)
    requires WellFormed(fs, sb) && SlotsInRange(fs, sb) && i < |fs.inodes| && fs.inodes[i].size <= MAXBYTES
    ensures |s| == fs.inodes[i].size && forall o :: 0 <= o < |s| ==> s[o] == ByteAt(fs, i, o)
  {
    seq(fs.inodes[i].size, o requires 0 <= o < fs.inodes[i].size => ByteAt(fs, i, o))
  }

  /** File i has exactly its first nb blocks, and an indirect block if it needs one. */
  ghost predicate NoHoles(fs: Fs, sb: Super, i: nat, nb: nat)
    requires WellFormed(fs, sb) && i < |fs.inodes|
  {
    && (forall k :: 0 <= k < MAXFILE ==> (Slot(fs, i, k) != 0 <==> k < nb))
    && (Ind(fs, i) != 0 <==> nb > NDIRECT)
  }

  ghost predicate FilesOk(fs: Fs, sb: Super)
    requires WellFormed(fs, sb)
  {
    forall i :: 0 <= i < |fs.inodes| ==> fs.inodes[i].size <= MAXBYTES && NoHoles(fs, sb, i, BlocksFor(fs.inodes[i].size))
  }

  /** No pointer differs. */
  ghost predicate SameSlotsIn(v: Fs, w: Fs, sb: Super)
    requires WellFormed(v, sb) && WellFormed(w, sb) && |v.inodes| == |w.inodes|
  {
    forall i, k {:trigger Slot(w, i, k)} :: 0 <= i < |v.inodes| && 0 <= k < MAXFILE ==> Slot(w, i, k) == Slot(v, i, k)
  }

  function Patch(b: Block, at: nat, s: seq<Byte>): Block
    requires at + |s| <= 512
  {
    b[..at] + s + b[at + |s|..]
  }

  /** From v to w, writei has put the first tot bytes of src at off into file i. */
  ghost predicate Written(v: Fs, w: Fs, sb: Super, i: nat, src: seq<Byte>, off: nat, tot: nat)
    requires WellFormed(v, sb) && WellFormed(w, sb) && |v.inodes| == |w.inodes| && i < |v.inodes|
    requires SlotsInRange(v, sb) && SlotsInRange(w, sb)
  {
    && tot <= |src| && off + |src| <= MAXBYTES && off <= v.inodes[i].size <= MAXBYTES
    && NoHoles(w, sb, i, Max(BlocksFor(v.inodes[i].size), BlocksFor(off + tot)))
    && OthersKept(v, w, sb, i) && (off + tot <= v.inodes[i].size ==> w.inodes == v.inodes)
    && BytesPut(v, w, sb, i, src[..tot], off)
  }

  /** The other inodes and their pointers are as they were, and file i's size too. */
  ghost predicate OthersKept(v: Fs, w: Fs, sb: Super, i: nat)
    requires WellFormed(v, sb) && WellFormed(w, sb) && |v.inodes| == |w.inodes| && i < |v.inodes|
  {
    && w.inodes[i].size == v.inodes[i].size
    && (forall i' :: 0 <= i' < |v.inodes| && i' != i ==> w.inodes[i'] == v.inodes[i'])
    && (forall i', k :: 0 <= i' < |v.inodes| && i' != i && 0 <= k < MAXFILE ==> Slot(w, i', k) == Slot(v, i', k))
  }

  /** Of all bytes of all files, those of file i at off, off+1, ... are now s. */
  ghost predicate BytesPut(v: Fs, w: Fs, sb: Super, i: nat, s: seq<Byte>, off: nat)
    requires WellFormed(v, sb) && WellFormed(w, sb) && |v.inodes| == |w.inodes| && i < |v.inodes|
    requires SlotsInRange(v, sb) && SlotsInRange(w, sb)
  {
    forall i', o {:trigger ByteAt(w, i', o)} :: 0 <= i' < |v.inodes| && 0 <= o < MAXBYTES ==>
      ByteAt(w, i', o) == if i' == i && off <= o < off + |s| then s[o - off] else ByteAt(v, i', o)
  }

  /** bmap keeps it so, and lengthens the file by at most the block asked for. */
  ghost predicate Mapped(w0: Fs, w1: Fs, sb: Super, i: nat, k: nat)
    requires WellFormed(w0, sb) && WellFormed(w1, sb) && |w0.inodes| == |w1.inodes| && i < |w0.inodes| && k < MAXFILE
  {
    && GrownFrom(w0, w1, sb, i, k)
    && (Slot(w0, i, k) != 0 ==> w1 == w0)
    && Slot(w1, i, k) != 0 && (Ind(w1, i) != 0 <==> Ind(w0, i) != 0 || NDIRECT <= k)
  }

  lemma MappedShape(w0: Fs, w1: Fs, sb: Super, i: nat, k: nat, nb: nat)
    requires WellFormed(w0, sb) && WellFormed(w1, sb) && |w0.inodes| == |w1.inodes| && i < |w0.inodes| && k < MAXFILE
    requires Mapped(w0, w1, sb, i, k) && NoHoles(w0, sb, i, nb) && k <= nb
    ensures NoHoles(w1, sb, i, Max(nb, k + 1))
  {
  }

  lemma MappedBytes(w0: Fs, w1: Fs, sb: Super, i: nat, k: nat)
    requires WellFormed(w0, sb) && WellFormed(w1, sb) && |w0.inodes| == |w1.inodes| && i < |w0.inodes| && k < MAXFILE
    requires Mapped(w0, w1, sb, i, k)
    ensures forall i', o :: 0 <= i' < |w0.inodes| && 0 <= o < MAXBYTES ==> ByteAt(w1, i', o) == ByteAt(w0, i', o)
  {
    forall i', o | 0 <= i' < |w0.inodes| && 0 <= o < MAXBYTES ensures ByteAt(w1, i', o) == ByteAt(w0, i', o) {
      assert Slot(w1, i', o / 512) < |w1.disk|;
    }
  }

  /** Storing the patched block puts m bytes at position p and changes no other byte. */
  lemma StoredBytes(w1: Fs, sb: Super, owner: map<nat, Owner>, i: nat, p: nat, s: seq<Byte>)
    requires Owned(w1, sb, owner, {}, {}) && i < |w1.inodes| && p < MAXBYTES && Slot(w1, i, p / 512) != 0
    requires 0 < |s| && p % 512 + |s| <= 512
    ensures SlotsInRange(w1, sb) && p + |s| <= MAXBYTES
    ensures var w2 := WithBlock(w1, Slot(w1, i, p / 512), Patch(w1.disk[Slot(w1, i, p / 512)], p % 512, s));
            && WellFormed(w2, sb) && SlotsInRange(w2, sb) && w2.inodes == w1.inodes
            && BytesPut(w1, w2, sb, i, s, p)
            && SameSlotsIn(w1, w2, sb)
  {
    OwnedInRange(w1, sb, owner, {});
    var b := Slot(w1, i, p / 512);
    var data := Patch(w1.disk[b], p % 512, s);
    StoreKeeps(w1, sb, owner, i, p / 512, data);
    StoreContents(w1, sb, owner, i, p / 512, data);
    var w2 := WithBlock(w1, b, data);
    forall i', o | 0 <= i' < |w1.inodes| && 0 <= o < MAXBYTES
      ensures ByteAt(w2, i', o) == if i' == i && p <= o < p + |s| then s[o - p] else ByteAt(w1, i', o)
    {
      assert Content(w2, i', o / 512) == if i' == i && o / 512 == p / 512 then data else Content(w1, i', o / 512);
      if i' == i && o / 512 == p / 512 {
        assert o - p == o % 512 - p % 512;
      }
    }
  }

  /** One round of writei's loop, on values: bmap (w0 to w1), then m more bytes into that
      block (w1 to w2). */
  lemma WrittenStep(v: Fs, w0: Fs, w1: Fs, w2: Fs, sb: Super, i: nat, src: seq<Byte>, off: nat, tot: nat,
                    t: nat, p: nat, s: seq<Byte>)
    requires WellFormed(v, sb) && WellFormed(w0, sb) && WellFormed(w1, sb) && WellFormed(w2, sb)
    requires |v.inodes| == |w0.inodes| == |w1.inodes| == |w2.inodes| && i < |v.inodes|
    requires SlotsInRange(v, sb) && SlotsInRange(w0, sb) && SlotsInRange(w1, sb) && SlotsInRange(w2, sb)
    requires Written(v, w0, sb, i, src, off, tot)
    requires p == off + tot && tot < t <= |src| && s == src[tot..t] && p % 512 + |s| <= 512
    requires Mapped(w0, w1, sb, i, p / 512)
    requires w2.inodes == w1.inodes && BytesPut(w1, w2, sb, i, s, p) && SameSlotsIn(w1, w2, sb)
    ensures Written(v, w2, sb, i, src, off, t)
  {
    StepShape(v, w0, w1, w2, sb, i, off, tot, |s|);
    hide OthersKept, NoHoles, SameSlotsIn;
    MappedBytes(w0, w1, sb, i, p / 512);
    assert src[..t] == src[..tot] + s;
    PutTwice(v, w0, w1, w2, sb, i, src[..tot], s, off, p);
  }

  lemma StepShape(v: Fs, w0: Fs, w1: Fs, w2: Fs, sb: Super, i: nat, off: nat, tot: nat, m: nat)
    requires WellFormed(v, sb) && WellFormed(w0, sb) && WellFormed(w1, sb) && WellFormed(w2, sb)
    requires |v.inodes| == |w0.inodes| == |w1.inodes| == |w2.inodes| && i < |v.inodes|
    requires 0 < m && (off + tot) % 512 + m <= 512 && off + tot + m <= MAXBYTES
    requires off <= v.inodes[i].size && OthersKept(v, w0, sb, i)
    requires off + tot <= v.inodes[i].size ==> w0.inodes == v.inodes
    requires NoHoles(w0, sb, i, Max(BlocksFor(v.inodes[i].size), BlocksFor(off + tot)))
    requires Mapped(w0, w1, sb, i, (off + tot) / 512) && w2.inodes == w1.inodes
    requires SameSlotsIn(w1, w2, sb)
    ensures OthersKept(v, w2, sb, i) && (off + tot + m <= v.inodes[i].size ==> w2.inodes == v.inodes)
    ensures NoHoles(w2, sb, i, Max(BlocksFor(v.inodes[i].size), BlocksFor(off + tot + m)))
  {
    var k, nb := (off + tot) / 512, Max(BlocksFor(v.inodes[i].size), BlocksFor(off + tot));
    MappedShape(w0, w1, sb, i, k, nb);
    assert Max(nb, k + 1) == Max(BlocksFor(v.inodes[i].size), BlocksFor(off + tot + m));
    SlotsThroughStore(w1, w2, sb, i, Max(nb, k + 1));
  }

  lemma PutTwice(v: Fs, w0: Fs, w1: Fs, w2: Fs, sb: Super, i: nat, s: seq<Byte>, t: seq<Byte>, off: nat, p: nat)
    requires WellFormed(v, sb) && WellFormed(w0, sb) && WellFormed(w1, sb) && WellFormed(w2, sb)
    requires |v.inodes| == |w0.inodes| == |w1.inodes| == |w2.inodes| && i < |v.inodes|
    requires SlotsInRange(v, sb) && SlotsInRange(w0, sb) && SlotsInRange(w1, sb) && SlotsInRange(w2, sb)
    requires BytesPut(v, w0, sb, i, s, off) && p == off + |s| && BytesPut(w1, w2, sb, i, t, p)
    requires forall i', o :: 0 <= i' < |w0.inodes| && 0 <= o < MAXBYTES ==> ByteAt(w1, i', o) == ByteAt(w0, i', o)
    ensures BytesPut(v, w2, sb, i, s + t, off)
  {
  }

  lemma SlotsThroughStore(w1: Fs, w2: Fs, sb: Super, i: nat, nb: nat)
    requires WellFormed(w1, sb) && WellFormed(w2, sb) && w2.inodes == w1.inodes && i < |w1.inodes|
    requires SameSlotsIn(w1, w2, sb)
    requires NoHoles(w1, sb, i, nb)
    ensures NoHoles(w2, sb, i, nb)
  {
  }

  // ---- whole writes -----------------------------------------------------------------

  /** s with src over it from position off, lengthened if src reaches further. */
  function Spliced(s: seq<Byte>, off: nat, src: seq<Byte>): (r: seq<Byte>)
    requires off <= |s|
    ensures |r| == Max(|s|, off + |src|)
  {
    s[..off] + src + (if off + |src| < |s| then s[off + |src|..] else [])
  }

  function Resized(fs: Fs, i: nat, size: nat): (r: Fs)
    requires i < |fs.inodes|
    ensures r.disk == fs.disk && |r.inodes| == |fs.inodes|
  {
    Fs(fs.disk, fs.inodes[i := Inode(size, fs.inodes[i].addrs)])
  }

  /** Sizes do not matter to ownership. */
  lemma ResizeKeeps(fs: Fs, sb: Super, owner: map<nat, Owner>, i: nat, size: nat)
    requires Owned(fs, sb, owner, {}, {}) && i < |fs.inodes|
    ensures Owned(Resized(fs, i, size), sb, owner, {}, {})
    ensures SlotsInRange(fs, sb) && SlotsInRange(Resized(fs, i, size), sb) && SameSlotsIn(fs, Resized(fs, i, size), sb)
    ensures forall i' :: 0 <= i' < |fs.inodes| ==> Ind(Resized(fs, i, size), i') == Ind(fs, i')
  {
    var r := Resized(fs, i, size);
    OwnedInRange(fs, sb, owner, {});
    assert forall i' :: 0 <= i' < |fs.inodes| ==> Ind(r, i') == Ind(fs, i');
    assert SameSlotsIn(fs, r, sb);
    SameOwned(fs, r, sb, owner, {}, {});
  }

  /** What a successful writei means: file i is spliced, every other file is untouched. */
  ghost predicate Wrote(v: Fs, w: Fs, sb: Super, i: nat, src: seq<Byte>, off: nat)
    requires WellFormed(v, sb) && WellFormed(w, sb) && |v.inodes| == |w.inodes| && i < |v.inodes|
    requires SlotsInRange(v, sb) && SlotsInRange(w, sb) && FilesOk(v, sb) && FilesOk(w, sb)
    requires off <= v.inodes[i].size
  {
    && Bytes(w, sb, i) == Spliced(Bytes(v, sb, i), off, src)
    && forall i' :: 0 <= i' < |v.inodes| && i' != i ==> w.inodes[i'] == v.inodes[i'] && Bytes(w, sb, i') == Bytes(v, sb, i')
  }

  lemma WrittenMeansWrote(v: Fs, w: Fs, sb: Super, owner: map<nat, Owner>, i: nat, src: seq<Byte>, off: nat)
    requires WellFormed(v, sb) && Owned(w, sb, owner, {}, {}) && |v.inodes| == |w.inodes| && i < |v.inodes|
    requires SlotsInRange(v, sb) && SlotsInRange(w, sb) && FilesOk(v, sb)
    requires Written(v, w, sb, i, src, off, |src|)
    ensures var size := Max(v.inodes[i].size, off + |src|); var z := Resized(w, i, size);
            && WellFormed(z, sb) && SlotsInRange(z, sb) && FilesOk(z, sb) && Wrote(v, z, sb, i, src, off)
  {
    var size := Max(v.inodes[i].size, off + |src|);
    var z := Resized(w, i, size);
    ResizeKeeps(w, sb, owner, i, size);
    assert src[..|src|] == src;
    forall i', o | 0 <= i' < |v.inodes| && 0 <= o < MAXBYTES ensures ByteAt(z, i', o) == ByteAt(w, i', o) {
      assert Slot(z, i', o / 512) == Slot(w, i', o / 512);
    }
    ResizedFilesOk(v, w, sb, i, size);
    PutIsSplice(v, w, z, sb, i, src, off);
    forall i' | 0 <= i' < |v.inodes| && i' != i ensures Bytes(z, sb, i') == Bytes(v, sb, i') {
      assert z.inodes[i'] == w.inodes[i'] == v.inodes[i'];
    }
  }

  lemma PutIsSplice(v: Fs, w: Fs, z: Fs, sb: Super, i: nat, src: seq<Byte>, off: nat)
    requires WellFormed(v, sb) && WellFormed(w, sb) && WellFormed(z, sb) && |v.inodes| == |w.inodes| == |z.inodes| && i < |v.inodes|
    requires SlotsInRange(v, sb) && SlotsInRange(w, sb) && SlotsInRange(z, sb)
    requires off <= v.inodes[i].size <= MAXBYTES && z.inodes[i].size == Max(v.inodes[i].size, off + |src|) <= MAXBYTES
    requires BytesPut(v, w, sb, i, src, off)
    requires forall i', o :: 0 <= i' < |v.inodes| && 0 <= o < MAXBYTES ==> ByteAt(z, i', o) == ByteAt(w, i', o)
    ensures Bytes(z, sb, i) == Spliced(Bytes(v, sb, i), off, src)
  {
    var a, b := Bytes(z, sb, i), Spliced(Bytes(v, sb, i), off, src);
    forall o | 0 <= o < |a| ensures a[o] == b[o] {
      assert a[o] == ByteAt(z, i, o) == ByteAt(w, i, o);
    }
  }

  lemma ResizedFilesOk(v: Fs, w: Fs, sb: Super, i: nat, size: nat)
    requires WellFormed(v, sb) && WellFormed(w, sb) && |v.inodes| == |w.inodes| && i < |v.inodes|
    requires FilesOk(v, sb) && OthersKept(v, w, sb, i) && size <= MAXBYTES && NoHoles(w, sb, i, BlocksFor(size))
    requires WellFormed(Resized(w, i, size), sb) && SameSlotsIn(w, Resized(w, i, size), sb)
    requires forall i' :: 0 <= i' < |w.inodes| ==> Ind(Resized(w, i, size), i') == Ind(w, i')
    ensures FilesOk(Resized(w, i, size), sb)
  {
    var z := Resized(w, i, size);
    forall i' | 0 <= i' < |v.inodes| ensures z.inodes[i'].size <= MAXBYTES && NoHoles(z, sb, i', BlocksFor(z.inodes[i'].size)) {
      if i' != i {
        assert z.inodes[i'] == v.inodes[i'] && NoHoles(v, sb, i', BlocksFor(v.inodes[i'].size));
        assert Ind(w, i') == Ind(v, i');
      }
    }
  }
}
