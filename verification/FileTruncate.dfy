/** itrunc on values: the blocks of one file are freed one by one. */
module FileTruncate {
  import opened FsBlocks
  import opened FileBytes

  /** Blocks above the metadata are as they were. */
  ghost predicate OnlyBitmap(v: Fs, w: Fs, sb: Super) {
    |w.disk| == |v.disk| && forall b :: sb.nmeta <= b < |v.disk| ==> w.disk[b] == v.disk[b]
  }

  /** Since v, file i has lost its first n pointers and the blocks they led to. */
  ghost predicate DirectFreed(v: Fs, w: Fs, sb: Super, owner: map<nat, Owner>, i: nat, n: nat) {
    && WellFormed(v, sb) && Owned(w, sb, owner, {}, {}) && OnlyBitmap(v, w, sb)
    && |w.inodes| == |v.inodes| && i < |v.inodes| && w.inodes[i].size == v.inodes[i].size
    && (forall i' :: 0 <= i' < |v.inodes| && i' != i ==> w.inodes[i'] == v.inodes[i'])
    && (forall i', k :: 0 <= i' < |v.inodes| && 0 <= k < MAXFILE ==>
          Slot(w, i', k) == if i' == i && k < n then 0 else Slot(v, i', k))
  }

  /** Since v, the blocks of file i's indirect entries below n are freed; the entries stay. */
  ghost predicate EntriesFreed(v: Fs, w: Fs, sb: Super, owner: map<nat, Owner>, dangling: set<Owner>, i: nat, n: nat) {
    && WellFormed(v, sb) && Owned(w, sb, owner, dangling, {}) && OnlyBitmap(v, w, sb)
    && w.inodes == v.inodes && i < |v.inodes| && n <= MAXFILE
    && (forall i', k :: 0 <= i' < |v.inodes| && 0 <= k < MAXFILE ==> Slot(w, i', k) == Slot(v, i', k))
    && (forall o :: o in dangling ==> o.Data? && o.inum == i && NDIRECT <= o.k < n)
    && (forall k :: NDIRECT <= k < n && Slot(w, i, k) != 0 ==> Data(i, k) in dangling)
  }

  /** bfree writes one bitmap block. */
  lemma ClearedBitmap(v: Fs, w: Fs, sb: Super, b: nat)
    requires WellFormed(w, sb) && OnlyBitmap(v, w, sb) && b < sb.size
    ensures OnlyBitmap(v, Cleared(w, sb, b), sb)
  {
    assert BBlock(sb, b) < sb.nmeta;
  }

  lemma DirectStep(v: Fs, w: Fs, sb: Super, owner: map<nat, Owner>, i: nat, n: nat)
    requires DirectFreed(v, w, sb, owner, i, n) && n < NDIRECT && Slot(w, i, n) != 0
    ensures var b := Slot(w, i, n);
            && b < sb.size && Used(w, sb, b)
            && DirectFreed(v, WithSlot(Cleared(w, sb, b), i, n, 0), sb, owner - {b}, i, n + 1)
            && Owned(WithSlot(Cleared(w, sb, b), i, n, 0), sb, owner - {b}, {}, {})
  {
    var b := Slot(w, i, n);
    ClearKeeps(w, sb, owner, {}, i, n);
    ClearedBitmap(v, w, sb, b);
    var c := Cleared(w, sb, b);
    UnlinkKeeps(c, sb, owner - {b}, {} + {Data(i, n)}, i, n);
    assert {} + {Data(i, n)} - {Data(i, n)} == {};
    var r := WithSlot(c, i, n, 0);
    forall i', k | 0 <= i' < |v.inodes| && 0 <= k < MAXFILE
      ensures Slot(r, i', k) == if i' == i && k < n + 1 then 0 else Slot(v, i', k)
    {
      assert Slot(c, i', k) == Slot(w, i', k);
    }
  }

  lemma EntryStep(v: Fs, w: Fs, sb: Super, owner: map<nat, Owner>, dangling: set<Owner>, i: nat, n: nat)
    requires EntriesFreed(v, w, sb, owner, dangling, i, n) && NDIRECT <= n < MAXFILE && Slot(w, i, n) != 0
    ensures var b := Slot(w, i, n);
            && b < sb.size && Used(w, sb, b)
            && EntriesFreed(v, Cleared(w, sb, b), sb, owner - {b}, dangling + {Data(i, n)}, i, n + 1)
  {
    var b := Slot(w, i, n);
    ClearKeeps(w, sb, owner, dangling, i, n);
    ClearedBitmap(v, w, sb, b);
    var c := Cleared(w, sb, b);
    forall i', k | 0 <= i' < |v.inodes| && 0 <= k < MAXFILE ensures Slot(c, i', k) == Slot(v, i', k) {
      assert Slot(w, i', k) == Slot(v, i', k);
    }
  }

  /** The entries all freed, the indirect block goes. */
  lemma LastStep(v: Fs, w: Fs, sb: Super, owner: map<nat, Owner>, dangling: set<Owner>, i: nat)
    requires EntriesFreed(v, w, sb, owner, dangling, i, MAXFILE) && Ind(w, i) != 0
    requires forall k :: 0 <= k < NDIRECT ==> Slot(v, i, k) == 0
    ensures var b := Ind(w, i);
            && b < sb.size && Used(w, sb, b)
            && DirectFreed(v, WithAddr(Cleared(w, sb, b), i, NDIRECT, 0), sb, owner - {b}, i, MAXFILE)
  {
    var b := Ind(w, i);
    FreeIndKeeps(w, sb, owner, dangling, i);
    ClearedBitmap(v, w, sb, b);
    var r := WithAddr(Cleared(w, sb, b), i, NDIRECT, 0);
    forall i', k | 0 <= i' < |v.inodes| && 0 <= k < MAXFILE
      ensures Slot(r, i', k) == if i' == i && k < MAXFILE then 0 else Slot(v, i', k)
    {
      assert Slot(w, i', k) == Slot(v, i', k);
    }
  }

  lemma NoEntries(m: Fs, sb: Super, owner: map<nat, Owner>, i: nat)
    requires Owned(m, sb, owner, {}, {}) && i < |m.inodes| && Ind(m, i) == 0
    requires forall k :: 0 <= k < NDIRECT ==> Slot(m, i, k) == 0
    ensures DirectFreed(m, m, sb, owner, i, MAXFILE)
  {
  }

  /** First the direct blocks, then the rest. */
  lemma ThenEntries(v: Fs, m: Fs, w: Fs, sb: Super, o0: map<nat, Owner>, owner: map<nat, Owner>, i: nat)
    requires DirectFreed(v, m, sb, o0, i, NDIRECT) && DirectFreed(m, w, sb, owner, i, MAXFILE)
    ensures DirectFreed(v, w, sb, owner, i, MAXFILE)
  {
    forall i', k | 0 <= i' < |v.inodes| && 0 <= k < MAXFILE
      ensures Slot(w, i', k) == if i' == i && k < MAXFILE then 0 else Slot(v, i', k)
    {
      assert Slot(m, i', k) == if i' == i && k < NDIRECT then 0 else Slot(v, i', k);
    }
  }

  ghost predicate HasBlock(v: Fs, sb: Super, i: nat, b: nat)
    requires WellFormed(v, sb) && i < |v.inodes|
  {
    Ind(v, i) == b || exists k :: 0 <= k < MAXFILE && Slot(v, i, k) == b
  }

  /** What itrunc means: the file is empty, exactly its blocks are free again, and every
      other file is untouched. */
  ghost predicate Truncated(v: Fs, w: Fs, sb: Super, i: nat)
    requires WellFormed(v, sb) && WellFormed(w, sb) && |v.inodes| == |w.inodes| && i < |v.inodes|
    requires SlotsInRange(v, sb) && SlotsInRange(w, sb) && FilesOk(v, sb) && FilesOk(w, sb)
  {
    && w.inodes[i].size == 0
    && (forall i' :: 0 <= i' < |v.inodes| && i' != i ==> w.inodes[i'] == v.inodes[i'] && Bytes(w, sb, i') == Bytes(v, sb, i'))
    && (forall b :: sb.nmeta <= b < sb.size ==> (Used(w, sb, b) <==> Used(v, sb, b) && !HasBlock(v, sb, i, b)))
  }

  /** All pointers gone, the size is set to 0. */
  lemma FreedMeansTruncated(v: Fs, w: Fs, sb: Super, o0: map<nat, Owner>, owner: map<nat, Owner>, i: nat)
    requires Owned(v, sb, o0, {}, {}) && FilesOk(v, sb)
    requires DirectFreed(v, w, sb, owner, i, MAXFILE) && Ind(w, i) == 0
    ensures var z := Resized(w, i, 0);
            && Owned(z, sb, owner, {}, {}) && SlotsInRange(v, sb) && SlotsInRange(z, sb) && FilesOk(z, sb)
            && Truncated(v, z, sb, i)
  {
    var z := Resized(w, i, 0);
    ResizeKeeps(w, sb, owner, i, 0);
    OwnedInRange(v, sb, o0, {});
    FreedFilesOk(v, w, sb, owner, i);
    forall i' | 0 <= i' < |v.inodes| && i' != i ensures Bytes(z, sb, i') == Bytes(v, sb, i') {
      SameBytes(v, w, sb, o0, owner, i, i');
    }
    forall b | sb.nmeta <= b < sb.size ensures Used(z, sb, b) <==> Used(v, sb, b) && !HasBlock(v, sb, i, b) {
      FreedExactly(v, w, sb, o0, owner, i, b);
    }
  }

  lemma FreedFilesOk(v: Fs, w: Fs, sb: Super, owner: map<nat, Owner>, i: nat)
    requires WellFormed(v, sb) && FilesOk(v, sb) && DirectFreed(v, w, sb, owner, i, MAXFILE) && Ind(w, i) == 0
    ensures WellFormed(Resized(w, i, 0), sb) && FilesOk(Resized(w, i, 0), sb)
  {
    var z := Resized(w, i, 0);
    ResizeKeeps(w, sb, owner, i, 0);
    forall i' | 0 <= i' < |v.inodes| ensures z.inodes[i'].size <= MAXBYTES && NoHoles(z, sb, i', BlocksFor(z.inodes[i'].size)) {
      assert forall k :: 0 <= k < MAXFILE ==> Slot(z, i', k) == Slot(w, i', k);
      if i' != i {
        assert z.inodes[i'] == v.inodes[i'] && NoHoles(v, sb, i', BlocksFor(v.inodes[i'].size));
      }
    }
  }

  lemma SameBytes(v: Fs, w: Fs, sb: Super, o0: map<nat, Owner>, owner: map<nat, Owner>, i: nat, i': nat)
    requires Owned(v, sb, o0, {}, {}) && FilesOk(v, sb) && SlotsInRange(v, sb)
    requires DirectFreed(v, w, sb, owner, i, MAXFILE) && i' < |v.inodes| && i' != i
    ensures var z := Resized(w, i, 0);
            && WellFormed(z, sb) && SlotsInRange(z, sb) && z.inodes[i'].size <= MAXBYTES
            && Bytes(z, sb, i') == Bytes(v, sb, i')
  {
    var z := Resized(w, i, 0);
    ResizeKeeps(w, sb, owner, i, 0);
    assert z.inodes[i'] == v.inodes[i'];
    forall o | 0 <= o < v.inodes[i'].size ensures ByteAt(z, i', o) == ByteAt(v, i', o) {
      assert Slot(z, i', o / 512) == Slot(w, i', o / 512) == Slot(v, i', o / 512);
      if Slot(v, i', o / 512) != 0 {
        SlotPlace(v, sb, o0, {}, {}, i', o / 512);
      }
    }
  }

  lemma FreedExactly(v: Fs, w: Fs, sb: Super, o0: map<nat, Owner>, owner: map<nat, Owner>, i: nat, b: nat)
    requires Owned(v, sb, o0, {}, {}) && DirectFreed(v, w, sb, owner, i, MAXFILE) && Ind(w, i) == 0
    requires sb.nmeta <= b < sb.size
    ensures Used(w, sb, b) <==> Used(v, sb, b) && !HasBlock(v, sb, i, b)
  {
    UsedIffPointedTo(v, sb, o0, b);
    UsedIffPointedTo(w, sb, owner, b);
    PointersDiffer(v, sb, o0);
    hide Owned, Slot, Ind, Used;
    if PointedTo(w, sb, b) {
      StillPointed(v, w, sb, owner, i, b);
    }
    if PointedTo(v, sb, b) && !HasBlock(v, sb, i, b) {
      if i', k :| 0 <= i' < |v.inodes| && 0 <= k < MAXFILE && Slot(v, i', k) == b {
        assert Slot(w, i', k) == b;
      } else {
        var i' :| 0 <= i' < |v.inodes| && Ind(v, i') == b;
        assert Ind(w, i') == b;
      }
    }
  }

  lemma StillPointed(v: Fs, w: Fs, sb: Super, owner: map<nat, Owner>, i: nat, b: nat)
    requires DirectFreed(v, w, sb, owner, i, MAXFILE) && Ind(w, i) == 0 && b != 0 && PointedTo(w, sb, b)
    ensures (exists i', k :: 0 <= i' < |v.inodes| && i' != i && 0 <= k < MAXFILE && Slot(v, i', k) == b)
            || (exists i' :: 0 <= i' < |v.inodes| && i' != i && Ind(v, i') == b)
  {
    if i', k :| 0 <= i' < |w.inodes| && 0 <= k < MAXFILE && Slot(w, i', k) == b {
      assert i' != i && Slot(v, i', k) == b;
    } else {
      var i' :| 0 <= i' < |w.inodes| && Ind(w, i') == b;
      assert i' != i && Ind(v, i') == b;
    }
  }
}
