/** Who owns which disk block: the free map, the inodes' block pointers and the indirect
    blocks of fs.c, as one value, with the invariant that ties them together. */
module FsBlocks {
  import opened Blocks
  import opened Wrappers

  const NDIRECT: nat := 12
  const NINDIRECT: nat := 128
  const MAXFILE: nat := 140

  /** From the superblock: blocks below nmeta hold the log, the inodes and the free map. */
  datatype Super = Super(size: nat, nmeta: nat, bmapstart: nat, inodestart: nat)

  /** sizeof(struct dinode) is 64, so IPB is 8. */
  function IBlock(sb: Super, inum: nat): nat {
    inum / 8 + sb.inodestart
  }

  function BBlock(sb: Super, b: nat): nat {
    b / BITS_PER_BLOCK + sb.bmapstart
  }

  ghost predicate SuperOk(sb: Super, diskSize: nat, ninodes: nat) {
    && 0 < sb.nmeta <= sb.size <= diskSize < TWO_32
    && (forall b :: 0 <= b < sb.size ==> 0 < BBlock(sb, b) && BBlock(sb, b) < sb.nmeta)
    && (forall i :: 0 <= i < ninodes ==> 0 < IBlock(sb, i) && IBlock(sb, i) < sb.nmeta)
  }

  datatype Inode = Inode(size: nat, addrs: seq<nat>)

  /** The blocks as seen through the log, and the inodes. */
  datatype Fs = Fs(disk: seq<Block>, inodes: seq<Inode>)

  datatype Owner = Meta | Data(inum: nat, k: nat) | Indirect(inum: nat)

  ghost predicate WellFormed(fs: Fs, sb: Super) {
    && SuperOk(sb, |fs.disk|, |fs.inodes|)
    && forall i :: 0 <= i < |fs.inodes| ==> |fs.inodes[i].addrs| == NDIRECT + 1 && fs.inodes[i].addrs[NDIRECT] < |fs.disk|
  }

  function Ind(fs: Fs, i: nat): nat
    requires i < |fs.inodes| && |fs.inodes[i].addrs| == NDIRECT + 1
  {
    fs.inodes[i].addrs[NDIRECT]
  }

  /** The address of block k of file i, 0 if it has none. */
  function Slot(fs: Fs, i: nat, k: nat): nat
    requires i < |fs.inodes| && |fs.inodes[i].addrs| == NDIRECT + 1 && Ind(fs, i) < |fs.disk| && k < MAXFILE
  {
    if k < NDIRECT then fs.inodes[i].addrs[k]
    else if Ind(fs, i) == 0 then 0
    else Word(fs.disk[Ind(fs, i)], k - NDIRECT)
  }

  predicate Used(fs: Fs, sb: Super, b: nat)
    requires BBlock(sb, b) < |fs.disk|
  {
    Bit(fs.disk[BBlock(sb, b)], b % BITS_PER_BLOCK)
  }

  /** No block is free. */
  ghost predicate AllUsed(fs: Fs, sb: Super) {
    SuperOk(sb, |fs.disk|, |fs.inodes|) && forall b {:trigger Used(fs, sb, b)} :: 0 <= b < sb.size ==> Used(fs, sb, b)
  }

  /** Every pointer leads to a block whose owner is that pointer, every owned block is
      pointed to by its owner, and the free map marks exactly the owned blocks.  In the
      middle of an operation, `loose` blocks are marked but not pointed to yet, and the
      `dangling` data pointers lead to blocks already freed. */
  ghost predicate Owned(fs: Fs, sb: Super, owner: map<nat, Owner>, dangling: set<Owner>, loose: set<nat>) {
    && WellFormed(fs, sb)
    && SlotsOwned(fs, sb, owner, dangling)
    && IndsOwned(fs, sb, owner)
    && OwnersPoint(fs, sb, owner)
    && (forall b :: 0 <= b < sb.size ==> (Used(fs, sb, b) <==> b in owner || b in loose))
    && (forall b :: 0 <= b < sb.nmeta ==> b in owner && owner[b] == Meta)
    && (forall b :: b in loose ==> b !in owner)
    && (forall b {:trigger owner[b]} :: b in owner ==> owner[b] !in dangling)
    && (forall o :: o in dangling ==> o.Data?)
  }

  ghost predicate SlotsOwned(fs: Fs, sb: Super, owner: map<nat, Owner>, dangling: set<Owner>)
    requires WellFormed(fs, sb)
  {
    forall i, k {:trigger Slot(fs, i, k)} ::
      0 <= i < |fs.inodes| && 0 <= k < MAXFILE && Slot(fs, i, k) != 0 && Data(i, k) !in dangling
      ==> Slot(fs, i, k) in owner && owner[Slot(fs, i, k)] == Data(i, k)
  }

  ghost predicate IndsOwned(fs: Fs, sb: Super, owner: map<nat, Owner>)
    requires WellFormed(fs, sb)
  {
    forall i {:trigger Ind(fs, i)} :: 0 <= i < |fs.inodes| && Ind(fs, i) != 0 ==>
      Ind(fs, i) in owner && owner[Ind(fs, i)] == Indirect(i)
  }

  ghost predicate OwnersPoint(fs: Fs, sb: Super, owner: map<nat, Owner>)
    requires WellFormed(fs, sb)
  {
    forall b {:trigger owner[b]} :: b in owner ==> b < sb.size && PointsTo(fs, sb, owner[b], b)
  }

  ghost predicate PointsTo(fs: Fs, sb: Super, o: Owner, b: nat)
    requires WellFormed(fs, sb)
  {
    match o
    case Meta => b < sb.nmeta
    case Data(i, k) => sb.nmeta <= b && i < |fs.inodes| && k < MAXFILE && Slot(fs, i, k) == b
    case Indirect(i) => sb.nmeta <= b && i < |fs.inodes| && Ind(fs, i) == b
  }

  /** Only blocks in l differ. */
  ghost predicate Confined(d0: seq<Block>, d: seq<Block>, l: set<nat>) {
    |d| == |d0| && forall b {:trigger d[b]} :: 0 <= b < |d| && b !in l ==> d[b] == d0[b]
  }

  // ---- the block map's elementary changes --------------------------------------

  /** balloc of block b: its bit is set and it is zeroed. */
  function Marked(fs: Fs, sb: Super, b: nat): (r: Fs)
    requires b < |fs.disk| && BBlock(sb, b) < |fs.disk|
    ensures |r.disk| == |fs.disk| && r.inodes == fs.inodes
  {
    var m := BBlock(sb, b);
    Fs(fs.disk[m := PutBit(fs.disk[m], b % BITS_PER_BLOCK, true)][b := ZeroBlock()], fs.inodes)
  }

  /** bfree of block b. */
  function Cleared(fs: Fs, sb: Super, b: nat): (r: Fs)
    requires BBlock(sb, b) < |fs.disk|
    ensures |r.disk| == |fs.disk| && r.inodes == fs.inodes
  {
    var m := BBlock(sb, b);
    Fs(fs.disk[m := PutBit(fs.disk[m], b % BITS_PER_BLOCK, false)], fs.inodes)
  }

  function WithAddr(fs: Fs, i: nat, k: nat, b: nat): (r: Fs)
    requires i < |fs.inodes| && k < |fs.inodes[i].addrs|
    ensures r.disk == fs.disk && |r.inodes| == |fs.inodes|
  {
    Fs(fs.disk, fs.inodes[i := Inode(fs.inodes[i].size, fs.inodes[i].addrs[k := b])])
  }

  function WithBlock(fs: Fs, b: nat, data: Block): (r: Fs)
    requires b < |fs.disk|
    ensures r.inodes == fs.inodes && |r.disk| == |fs.disk|
  {
    Fs(fs.disk[b := data], fs.inodes)
  }

  /** The pointer to block k of file i set to b. */
  function WithSlot(fs: Fs, i: nat, k: nat, b: nat): (r: Fs)
    requires i < |fs.inodes| && |fs.inodes[i].addrs| == NDIRECT + 1 && Ind(fs, i) < |fs.disk| && k < MAXFILE && b < TWO_32
    ensures |r.disk| == |fs.disk| && |r.inodes| == |fs.inodes|
  {
    if k < NDIRECT then WithAddr(fs, i, k, b)
    else WithBlock(fs, Ind(fs, i), PutWord(fs.disk[Ind(fs, i)], k - NDIRECT, b))
  }

  // ---- reading the invariant -----------------------------------------------------

  /** No two pointers lead to the same block. */
  lemma PointersDiffer(fs: Fs, sb: Super, owner: map<nat, Owner>)
    requires Owned(fs, sb, owner, {}, {})
    ensures forall i, k, i', k' ::
      0 <= i < |fs.inodes| && 0 <= i' < |fs.inodes| && 0 <= k < MAXFILE && 0 <= k' < MAXFILE
      ==> Slot(fs, i, k) == Slot(fs, i', k') && Slot(fs, i, k) != 0 ==> i == i' && k == k'
    ensures forall i, i', k' ::
      0 <= i < |fs.inodes| && 0 <= i' < |fs.inodes| && 0 <= k' < MAXFILE && Ind(fs, i) != 0
      ==> Ind(fs, i) != Slot(fs, i', k')
    ensures forall i, i' :: 0 <= i < i' < |fs.inodes| && Ind(fs, i) != 0 ==> Ind(fs, i) != Ind(fs, i')
  {
  }

  ghost predicate PointedTo(fs: Fs, sb: Super, b: nat)
    requires WellFormed(fs, sb)
  {
    || (exists i, k :: 0 <= i < |fs.inodes| && 0 <= k < MAXFILE && Slot(fs, i, k) == b)
    || (exists i :: 0 <= i < |fs.inodes| && Ind(fs, i) == b)
  }

  /** A block's bit is set exactly when the block is metadata or some pointer leads to it. */
  lemma UsedIffPointedTo(fs: Fs, sb: Super, owner: map<nat, Owner>, b: nat)
    requires Owned(fs, sb, owner, {}, {}) && b < sb.size
    ensures Used(fs, sb, b) <==> b < sb.nmeta || PointedTo(fs, sb, b)
  {
    if b in owner {
      match owner[b] {
        case Meta =>
        case Data(i, k) => assert Slot(fs, i, k) == b;
        case Indirect(i) => assert Ind(fs, i) == b;
      }
    }
    if PointedTo(fs, sb, b) && sb.nmeta <= b {
      assert b in owner;
    }
  }

  // ---- allocation ----------------------------------------------------------------

  /** Indirect blocks are neither metadata nor loose, and differ from one another. */
  lemma IndPlace(fs: Fs, sb: Super, owner: map<nat, Owner>, dangling: set<Owner>, loose: set<nat>, i: nat)
    requires Owned(fs, sb, owner, dangling, loose) && i < |fs.inodes| && Ind(fs, i) != 0
    ensures sb.nmeta <= Ind(fs, i) < sb.size && Used(fs, sb, Ind(fs, i)) && Ind(fs, i) in owner
    ensures owner[Ind(fs, i)] == Indirect(i)
    ensures forall i' :: 0 <= i' < |fs.inodes| && i' != i ==> Ind(fs, i') != Ind(fs, i)
  {
    assert owner[Ind(fs, i)] == Indirect(i);
  }

  lemma BitmapAfter(fs: Fs, sb: Super, b: nat, on: bool, x: nat)
    requires WellFormed(fs, sb) && b < sb.size && x < sb.size
    ensures var m := BBlock(sb, b);
            var d := fs.disk[m := PutBit(fs.disk[m], b % BITS_PER_BLOCK, on)];
            Used(Fs(d, fs.inodes), sb, x) == if x == b then on else Used(fs, sb, x)
  {
    if BBlock(sb, x) == BBlock(sb, b) {
      BitAfterPut(fs.disk[BBlock(sb, b)], b % BITS_PER_BLOCK, on, x % BITS_PER_BLOCK);
      assert x % BITS_PER_BLOCK == b % BITS_PER_BLOCK ==> x == b;
    }
  }

  /** Pointers depend on the inodes and the indirect blocks only. */
  lemma SameSlots(fs: Fs, r: Fs, sb: Super)
    requires WellFormed(fs, sb) && r.inodes == fs.inodes && |r.disk| == |fs.disk|
    requires forall i :: 0 <= i < |fs.inodes| && Ind(fs, i) != 0 ==> r.disk[Ind(fs, i)] == fs.disk[Ind(fs, i)]
    ensures WellFormed(r, sb)
    ensures forall i, k :: 0 <= i < |fs.inodes| && 0 <= k < MAXFILE ==> Slot(r, i, k) == Slot(fs, i, k)
  {
  }

  lemma SameOwned(fs: Fs, r: Fs, sb: Super, owner: map<nat, Owner>, dangling: set<Owner>, loose: set<nat>)
    requires WellFormed(fs, sb) && WellFormed(r, sb) && |r.inodes| == |fs.inodes|
    requires forall i :: 0 <= i < |fs.inodes| ==> Ind(r, i) == Ind(fs, i)
    requires forall i, k :: 0 <= i < |fs.inodes| && 0 <= k < MAXFILE ==> Slot(r, i, k) == Slot(fs, i, k)
    requires SlotsOwned(fs, sb, owner, dangling) && IndsOwned(fs, sb, owner) && OwnersPoint(fs, sb, owner)
    ensures SlotsOwned(r, sb, owner, dangling) && IndsOwned(r, sb, owner) && OwnersPoint(r, sb, owner)
  {
    forall b | b in owner ensures b < sb.size && PointsTo(r, sb, owner[b], b) {
      assert PointsTo(fs, sb, owner[b], b);
    }
  }

  /** balloc: the block was free; now it is marked, zeroed and loose. */
  lemma MarkKeeps(fs: Fs, sb: Super, owner: map<nat, Owner>, dangling: set<Owner>, loose: set<nat>, b: nat)
    requires Owned(fs, sb, owner, dangling, loose) && b < sb.size && !Used(fs, sb, b)
    ensures sb.nmeta <= b
    ensures Owned(Marked(fs, sb, b), sb, owner, dangling, loose + {b})
    ensures forall i, k :: 0 <= i < |fs.inodes| && 0 <= k < MAXFILE ==> Slot(Marked(fs, sb, b), i, k) == Slot(fs, i, k)
  {
    var r := Marked(fs, sb, b);
    forall x | 0 <= x < sb.size ensures Used(r, sb, x) == (x == b || Used(fs, sb, x)) {
      BitmapAfter(fs, sb, b, true, x);
    }
    forall i | 0 <= i < |fs.inodes| && Ind(fs, i) != 0 ensures r.disk[Ind(fs, i)] == fs.disk[Ind(fs, i)] {
      IndPlace(fs, sb, owner, dangling, loose, i);
    }
    SameSlots(fs, r, sb);
    SameOwned(fs, r, sb, owner, dangling, loose);
  }

  /** One slot changes, and nothing else. */
  lemma WithSlotEffect(fs: Fs, sb: Super, owner: map<nat, Owner>, dangling: set<Owner>, loose: set<nat>,
                       i: nat, k: nat, b: nat)
    requires Owned(fs, sb, owner, dangling, loose) && i < |fs.inodes| && k < MAXFILE && b < TWO_32
    requires k >= NDIRECT ==> Ind(fs, i) != 0
    ensures var r := WithSlot(fs, i, k, b);
            && WellFormed(r, sb)
            && (forall i', k' :: 0 <= i' < |fs.inodes| && 0 <= k' < MAXFILE ==>
                  Slot(r, i', k') == if i' == i && k' == k then b else Slot(fs, i', k'))
            && (forall i' :: 0 <= i' < |fs.inodes| ==> Ind(r, i') == Ind(fs, i'))
            && (forall x :: 0 <= x < sb.size ==> Used(r, sb, x) == Used(fs, sb, x))
  {
    var r := WithSlot(fs, i, k, b);
    if k >= NDIRECT {
      IndPlace(fs, sb, owner, dangling, loose, i);
    }
    forall i', k' | 0 <= i' < |fs.inodes| && 0 <= k' < MAXFILE
      ensures Slot(r, i', k') == if i' == i && k' == k then b else Slot(fs, i', k')
    {
      if k >= NDIRECT && k' >= NDIRECT && i' == i {
        WordAfterPut(fs.disk[Ind(fs, i)], k - NDIRECT, b, k' - NDIRECT);
      }
    }
  }

  /** A loose block gets its pointer. */
  lemma LinkKeeps(fs: Fs, sb: Super, owner: map<nat, Owner>, dangling: set<Owner>, loose: set<nat>,
                  i: nat, k: nat, b: nat)
    requires Owned(fs, sb, owner, dangling, loose) && i < |fs.inodes| && k < MAXFILE && b in loose && b < sb.size
    requires k >= NDIRECT ==> Ind(fs, i) != 0
    requires Slot(fs, i, k) == 0
    ensures Owned(WithSlot(fs, i, k, b), sb, owner[b := Data(i, k)], dangling - {Data(i, k)}, loose - {b})
  {
    WithSlotEffect(fs, sb, owner, dangling, loose, i, k, b);
    LinkPoints(fs, sb, owner, dangling, loose, i, k, b);
    hide OwnersPoint, WithSlot, Slot, Ind, Used, WellFormed;
  }

  lemma LinkPoints(fs: Fs, sb: Super, owner: map<nat, Owner>, dangling: set<Owner>, loose: set<nat>,
                   i: nat, k: nat, b: nat)
    requires Owned(fs, sb, owner, dangling, loose) && i < |fs.inodes| && k < MAXFILE && b in loose && b < sb.size
    requires k >= NDIRECT ==> Ind(fs, i) != 0
    requires Slot(fs, i, k) == 0
    ensures WellFormed(WithSlot(fs, i, k, b), sb) && OwnersPoint(WithSlot(fs, i, k, b), sb, owner[b := Data(i, k)])
  {
    var r, o := WithSlot(fs, i, k, b), owner[b := Data(i, k)];
    WithSlotEffect(fs, sb, owner, dangling, loose, i, k, b);
    hide SlotsOwned, IndsOwned, Used, WithSlot;
    forall x | x in o ensures x < sb.size && PointsTo(r, sb, o[x], x) {
      if x != b {
        assert PointsTo(fs, sb, owner[x], x);
      }
    }
  }

  lemma ZeroWords(k: nat)
    requires k < WORDS_PER_BLOCK
    ensures Word(ZeroBlock(), k) == 0
  {
    var z := ZeroBlock();
    assert z[4 * k] == 0 && z[4 * k + 1] == 0 && z[4 * k + 2] == 0 && z[4 * k + 3] == 0;
  }

  /** A loose, still zeroed block becomes a file's indirect block. */
  lemma LinkIndKeeps(fs: Fs, sb: Super, owner: map<nat, Owner>, dangling: set<Owner>, loose: set<nat>, i: nat, b: nat)
    requires Owned(fs, sb, owner, dangling, loose) && i < |fs.inodes| && b in loose && b < sb.size
    requires Ind(fs, i) == 0 && fs.disk[b] == ZeroBlock()
    ensures Owned(WithAddr(fs, i, NDIRECT, b), sb, owner[b := Indirect(i)], dangling, loose - {b})
    ensures forall i', k :: 0 <= i' < |fs.inodes| && 0 <= k < MAXFILE ==>
              Slot(WithAddr(fs, i, NDIRECT, b), i', k) == Slot(fs, i', k)
  {
    WithIndEffect(fs, sb, owner, dangling, loose, i, b);
    LinkIndPoints(fs, sb, owner, dangling, loose, i, b);
    hide OwnersPoint, Slot, Ind, WithAddr, WellFormed;
  }

  lemma WithIndEffect(fs: Fs, sb: Super, owner: map<nat, Owner>, dangling: set<Owner>, loose: set<nat>, i: nat, b: nat)
    requires Owned(fs, sb, owner, dangling, loose) && i < |fs.inodes| && b in loose && b < sb.size
    requires Ind(fs, i) == 0 && fs.disk[b] == ZeroBlock()
    ensures var r := WithAddr(fs, i, NDIRECT, b);
            && WellFormed(r, sb)
            && (forall i', k :: 0 <= i' < |fs.inodes| && 0 <= k < MAXFILE ==> Slot(r, i', k) == Slot(fs, i', k))
            && (forall i' :: 0 <= i' < |fs.inodes| ==> Ind(r, i') == if i' == i then b else Ind(fs, i'))
            && (forall x :: 0 <= x < sb.size ==> Used(r, sb, x) == Used(fs, sb, x))
  {
    hide SlotsOwned, IndsOwned, OwnersPoint;
    var r := WithAddr(fs, i, NDIRECT, b);
    forall i', k | 0 <= i' < |fs.inodes| && 0 <= k < MAXFILE ensures Slot(r, i', k) == Slot(fs, i', k) {
      if i' == i && k >= NDIRECT {
        ZeroWords(k - NDIRECT);
      }
    }
  }

  lemma LinkIndPoints(fs: Fs, sb: Super, owner: map<nat, Owner>, dangling: set<Owner>, loose: set<nat>, i: nat, b: nat)
    requires Owned(fs, sb, owner, dangling, loose) && i < |fs.inodes| && b in loose && b < sb.size
    requires Ind(fs, i) == 0 && fs.disk[b] == ZeroBlock()
    ensures WellFormed(WithAddr(fs, i, NDIRECT, b), sb) && OwnersPoint(WithAddr(fs, i, NDIRECT, b), sb, owner[b := Indirect(i)])
  {
    var r, o := WithAddr(fs, i, NDIRECT, b), owner[b := Indirect(i)];
    WithIndEffect(fs, sb, owner, dangling, loose, i, b);
    hide SlotsOwned, IndsOwned, Used, WithAddr;
    forall x | x in o ensures x < sb.size && PointsTo(r, sb, o[x], x) {
      if x != b {
        assert PointsTo(fs, sb, owner[x], x);
      }
    }
  }

  /** Writing a file's data block moves no pointer and no bit. */
  lemma StoreKeeps(fs: Fs, sb: Super, owner: map<nat, Owner>, i: nat, k: nat, data: Block)
    requires Owned(fs, sb, owner, {}, {}) && i < |fs.inodes| && k < MAXFILE && Slot(fs, i, k) != 0
    ensures sb.nmeta <= Slot(fs, i, k) < sb.size
    ensures Owned(WithBlock(fs, Slot(fs, i, k), data), sb, owner, {}, {})
    ensures forall i', k' :: 0 <= i' < |fs.inodes| && 0 <= k' < MAXFILE ==>
              Slot(WithBlock(fs, Slot(fs, i, k), data), i', k') == Slot(fs, i', k')
  {
    var b := Slot(fs, i, k);
    assert owner[b] == Data(i, k);
    assert PointsTo(fs, sb, owner[b], b);
    var r := WithBlock(fs, b, data);
    forall i' | 0 <= i' < |fs.inodes| && Ind(fs, i') != 0 ensures r.disk[Ind(fs, i')] == fs.disk[Ind(fs, i')] {
      IndPlace(fs, sb, owner, {}, {}, i');
    }
    SameSlots(fs, r, sb);
    SameOwned(fs, r, sb, owner, {}, {});
  }

  // ---- freeing -------------------------------------------------------------------

  /** bfree of a block that its pointer owns: the bit was set, so there is no panic. */
  lemma ClearKeeps(fs: Fs, sb: Super, owner: map<nat, Owner>, dangling: set<Owner>, i: nat, k: nat)
    requires Owned(fs, sb, owner, dangling, {}) && i < |fs.inodes| && k < MAXFILE
    requires Slot(fs, i, k) != 0 && Data(i, k) !in dangling
    ensures var b := Slot(fs, i, k);
            && sb.nmeta <= b < sb.size && Used(fs, sb, b)
            && Owned(Cleared(fs, sb, b), sb, owner - {b}, dangling + {Data(i, k)}, {})
            && (forall i', k' :: 0 <= i' < |fs.inodes| && 0 <= k' < MAXFILE ==>
                  Slot(Cleared(fs, sb, b), i', k') == Slot(fs, i', k'))
  {
    var b := Slot(fs, i, k);
    assert owner[b] == Data(i, k) && PointsTo(fs, sb, owner[b], b);
    var r, o := Cleared(fs, sb, b), owner - {b};
    ClearedSlots(fs, sb, owner, dangling, b);
    forall x | 0 <= x < sb.size ensures Used(r, sb, x) <==> x in o {
      BitmapAfter(fs, sb, b, false, x);
    }
    SameOwned(fs, r, sb, owner, dangling, {});
    forall x | x in o ensures x < sb.size && PointsTo(r, sb, o[x], x) {
      assert o[x] == owner[x] && PointsTo(r, sb, owner[x], x);
    }
  }

  lemma ClearedSlots(fs: Fs, sb: Super, owner: map<nat, Owner>, dangling: set<Owner>, b: nat)
    requires Owned(fs, sb, owner, dangling, {}) && b < sb.size
    ensures WellFormed(Cleared(fs, sb, b), sb)
    ensures forall i', k' :: 0 <= i' < |fs.inodes| && 0 <= k' < MAXFILE ==>
              Slot(Cleared(fs, sb, b), i', k') == Slot(fs, i', k')
  {
    var r := Cleared(fs, sb, b);
    forall i' | 0 <= i' < |fs.inodes| && Ind(fs, i') != 0 ensures r.disk[Ind(fs, i')] == fs.disk[Ind(fs, i')] {
      IndPlace(fs, sb, owner, dangling, {}, i');
    }
    SameSlots(fs, r, sb);
  }

  /** The dangling pointer itself is cleared. */
  lemma UnlinkKeeps(fs: Fs, sb: Super, owner: map<nat, Owner>, dangling: set<Owner>, i: nat, k: nat)
    requires Owned(fs, sb, owner, dangling, {}) && i < |fs.inodes| && k < NDIRECT && Data(i, k) in dangling
    ensures Owned(WithSlot(fs, i, k, 0), sb, owner, dangling - {Data(i, k)}, {})
    ensures forall i', k' :: 0 <= i' < |fs.inodes| && 0 <= k' < MAXFILE ==>
              Slot(WithSlot(fs, i, k, 0), i', k') == if i' == i && k' == k then 0 else Slot(fs, i', k')
  {
    var r := WithSlot(fs, i, k, 0);
    WithSlotEffect(fs, sb, owner, dangling, {}, i, k, 0);
    forall x | x in owner ensures x < sb.size && PointsTo(r, sb, owner[x], x) {
      assert PointsTo(fs, sb, owner[x], x);
    }
  }

  /** The entries all freed, the indirect block itself goes, and with it the pointers. */
  lemma FreeIndKeeps(fs: Fs, sb: Super, owner: map<nat, Owner>, dangling: set<Owner>, i: nat)
    requires Owned(fs, sb, owner, dangling, {}) && i < |fs.inodes| && Ind(fs, i) != 0
    requires forall k :: NDIRECT <= k < MAXFILE && Slot(fs, i, k) != 0 ==> Data(i, k) in dangling
    requires forall o :: o in dangling ==> o.inum == i && NDIRECT <= o.k
    ensures var b := Ind(fs, i);
            && sb.nmeta <= b < sb.size && Used(fs, sb, b)
            && Owned(WithAddr(Cleared(fs, sb, b), i, NDIRECT, 0), sb, owner - {b}, {}, {})
            && (forall i', k :: 0 <= i' < |fs.inodes| && 0 <= k < MAXFILE ==>
                  Slot(WithAddr(Cleared(fs, sb, b), i, NDIRECT, 0), i', k)
                  == if i' == i && k >= NDIRECT then 0 else Slot(fs, i', k))
  {
    var b := Ind(fs, i);
    IndPlace(fs, sb, owner, dangling, {}, i);
    var r, o := WithAddr(Cleared(fs, sb, b), i, NDIRECT, 0), owner - {b};
    FreeIndSlots(fs, sb, owner, dangling, i);
    forall x | 0 <= x < sb.size ensures Used(r, sb, x) <==> x in o {
      BitmapAfter(fs, sb, b, false, x);
    }
    forall x | x in o ensures x < sb.size && PointsTo(r, sb, o[x], x) {
      assert o[x] == owner[x] && PointsTo(fs, sb, owner[x], x);
      assert o[x] !in dangling;
    }
  }

  lemma FreeIndSlots(fs: Fs, sb: Super, owner: map<nat, Owner>, dangling: set<Owner>, i: nat)
    requires Owned(fs, sb, owner, dangling, {}) && i < |fs.inodes| && Ind(fs, i) != 0 && Ind(fs, i) < sb.size
    ensures var r := WithAddr(Cleared(fs, sb, Ind(fs, i)), i, NDIRECT, 0);
            && WellFormed(r, sb)
            && (forall i' :: 0 <= i' < |fs.inodes| ==> Ind(r, i') == if i' == i then 0 else Ind(fs, i'))
            && (forall i', k :: 0 <= i' < |fs.inodes| && 0 <= k < MAXFILE ==>
                  Slot(r, i', k) == if i' == i && k >= NDIRECT then 0 else Slot(fs, i', k))
  {
    var c := Cleared(fs, sb, Ind(fs, i));
    ClearedSlots(fs, sb, owner, dangling, Ind(fs, i));
    var r := WithAddr(c, i, NDIRECT, 0);
    forall i', k | 0 <= i' < |fs.inodes| && 0 <= k < MAXFILE
      ensures Slot(r, i', k) == if i' == i && k >= NDIRECT then 0 else Slot(fs, i', k)
    {
      assert Slot(c, i', k) == Slot(fs, i', k);
    }
  }

  // ---- contents ------------------------------------------------------------------

  /** Block k of file i; a block the file does not have reads as zeros. */
  function Content(fs: Fs, i: nat, k: nat): Block
    requires i < |fs.inodes| && |fs.inodes[i].addrs| == NDIRECT + 1 && Ind(fs, i) < |fs.disk| && k < MAXFILE
    requires Slot(fs, i, k) < |fs.disk|
  {
    if Slot(fs, i, k) == 0 then ZeroBlock() else fs.disk[Slot(fs, i, k)]
  }

  ghost predicate SlotsInRange(fs: Fs, sb: Super)
    requires WellFormed(fs, sb)
  {
    forall i, k {:trigger Slot(fs, i, k)} :: 0 <= i < |fs.inodes| && 0 <= k < MAXFILE ==> Slot(fs, i, k) < |fs.disk|
  }

  /** Every file has the same contents in both. */
  ghost predicate SameContents(fs: Fs, r: Fs, sb: Super)
    requires WellFormed(fs, sb) && WellFormed(r, sb) && |r.inodes| == |fs.inodes|
    requires SlotsInRange(fs, sb) && SlotsInRange(r, sb)
  {
    forall i, k {:trigger Slot(r, i, k)} :: 0 <= i < |fs.inodes| && 0 <= k < MAXFILE ==> Content(r, i, k) == Content(fs, i, k)
  }

  /** Slots whose owner is recorded are in range, above the metadata, and no indirect block. */
  lemma SlotPlace(fs: Fs, sb: Super, owner: map<nat, Owner>, dangling: set<Owner>, loose: set<nat>, i: nat, k: nat)
    requires Owned(fs, sb, owner, dangling, loose) && i < |fs.inodes| && k < MAXFILE
    requires Slot(fs, i, k) != 0 && Data(i, k) !in dangling
    ensures sb.nmeta <= Slot(fs, i, k) < sb.size && Slot(fs, i, k) in owner && owner[Slot(fs, i, k)] == Data(i, k)
    ensures forall i' :: 0 <= i' < |fs.inodes| ==> Ind(fs, i') != Slot(fs, i, k)
  {
    var b := Slot(fs, i, k);
    assert owner[b] == Data(i, k) && PointsTo(fs, sb, owner[b], b);
    forall i' | 0 <= i' < |fs.inodes| ensures Ind(fs, i') != b {
      if Ind(fs, i') == b {
        IndPlace(fs, sb, owner, dangling, loose, i');
      }
    }
  }

  lemma OwnedInRange(fs: Fs, sb: Super, owner: map<nat, Owner>, loose: set<nat>)
    requires Owned(fs, sb, owner, {}, loose)
    ensures SlotsInRange(fs, sb)
  {
    forall i, k | 0 <= i < |fs.inodes| && 0 <= k < MAXFILE ensures Slot(fs, i, k) < |fs.disk| {
      if Slot(fs, i, k) != 0 {
        SlotPlace(fs, sb, owner, {}, loose, i, k);
      }
    }
  }

  lemma MarkContents(fs: Fs, sb: Super, owner: map<nat, Owner>, loose: set<nat>, b: nat)
    requires Owned(fs, sb, owner, {}, loose) && b < sb.size && !Used(fs, sb, b)
    ensures WellFormed(Marked(fs, sb, b), sb) && SlotsInRange(fs, sb) && SlotsInRange(Marked(fs, sb, b), sb)
    ensures SameContents(fs, Marked(fs, sb, b), sb) && Marked(fs, sb, b).disk[b] == ZeroBlock()
  {
    MarkKeeps(fs, sb, owner, {}, loose, b);
    OwnedInRange(fs, sb, owner, loose);
    var r := Marked(fs, sb, b);
    forall i, k | 0 <= i < |fs.inodes| && 0 <= k < MAXFILE
      ensures Slot(r, i, k) < |r.disk| && Content(r, i, k) == Content(fs, i, k)
    {
      if Slot(fs, i, k) != 0 {
        SlotPlace(fs, sb, owner, {}, loose, i, k);
      }
    }
  }

  lemma LinkContents(fs: Fs, sb: Super, owner: map<nat, Owner>, loose: set<nat>, i: nat, k: nat, b: nat)
    requires Owned(fs, sb, owner, {}, loose) && i < |fs.inodes| && k < MAXFILE && b in loose && b < sb.size
    requires k >= NDIRECT ==> Ind(fs, i) != 0
    requires Slot(fs, i, k) == 0 && fs.disk[b] == ZeroBlock()
    ensures WellFormed(WithSlot(fs, i, k, b), sb) && SlotsInRange(fs, sb) && SlotsInRange(WithSlot(fs, i, k, b), sb)
    ensures SameContents(fs, WithSlot(fs, i, k, b), sb)
  {
    WithSlotEffect(fs, sb, owner, {}, loose, i, k, b);
    OwnedInRange(fs, sb, owner, loose);
    var r := WithSlot(fs, i, k, b);
    forall i', k' | 0 <= i' < |fs.inodes| && 0 <= k' < MAXFILE
      ensures Slot(r, i', k') < |r.disk| && Content(r, i', k') == Content(fs, i', k')
    {
      if Slot(fs, i', k') != 0 {
        SlotPlace(fs, sb, owner, {}, loose, i', k');
      }
      if k >= NDIRECT {
        IndPlace(fs, sb, owner, {}, loose, i);
      }
    }
  }

  lemma LinkIndContents(fs: Fs, sb: Super, owner: map<nat, Owner>, loose: set<nat>, i: nat, b: nat)
    requires Owned(fs, sb, owner, {}, loose) && i < |fs.inodes| && b in loose && b < sb.size
    requires Ind(fs, i) == 0 && fs.disk[b] == ZeroBlock()
    ensures WellFormed(WithAddr(fs, i, NDIRECT, b), sb) && SlotsInRange(fs, sb) && SlotsInRange(WithAddr(fs, i, NDIRECT, b), sb)
    ensures SameContents(fs, WithAddr(fs, i, NDIRECT, b), sb)
  {
    LinkIndKeeps(fs, sb, owner, {}, loose, i, b);
    OwnedInRange(fs, sb, owner, loose);
    var r := WithAddr(fs, i, NDIRECT, b);
    OwnedInRange(r, sb, owner[b := Indirect(i)], loose - {b});
    forall i', k | 0 <= i' < |fs.inodes| && 0 <= k < MAXFILE ensures Content(r, i', k) == Content(fs, i', k) {
      assert Slot(r, i', k) == Slot(fs, i', k);
    }
  }

  /** Writing a data block changes that block of that file only. */
  lemma StoreContents(fs: Fs, sb: Super, owner: map<nat, Owner>, i: nat, k: nat, data: Block)
    requires Owned(fs, sb, owner, {}, {}) && i < |fs.inodes| && k < MAXFILE && Slot(fs, i, k) != 0
    ensures SlotsInRange(fs, sb)
    ensures var r := WithBlock(fs, Slot(fs, i, k), data);
            && WellFormed(r, sb) && SlotsInRange(r, sb)
            && forall i', k' :: 0 <= i' < |fs.inodes| && 0 <= k' < MAXFILE ==>
                 Content(r, i', k') == if i' == i && k' == k then data else Content(fs, i', k')
  {
    StoreKeeps(fs, sb, owner, i, k, data);
    OwnedInRange(fs, sb, owner, {});
    var r := WithBlock(fs, Slot(fs, i, k), data);
    forall i', k' | 0 <= i' < |fs.inodes| && 0 <= k' < MAXFILE
      ensures Slot(r, i', k') < |r.disk|
      ensures Content(r, i', k') == if i' == i && k' == k then data else Content(fs, i', k')
    {
      if Slot(fs, i', k') != 0 {
        SlotPlace(fs, sb, owner, {}, {}, i', k');
        SlotPlace(fs, sb, owner, {}, {}, i, k);
      }
    }
  }

  /** From v to w only file i's block k and its indirect block may have been added, and
      every file reads as before. */
  ghost predicate GrownFrom(v: Fs, w: Fs, sb: Super, i: nat, k: nat)
    requires WellFormed(v, sb) && WellFormed(w, sb) && |v.inodes| == |w.inodes| && i < |v.inodes| && k < MAXFILE
  {
    && SlotsInRange(v, sb) && SlotsInRange(w, sb) && SameContents(v, w, sb)
    && (forall i', k' :: 0 <= i' < |v.inodes| && 0 <= k' < MAXFILE && !(i' == i && k' == k) ==>
          Slot(w, i', k') == Slot(v, i', k'))
    && (forall i' :: 0 <= i' < |v.inodes| && i' != i ==> w.inodes[i'] == v.inodes[i'])
    && w.inodes[i].size == v.inodes[i].size
  }
}
