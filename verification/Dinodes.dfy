/** The inodes on the disk, eight to a block, and what a machine that starts from a disk
    reads there. */
module Dinodes {
  import opened Blocks
  import opened FsBlocks
  import opened FileBytes
  import opened FileSystem
  import opened FileLayer
  import opened RedoLog
  import opened Wrappers

  const IPB: nat := 8          // inodes per block
  const INODE_WORDS: nat := 16  // type, major, minor, nlink; size; addrs

  ghost predicate Storable(n: Inode) {
    n.size < TWO_32 && |n.addrs| == NDIRECT + 1 && forall k :: 0 <= k <= NDIRECT ==> n.addrs[k] < TWO_32
  }

  // ---- one inode in its block ------------------------------------------------

  /** Word w of the inode in place j of a block. */
  ghost function Field(b: Block, j: nat, w: nat): (r: nat)
    requires j < IPB && w < INODE_WORDS
    ensures r < TWO_32
  {
    Word(b, INODE_WORDS * j + w)
  }

  /** ilock: size and addresses of the inode in place j. */
  ghost function InodeAt(b: Block, j: nat): (n: Inode)
    requires j < IPB
    ensures Storable(n)
  {
    Inode(Field(b, j, 2), seq(NDIRECT + 1, k requires 0 <= k <= NDIRECT => Field(b, j, 3 + k)))
  }

  ghost function PutAddrs(b: Block, j: nat, addrs: seq<nat>, k: nat): Block
    requires j < IPB && k <= |addrs| == NDIRECT + 1 && forall k :: 0 <= k <= NDIRECT ==> addrs[k] < TWO_32
  {
    if k == 0 then b else PutWord(PutAddrs(b, j, addrs, k - 1), INODE_WORDS * j + 3 + (k - 1), addrs[k - 1])
  }

  /** iupdate: size and addresses go into place j. */
  ghost function PutInode(b: Block, j: nat, n: Inode): Block
    requires j < IPB && Storable(n)
  {
    PutAddrs(PutWord(b, INODE_WORDS * j + 2, n.size), j, n.addrs, NDIRECT + 1)
  }

  lemma {:induction false} WordOfAddrs(b: Block, j: nat, addrs: seq<nat>, k: nat, w: nat)
    requires j < IPB && k <= |addrs| == NDIRECT + 1 && forall k :: 0 <= k <= NDIRECT ==> addrs[k] < TWO_32
    requires w < WORDS_PER_BLOCK
    ensures var first := INODE_WORDS * j + 3;
            Word(PutAddrs(b, j, addrs, k), w) == if first <= w < first + k then addrs[w - first] else Word(b, w)
  {
    if k != 0 {
      WordOfAddrs(b, j, addrs, k - 1, w);
      WordAfterPut(PutAddrs(b, j, addrs, k - 1), INODE_WORDS * j + 3 + (k - 1), addrs[k - 1], w);
    }
  }

  /** What iupdate stores, ilock reads back; the other seven inodes of the block and the
      words for type and links are not touched. */
  lemma FieldAfterPut(b: Block, j: nat, n: Inode, j': nat, w: nat)
    requires j < IPB && j' < IPB && w < INODE_WORDS && Storable(n)
    ensures Field(PutInode(b, j, n), j', w) ==
            if j' != j || w < 2 then Field(b, j', w) else if w == 2 then n.size else n.addrs[w - 3]
  {
    hide PutWord, Word, PutAddrs;
    var at := INODE_WORDS * j' + w;
    WordOfAddrs(PutWord(b, INODE_WORDS * j + 2, n.size), j, n.addrs, NDIRECT + 1, at);
    WordAfterPut(b, INODE_WORDS * j + 2, n.size, at);
  }

  lemma InodeAfterPut(b: Block, j: nat, n: Inode, j': nat)
    requires j < IPB && j' < IPB && Storable(n)
    ensures InodeAt(PutInode(b, j, n), j') == if j' == j then n else InodeAt(b, j')
  {
    hide PutInode, Word;
    var p := PutInode(b, j, n);
    forall w | 0 <= w < INODE_WORDS
      ensures Field(p, j', w) == if j' != j || w < 2 then Field(b, j', w) else if w == 2 then n.size else n.addrs[w - 3]
    {
      FieldAfterPut(b, j, n, j', w);
    }
    var r, m := InodeAt(p, j'), if j' == j then n else InodeAt(b, j');
    assert r.addrs == m.addrs;
  }

  // ---- all inodes --------------------------------------------------------------

  ghost predicate AllStorable(inodes: seq<Inode>) {
    forall i :: 0 <= i < |inodes| ==> Storable(inodes[i])
  }

  /** A block with the inodes from `first` on in its first n places. */
  ghost function Packed(b: Block, inodes: seq<Inode>, first: nat, n: nat): Block
    requires n <= IPB && AllStorable(inodes)
  {
    if n == 0 then b
    else
      var p := Packed(b, inodes, first, n - 1);
      if first + (n - 1) < |inodes| then PutInode(p, n - 1, inodes[first + (n - 1)]) else p
  }

  lemma {:induction false} PackedAt(b: Block, inodes: seq<Inode>, first: nat, n: nat, j: nat)
    requires n <= IPB && AllStorable(inodes) && j < n && first + j < |inodes|
    ensures InodeAt(Packed(b, inodes, first, n), j) == inodes[first + j]
  {
    hide PutInode, InodeAt, Storable;
    var p := Packed(b, inodes, first, n - 1);
    if first + (n - 1) < |inodes| {
      InodeAfterPut(p, n - 1, inodes[first + (n - 1)], j);
    }
    if j < n - 1 {
      PackedAt(b, inodes, first, n - 1, j);
    }
  }

  lemma {:induction false} PackedSame(b: Block, a: seq<Inode>, c: seq<Inode>, first: nat, n: nat)
    requires n <= IPB && AllStorable(a) && AllStorable(c) && |a| == |c|
    requires forall i :: first <= i < first + n && i < |a| ==> a[i] == c[i]
    ensures Packed(b, a, first, n) == Packed(b, c, first, n)
  {
    hide PutInode, Storable;
    if n != 0 {
      PackedSame(b, a, c, first, n - 1);
    }
  }

  predicate HasInodes(sb: Super, ninodes: nat, b: nat) {
    sb.inodestart <= b && IPB * (b - sb.inodestart) < ninodes
  }

  /** The home blocks that hold a file system: the inodes packed into theirs. */
  ghost function Image(fs: Fs, sb: Super): (d: Disk)
    requires AllStorable(fs.inodes)
    ensures |d| == |fs.disk|
  {
    seq(|fs.disk|, b requires 0 <= b < |fs.disk| =>
      if HasInodes(sb, |fs.inodes|, b) then Packed(fs.disk[b], fs.inodes, IPB * (b - sb.inodestart), IPB) else fs.disk[b])
  }

  ghost predicate HasInodeBlocks(d: Disk, sb: Super, ninodes: nat) {
    forall i :: 0 <= i < ninodes ==> IBlock(sb, i) < |d|
  }

  /** The file system that a machine finds on a disk. */
  ghost function Mounted(d: Disk, sb: Super, ninodes: nat): (fs: Fs)
    requires HasInodeBlocks(d, sb, ninodes)
    ensures fs.disk == d && |fs.inodes| == ninodes
  {
    Fs(d, seq(ninodes, i requires 0 <= i < ninodes => InodeAt(d[IBlock(sb, i)], i % IPB)))
  }

  /** mkfs's order: the log, the inode blocks, the free map. */
  ghost predicate LaidOut(l: Layout, sb: Super, ninodes: nat) {
    l.start + l.size <= sb.inodestart && sb.inodestart + ninodes / IPB + 1 <= sb.bmapstart
  }

  lemma WholeStorable(v: Fs, sb: Super)
    requires Whole(v, sb)
    ensures SlotsInRange(v, sb) && AllStorable(v.inodes)
  {
    var owner :| Owned(v, sb, owner, {}, {});
    OwnedInRange(v, sb, owner, {});
    forall i | 0 <= i < |v.inodes| ensures Storable(v.inodes[i]) {
      forall k | 0 <= k <= NDIRECT ensures v.inodes[i].addrs[k] < TWO_32 {
        assert k < NDIRECT ==> v.inodes[i].addrs[k] == Slot(v, i, k) < |v.disk|;
      }
    }
  }

  /** A transaction of the file system is a change of those home blocks. */
  lemma ImageConfined(v: Fs, w: Fs, sb: Super, tx: set<nat>)
    requires AllStorable(v.inodes) && AllStorable(w.inodes) && Change(v, w, sb, tx)
    ensures Confined(Image(v, sb), Image(w, sb), tx)
  {
    forall b {:trigger Image(w, sb)[b]} | 0 <= b < |w.disk| && b !in tx ensures Image(w, sb)[b] == Image(v, sb)[b] {
      if HasInodes(sb, |v.inodes|, b) {
        var first := IPB * (b - sb.inodestart);
        forall i | first <= i < first + IPB && i < |v.inodes| ensures v.inodes[i] == w.inodes[i] {
          assert IBlock(sb, i) == b;
        }
        PackedSame(v.disk[b], v.inodes, w.inodes, first, IPB);
      }
    }
  }

  // ---- reading back --------------------------------------------------------------

  /** The same inodes and the same contents of every file. */
  ghost predicate SameFiles(v: Fs, m: Fs, sb: Super) {
    && Whole(v, sb) && Whole(m, sb) && m.inodes == v.inodes && SlotsInRange(v, sb) && SlotsInRange(m, sb)
    && forall i :: 0 <= i < |v.inodes| ==> Bytes(m, sb, i) == Bytes(v, sb, i)
  }

  lemma InodesBack(v: Fs, sb: Super, l: Layout, d: Disk)
    requires SuperOk(sb, |v.disk|, |v.inodes|) && AllStorable(v.inodes)
    requires LaidOut(l, sb, |v.inodes|) && SameHome(l, d, Image(v, sb))
    ensures HasInodeBlocks(d, sb, |v.inodes|) && Mounted(d, sb, |v.inodes|).inodes == v.inodes
  {
    var m := Mounted(d, sb, |v.inodes|);
    forall i | 0 <= i < |v.inodes| ensures m.inodes[i] == v.inodes[i] {
      var b := IBlock(sb, i);
      assert HasInodes(sb, |v.inodes|, b) && !InLog(l, b);
      assert IPB * (b - sb.inodestart) + i % IPB == i;
      PackedAt(v.disk[b], v.inodes, IPB * (b - sb.inodestart), IPB, i % IPB);
    }
  }

  /** The free map and the blocks after it are on the disk as they are in memory. */
  lemma DataBack(v: Fs, sb: Super, l: Layout, d: Disk)
    requires SuperOk(sb, |v.disk|, |v.inodes|) && AllStorable(v.inodes)
    requires LaidOut(l, sb, |v.inodes|) && SameHome(l, d, Image(v, sb))
    ensures forall b :: sb.bmapstart <= b < |d| ==> d[b] == v.disk[b]
    ensures sb.bmapstart < sb.nmeta
  {
    assert BBlock(sb, 0) == sb.bmapstart;
    forall b | sb.bmapstart <= b < |d| ensures d[b] == v.disk[b] {
      assert !InLog(l, b) && !HasInodes(sb, |v.inodes|, b);
    }
  }

  lemma SameBlocks(v: Fs, m: Fs, sb: Super, owner: map<nat, Owner>)
    requires Owned(v, sb, owner, {}, {}) && FilesOk(v, sb) && m.inodes == v.inodes && |m.disk| == |v.disk|
    requires sb.bmapstart < sb.nmeta && forall b :: sb.bmapstart <= b < |m.disk| ==> m.disk[b] == v.disk[b]
    ensures Owned(m, sb, owner, {}, {}) && FilesOk(m, sb) && SlotsInRange(v, sb) && SlotsInRange(m, sb)
    ensures SameContents(v, m, sb)
  {
    OwnedInRange(v, sb, owner, {});
    forall i | 0 <= i < |v.inodes| && Ind(v, i) != 0 ensures m.disk[Ind(v, i)] == v.disk[Ind(v, i)] {
      IndPlace(v, sb, owner, {}, {}, i);
    }
    SameSlots(v, m, sb);
    SameOwned(v, m, sb, owner, {}, {});
    forall b | 0 <= b < sb.size ensures Used(m, sb, b) == Used(v, sb, b) {
      assert sb.bmapstart <= BBlock(sb, b) < |m.disk|;
    }
    forall i, k | 0 <= i < |v.inodes| && 0 <= k < MAXFILE
      ensures Slot(m, i, k) < |m.disk| && Content(m, i, k) == Content(v, i, k)
    {
      if Slot(v, i, k) != 0 {
        SlotPlace(v, sb, owner, {}, {}, i, k);
      }
    }
    forall i | 0 <= i < |m.inodes| ensures NoHoles(m, sb, i, BlocksFor(m.inodes[i].size)) {
      assert NoHoles(v, sb, i, BlocksFor(v.inodes[i].size)) && Ind(m, i) == Ind(v, i);
    }
  }

  lemma SameBytes(v: Fs, m: Fs, sb: Super, i: nat)
    requires WellFormed(v, sb) && WellFormed(m, sb) && SlotsInRange(v, sb) && SlotsInRange(m, sb)
    requires m.inodes == v.inodes && SameContents(v, m, sb) && i < |v.inodes| && v.inodes[i].size <= MAXBYTES
    ensures Bytes(m, sb, i) == Bytes(v, sb, i)
  {
    var a, c := Bytes(m, sb, i), Bytes(v, sb, i);
    forall o | 0 <= o < |c| ensures a[o] == c[o] {
      assert a[o] == ByteAt(m, i, o) && c[o] == ByteAt(v, i, o);
      assert Content(m, i, o / 512) == Content(v, i, o / 512);
    }
  }

  /** A disk whose home blocks are those of a file system is mounted as that file system. */
  lemma ReadBack(v: Fs, sb: Super, l: Layout, d: Disk)
    requires Whole(v, sb) && LaidOut(l, sb, |v.inodes|)
    requires AllStorable(v.inodes) && SameHome(l, d, Image(v, sb))
    ensures HasInodeBlocks(d, sb, |v.inodes|) && SameFiles(v, Mounted(d, sb, |v.inodes|), sb)
  {
    var owner :| Owned(v, sb, owner, {}, {});
    InodesBack(v, sb, l, d);
    var m := Mounted(d, sb, |v.inodes|);
    DataBack(v, sb, l, d);
    SameBlocks(v, m, sb, owner);
    hide Owned, Bytes;
    forall i | 0 <= i < |v.inodes| ensures Bytes(m, sb, i) == Bytes(v, sb, i) {
      SameBytes(v, m, sb, i);
    }
  }
}
