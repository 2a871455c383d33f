/** fileread and filewrite of file.c for inode files: the offset, and the chunks that keep
    every transaction within MAXOPBLOCKS. */
module FileLayer {
  import opened Blocks
  import opened FsBlocks
  import opened FileBytes
  import opened FileSystem
  import opened Wrappers

  class File {
    const inum: nat
    const readable: bool
    const writable: bool
    var off: nat

    constructor (inum: nat, readable: bool, writable: bool)
      ensures this.inum == inum && this.readable == readable && this.writable == writable && off == 0
    {
      this.inum, this.readable, this.writable, off := inum, readable, writable, 0;
    }
  }

  /** The first p bytes of src have been put into file i at off. */
  ghost predicate Sofar(v: Fs, w: Fs, sb: Super, i: nat, src: seq<Byte>, off: nat, p: nat) {
    && WellFormed(v, sb) && WellFormed(w, sb) && |v.inodes| == |w.inodes| && i < |v.inodes| && p <= |src|
    && SlotsInRange(v, sb) && SlotsInRange(w, sb) && FilesOk(v, sb) && FilesOk(w, sb)
    && (off <= v.inodes[i].size ==> Wrote(v, w, sb, i, src[..p], off) && off + p <= w.inodes[i].size)
    && (off > v.inodes[i].size ==> p == 0 && w == v)
  }

  /** One transaction takes v to w: the blocks it passes to log_write are few enough, lie
      outside the log, and are the only ones it changes; an inode it changes is in them. */
  ghost predicate Change(v: Fs, w: Fs, sb: Super, tx: set<nat>) {
    && Confined(v.disk, w.disk, tx) && Noted(v.inodes, w.inodes, sb, tx) && Beyond(sb, tx)
    && |tx| <= MAXOPBLOCKS
  }

  ghost predicate Whole(v: Fs, sb: Super) {
    && (exists owner :: Owned(v, sb, owner, {}, {}))
    && FilesOk(v, sb)
  }

  function Chunks(t: nat, n: nat): nat {
    if t * CHUNK < n then t * CHUNK else n
  }

  /** After t transactions of a filewrite: a sound file system that has the first t chunks. */
  ghost predicate Stage(v: Fs, w: Fs, sb: Super, i: nat, src: seq<Byte>, off: nat, t: nat) {
    Whole(w, sb) && Sofar(v, w, sb, i, src, off, Chunks(t, |src|))
  }

  /** The states between the transactions of a filewrite. */
  ghost predicate Staged(v: Fs, sb: Super, i: nat, src: seq<Byte>, off: nat, states: seq<Fs>, txs: seq<set<nat>>) {
    && |states| == |txs| + 1 && states[0] == v
    && (forall t {:trigger states[t]} :: 0 <= t < |states| ==> Stage(v, states[t], sb, i, src, off, t))
    && (forall t {:trigger txs[t]} :: 0 <= t < |txs| ==> Change(states[t], states[t + 1], sb, txs[t]))
  }

  lemma StagedMore(v: Fs, w: Fs, sb: Super, i: nat, src: seq<Byte>, off: nat, states: seq<Fs>, txs: seq<set<nat>>, tx: set<nat>)
    requires Staged(v, sb, i, src, off, states, txs)
    requires Stage(v, w, sb, i, src, off, |states|) && Change(states[|txs|], w, sb, tx)
    ensures Staged(v, sb, i, src, off, states + [w], txs + [tx])
  {
    hide Stage, Change;
    var ss, ts := states + [w], txs + [tx];
    forall t {:trigger ts[t]} | 0 <= t < |ts| ensures Change(ss[t], ss[t + 1], sb, ts[t]) {
      assert t < |txs| ==> ts[t] == txs[t];
    }
  }

  lemma SofarStart(v: Fs, sb: Super, owner: map<nat, Owner>, i: nat, src: seq<Byte>, off: nat)
    requires Owned(v, sb, owner, {}, {}) && FilesOk(v, sb) && i < |v.inodes|
    ensures Sofar(v, v, sb, i, src, off, 0)
  {
    OwnedInRange(v, sb, owner, {});
    if off <= v.inodes[i].size {
      assert Spliced(Bytes(v, sb, i), off, src[..0]) == Bytes(v, sb, i);
    }
  }

  /** Two adjacent writes are one. */
  lemma SofarMore(v: Fs, w: Fs, x: Fs, sb: Super, i: nat, src: seq<Byte>, off: nat, p: nat, q: nat)
    requires Sofar(v, w, sb, i, src, off, p) && off <= v.inodes[i].size && p < q <= |src|
    requires WellFormed(x, sb) && |x.inodes| == |w.inodes| && SlotsInRange(x, sb) && FilesOk(x, sb)
    requires Wrote(w, x, sb, i, src[p..q], off + p)
    ensures Sofar(v, x, sb, i, src, off, q)
  {
    var s := Bytes(v, sb, i);
    SplicedTwice(s, off, src[..p], src[p..q]);
    assert src[..p] + src[p..q] == src[..q];
    assert |Bytes(x, sb, i)| == x.inodes[i].size;
  }

  lemma SplicedTwice(s: seq<Byte>, off: nat, a: seq<Byte>, b: seq<Byte>)
    requires off <= |s|
    ensures Spliced(Spliced(s, off, a), off + |a|, b) == Spliced(s, off, a + b)
  {
  }

  /** The bytes written by a write that does not fit: the whole chunks before the limit. */
  function Fitting(size: nat, off: nat): nat {
    if off <= size && off <= MAXBYTES then (MAXBYTES - off) / CHUNK * CHUNK else 0
  }

  /** A filewrite of src at off that left the offset at off': it succeeds exactly when the
      whole write fits, and is then one splice of all the bytes, however many transactions it
      took.  A write that reaches past the largest file leaves the chunks that fit in place. */
  ghost predicate Filewritten(v: Fs, w: Fs, sb: Super, i: nat, src: seq<Byte>, off: nat, off': nat, r: Outcome) {
    && off <= off' && Sofar(v, w, sb, i, src, off, off' - off)
    && !r.OutOfBlocks? && (r.Done? <==> |src| == 0 || (off <= v.inodes[i].size && off + |src| <= MAXBYTES))
    && (r.Done? ==> r.n == |src| && off' == off + |src|)
    && (r.Refused? ==> off' == off + Fitting(v.inodes[i].size, off))
  }

  /** filewrite answers -1 and has written something all the same exactly when the write
      does not fit and the first chunk does. */
  lemma PartOfIt(v: Fs, w: Fs, sb: Super, i: nat, src: seq<Byte>, off: nat, off': nat, r: Outcome)
    requires Filewritten(v, w, sb, i, src, off, off', r)
    ensures r.Refused? && off' > off <==>
              off <= v.inodes[i].size && off + |src| > MAXBYTES && off + CHUNK <= MAXBYTES
  {
    hide Wrote, SlotsInRange, FilesOk;
    var room := MAXBYTES - off;
    assert room / CHUNK * CHUNK > 0 <==> room >= CHUNK;
  }

  /** One byte more than the largest file, into an empty file: 46 chunks stay behind. */
  lemma OneTooMany(v: Fs, w: Fs, sb: Super, i: nat, src: seq<Byte>, off': nat, r: Outcome)
    requires Filewritten(v, w, sb, i, src, 0, off', r) && v.inodes[i].size == 0 && |src| == MAXBYTES + 1
    ensures r.Refused? && off' == 46 * CHUNK == 70656 && Bytes(w, sb, i) == src[..70656]
  {
    assert MAXBYTES == 71680 && CHUNK == 1536;
    assert Spliced(Bytes(v, sb, i), 0, src[..off']) == src[..off'];
  }

  /** filewrite, with the transactions it commits and the states between them. */
  method Filewrite(fs: FileSystem, f: File, src: seq<Byte>)
    returns (r: Outcome, ghost states: seq<Fs>, ghost txs: seq<set<nat>>)
    requires fs.Synced() && f.inum < fs.inode.Length && f.off < TWO_32 && |src| < 0x8000_0000
    modifies f, fs.disk, fs.inode, fs.dinode, fs`owner, fs`logged, fs`allocs
    ensures fs.Valid() && Staged(old(fs.View()), fs.sb, f.inum, src, old(f.off), states, txs)
    ensures !f.writable ==> r.Refused? && fs.View() == old(fs.View()) && f.off == old(f.off) && txs == []
    ensures f.writable && !r.OutOfBlocks? ==>
              && fs.Synced() && Filewritten(old(fs.View()), fs.View(), fs.sb, f.inum, src, old(f.off), f.off, r)
              && states[|txs|] == fs.View() && f.off == old(f.off) + Chunks(|txs|, |src|)
    ensures r.OutOfBlocks? ==> AllUsed(fs.View(), fs.sb)
  {
    if !f.writable {
      SofarStart(fs.View(), fs.sb, fs.owner, f.inum, src, f.off);
      r, states, txs := Refused, [fs.View()], [];
    } else {
      r, states, txs := WriteChunks(fs, f, src);
    }
  }

  /** The loop has written i bytes, in whole chunks. */
  ghost predicate Chunking(v: Fs, fs: FileSystem, f: File, src: seq<Byte>, off: nat, i: nat, t: nat)
    reads f, fs, fs.disk, fs.inode, fs.dinode
  {
    && fs.Synced() && f.inum < fs.inode.Length && f.off == off + i && f.off < TWO_32
    && Sofar(v, fs.View(), fs.sb, f.inum, src, off, i) && i == Chunks(t, |src|)
  }

  method WriteChunks(fs: FileSystem, f: File, src: seq<Byte>)
    returns (r: Outcome, ghost states: seq<Fs>, ghost txs: seq<set<nat>>)
    requires fs.Synced() && f.inum < fs.inode.Length && f.off < TWO_32 && |src| < 0x8000_0000
    modifies f, fs.disk, fs.inode, fs.dinode, fs`owner, fs`logged, fs`allocs
    ensures fs.Valid() && Staged(old(fs.View()), fs.sb, f.inum, src, old(f.off), states, txs)
    ensures !r.OutOfBlocks? ==>
              && fs.Synced() && Filewritten(old(fs.View()), fs.View(), fs.sb, f.inum, src, old(f.off), f.off, r)
              && states[|txs|] == fs.View() && f.off == old(f.off) + Chunks(|txs|, |src|)
    ensures r.OutOfBlocks? ==> AllUsed(fs.View(), fs.sb)
  {
    ghost var v, off := fs.View(), f.off;
    SofarStart(v, fs.sb, fs.owner, f.inum, src, off);
    var i := 0;
    r, states, txs := Done(0), [v], [];
    while r.Done? && i < |src|
      invariant i <= |src| && fs.Valid() && Staged(v, fs.sb, f.inum, src, off, states, txs)
      invariant !r.OutOfBlocks? ==> Chunking(v, fs, f, src, off, i, |txs|) && states[|txs|] == fs.View()
      invariant r.Refused? ==> i < |src| && Misfit(v, f.inum, src, off, i)
      invariant r.OutOfBlocks? ==> AllUsed(fs.View(), fs.sb)
      decreases |src| - i, r.Done?
    {
      r, i, states, txs := WriteChunk(fs, f, src, i, v, off, states, txs);
    }
    if r.Done? {
      r := Done(|src|);
    }
    if !r.OutOfBlocks? {
      ChunksDone(v, fs.View(), fs.sb, f.inum, src, off, f.off, i, r);
    }
  }

  lemma ChunksDone(v: Fs, w: Fs, sb: Super, inum: nat, src: seq<Byte>, off: nat, off': nat, i: nat, r: Outcome)
    requires Sofar(v, w, sb, inum, src, off, i) && off' == off + i && !r.OutOfBlocks?
    requires r.Done? ==> i == |src| && r.n == |src|
    requires r.Refused? ==> i < |src| && Misfit(v, inum, src, off, i)
    ensures Filewritten(v, w, sb, inum, src, off, off', r)
  {
  }

  /** The next chunk does not fit. */
  ghost predicate Misfit(v: Fs, inum: nat, src: seq<Byte>, off: nat, i: nat) {
    && inum < |v.inodes|
    && (off > v.inodes[inum].size || off + |src| > MAXBYTES)
    && i == Fitting(v.inodes[inum].size, off)
  }

  method WriteChunk(fs: FileSystem, f: File, src: seq<Byte>, i: nat, ghost v: Fs, ghost off: nat,
                    ghost states: seq<Fs>, ghost txs: seq<set<nat>>)
    returns (r: Outcome, i': nat, ghost states': seq<Fs>, ghost txs': seq<set<nat>>)
    requires Staged(v, fs.sb, f.inum, src, off, states, txs) && states[|txs|] == fs.View()
    requires Chunking(v, fs, f, src, off, i, |txs|) && i < |src| < 0x8000_0000
    modifies f, fs.disk, fs.inode, fs.dinode, fs`owner, fs`logged, fs`allocs
    ensures fs.Valid() && Staged(v, fs.sb, f.inum, src, off, states', txs') && i <= i' <= |src|
    ensures !r.OutOfBlocks? ==> Chunking(v, fs, f, src, off, i', |txs'|) && states'[|txs'|] == fs.View()
    ensures r.Done? ==> i < i'
    ensures r.Refused? ==> i' == i && Misfit(v, f.inum, src, off, i)
    ensures r.OutOfBlocks? ==> AllUsed(fs.View(), fs.sb)
  {
    var n1 := if |src| - i > CHUNK then CHUNK else |src| - i;
    var q := i + n1;
    ghost var w := fs.View();
    hide Owned, Wrote, Stage, Confined, Noted, Beyond, Misfit, NoHoles, SuperOk;
    r := fs.Writei(f.inum, src[i..q], f.off);
    i', states', txs' := i, states, txs;
    hide FilesOk, SlotsInRange, Sofar;
    if r.Done? {
      states', txs' := Advance(fs, f, src, i, n1, q, v, w, off, states, txs);
      i' := q;
    } else if r.Refused? {
      NoRoom(v, w, fs.sb, f.inum, src, off, i, n1, |txs|);
    }
  }

  method Advance(fs: FileSystem, f: File, src: seq<Byte>, i: nat, n1: nat, q: nat,
                 ghost v: Fs, ghost w: Fs, ghost off: nat, ghost states: seq<Fs>, ghost txs: seq<set<nat>>)
    returns (ghost states': seq<Fs>, ghost txs': seq<set<nat>>)
    requires Staged(v, fs.sb, f.inum, src, off, states, txs) && states[|txs|] == w && Change(w, fs.View(), fs.sb, fs.logged)
    requires fs.Synced() && f.inum < fs.inode.Length && f.off == off + i && q == i + n1 && 0 < n1 && q <= |src|
    requires i == Chunks(|txs|, |src|) < |src| && n1 == if |src| - i > CHUNK then CHUNK else |src| - i
    requires Sofar(v, w, fs.sb, f.inum, src, off, i) && off + i <= w.inodes[f.inum].size && off + q <= MAXBYTES
    requires |w.inodes| == fs.inode.Length && SlotsInRange(fs.View(), fs.sb)
    requires Wrote(w, fs.View(), fs.sb, f.inum, src[i..q], f.off)
    modifies f
    ensures Staged(v, fs.sb, f.inum, src, off, states', txs') && states'[|txs'|] == fs.View()
    ensures Chunking(v, fs, f, src, off, q, |txs'|)
  {
    hide Wrote, SlotsInRange, FilesOk, Change;
    ghost var t := |txs| + 1;
    SofarMore(v, w, fs.View(), fs.sb, f.inum, src, off, i, q);
    assert q == Chunks(t, |src|);
    StagedMore(v, fs.View(), fs.sb, f.inum, src, off, states, txs, fs.logged);
    states', txs' := states + [fs.View()], txs + [fs.logged];
    f.off := f.off + n1;
  }

  lemma NoRoom(v: Fs, w: Fs, sb: Super, inum: nat, src: seq<Byte>, off: nat, i: nat, n1: nat, t: nat)
    requires Sofar(v, w, sb, inum, src, off, i) && i == t * CHUNK && n1 <= CHUNK && i + n1 <= |src|
    requires off + i > w.inodes[inum].size || off + i + n1 > MAXBYTES
    ensures Misfit(v, inum, src, off, i)
  {
    if off <= v.inodes[inum].size {
      hide Wrote;
      assert off + i <= MAXBYTES;
      WholeChunks(MAXBYTES - off, t);
    }
  }

  lemma WholeChunks(n: nat, t: nat)
    requires t * CHUNK <= n < t * CHUNK + CHUNK
    ensures n / CHUNK * CHUNK == t * CHUNK
  {
  }

  /** fileread: what readi gives, and the offset moves past it. */
  method Fileread(fs: FileSystem, f: File, n: nat) returns (r: Outcome, dst: seq<Byte>)
    requires fs.Synced() && f.inum < fs.inode.Length && f.off < TWO_32 && n < 0x8000_0000
    modifies f, fs.disk, fs.inode, fs`owner, fs`logged, fs`allocs
    ensures fs.Synced() && fs.View() == old(fs.View()) && SlotsInRange(fs.View(), fs.sb)
    ensures r.Refused? <==> !f.readable || old(f.off) > fs.inode[f.inum].size || old(f.off) + n >= TWO_32
    ensures r.Refused? ==> f.off == old(f.off)
    ensures !r.Refused? ==> r == Done(Clipped(fs.inode[f.inum].size, old(f.off), n)) && f.off == old(f.off) + r.n
    ensures !r.Refused? ==> dst == Bytes(fs.View(), fs.sb, f.inum)[old(f.off)..f.off]
    ensures !r.Refused? ==> r.n <= n && f.off <= fs.inode[f.inum].size && (r.n == n || f.off == fs.inode[f.inum].size)
  {
    hide Owned, FilesOk, Bytes, SlotsInRange;
    if !f.readable {
      OwnedInRange(fs.View(), fs.sb, fs.owner, {});
      return Refused, [];
    }
    r, dst := fs.Readi(f.inum, f.off, n);
    if r.Done? && r.n > 0 {
      f.off := f.off + r.n;
    }
  }
}
