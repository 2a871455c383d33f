/** The block layer and the file contents of fs.c: balloc, bfree, bmap, itrunc, readi and
    writei, over the blocks as the log shows them, with what each writei adds to the
    transaction. */
module FileSystem {
  import opened Blocks
  import opened FsBlocks
  import opened FileBytes
  import opened FileTruncate
  import opened Wrappers

  /** The value of readi and writei: -1, the panic "out of blocks", or a count. */
  datatype Outcome = Refused | OutOfBlocks | Done(n: nat)

  class FileSystem {
    const sb: Super
    const disk: array<Block>
    const inode: array<Inode>   // the in-memory inodes
    const dinode: array<Inode>  // the on-disk inodes
    ghost var owner: map<nat, Owner>
    ghost var logged: set<nat>  // blocks passed to log_write in the current transaction
    ghost var allocs: nat       // calls of balloc in it

    /** A file system without files: the free map marks the metadata blocks. */
    constructor (sb: Super, blocks: seq<Block>, ninodes: nat)
      requires SuperOk(sb, |blocks|, ninodes)
      requires OnlyMetaUsed(Fs(blocks, seq(ninodes, _ => EmptyInode())), sb)
      ensures Synced() && this.sb == sb && disk[..] == blocks && inode.Length == ninodes
      ensures fresh(disk) && fresh(inode) && fresh(dinode)
    {
      this.sb := sb;
      disk := new Block[|blocks|](i requires 0 <= i < |blocks| => blocks[i]);
      inode := new Inode[ninodes](_ => EmptyInode());
      dinode := new Inode[ninodes](_ => EmptyInode());
      owner := MetaOwners(sb);
      logged, allocs := {}, 0;
      new;
      assert disk[..] == blocks && inode[..] == seq(ninodes, _ => EmptyInode());
      NoFiles(View(), sb);
    }

    ghost function View(): Fs
      reads disk, inode
    {
      Fs(disk[..], inode[..])
    }

    ghost predicate Valid()
      reads this, disk, inode, dinode
    {
      inode != dinode && dinode.Length == inode.Length && Owned(View(), sb, owner, {}, {})
    }

    // ---- the free map ----------------------------------------------------------

    /** balloc's scan: the first free block. */
    method FindFree() returns (r: Option<nat>)
      requires SuperOk(sb, disk.Length, inode.Length)
      ensures r.Some? ==> r.value < sb.size && !Used(View(), sb, r.value)
      ensures forall x :: 0 <= x < (if r.Some? then r.value else sb.size) ==> Used(View(), sb, x)
    {
      var b := 0;
      while b < sb.size
        invariant b % BITS_PER_BLOCK == 0
        invariant forall x :: 0 <= x < b && x < sb.size ==> Used(View(), sb, x)
      {
        var bi := 0;
        while bi < BITS_PER_BLOCK && b + bi < sb.size
          invariant bi <= BITS_PER_BLOCK
          invariant forall x :: 0 <= x < b + bi && x < sb.size ==> Used(View(), sb, x)
        {
          InBlock(b, bi);
          if !Bit(disk[BBlock(sb, b)], bi) {
            return Some(b + bi);
          }
          bi := bi + 1;
        }
        b := b + BITS_PER_BLOCK;
      }
      return None;
    }

    /** balloc: the first free block is marked and zeroed; None is "out of blocks". */
    method Balloc() returns (r: Option<nat>)
      requires SuperOk(sb, disk.Length, inode.Length)
      modifies disk, this`logged, this`allocs
      ensures r.Some? ==> r.value < sb.size && !Used(old(View()), sb, r.value) && View() == Marked(old(View()), sb, r.value)
      ensures r.Some? ==> forall x :: 0 <= x < r.value ==> Used(old(View()), sb, x)
      ensures r.Some? ==> logged == old(logged) + {BBlock(sb, r.value), r.value} && allocs == old(allocs) + 1
      ensures r.None? ==> View() == old(View()) && logged == old(logged) && allocs == old(allocs)
      ensures r.None? ==> AllUsed(View(), sb)
      ensures Confined(old(disk[..]), disk[..], logged) && old(logged) <= logged
    {
      r := FindFree();
      if r.Some? {
        var b := r.value;
        disk[BBlock(sb, b)] := PutBit(disk[BBlock(sb, b)], b % BITS_PER_BLOCK, true);
        disk[b] := ZeroBlock();
        logged, allocs := logged + {BBlock(sb, b), b}, allocs + 1;
      }
    }

    /** bfree; the precondition is that it does not panic with "freeing free block". */
    method Bfree(b: nat)
      requires SuperOk(sb, disk.Length, inode.Length) && b < sb.size && Used(View(), sb, b)
      modifies disk, this`logged
      ensures View() == Cleared(old(View()), sb, b) && logged == old(logged) + {BBlock(sb, b)}
      ensures Confined(old(disk[..]), disk[..], logged) && old(logged) <= logged
    {
      var m := BBlock(sb, b);
      disk[m] := PutBit(disk[m], b % BITS_PER_BLOCK, false);
      logged := logged + {m};
    }

    // ---- bmap ------------------------------------------------------------------

    /** A pointer is stored, in the in-memory inode or in the indirect block. */
    method SetSlot(i: nat, k: nat, a: nat)
      requires i < inode.Length && |inode[i].addrs| == NDIRECT + 1 && Ind(View(), i) < disk.Length && k < MAXFILE && a < TWO_32
      modifies disk, inode, this`logged
      ensures View() == WithSlot(old(View()), i, k, a)
      ensures logged == old(logged) + if k < NDIRECT then {} else {Ind(old(View()), i)}
      ensures Confined(old(disk[..]), disk[..], logged) && old(logged) <= logged
    {
      if k < NDIRECT {
        inode[i] := Inode(inode[i].size, inode[i].addrs[k := a]);
      } else {
        var b := inode[i].addrs[NDIRECT];
        disk[b] := PutWord(disk[b], k - NDIRECT, a);
        logged := logged + {b};
      }
    }

    /** A missing block is allocated and its pointer stored. */
    method AllocSlot(i: nat, k: nat) returns (r: Option<nat>)
      requires Valid() && i < inode.Length && k < MAXFILE && Slot(View(), i, k) == 0
      requires k >= NDIRECT ==> Ind(View(), i) != 0
      modifies disk, inode, this`owner, this`logged, this`allocs
      ensures Valid() && Grown(old(View()), i, k)
      ensures r.None? ==> View() == old(View())
      ensures r.Some? ==> Slot(View(), i, k) == r.value != 0 && Ind(View(), i) == Ind(old(View()), i)
      ensures r.Some? ==> allocs == old(allocs) + 1 && r.value < sb.size
      ensures r.Some? ==> logged == if k < NDIRECT then old(logged) + {BBlock(sb, r.value), r.value}
                                    else old(logged) + {BBlock(sb, r.value), r.value} + {Ind(old(View()), i)}
      ensures Confined(old(disk[..]), disk[..], logged) && old(logged) <= logged
      ensures Beyond(sb, old(logged)) ==> Beyond(sb, logged)
      ensures r.None? ==> AllUsed(View(), sb)
    {
      ghost var v := View();
      r := Reserve(i, k);
      if r.Some? {
        AllocSlotKeeps(v, sb, owner, i, k, r.value);
        SlotBeyond(v, sb, owner, i, r.value, old(logged));
        hide Beyond, FirstHome, SlotsOwned, IndsOwned, OwnersPoint, Used;
        Record(owner[r.value := Data(i, k)]);
      } else {
        OwnedInRange(v, sb, owner, {});
      }
    }

    method Reserve(i: nat, k: nat) returns (r: Option<nat>)
      requires SuperOk(sb, disk.Length, inode.Length)
      requires i < inode.Length && |inode[i].addrs| == NDIRECT + 1 && Ind(View(), i) < disk.Length && k < MAXFILE
      modifies disk, inode, this`logged, this`allocs
      ensures r.Some? ==> r.value < sb.size && !Used(old(View()), sb, r.value)
      ensures r.Some? ==> View() == WithSlot(Marked(old(View()), sb, r.value), i, k, r.value) && allocs == old(allocs) + 1
      ensures r.Some? ==> logged == if k < NDIRECT then old(logged) + {BBlock(sb, r.value), r.value}
                                    else old(logged) + {BBlock(sb, r.value), r.value} + {Ind(old(View()), i)}
      ensures r.None? ==> View() == old(View()) && logged == old(logged) && allocs == old(allocs)
      ensures Confined(old(disk[..]), disk[..], logged) && old(logged) <= logged
      ensures r.None? ==> AllUsed(View(), sb)
    {
      r := Balloc();
      if r.Some? {
        SetSlot(i, k, r.value);
      }
    }

    ghost method Record(o: map<nat, Owner>)
      requires inode != dinode && dinode.Length == inode.Length && Owned(View(), sb, o, {}, {})
      modifies this`owner
      ensures Valid() && owner == o
    {
      owner := o;
    }

    /** A missing indirect block is allocated. */
    method AllocInd(i: nat) returns (r: Option<nat>)
      requires Valid() && i < inode.Length && Ind(View(), i) == 0
      modifies disk, inode, this`owner, this`logged, this`allocs
      ensures Valid()
      ensures Grown(old(View()), i, NDIRECT) && forall k :: 0 <= k < MAXFILE ==> Slot(View(), i, k) == Slot(old(View()), i, k)
      ensures r.None? ==> View() == old(View())
      ensures r.Some? ==> Ind(View(), i) == r.value != 0 && allocs == old(allocs) + 1
      ensures r.Some? ==> logged == old(logged) + {BBlock(sb, r.value), r.value}
      ensures Confined(old(disk[..]), disk[..], logged) && old(logged) <= logged
      ensures Beyond(sb, old(logged)) ==> Beyond(sb, logged)
      ensures r.None? ==> AllUsed(View(), sb)
    {
      ghost var v := View();
      r := ReserveInd(i);
      if r.Some? {
        AllocIndKeeps(v, sb, owner, i, r.value);
        NewBeyond(sb, disk.Length, inode.Length, r.value);
        Record(owner[r.value := Indirect(i)]);
      } else {
        OwnedInRange(v, sb, owner, {});
      }
    }

    method ReserveInd(i: nat) returns (r: Option<nat>)
      requires SuperOk(sb, disk.Length, inode.Length)
      requires i < inode.Length && |inode[i].addrs| == NDIRECT + 1
      modifies disk, inode, this`logged, this`allocs
      ensures r.Some? ==> r.value < sb.size && !Used(old(View()), sb, r.value)
      ensures r.Some? ==> View() == WithAddr(Marked(old(View()), sb, r.value), i, NDIRECT, r.value) && allocs == old(allocs) + 1
      ensures r.Some? ==> logged == old(logged) + {BBlock(sb, r.value), r.value}
      ensures r.None? ==> View() == old(View()) && logged == old(logged) && allocs == old(allocs)
      ensures Confined(old(disk[..]), disk[..], logged) && old(logged) <= logged
      ensures r.None? ==> AllUsed(View(), sb)
    {
      r := Balloc();
      if r.Some? {
        inode[i] := Inode(inode[i].size, inode[i].addrs[NDIRECT := r.value]);
      }
    }

    /** bmap: the address of block bn of file i, allocated if there is none.  None is the
        panic "out of blocks".  No file's contents change. */
    method Bmap(i: nat, bn: nat) returns (r: Option<nat>)
      requires Valid() && i < inode.Length && bn < MAXFILE
      modifies disk, inode, this`owner, this`logged, this`allocs
      ensures Valid() && Grown(old(View()), i, bn)
      ensures r.Some? ==> Slot(View(), i, bn) == r.value != 0
      ensures Slot(old(View()), i, bn) != 0 ==> r.Some? && View() == old(View()) && logged == old(logged) && allocs == old(allocs)
      ensures r.Some? ==> Charged(old(View()), i, bn, old(logged), old(allocs))
      ensures r.Some? ==> (Ind(View(), i) != 0 <==> Ind(old(View()), i) != 0 || NDIRECT <= bn)
      ensures r.Some? && (Ind(old(View()), i) != 0 || bn < NDIRECT) ==> Ind(View(), i) == Ind(old(View()), i)
      ensures Confined(old(disk[..]), disk[..], logged) && old(logged) <= logged
      ensures Beyond(sb, old(logged)) ==> Beyond(sb, logged)
      ensures r.None? ==> AllUsed(View(), sb)
    {
      var direct := bn < NDIRECT;
      if direct {
        r := BmapDirect(i, bn);
      } else {
        r := BmapIndirect(i, bn);
      }
    }

    /** What one bmap adds to the transaction. */
    ghost predicate Charged(v: Fs, i: nat, bn: nat, logged0: set<nat>, allocs0: nat)
      requires WellFormed(v, sb) && WellFormed(View(), sb) && i < |v.inodes| == inode.Length && bn < MAXFILE
      reads this, disk, inode
    {
      BmapCharge(v, View(), sb, i, bn, logged0, logged, allocs0, allocs)
    }

    method BmapDirect(i: nat, bn: nat) returns (r: Option<nat>)
      requires Valid() && i < inode.Length && bn < NDIRECT
      modifies disk, inode, this`owner, this`logged, this`allocs
      ensures Valid() && Grown(old(View()), i, bn)
      ensures r.Some? ==> Slot(View(), i, bn) == r.value != 0
      ensures Slot(old(View()), i, bn) != 0 ==> r.Some? && View() == old(View()) && logged == old(logged) && allocs == old(allocs)
      ensures r.Some? ==> Charged(old(View()), i, bn, old(logged), old(allocs))
      ensures Ind(View(), i) == Ind(old(View()), i)
      ensures Confined(old(disk[..]), disk[..], logged) && old(logged) <= logged
      ensures Beyond(sb, old(logged)) ==> Beyond(sb, logged)
      ensures r.None? ==> AllUsed(View(), sb)
    {
      if inode[i].addrs[bn] == 0 {
        r := AllocSlot(i, bn);
      } else {
        OwnedInRange(View(), sb, owner, {});
        r := Some(inode[i].addrs[bn]);
      }
    }

    method BmapIndirect(i: nat, bn: nat) returns (r: Option<nat>)
      requires Valid() && i < inode.Length && NDIRECT <= bn < MAXFILE
      modifies disk, inode, this`owner, this`logged, this`allocs
      ensures Valid() && Grown(old(View()), i, bn)
      ensures r.Some? ==> Slot(View(), i, bn) == r.value != 0
      ensures Slot(old(View()), i, bn) != 0 ==> r.Some? && View() == old(View()) && logged == old(logged) && allocs == old(allocs)
      ensures r.Some? ==> Charged(old(View()), i, bn, old(logged), old(allocs)) && Ind(View(), i) != 0
      ensures r.Some? && Ind(old(View()), i) != 0 ==> Ind(View(), i) == Ind(old(View()), i)
      ensures Confined(old(disk[..]), disk[..], logged) && old(logged) <= logged
      ensures Beyond(sb, old(logged)) ==> Beyond(sb, logged)
      ensures r.None? ==> AllUsed(View(), sb)
    {
      if inode[i].addrs[NDIRECT] == 0 {
        r := BmapNewInd(i, bn);
      } else {
        r := BmapEntry(i, bn);
      }
    }

    /** No indirect block yet: it is allocated first, then the block itself. */
    method BmapNewInd(i: nat, bn: nat) returns (r: Option<nat>)
      requires Valid() && i < inode.Length && NDIRECT <= bn < MAXFILE && Ind(View(), i) == 0
      modifies disk, inode, this`owner, this`logged, this`allocs
      ensures Valid() && Grown(old(View()), i, bn)
      ensures r.Some? ==> Slot(View(), i, bn) == r.value != 0
      ensures r.Some? ==> Charged(old(View()), i, bn, old(logged), old(allocs)) && Ind(View(), i) != 0
      ensures Confined(old(disk[..]), disk[..], logged) && old(logged) <= logged
      ensures Beyond(sb, old(logged)) ==> Beyond(sb, logged)
      ensures r.None? ==> AllUsed(View(), sb)
    {
      ghost var v := View();
      r := AllocInd(i);
      ghost var m := View();
      GrownElsewhere(v, m, sb, i, bn);
      if r.Some? {
        r := AllocSlot(i, bn);
        GrownTwice(v, m, View(), sb, i, bn);
      }
    }

    /** The indirect block exists: its entry is followed or filled in. */
    method BmapEntry(i: nat, bn: nat) returns (r: Option<nat>)
      requires Valid() && i < inode.Length && NDIRECT <= bn < MAXFILE && Ind(View(), i) != 0
      modifies disk, inode, this`owner, this`logged, this`allocs
      ensures Valid() && Grown(old(View()), i, bn)
      ensures r.Some? ==> Slot(View(), i, bn) == r.value != 0
      ensures Slot(old(View()), i, bn) != 0 ==> r.Some? && View() == old(View()) && logged == old(logged) && allocs == old(allocs)
      ensures r.Some? ==> Charged(old(View()), i, bn, old(logged), old(allocs)) && Ind(View(), i) != 0
      ensures r.Some? ==> Ind(View(), i) == Ind(old(View()), i)
      ensures Confined(old(disk[..]), disk[..], logged) && old(logged) <= logged
      ensures Beyond(sb, old(logged)) ==> Beyond(sb, logged)
      ensures r.None? ==> AllUsed(View(), sb)
    {
      var a := Word(disk[inode[i].addrs[NDIRECT]], bn - NDIRECT);
      if a == 0 {
        r := AllocSlot(i, bn);
      } else {
        OwnedInRange(View(), sb, owner, {});
        r := Some(a);
      }
    }

    // ---- writei ----------------------------------------------------------------

    /** writei's loop has put tot bytes of src into file i since the state v. */
    ghost predicate Writing(v: Fs, i: nat, src: seq<Byte>, off: nat, tot: nat, data: set<nat>, maps: set<nat>)
      reads this, disk, inode, dinode
    {
      && Valid() && WellFormed(v, sb) && |v.inodes| == inode.Length && i < inode.Length
      && SlotsInRange(v, sb) && SlotsInRange(View(), sb)
      && Written(v, View(), sb, i, src, off, tot)
      && Spent(v, View(), sb, i, off, Touched(off, tot), logged, allocs, data, maps)
      && (tot == 0 || tot == |src| || (off + tot) % 512 == 0)
      && Confined(v.disk, disk[..], logged) && Beyond(sb, logged)
    }

    /** m bytes into a block the file has: memmove and log_write. */
    method PutBytes(i: nat, p: nat, s: seq<Byte>, a: nat)
      requires Valid() && i < inode.Length && p < MAXBYTES && a == Slot(View(), i, p / 512) != 0
      requires 0 < |s| && p % 512 + |s| <= 512
      modifies disk, this`logged
      ensures Valid() && SlotsInRange(old(View()), sb) && SlotsInRange(View(), sb)
      ensures View().inodes == old(View()).inodes && BytesPut(old(View()), View(), sb, i, s, p)
      ensures SameSlotsIn(old(View()), View(), sb) && logged == old(logged) + {a}
      ensures Confined(old(disk[..]), disk[..], logged) && old(logged) <= logged
      ensures Beyond(sb, old(logged)) ==> Beyond(sb, logged)
    {
      ghost var w1 := View();
      StoredBytes(w1, sb, owner, i, p, s);
      StoreKeeps(w1, sb, owner, i, p / 512, Patch(w1.disk[a], p % 512, s));
      disk[a] := Patch(disk[a], p % 512, s);
      logged := logged + {a};
      assert View() == WithBlock(w1, a, Patch(w1.disk[a], p % 512, s));
    }

    /** The call of bmap in writei's loop, and what it adds to the transaction. */
    method MapRound(i: nat, src: seq<Byte>, off: nat, tot: nat, ghost v: Fs, ghost data: set<nat>, ghost maps: set<nat>)
      returns (r: Option<nat>, ghost maps': set<nat>)
      requires Writing(v, i, src, off, tot, data, maps) && tot < |src|
      modifies disk, inode, this`owner, this`logged, this`allocs
      ensures Valid()
      ensures r.Some? ==> Mapped(old(View()), View(), sb, i, (off + tot) / 512) && r.value == Slot(View(), i, (off + tot) / 512)
      ensures r.Some? ==> Spent(v, View(), sb, i, off, Touched(off, tot) + 1, logged + {r.value}, allocs, data + {r.value}, maps')
      ensures Confined(old(disk[..]), disk[..], logged) && old(logged) <= logged
      ensures Beyond(sb, logged)
      ensures r.None? ==> AllUsed(View(), sb)
      ensures r.None? ==> off + |src| > 512 * BlocksFor(v.inodes[i].size)
    {
      ghost var w0, l0, a0 := View(), logged, allocs;
      FirstBlockExists(v, w0, sb, i, src, off, tot);
      maps' := maps;
      r := Bmap(i, (off + tot) / 512);
      if r.Some? {
        SpentRound(v, w0, View(), sb, i, off, Touched(off, tot), (off + tot) / 512, l0, a0, data, maps, logged, allocs);
        maps' := maps + MapsOf(w0, View(), sb, i, (off + tot) / 512);
      } else {
        BeyondLast(v, w0, sb, i, src, off, tot);
      }
    }

    /** The rest of the round: min(n - tot, BSIZE - off % BSIZE) bytes go into the block. */
    method FillBlock(i: nat, src: seq<Byte>, off: nat, tot: nat, a: nat,
                     ghost v: Fs, ghost w0: Fs, ghost data: set<nat>, ghost maps: set<nat>)
      returns (t: nat)
      requires Valid() && WellFormed(v, sb) && WellFormed(w0, sb) && i < |v.inodes| == |w0.inodes| == inode.Length
      requires SlotsInRange(v, sb) && SlotsInRange(w0, sb) && Written(v, w0, sb, i, src, off, tot)
      requires tot < |src| && (tot == 0 || (off + tot) % 512 == 0) && (off + tot) / 512 < MAXFILE
      requires Mapped(w0, View(), sb, i, (off + tot) / 512) && a == Slot(View(), i, (off + tot) / 512)
      requires Spent(v, View(), sb, i, off, Touched(off, tot) + 1, logged + {a}, allocs, data, maps)
      requires Confined(v.disk, disk[..], logged) && Beyond(sb, logged)
      modifies disk, this`logged
      ensures tot < t <= |src| && Writing(v, i, src, off, t, data, maps)
    {
      hide Owned, Written, Mapped, SlotsInRange, WellFormed, Bytes;
      t := tot + RoundLength(|src|, off, tot);
      RoundSize(|src|, off, tot, t);
      var p, s := off + tot, src[tot..t];
      StoreRound(i, src, off, tot, t, p, s, a, v, w0, data, maps);
    }

    /** The bytes s go into the block a, from position p. */
    method StoreRound(i: nat, src: seq<Byte>, off: nat, tot: nat, t: nat, p: nat, s: seq<Byte>, a: nat,
                      ghost v: Fs, ghost w0: Fs, ghost data: set<nat>, ghost maps: set<nat>)
      requires Valid() && WellFormed(v, sb) && WellFormed(w0, sb) && i < |v.inodes| == |w0.inodes| == inode.Length
      requires SlotsInRange(v, sb) && SlotsInRange(w0, sb) && Written(v, w0, sb, i, src, off, tot)
      requires p == off + tot && tot < t <= |src| && s == src[tot..t] && p % 512 + |s| <= 512
      requires t == |src| || (off + t) % 512 == 0
      requires p / 512 < MAXFILE && Mapped(w0, View(), sb, i, p / 512) && a == Slot(View(), i, p / 512)
      requires Spent(v, View(), sb, i, off, Touched(off, t), logged + {a}, allocs, data, maps)
      requires Confined(v.disk, disk[..], logged) && Beyond(sb, logged)
      modifies disk, this`logged
      ensures Writing(v, i, src, off, t, data, maps)
    {
      ghost var w1 := View();
      PutBytes(i, p, s, a);
      ghost var w2 := View();
      WrittenStep(v, w0, w1, w2, sb, i, src, off, tot, t, p, s);
    }

    /** iupdate: the in-memory inode goes to the disk. */
    method Iupdate(i: nat)
      requires inode != dinode && dinode.Length == inode.Length && i < inode.Length
      modifies dinode, this`logged
      ensures dinode[..] == old(dinode[..])[i := inode[i]] && logged == old(logged) + {IBlock(sb, i)}
    {
      dinode[i] := inode[i];
      logged := logged + {IBlock(sb, i)};
    }

    /** Between operations the files have no holes and the disk has every inode. */
    ghost predicate Synced()
      reads this, disk, inode, dinode
    {
      Valid() && FilesOk(View(), sb) && dinode[..] == inode[..]
    }

    /** The body of writei after its checks.  `logged` starts empty: it is what this call
        adds to the transaction. */
    method WriteAll(i: nat, src: seq<Byte>, off: nat) returns (ok: bool)
      requires Synced() && i < inode.Length && off <= inode[i].size && off + |src| <= MAXBYTES
      modifies disk, inode, dinode, this`owner, this`logged, this`allocs
      ensures Valid()
      ensures ok ==> Synced() && SlotsInRange(old(View()), sb) && SlotsInRange(View(), sb)
      ensures ok ==> Wrote(old(View()), View(), sb, i, src, off)
      ensures ok && |src| <= CHUNK ==> |logged| <= MAXOPBLOCKS
      ensures ok && off % 512 + |src| <= 512 ==> |logged| <= 5
      ensures ok ==> Confined(old(disk[..]), disk[..], logged) && Noted(old(dinode[..]), dinode[..], sb, logged) && Beyond(sb, logged)
      ensures !ok ==> AllUsed(View(), sb)
      ensures !ok ==> off + |src| > 512 * BlocksFor(old(inode[i]).size)
    {
      ghost var v := View();
      Start(i, src, off);
      ghost var data, maps;
      ok, data, maps := WriteLoop(i, src, off, v);
      if ok {
        Close(i, src, off, v, data, maps);
      }
    }

    ghost method Start(i: nat, src: seq<Byte>, off: nat)
      requires Synced() && i < inode.Length && off <= inode[i].size && off + |src| <= MAXBYTES
      modifies this`logged, this`allocs
      ensures Writing(View(), i, src, off, 0, {}, {})
    {
      logged, allocs := {}, 0;
      NothingWritten(View(), sb, owner, i, src, off);
    }

    method WriteLoop(i: nat, src: seq<Byte>, off: nat, ghost v: Fs) returns (ok: bool, ghost data: set<nat>, ghost maps: set<nat>)
      requires Writing(v, i, src, off, 0, {}, {})
      modifies disk, inode, this`owner, this`logged, this`allocs
      ensures Valid() && (ok ==> Writing(v, i, src, off, |src|, data, maps))
      ensures !ok ==> AllUsed(View(), sb)
      ensures !ok ==> off + |src| > 512 * BlocksFor(v.inodes[i].size)
    {
      var tot := 0;
      ok, data, maps := true, {}, {};
      while ok && tot < |src|
        invariant Valid() && tot <= |src|
        invariant ok ==> Writing(v, i, src, off, tot, data, maps)
        invariant !ok ==> AllUsed(View(), sb) && off + |src| > 512 * BlocksFor(v.inodes[i].size)
        decreases |src| - tot, ok
      {
        ok, tot, data, maps := Round(i, src, off, tot, v, data, maps);
      }
    }

    /** One round of writei's loop. */
    method Round(i: nat, src: seq<Byte>, off: nat, tot: nat, ghost v: Fs, ghost data: set<nat>, ghost maps: set<nat>)
      returns (ok: bool, t: nat, ghost data': set<nat>, ghost maps': set<nat>)
      requires Writing(v, i, src, off, tot, data, maps) && tot < |src|
      modifies disk, inode, this`owner, this`logged, this`allocs
      ensures Valid() && tot <= t <= |src|
      ensures ok ==> tot < t && Writing(v, i, src, off, t, data', maps')
      ensures !ok ==> AllUsed(View(), sb)
      ensures !ok ==> off + |src| > 512 * BlocksFor(v.inodes[i].size)
    {
      ghost var w0 := View();
      var r;
      r, maps' := MapRound(i, src, off, tot, v, data, maps);
      ok, t, data' := r.Some?, tot, data;
      if ok {
        data' := data + {r.value};
        t := FillBlock(i, src, off, tot, r.value, v, w0, data', maps');
      }
    }

    /** writei's end: a file that grew gets its size, and the inode goes to the disk. */
    method Close(i: nat, src: seq<Byte>, off: nat, ghost v: Fs, ghost data: set<nat>, ghost maps: set<nat>)
      requires Writing(v, i, src, off, |src|, data, maps) && FilesOk(v, sb) && dinode[..] == v.inodes
      modifies inode, dinode, this`logged
      ensures Synced() && SlotsInRange(View(), sb) && Wrote(v, View(), sb, i, src, off)
      ensures |src| <= CHUNK ==> |logged| <= MAXOPBLOCKS
      ensures off % 512 + |src| <= 512 ==> |logged| <= 5
      ensures Confined(v.disk, disk[..], logged) && Noted(old(dinode[..]), dinode[..], sb, logged) && Beyond(sb, logged)
    {
      hide SlotsOwned, IndsOwned, OwnersPoint, FilesOk, Beyond, FirstHome, SuperOk;
      InodeBeyond(sb, disk.Length, inode.Length, logged, i);
      ghost var w := View();
      WrittenMeansWrote(v, w, sb, owner, i, src, off);
      ResizeKeeps(w, sb, owner, i, Max(v.inodes[i].size, off + |src|));
      if |src| <= CHUNK {
        ChunkFits(v, w, sb, i, off, |src|, logged, allocs, data, maps);
      }
      if off % 512 + |src| <= 512 {
        WithinBlockFits(v, w, sb, i, off, |src|, logged, allocs, data, maps);
      }
      if |src| > 0 && off + |src| > inode[i].size {
        inode[i] := Inode(off + |src|, inode[i].addrs);
        Iupdate(i);
      } else {
        SubsetSize(logged, logged + {IBlock(sb, i)});
        assert Resized(w, i, w.inodes[i].size) == w;
      }
    }

    /** writei.  The uint tests refuse exactly the writes that start past the end of the file
        or reach past its largest size, so bmap is never asked for a block out of range. */
    method Writei(i: nat, src: seq<Byte>, off: nat) returns (r: Outcome)
      requires Synced() && i < inode.Length && off < TWO_32 && |src| < TWO_32
      modifies disk, inode, dinode, this`owner, this`logged, this`allocs
      ensures Valid()
      ensures r.Refused? <==> off > old(inode[i].size) || off + |src| > MAXBYTES
      ensures r.Refused? ==> Synced() && View() == old(View()) && logged == old(logged)
      ensures r.Done? ==> r.n == |src| && Synced() && SlotsInRange(old(View()), sb) && SlotsInRange(View(), sb)
      ensures r.Done? ==> Wrote(old(View()), View(), sb, i, src, off)
      ensures r.Done? && |src| <= CHUNK ==> |logged| <= MAXOPBLOCKS
      ensures r.Done? && off % 512 + |src| <= 512 ==> |logged| <= 5
      ensures r.Done? ==> Confined(old(disk[..]), disk[..], logged) && Noted(old(dinode[..]), dinode[..], sb, logged) && Beyond(sb, logged)
      ensures r.OutOfBlocks? ==> AllUsed(View(), sb)
      ensures r.OutOfBlocks? ==> off + |src| > 512 * BlocksFor(old(inode[i]).size)
    {
      var refused := off > inode[i].size || (off + |src|) % TWO_32 < off || (off + |src|) % TWO_32 > MAXBYTES;
      WriteRefused(View(), sb, i, off, |src|);
      if refused {
        r := Refused;
      } else {
        r := WriteOrStop(i, src, off);
      }
    }

    method WriteOrStop(i: nat, src: seq<Byte>, off: nat) returns (r: Outcome)
      requires Synced() && i < inode.Length && off <= inode[i].size && off + |src| <= MAXBYTES
      modifies disk, inode, dinode, this`owner, this`logged, this`allocs
      ensures Valid() && !r.Refused?
      ensures r.Done? ==> r.n == |src| && Synced() && SlotsInRange(old(View()), sb) && SlotsInRange(View(), sb)
      ensures r.Done? ==> Wrote(old(View()), View(), sb, i, src, off)
      ensures r.Done? && |src| <= CHUNK ==> |logged| <= MAXOPBLOCKS
      ensures r.Done? && off % 512 + |src| <= 512 ==> |logged| <= 5
      ensures r.Done? ==> Confined(old(disk[..]), disk[..], logged) && Noted(old(dinode[..]), dinode[..], sb, logged) && Beyond(sb, logged)
      ensures r.OutOfBlocks? ==> AllUsed(View(), sb)
      ensures r.OutOfBlocks? ==> off + |src| > 512 * BlocksFor(old(inode[i]).size)
    {
      var ok := WriteAll(i, src, off);
      r := if ok then Done(|src|) else OutOfBlocks;
    }

    // ---- readi -----------------------------------------------------------------

    /** readi: the bytes from off on, at most n, clipped to the file's size.  It changes
        nothing: every block it asks bmap for exists. */
    method Readi(i: nat, off: nat, n: nat) returns (r: Outcome, dst: seq<Byte>)
      requires Synced() && i < inode.Length && off < TWO_32 && n < TWO_32
      modifies disk, inode, this`owner, this`logged, this`allocs
      ensures Synced() && View() == old(View()) && logged == old(logged) && SlotsInRange(View(), sb)
      ensures r.Refused? <==> off > inode[i].size || off + n >= TWO_32
      ensures !r.Refused? ==> r == Done(Clipped(inode[i].size, off, n))
      ensures !r.Refused? ==> r.n <= n && off + r.n <= inode[i].size && (r.n == n || off + r.n == inode[i].size)
      ensures !r.Refused? ==> dst == Bytes(View(), sb, i)[off..off + r.n]
    {
      hide Owned, FilesOk, Bytes;
      var size := inode[i].size;
      var refused := off > size || (off + n) % TWO_32 < off;
      Wraps(off, n);
      if refused {
        OwnedInRange(View(), sb, owner, {});
        r, dst := Refused, [];
      } else {
        var len := Clipped(size, off, n);
        dst := ReadClipped(i, off, len);
        r := Done(len);
      }
    }

    method ReadClipped(i: nat, off: nat, n: nat) returns (dst: seq<Byte>)
      requires Synced() && i < inode.Length && off + n <= inode[i].size
      modifies disk, inode, this`owner, this`logged, this`allocs
      ensures Synced() && View() == old(View()) && logged == old(logged) && SlotsInRange(View(), sb)
      ensures dst == Bytes(View(), sb, i)[off..off + n]
    {
      OwnedInRange(View(), sb, owner, {});
      dst := ReadLoop(i, off, n);
      SoFarIsSlice(View(), sb, i, off, n, dst);
    }

    method ReadLoop(i: nat, off: nat, n: nat) returns (dst: seq<Byte>)
      requires Synced() && i < inode.Length && off + n <= inode[i].size && SlotsInRange(View(), sb)
      modifies disk, inode, this`owner, this`logged, this`allocs
      ensures Synced() && View() == old(View()) && logged == old(logged)
      ensures ReadSoFar(View(), sb, i, off, n, dst)
    {
      ghost var v, l := View(), logged;
      dst := [];
      var tot := 0;
      while tot < n
        invariant tot <= n && Synced() && View() == v && logged == l
        invariant ReadSoFar(v, sb, i, off, tot, dst)
      {
        dst, tot := ReadRound(i, off, n, tot, dst);
      }
    }

    method ReadRound(i: nat, off: nat, n: nat, tot: nat, dst: seq<Byte>) returns (dst': seq<Byte>, t: nat)
      requires Synced() && i < inode.Length && off + n <= inode[i].size && tot < n
      requires SlotsInRange(View(), sb) && ReadSoFar(View(), sb, i, off, tot, dst)
      modifies disk, inode, this`owner, this`logged, this`allocs
      ensures Synced() && View() == old(View()) && logged == old(logged)
      ensures tot < t <= n && ReadSoFar(View(), sb, i, off, t, dst')
    {
      var p := off + tot;
      var a := MapExisting(i, p / 512);
      var m := if n - tot < 512 - p % 512 then n - tot else 512 - p % 512;
      t := tot + m;
      dst' := dst + disk[a][p % 512..p % 512 + m];
      ReadMore(View(), sb, i, off, tot, t, p, disk[a], dst);
    }

    /** bmap inside a file allocates nothing. */
    method MapExisting(i: nat, bn: nat) returns (a: nat)
      requires Synced() && i < inode.Length && bn < BlocksFor(inode[i].size)
      modifies disk, inode, this`owner, this`logged, this`allocs
      ensures Synced() && View() == old(View()) && logged == old(logged)
      ensures bn < MAXFILE && a == Slot(View(), i, bn) != 0
    {
      assert NoHoles(View(), sb, i, BlocksFor(inode[i].size));
      var r := Bmap(i, bn);
      a := r.value;
    }

    // ---- itrunc ----------------------------------------------------------------

    /** itrunc.  Every bfree it makes finds its block in use. */
    method Itrunc(i: nat)
      requires Synced() && i < inode.Length
      modifies disk, inode, dinode, this`owner, this`logged
      ensures Synced() && SlotsInRange(old(View()), sb) && SlotsInRange(View(), sb)
      ensures Truncated(old(View()), View(), sb, i)
      ensures Confined(old(disk[..]), disk[..], logged) && Noted(old(dinode[..]), dinode[..], sb, logged)
      ensures old(logged) <= logged <= old(logged) + MapBlocks(sb) + {IBlock(sb, i)}
      ensures |logged - old(logged)| <= (sb.size + 4095) / 4096 + 1
    {
      hide Owned, DirectFreed, Truncated, FilesOk, MapBlocks;
      ghost var v, o, l := View(), owner, logged;
      FreeDirect(i);
      FreeIndirect(i, v);
      FreedMeansTruncated(v, View(), sb, o, owner, i);
      inode[i] := Inode(0, inode[i].addrs);
      Iupdate(i);
      FewMapAndOne(sb, IBlock(sb, i), logged - l);
    }

    method FreeDirect(i: nat)
      requires Valid() && i < inode.Length
      modifies disk, inode, this`owner, this`logged
      ensures Valid() && DirectFreed(old(View()), View(), sb, owner, i, NDIRECT)
      ensures Confined(old(disk[..]), disk[..], logged) && old(logged) <= logged <= old(logged) + MapBlocks(sb)
    {
      ghost var v := View();
      var j := 0;
      while j < NDIRECT
        invariant j <= NDIRECT && Valid() && DirectFreed(v, View(), sb, owner, i, j)
        invariant Confined(v.disk, disk[..], logged) && old(logged) <= logged <= old(logged) + MapBlocks(sb)
      {
        FreeSlot(i, j, v);
        j := j + 1;
      }
    }

    method FreeSlot(i: nat, j: nat, ghost v: Fs)
      requires Valid() && j < NDIRECT && DirectFreed(v, View(), sb, owner, i, j)
      modifies disk, inode, this`owner, this`logged
      ensures Valid() && DirectFreed(v, View(), sb, owner, i, j + 1)
      ensures Confined(old(disk[..]), disk[..], logged) && old(logged) <= logged <= old(logged) + MapBlocks(sb)
    {
      var b := inode[i].addrs[j];
      if b != 0 {
        DirectStep(v, View(), sb, owner, i, j);
        ghost var o := owner - {b};
        Release(i, j);
        Record(o);
      }
    }

    method Release(i: nat, j: nat)
      requires SuperOk(sb, disk.Length, inode.Length) && i < inode.Length && j < NDIRECT
      requires |inode[i].addrs| == NDIRECT + 1 && Ind(View(), i) < disk.Length
      requires inode[i].addrs[j] < sb.size && Used(View(), sb, inode[i].addrs[j])
      modifies disk, inode, this`logged
      ensures View() == WithSlot(Cleared(old(View()), sb, old(inode[i]).addrs[j]), i, j, 0)
      ensures Confined(old(disk[..]), disk[..], logged) && old(logged) <= logged <= old(logged) + MapBlocks(sb)
    {
      Bfree(inode[i].addrs[j]);
      inode[i] := Inode(inode[i].size, inode[i].addrs[j := 0]);
    }

    /** If there is an indirect block, the blocks of its entries go, and then it goes itself. */
    method FreeIndirect(i: nat, ghost v: Fs)
      requires Valid() && DirectFreed(v, View(), sb, owner, i, NDIRECT)
      modifies disk, inode, this`owner, this`logged
      ensures Valid() && DirectFreed(v, View(), sb, owner, i, MAXFILE) && Ind(View(), i) == 0
      ensures Confined(old(disk[..]), disk[..], logged) && old(logged) <= logged <= old(logged) + MapBlocks(sb)
    {
      ghost var m, o := View(), owner;
      if inode[i].addrs[NDIRECT] != 0 {
        ghost var rest, dangling := FreeEntries(i);
        FreeLast(i, m, rest, dangling);
      } else {
        NoEntries(m, sb, owner, i);
      }
      ThenEntries(v, m, View(), sb, o, owner, i);
    }

    method FreeEntries(i: nat) returns (ghost rest: map<nat, Owner>, ghost dangling: set<Owner>)
      requires Valid() && i < inode.Length && Ind(View(), i) != 0
      modifies disk, this`logged
      ensures EntriesFreed(old(View()), View(), sb, rest, dangling, i, MAXFILE)
      ensures Confined(old(disk[..]), disk[..], logged) && old(logged) <= logged <= old(logged) + MapBlocks(sb)
    {
      ghost var v := View();
      rest, dangling := owner, {};
      var j := 0;
      while j < NINDIRECT
        invariant j <= NINDIRECT && EntriesFreed(v, View(), sb, rest, dangling, i, NDIRECT + j)
        invariant Confined(v.disk, disk[..], logged) && old(logged) <= logged <= old(logged) + MapBlocks(sb)
      {
        rest, dangling := FreeEntry(i, j, v, rest, dangling);
        j := j + 1;
      }
    }

    method FreeEntry(i: nat, j: nat, ghost v: Fs, ghost rest: map<nat, Owner>, ghost dangling: set<Owner>)
      returns (ghost rest': map<nat, Owner>, ghost dangling': set<Owner>)
      requires EntriesFreed(v, View(), sb, rest, dangling, i, NDIRECT + j) && j < NINDIRECT && Ind(View(), i) != 0
      modifies disk, this`logged
      ensures EntriesFreed(v, View(), sb, rest', dangling', i, NDIRECT + j + 1)
      ensures Confined(old(disk[..]), disk[..], logged) && old(logged) <= logged <= old(logged) + MapBlocks(sb)
    {
      var b := Word(disk[inode[i].addrs[NDIRECT]], j);
      rest', dangling' := rest, dangling;
      if b != 0 {
        EntryStep(v, View(), sb, rest, dangling, i, NDIRECT + j);
        Bfree(b);
        rest', dangling' := rest - {b}, dangling + {Data(i, NDIRECT + j)};
      }
    }

    method FreeLast(i: nat, ghost m: Fs, ghost rest: map<nat, Owner>, ghost dangling: set<Owner>)
      requires inode != dinode && dinode.Length == inode.Length
      requires EntriesFreed(m, View(), sb, rest, dangling, i, MAXFILE) && Ind(View(), i) != 0
      requires forall k :: 0 <= k < NDIRECT ==> Slot(m, i, k) == 0
      modifies disk, inode, this`owner, this`logged
      ensures Valid() && DirectFreed(m, View(), sb, owner, i, MAXFILE) && Ind(View(), i) == 0
      ensures Confined(old(disk[..]), disk[..], logged) && old(logged) <= logged <= old(logged) + MapBlocks(sb)
    {
      var b := inode[i].addrs[NDIRECT];
      LastStep(m, View(), sb, rest, dangling, i);
      Bfree(b);
      inode[i] := Inode(inode[i].size, inode[i].addrs[NDIRECT := 0]);
      Record(rest - {b});
    }

    /** Since the state v, only file i's block k and its indirect block may have been
        added; every file reads as before. */
    ghost predicate Grown(v: Fs, i: nat, k: nat)
      reads this, disk, inode
    {
      && WellFormed(v, sb) && WellFormed(View(), sb) && |v.inodes| == inode.Length && i < inode.Length && k < MAXFILE
      && GrownFrom(v, View(), sb, i, k)
    }
  }

  /** An on-disk inode that changed is in a logged block. */
  ghost predicate Noted(n0: seq<Inode>, n: seq<Inode>, sb: Super, l: set<nat>) {
    |n| == |n0| && forall i {:trigger n[i]} :: 0 <= i < |n| && IBlock(sb, i) !in l ==> n[i] == n0[i]
  }

  /** The metadata blocks that operations write come after the log. */
  function FirstHome(sb: Super): nat {
    if sb.inodestart < sb.bmapstart then sb.inodestart else sb.bmapstart
  }

  ghost predicate Beyond(sb: Super, l: set<nat>) {
    forall b :: b in l ==> FirstHome(sb) <= b < sb.size
  }

  lemma NewBeyond(sb: Super, size: nat, ninodes: nat, b: nat)
    requires SuperOk(sb, size, ninodes) && sb.nmeta <= b < sb.size
    ensures Beyond(sb, {BBlock(sb, b), b})
  {
  }

  /** The blocks that a new slot adds to the transaction. */
  lemma SlotBeyond(v: Fs, sb: Super, owner: map<nat, Owner>, i: nat, b: nat, l: set<nat>)
    requires Owned(v, sb, owner, {}, {}) && i < |v.inodes| && sb.nmeta <= b < sb.size
    ensures Beyond(sb, l) ==> Beyond(sb, l + {BBlock(sb, b), b})
    ensures Beyond(sb, l) && Ind(v, i) != 0 ==> Beyond(sb, l + {BBlock(sb, b), b} + {Ind(v, i)})
  {
    NewBeyond(sb, |v.disk|, |v.inodes|, b);
    if Ind(v, i) != 0 {
      IndPlace(v, sb, owner, {}, {}, i);
      NewBeyond(sb, |v.disk|, |v.inodes|, Ind(v, i));
    }
  }

  lemma InodeBeyond(sb: Super, size: nat, ninodes: nat, l: set<nat>, i: nat)
    requires SuperOk(sb, size, ninodes) && i < ninodes && Beyond(sb, l)
    ensures Beyond(sb, l + {IBlock(sb, i)})
  {
  }

  /** The blocks of the free map. */
  ghost function MapBlocks(sb: Super): set<nat> {
    MapBlocksTo(sb, sb.size)
  }

  /** Those with the bits of blocks 0 .. n-1. */
  ghost function MapBlocksTo(sb: Super, n: nat): set<nat> {
    set b | 0 <= b < n :: BBlock(sb, b)
  }

  lemma {:induction false} FewMapBlocks(sb: Super, n: nat)
    ensures |MapBlocksTo(sb, n)| <= (n + 4095) / 4096
  {
    if n != 0 {
      var m, last := MapBlocksTo(sb, n - 1), BBlock(sb, n - 1);
      FewMapBlocks(sb, n - 1);
      forall x | x in MapBlocksTo(sb, n) ensures x in m || x == last {
        var b :| 0 <= b < n && BBlock(sb, b) == x;
        assert b < n - 1 ==> BBlock(sb, b) in m;
      }
      SubsetSize(MapBlocksTo(sb, n), m + {last});
      AddOne(m, last);
      if (n - 1) % 4096 != 0 {
        assert BBlock(sb, n - 2) == last;
        assert m + {last} == m;
      }
    }
  }

  lemma FewMapAndOne(sb: Super, b: nat, l: set<nat>)
    requires l <= MapBlocks(sb) + {b}
    ensures |l| <= (sb.size + 4095) / 4096 + 1
  {
    FewMapBlocks(sb, sb.size);
    AddOne(MapBlocks(sb), b);
    SubsetSize(l, MapBlocks(sb) + {b});
  }

  function EmptyInode(): Inode {
    Inode(0, seq(NDIRECT + 1, _ => 0))
  }

  ghost function MetaOwners(sb: Super): map<nat, Owner> {
    map b: nat | b < sb.nmeta && IsMeta(sb, b) :: Meta
  }

  predicate IsMeta(sb: Super, b: nat) {
    b < sb.nmeta
  }

  ghost predicate OnlyMetaUsed(fs: Fs, sb: Super)
    requires SuperOk(sb, |fs.disk|, |fs.inodes|)
  {
    forall b {:trigger Used(fs, sb, b)} :: 0 <= b < sb.size ==> (Used(fs, sb, b) <==> b < sb.nmeta)
  }

  lemma NoFiles(fs: Fs, sb: Super)
    requires SuperOk(sb, |fs.disk|, |fs.inodes|) && forall i :: 0 <= i < |fs.inodes| ==> fs.inodes[i] == EmptyInode()
    requires OnlyMetaUsed(fs, sb)
    ensures Owned(fs, sb, MetaOwners(sb), {}, {}) && FilesOk(fs, sb)
  {
    forall i, k | 0 <= i < |fs.inodes| && 0 <= k < MAXFILE ensures Slot(fs, i, k) == 0 {
      assert fs.inodes[i] == EmptyInode();
    }
  }

  ghost predicate BmapCharge(v: Fs, w: Fs, sb: Super, i: nat, bn: nat,
                             logged0: set<nat>, logged: set<nat>, allocs0: nat, allocs: nat)
    requires WellFormed(v, sb) && WellFormed(w, sb) && i < |v.inodes| == |w.inodes| && bn < MAXFILE
  {
    var a, ind := Slot(w, i, bn), Ind(w, i);
    if Slot(v, i, bn) != 0 then logged == logged0 && allocs == allocs0
    else if bn < NDIRECT then logged == logged0 + {BBlock(sb, a), a} && allocs == allocs0 + 1
    else if Ind(v, i) != 0 then logged == logged0 + {BBlock(sb, a), a} + {ind} && allocs == allocs0 + 1
    else logged == logged0 + {BBlock(sb, ind), ind} + {BBlock(sb, a), a} + {ind} && allocs == allocs0 + 2
  }

  // ---- the transaction budget ------------------------------------------------------

  const CHUNK: nat := (MAXOPBLOCKS - 1 - 1 - 2) / 2 * BSIZE

  /** The number of blocks that bytes off .. off+tot-1 touch. */
  function Touched(off: nat, tot: nat): nat {
    if tot == 0 then 0 else (off + tot - 1) / 512 - off / 512 + 1
  }

  /** What writei has logged after touching t blocks: their data blocks, at most one map
      block for each allocation, and the indirect block.  When it starts inside a block,
      that block already exists, so there is one allocation fewer. */
  ghost predicate Spent(v: Fs, w: Fs, sb: Super, i: nat, off: nat, t: nat,
                        logged: set<nat>, allocs: nat, data: set<nat>, maps: set<nat>)
    requires WellFormed(v, sb) && WellFormed(w, sb) && i < |v.inodes| == |w.inodes|
  {
    && logged <= data + maps + (if Ind(w, i) == 0 then {} else {Ind(w, i)})
    && |data| <= t && |maps| <= allocs
    && (t == 0 ==> allocs == 0)
    && (t > 0 ==> allocs <= t - (if off % 512 == 0 then 0 else 1) + (if Ind(v, i) == 0 && Ind(w, i) != 0 then 1 else 0))
    && (Ind(v, i) != 0 ==> Ind(w, i) != 0)
  }

  ghost function MapsOf(v: Fs, w: Fs, sb: Super, i: nat, bn: nat): set<nat>
    requires WellFormed(v, sb) && WellFormed(w, sb) && i < |v.inodes| == |w.inodes| && bn < MAXFILE
  {
    if Slot(v, i, bn) != 0 then {}
    else {BBlock(sb, Slot(w, i, bn))} + if bn < NDIRECT || Ind(v, i) != 0 then {} else {BBlock(sb, Ind(w, i))}
  }

  /** writei starts at or before the end of the file: a block it enters in the middle is there. */
  lemma FirstBlockExists(v: Fs, w: Fs, sb: Super, i: nat, src: seq<Byte>, off: nat, tot: nat)
    requires WellFormed(v, sb) && WellFormed(w, sb) && |v.inodes| == |w.inodes| && i < |v.inodes|
    requires SlotsInRange(v, sb) && SlotsInRange(w, sb) && Written(v, w, sb, i, src, off, tot) && tot < |src|
    requires tot == 0 || (off + tot) % 512 == 0
    ensures (off + tot) / 512 < MAXFILE
    ensures tot == 0 && off % 512 != 0 ==> Slot(w, i, off / 512) != 0
  {
  }

  /** Only a block that the file did not have before has to be allocated. */
  lemma BeyondLast(v: Fs, w: Fs, sb: Super, i: nat, src: seq<Byte>, off: nat, tot: nat)
    requires WellFormed(v, sb) && WellFormed(w, sb) && |v.inodes| == |w.inodes| && i < |v.inodes|
    requires SlotsInRange(v, sb) && SlotsInRange(w, sb) && Written(v, w, sb, i, src, off, tot) && tot < |src|
    requires (off + tot) / 512 < MAXFILE && Slot(w, i, (off + tot) / 512) == 0
    ensures off + |src| > 512 * BlocksFor(v.inodes[i].size)
  {
  }

  /** min(n - tot, BSIZE - off % BSIZE) */
  function RoundLength(n: nat, off: nat, tot: nat): nat
    requires tot < n
  {
    if n - tot < 512 - (off + tot) % 512 then n - tot else 512 - (off + tot) % 512
  }

  /** One round fills the block up or finishes the write. */
  lemma RoundSize(n: nat, off: nat, tot: nat, t: nat)
    requires tot < n && (tot == 0 || (off + tot) % 512 == 0) && t == tot + RoundLength(n, off, tot)
    ensures tot < t <= n && (off + tot) % 512 + (t - tot) <= 512
    ensures t == n || (off + t) % 512 == 0
    ensures Touched(off, t) == Touched(off, tot) + 1
  {
  }

  /** How many of the n bytes from off on the file has. */
  function Clipped(size: nat, off: nat, n: nat): nat
    requires off <= size
  {
    if off + n > size then size - off else n
  }

  /** dst holds the tot bytes of file i from off on. */
  ghost predicate ReadSoFar(v: Fs, sb: Super, i: nat, off: nat, tot: nat, dst: seq<Byte>)
    requires WellFormed(v, sb) && SlotsInRange(v, sb) && i < |v.inodes|
  {
    |dst| == tot && off + tot <= MAXBYTES && forall o {:trigger dst[o]} :: 0 <= o < tot ==> dst[o] == ByteAt(v, i, off + o)
  }

  /** The bytes of one block follow those read before. */
  lemma ReadMore(v: Fs, sb: Super, i: nat, off: nat, tot: nat, t: nat, p: nat, b: Block, dst: seq<Byte>)
    requires WellFormed(v, sb) && SlotsInRange(v, sb) && i < |v.inodes| && p == off + tot
    requires tot < t && off + t <= MAXBYTES && p % 512 + (t - tot) <= 512
    requires b == Content(v, i, p / 512) && ReadSoFar(v, sb, i, off, tot, dst)
    ensures ReadSoFar(v, sb, i, off, t, dst + b[p % 512..p % 512 + (t - tot)])
  {
    var d := dst + b[p % 512..p % 512 + (t - tot)];
    forall o {:trigger d[o]} | 0 <= o < t ensures d[o] == ByteAt(v, i, off + o) {
      if tot <= o {
        SameBlock(p, o - tot);
      }
    }
  }

  lemma SameBlock(p: nat, m: nat)
    requires p % 512 + m < 512
    ensures (p + m) / 512 == p / 512 && (p + m) % 512 == p % 512 + m
  {
  }

  lemma SoFarIsSlice(v: Fs, sb: Super, i: nat, off: nat, n: nat, dst: seq<Byte>)
    requires WellFormed(v, sb) && SlotsInRange(v, sb) && i < |v.inodes| && off + n <= v.inodes[i].size <= MAXBYTES
    requires ReadSoFar(v, sb, i, off, n, dst)
    ensures dst == Bytes(v, sb, i)[off..off + n]
  {
  }

  lemma Wraps(off: nat, n: nat)
    requires off < TWO_32 && n < TWO_32
    ensures (off + n) % TWO_32 < off <==> off + n >= TWO_32
  {
  }

  /** The uint tests, wrap-around included, say what the plain sum says. */
  lemma WriteRefused(v: Fs, sb: Super, i: nat, off: nat, n: nat)
    requires WellFormed(v, sb) && FilesOk(v, sb) && i < |v.inodes| && off < TWO_32 && n < TWO_32
    ensures (off > v.inodes[i].size || (off + n) % TWO_32 < off || (off + n) % TWO_32 > MAXBYTES)
            <==> off > v.inodes[i].size || off + n > MAXBYTES
  {
  }

  lemma NothingWritten(v: Fs, sb: Super, owner: map<nat, Owner>, i: nat, src: seq<Byte>, off: nat)
    requires Owned(v, sb, owner, {}, {}) && FilesOk(v, sb) && i < |v.inodes|
    requires off <= v.inodes[i].size && off + |src| <= MAXBYTES
    ensures SlotsInRange(v, sb) && Written(v, v, sb, i, src, off, 0)
    ensures Spent(v, v, sb, i, off, Touched(off, 0), {}, 0, {}, {})
  {
    OwnedInRange(v, sb, owner, {});
  }

  lemma AddOne(s: set<nat>, x: nat)
    ensures |s + {x}| <= |s| + 1
  {
    if x in s {
      assert s + {x} == s;
    }
  }

  /** One round spends what Spent allows. */
  lemma SpentRound(v: Fs, w0: Fs, w1: Fs, sb: Super, i: nat, off: nat, t: nat, bn: nat,
                   logged0: set<nat>, allocs0: nat, data: set<nat>, maps: set<nat>, logged1: set<nat>, allocs1: nat)
    requires WellFormed(v, sb) && WellFormed(w0, sb) && WellFormed(w1, sb)
    requires |v.inodes| == |w0.inodes| == |w1.inodes| && i < |v.inodes| && bn < MAXFILE
    requires Spent(v, w0, sb, i, off, t, logged0, allocs0, data, maps)
    requires BmapCharge(w0, w1, sb, i, bn, logged0, logged1, allocs0, allocs1)
    requires Ind(w1, i) == Ind(w0, i) || (NDIRECT <= bn && Ind(w0, i) == 0 && Ind(w1, i) != 0)
    requires Slot(w0, i, bn) != 0 ==> Ind(w1, i) == Ind(w0, i)
    requires t == 0 && off % 512 != 0 ==> Slot(w0, i, bn) != 0
    requires bn < NDIRECT ==> Ind(w1, i) == Ind(w0, i)
    requires NDIRECT <= bn && Slot(w0, i, bn) == 0 ==> Ind(w1, i) != 0
    ensures var a := Slot(w1, i, bn);
            Spent(v, w1, sb, i, off, t + 1, logged1 + {a}, allocs1, data + {a}, maps + MapsOf(w0, w1, sb, i, bn))
  {
    AddOne(data, Slot(w1, i, bn));
    AddOne(maps, BBlock(sb, Slot(w1, i, bn)));
    AddOne(maps + {BBlock(sb, Slot(w1, i, bn))}, BBlock(sb, Ind(w1, i)));
    assert maps + ({BBlock(sb, Slot(w1, i, bn))} + {BBlock(sb, Ind(w1, i))})
           == maps + {BBlock(sb, Slot(w1, i, bn))} + {BBlock(sb, Ind(w1, i))};
  }

  /** With the closing iupdate. */
  lemma WholeCharge(v: Fs, w: Fs, sb: Super, i: nat, off: nat, t: nat,
                    logged: set<nat>, allocs: nat, data: set<nat>, maps: set<nat>)
    requires WellFormed(v, sb) && WellFormed(w, sb) && i < |v.inodes| == |w.inodes|
    requires Spent(v, w, sb, i, off, t, logged, allocs, data, maps)
    ensures |logged + {IBlock(sb, i)}| <= t + allocs + (if Ind(w, i) == 0 then 0 else 1) + 1
  {
    var ind := if Ind(w, i) == 0 then {} else {Ind(w, i)};
    var all := data + maps + ind + {IBlock(sb, i)};
    AddOne(data + maps + ind, IBlock(sb, i));
    AddOne(data + maps, Ind(w, i));
    assert |data + maps| <= |data| + |maps|;
    assert logged + {IBlock(sb, i)} <= all;
    SubsetSize(logged + {IBlock(sb, i)}, all);
  }

  /** A chunk that touches the blocks of at most CHUNK bytes, closing iupdate included,
      fits in MAXOPBLOCKS. */
  lemma ChunkFits(v: Fs, w: Fs, sb: Super, i: nat, off: nat, n: nat,
                  logged: set<nat>, allocs: nat, data: set<nat>, maps: set<nat>)
    requires WellFormed(v, sb) && WellFormed(w, sb) && i < |v.inodes| == |w.inodes|
    requires n <= CHUNK && Spent(v, w, sb, i, off, Touched(off, n), logged, allocs, data, maps)
    ensures |logged + {IBlock(sb, i)}| <= MAXOPBLOCKS
  {
    WholeCharge(v, w, sb, i, off, Touched(off, n), logged, allocs, data, maps);
  }

  /** A write within one block, such as a directory entry. */
  lemma WithinBlockFits(v: Fs, w: Fs, sb: Super, i: nat, off: nat, n: nat,
                        logged: set<nat>, allocs: nat, data: set<nat>, maps: set<nat>)
    requires WellFormed(v, sb) && WellFormed(w, sb) && i < |v.inodes| == |w.inodes|
    requires off % 512 + n <= 512 && Spent(v, w, sb, i, off, Touched(off, n), logged, allocs, data, maps)
    ensures |logged + {IBlock(sb, i)}| <= 5
  {
    WholeCharge(v, w, sb, i, off, Touched(off, n), logged, allocs, data, maps);
  }

  lemma GrownElsewhere(v: Fs, w: Fs, sb: Super, i: nat, k: nat)
    requires WellFormed(v, sb) && WellFormed(w, sb) && |v.inodes| == |w.inodes| && i < |v.inodes| && k < MAXFILE
    requires GrownFrom(v, w, sb, i, NDIRECT) && forall k :: 0 <= k < MAXFILE ==> Slot(w, i, k) == Slot(v, i, k)
    ensures GrownFrom(v, w, sb, i, k)
  {
  }

  lemma GrownTwice(v: Fs, m: Fs, w: Fs, sb: Super, i: nat, k: nat)
    requires WellFormed(v, sb) && WellFormed(m, sb) && WellFormed(w, sb)
    requires |v.inodes| == |m.inodes| == |w.inodes| && i < |v.inodes| && k < MAXFILE
    requires GrownFrom(v, m, sb, i, NDIRECT) && forall k :: 0 <= k < MAXFILE ==> Slot(m, i, k) == Slot(v, i, k)
    requires GrownFrom(m, w, sb, i, k)
    ensures GrownFrom(v, w, sb, i, k)
  {
    forall i', k' | 0 <= i' < |v.inodes| && 0 <= k' < MAXFILE
      ensures Content(w, i', k') == Content(v, i', k')
      ensures !(i' == i && k' == k) ==> Slot(w, i', k') == Slot(v, i', k')
    {
      assert Slot(m, i', k') == Slot(v, i', k') && Content(m, i', k') == Content(v, i', k');
    }
  }

  lemma AllocSlotKeeps(v: Fs, sb: Super, owner: map<nat, Owner>, i: nat, k: nat, b: nat)
    requires Owned(v, sb, owner, {}, {}) && i < |v.inodes| && k < MAXFILE && Slot(v, i, k) == 0
    requires k >= NDIRECT ==> Ind(v, i) != 0
    requires b < sb.size && !Used(v, sb, b)
    ensures sb.nmeta <= b && Ind(v, i) < |v.disk|
    ensures var w := WithSlot(Marked(v, sb, b), i, k, b);
            && Owned(w, sb, owner[b := Data(i, k)], {}, {})
            && GrownFrom(v, w, sb, i, k) && Slot(w, i, k) == b && Ind(w, i) == Ind(v, i)
  {
    var m := Marked(v, sb, b);
    MarkKeeps(v, sb, owner, {}, {}, b);
    MarkContents(v, sb, owner, {}, b);
    LinkKeeps(m, sb, owner, {}, {} + {b}, i, k, b);
    LinkContents(m, sb, owner, {} + {b}, i, k, b);
    WithSlotEffect(m, sb, owner, {}, {} + {b}, i, k, b);
    var w := WithSlot(m, i, k, b);
    assert {} + {b} - {b} == {};
    assert {} - {Data(i, k)} == {};
    forall i', k' | 0 <= i' < |v.inodes| && 0 <= k' < MAXFILE ensures Content(w, i', k') == Content(v, i', k') {
      assert Slot(m, i', k') == Slot(v, i', k');
    }
  }

  lemma AllocIndKeeps(v: Fs, sb: Super, owner: map<nat, Owner>, i: nat, b: nat)
    requires Owned(v, sb, owner, {}, {}) && i < |v.inodes| && Ind(v, i) == 0
    requires b < sb.size && !Used(v, sb, b)
    ensures sb.nmeta <= b
    ensures var w := WithAddr(Marked(v, sb, b), i, NDIRECT, b);
            && Owned(w, sb, owner[b := Indirect(i)], {}, {}) && GrownFrom(v, w, sb, i, NDIRECT)
            && forall k :: 0 <= k < MAXFILE ==> Slot(w, i, k) == Slot(v, i, k)
  {
    var m := Marked(v, sb, b);
    MarkKeeps(v, sb, owner, {}, {}, b);
    MarkContents(v, sb, owner, {}, b);
    LinkIndKeeps(m, sb, owner, {}, {} + {b}, i, b);
    LinkIndContents(m, sb, owner, {} + {b}, i, b);
    var w := WithAddr(m, i, NDIRECT, b);
    assert {} + {b} - {b} == {};
    forall i', k' | 0 <= i' < |v.inodes| && 0 <= k' < MAXFILE
      ensures Content(w, i', k') == Content(v, i', k') && Slot(w, i', k') == Slot(v, i', k')
    {
      assert Slot(m, i', k') == Slot(v, i', k');
    }
  }

  lemma InBlock(b: nat, bi: nat)
    requires b % BITS_PER_BLOCK == 0 && bi < BITS_PER_BLOCK
    ensures (b + bi) / BITS_PER_BLOCK == b / BITS_PER_BLOCK && (b + bi) % BITS_PER_BLOCK == bi
  {
  }
}