/** One file-system operation as the log's callers write it: begin_op, for each block
    bread, a change, log_write and brelse, then end_op.  It shows that the contracts of
    the log fit together from start to end, and what the caller gets. */
module Transaction {
  import opened Blocks
  import opened RedoLog
  import Ring = LruRing
  import Admission = LogAdmission
  import BC = BufferCache
  import L = Log

  /** Where the kernel would sleep (on the log, on a buffer) or run out of buffers, the
      operation stops. */
  datatype Outcome = NotAdmitted | Stopped | Ended(committed: bool)

  /** A process that is in no operation and waits for no buffer. */
  ghost predicate Outside(log: L.Log, pid: nat)
    reads log, log.cache
  {
    pid != 0 && pid !in log.ops && |log.cache.waiting| == Ring.NBUF
    && forall k :: 0 <= k < Ring.NBUF ==> pid !in log.cache.waiting[k]
  }

  /** An active operation between its log_writes: it holds no modified buffer. */
  ghost predicate Between(log: L.Log, pid: nat, i: nat)
    requires log.n <= log.block.Length
    reads log, log.block, log.cache, log.cache.buf
  {
    && pid != 0 && pid in log.ops && |log.ops[pid]| <= i && Admission.Inv(log.View())
    && |log.cache.waiting| == Ring.NBUF && log.cache.buf.Length == 31
    && (forall k :: 0 <= k < Ring.NBUF ==> pid !in log.cache.waiting[k])
    && HoldsNone(log.cache.buf[..], log.cache.pending, pid)
  }

  ghost predicate HoldsNone(s: Ring.Bufs, pending: map<nat, nat>, pid: nat) {
    forall b :: b in pending ==> pending[b] < Ring.NBUF && s[pending[b]].holder != pid
  }

  /** From bread (s to t) over the change and log_write (t to u) to brelse (u to v). */
  lemma HoldsNoneAgain(s: Ring.Bufs, t: Ring.Bufs, u: Ring.Bufs, v: Ring.Bufs, b: nat, x: Ring.Buf,
                       pending: map<nat, nat>, blockno: nat, pid: nat)
    requires HoldsNone(s, pending, pid) && pid != 0 && b < Ring.NBUF
    requires Ring.OthersSame(s, t, b) && u == t[b := x] && Ring.OthersSame(u, v, b) && v[b].holder == 0
    ensures HoldsNone(v, pending[blockno := b] - {blockno}, pid)
  {
    var after := pending[blockno := b] - {blockno};
    forall n | n in after ensures after[n] < Ring.NBUF && v[after[n]].holder != pid {
      assert n in pending && after[n] == pending[n];
      if after[n] != b {
        assert Ring.Core(u[after[n]]) == Ring.Core(v[after[n]]) && Ring.Core(s[after[n]]) == Ring.Core(t[after[n]]);
      }
    }
  }

  /** An operation that has logged fewer than MAXOPBLOCKS blocks does not meet
      log_write's size panic, and keeps what admission relies on. */
  lemma RoomForOne(v: Admission.View, pid: nat, b: nat)
    requires Admission.Inv(v) && v.size > LOGSIZE && pid in v.ops && |v.ops[pid]| < MAXOPBLOCKS
    ensures !Admission.TooBig(v) && |v.blks| < LOGSIZE && Admission.Inv(Admission.Write(v, pid, b))
    ensures pid in Admission.Write(v, pid, b).ops && |Admission.Write(v, pid, b).ops[pid]| <= |v.ops[pid]| + 1
  {
    Admission.UnusedBound(v.ops);
    Admission.UnusedSplit(v.ops, pid);
    Admission.UnusedBound(v.ops - {pid});
    Admission.WriteKeepsInv(v, pid, b);
  }

  /** bread, the change, log_write, brelse.  Operations that other processes have under way
      stay where they are. */
  method WriteBlock(log: L.Log, blockno: nat, data: Block, pid: nat, ghost i: nat) returns (ok: bool)
    requires log.Valid() && Between(log, pid, i) && i < MAXOPBLOCKS && log.layout.size > LOGSIZE
    requires blockno < log.cache.disk.image.Length && !InLog(log.layout, blockno)
    modifies log`n, log`ops, log.block, log.cache, log.cache.buf
    ensures log.Valid()
    ensures ok ==> Between(log, pid, i + 1) && log.cache.logical == old(log.cache.logical)[blockno := data]
    ensures ok ==> log.View() == Admission.Write(old(log.View()), pid, blockno)
    ensures ok ==> log.cache.waiting == old(log.cache.waiting)
                   && log.cache.pending == old(log.cache.pending) - {blockno}
    ensures ok ==> forall q, j: nat {:trigger Between(log, q, j)} ::
                     q != pid && old(Between(log, q, j)) ==> Between(log, q, j)
    ensures !ok ==> log.View() == old(log.View()) && log.cache.logical == old(log.cache.logical)
    ensures log.n <= old(log.n) + 1
    ensures old(log.Easy()) ==> ok && log.Easy()
  {
    hide BC.BufferCache.Valid, L.Log.Listing, L.Log.Recorded, L.Log.Counting, BC.Resting, BC.RestingBut;
    hide Admission.Inv, Admission.TooBig, Admission.Write, Ring.OthersSame, HoldsNone;
    var b;
    ghost var s: Ring.Bufs, pending, v := log.cache.buf[..], log.cache.pending, log.View();
    RoomForOne(log.View(), pid, blockno);
    b, ok := log.ReadBlock(blockno, pid);
    if !ok { return; }
    ghost var t: Ring.Bufs := log.cache.buf[..];
    log.ModifyBlock(b, data, pid);
    RoomForOne(log.View(), pid, blockno);
    ghost var easy := BC.RestingBut(t, b);
    var panicked := log.LogWrite(b, pid);
    ghost var u: Ring.Bufs := log.cache.buf[..];
    assert u == t[b := u[b]];
    log.ReleaseBlock(b);
    if easy {
      BC.StillResting(t, u, b);
      BC.LastReleased(u, log.cache.buf[..], b);
    }
    ListsOneMore(v, pid, blockno);
    BC.PutThenRemove(pending, pending, blockno, b);
    HoldsNoneAgain(s, t, u, log.cache.buf[..], b, u[b], pending, blockno, pid);
    forall q, j: nat {:trigger Between(log, q, j)} | q != pid && old(Between(log, q, j)) ensures Between(log, q, j) {
      HoldsNoneAgain(s, t, u, log.cache.buf[..], b, u[b], pending, blockno, q);
      OthersWork(v, pid, blockno, q);
    }
  }

  lemma ListsOneMore(v: Admission.View, pid: nat, b: nat)
    requires pid in v.ops
    ensures |v.blks| <= |Admission.Write(v, pid, b).blks| <= |v.blks| + 1
  {
  }

  lemma OthersWork(v: Admission.View, pid: nat, b: nat, q: nat)
    requires pid in v.ops && q in v.ops && q != pid
    ensures q in Admission.Write(v, pid, b).ops && Admission.Write(v, pid, b).ops[q] == v.ops[q]
  {
  }

  // ---- the whole operation -------------------------------------------------

  /** A disk that recovers to the home blocks of one of two disks. */
  ghost predicate OldOrNew(l: Layout, d: Disk, before: Disk, after: Disk) {
    Recoverable(l, d) && (SameHome(l, Recovered(l, d), before) || SameHome(l, Recovered(l, d), after))
  }

  lemma OneCrash(l: Layout, origin: Disk, txs: seq<Tx>, d: Disk, p: nat, after: Disk)
    requires |txs| > 0 && AllValid(l, txs, |origin|) && AllValid(l, txs[..|txs| - 1], |origin|)
    requires L.RecoversTo(l, origin, txs, d, p) && (p == |txs| - 1 || p == |txs|)
    requires SameHome(l, Effects(origin, txs), after)
    ensures OldOrNew(l, d, Effects(origin, txs[..|txs| - 1]), after)
  {
    hide Effects, Recoverable, Recovered, SameHome;
    if p == |txs| {
      assert txs[..p] == txs;
      SameHomeThrough(l, Recovered(l, d), Effects(origin, txs), after);
    }
  }

  /** What a commit says about its disk states, in terms of the blocks they recover to. */
  lemma CommitCrashes(l: Layout, origin: Disk, txs: seq<Tx>, history: seq<Disk>, survives0: seq<nat>,
                      survives: seq<nat>, n: nat, done: bool, after: Disk)
    requires |txs| > 0 && L.CrashSafe(l, origin, txs, history, survives) && AllValid(l, txs[..|txs| - 1], |origin|)
    requires L.Extended(survives0, survives, |txs| - 1, n, done) && SameHome(l, Effects(origin, txs), after)
    ensures forall k :: |survives0| <= k < |history| ==>
              OldOrNew(l, history[k], Effects(origin, txs[..|txs| - 1]), after)
  {
    forall k | |survives0| <= k < |history|
      ensures OldOrNew(l, history[k], Effects(origin, txs[..|txs| - 1]), after)
    {
      OneCrash(l, origin, txs, history[k], survives[k], after);
    }
  }

  /** What a commit adds to the log's record: the transaction whose effect is `logical`, and
      disk states of which the first recover to the transactions before it, the rest to it
      as well. */
  ghost predicate GroupCommitted(l: Layout, origin: Disk, txs0: seq<Tx>, txs: seq<Tx>, history0: seq<Disk>, history: seq<Disk>,
                            survives0: seq<nat>, survives: seq<nat>, n: nat, done: bool, logical: Disk)
  {
    && |txs| == |txs0| + 1 && txs[..|txs0|] == txs0 && AllValid(l, txs0, |origin|)
    && history0 <= history && |survives0| == |history0|
    && L.CrashSafe(l, origin, txs, history, survives) && L.Extended(survives0, survives, |txs0|, n, done)
    && SameHome(l, Effects(origin, txs), logical)
  }

  /** end_op: the last operation to leave commits; a crash during the commit leaves all
      the changes since the last commit, or none of them. */
  method EndOp(log: L.Log, pid: nat, ghost i: nat) returns (r: Outcome)
    requires log.Valid() && Between(log, pid, i)
    modifies log, log.cache, log.cache.buf, log.cache.disk, log.cache.disk.image
    ensures log.origin == old(log.origin) && AllValid(log.layout, old(log.txs), |log.origin|)
    ensures old(log.cache.disk.history) <= log.cache.disk.history
    ensures forall k :: |old(log.cache.disk.history)| <= k < |log.cache.disk.history| ==>
              OldOrNew(log.layout, log.cache.disk.history[k], Effects(log.origin, old(log.txs)), old(log.cache.logical))
    ensures r.Stopped? || r == Ended(old(log.outstanding) == 1)
    ensures old(log.outstanding) == 1 ==>
              GroupCommitted(log.layout, log.origin, old(log.txs), log.txs, old(log.cache.disk.history), log.cache.disk.history,
                        old(log.survives), log.survives, old(log.n), r.Ended?, old(log.cache.logical))
    ensures old(log.outstanding) != 1 ==>
              r.Ended? && log.txs == old(log.txs) && log.survives == old(log.survives)
              && log.cache.disk.history == old(log.cache.disk.history) && log.cache.pending == old(log.cache.pending)
    ensures r.Ended? ==> log.Valid() && Admission.Inv(log.View())
                         && SameHome(log.layout, log.cache.logical, old(log.cache.logical))
    ensures r.Ended? ==> Outside(log, pid) && log.cache.waiting == old(log.cache.waiting) && !log.committing
                         && log.ops == old(log.ops) - {pid}
    ensures r == Ended(true) ==> log.cache.disk.image[..] == log.cache.logical && log.cache.pending == map[]
    ensures r == Ended(false) ==> log.cache.logical == old(log.cache.logical)
    ensures old(log.Easy()) ==> (r.Stopped? <==> old(log.outstanding) == 1 && old(log.n) >= Ring.NBUF)
    ensures old(log.Easy()) && r.Ended? ==> log.Easy()
    ensures r.Ended? ==> log.block[..log.n] == if old(log.outstanding) == 1 then [] else old(log.block[..log.n])
  {
    hide BC.BufferCache.Valid, L.Log.Listing, Effects, L.RecoversTo, L.Surviving, Admission.Inv;
    hide BC.Resting, OldOrNew, L.Log.Recorded, L.Extended;
    TxsValid(log);
    Admission.EndKeepsInv(log.View(), pid);
    ghost var txs, survives, n, logical := log.txs, log.survives, log.n, log.cache.logical;
    var doCommit := log.EndOp(pid);
    if !doCommit { return Ended(false); }
    Admission.StepKeepsInv(log.View(), Admission.CommitDone);
    var ok := log.CommitOp(pid);
    assert log.txs[..|log.txs| - 1] == txs;
    CommitCrashes(log.layout, log.origin, log.txs, log.cache.disk.history, survives, log.survives, n, ok, logical);
    if !ok { return Stopped; }
    log.IdleOnDisk();
    NonePending(log);
    return Ended(true);
  }

  lemma TxsValid(log: L.Log)
    requires log.Valid()
    ensures AllValid(log.layout, log.txs, |log.origin|)
  {
  }

  lemma NonePending(log: L.Log)
    requires log.Valid() && log.ops == map[]
    ensures log.cache.pending == map[]
  {
  }

  /** The changes an operation asks for, done in place. */
  ghost predicate Asked(log: L.Log, blks: seq<nat>, vals: seq<Block>)
    reads log.cache, log.cache.disk
  {
    && |blks| == |vals| <= MAXOPBLOCKS && |log.cache.logical| == log.cache.disk.image.Length
    && forall i :: 0 <= i < |blks| ==> blks[i] < log.cache.disk.image.Length && !InLog(log.layout, blks[i])
  }

  method MakeChanges(log: L.Log, blks: seq<nat>, vals: seq<Block>, pid: nat) returns (ok: bool)
    requires log.Valid() && Between(log, pid, 0) && log.layout.size > LOGSIZE && Asked(log, blks, vals)
    modifies log`n, log`ops, log.block, log.cache, log.cache.buf
    ensures log.Valid() && |old(log.cache.logical)| == log.cache.disk.image.Length
    ensures ok ==> Between(log, pid, |blks|) && log.cache.logical == Effect(old(log.cache.logical), Tx(blks, vals))
    ensures ok ==> log.n <= old(log.n) + |blks| && log.outstanding == old(log.outstanding)
    ensures old(log.Easy()) ==> ok && log.Easy()
  {
    hide BC.BufferCache.Valid, L.Log.Listing, L.Log.Counting, L.Log.Recorded, Admission.Inv, HoldsNone;
    ghost var tx, logical := Tx(blks, vals), log.cache.logical;
    for i := 0 to |blks|
      invariant log.Valid() && Between(log, pid, i)
      invariant log.cache.logical == Apply(logical, tx, i)
      invariant log.n <= old(log.n) + i && log.outstanding == old(log.outstanding)
      invariant old(log.Easy()) ==> log.Easy()
    {
      ok := WriteBlock(log, blks[i], vals[i], pid, i);
      if !ok { return; }
    }
    ok := true;
  }

  /** Only active operations hold modified buffers. */
  lemma Enters(log: L.Log, pid: nat)
    requires log.Valid() && Outside(log, pid)
    ensures log.cache.buf.Length == 31 && HoldsNone(log.cache.buf[..], log.cache.pending, pid)
    ensures AllValid(log.layout, log.txs, |log.origin|)
    ensures log.outstanding == 0 && !log.committing ==> log.n == 0
  {
  }

  /** begin_op, the changes, end_op.  It is admitted exactly when there is room for one
      more operation; it never meets log_write's panic; when it ends its changes are
      what every process reads, and when it was the last to end they are on the disk.
      Cut off anywhere, the machine recovers to the blocks of the last commit or to
      those with this operation's changes, all of them. */
  method Transact(log: L.Log, blks: seq<nat>, vals: seq<Block>, pid: nat) returns (r: Outcome)
    requires log.Valid() && Outside(log, pid) && Admission.Inv(log.View()) && log.layout.size > LOGSIZE
    requires Asked(log, blks, vals)
    modifies log, log.block, log.cache, log.cache.buf, log.cache.disk, log.cache.disk.image
    ensures r == NotAdmitted <==> !Admission.Admits(old(log.View()))
    ensures r == NotAdmitted ==> log.Valid() && log.View() == old(log.View()) && log.cache.logical == old(log.cache.logical)
    ensures log.origin == old(log.origin) && AllValid(log.layout, old(log.txs), |log.origin|)
    ensures old(log.cache.disk.history) <= log.cache.disk.history
    ensures forall k :: |old(log.cache.disk.history)| <= k < |log.cache.disk.history| ==>
              OldOrNew(log.layout, log.cache.disk.history[k], Effects(log.origin, old(log.txs)),
                       Effect(old(log.cache.logical), Tx(blks, vals)))
    ensures r.Ended? ==> r.committed == (old(log.outstanding) == 0) && log.Valid() && Admission.Inv(log.View())
    ensures r.Ended? || r == NotAdmitted ==> Outside(log, pid)
    ensures r.Ended? ==> SameHome(log.layout, log.cache.logical, Effect(old(log.cache.logical), Tx(blks, vals)))
    ensures r == Ended(true) ==> log.cache.disk.image[..] == log.cache.logical
    ensures old(log.Easy()) ==> !r.Stopped? && log.Easy()
  {
    hide BC.BufferCache.Valid, L.Log.Listing, L.Log.Counting, L.Log.Recorded, Effects, L.RecoversTo;
    hide Admission.Inv, HoldsNone, OldOrNew, GroupCommitted, SameHome;
    Enters(log, pid);
    if Admission.Admits(log.View()) {
      Admission.BeginKeepsInv(log.View(), pid);
    }
    var admitted := log.BeginOp(pid);
    if !admitted { return NotAdmitted; }
    var ok := MakeChanges(log, blks, vals, pid);
    if !ok { return Stopped; }
    r := EndOp(log, pid, |blks|);
  }
}
