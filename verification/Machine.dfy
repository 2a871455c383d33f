/** A machine from power-on: it recovers and then serves the operations of many processes,
    their calls interleaved in any order, with group commit.  Whatever write the power
    fails after, the next recovery finds exactly the changes up to a moment at which no
    operation was under way. */
module Machine {
  import opened Blocks
  import opened RedoLog
  import opened Transaction
  import Ring = LruRing
  import Admission = LogAdmission
  import BC = BufferCache
  import L = Log
  import MemIde

  /** A call by process pid: begin_op, the change of one block with log_write, end_op. */
  datatype Step = Begin(pid: nat) | Put(pid: nat, blockno: nat, data: Block) | End(pid: nat)

  // ---- what a schedule means -----------------------------------------------

  /** The operations under way after i steps, with the number of changes each has made. */
  ghost function Active(steps: seq<Step>, i: nat): map<nat, nat>
    requires i <= |steps|
  {
    if i == 0 then map[] else
      var m := Active(steps, i - 1);
      match steps[i - 1]
      case Begin(p) => m[p := 0]
      case Put(p, _, _) => if p in m then m[p := m[p] + 1] else m
      case End(p) => m - {p}
  }

  /** The changes of the first i steps done in place. */
  ghost function Written(d: Disk, steps: seq<Step>, i: nat): (r: Disk)
    requires i <= |steps|
    ensures |r| == |d|
  {
    if i == 0 then d else
      var w := Written(d, steps, i - 1);
      match steps[i - 1]
      case Put(_, b, data) => if b < |w| then w[b := data] else w
      case _ => w
  }

  /** Operations begin and end properly, change home blocks, and at most MAXOPBLOCKS times. */
  ghost predicate LegalAt(l: Layout, size: nat, steps: seq<Step>, i: nat)
    requires i < |steps|
  {
    match steps[i]
    case Begin(p) => p != 0 && p !in Active(steps, i)
    case Put(p, b, _) => p in Active(steps, i) && Active(steps, i)[p] < MAXOPBLOCKS && b < size && !InLog(l, b)
    case End(p) => p in Active(steps, i)
  }

  ghost predicate Legal(l: Layout, size: nat, steps: seq<Step>) {
    forall i {:trigger LegalAt(l, size, steps, i)} :: 0 <= i < |steps| ==> LegalAt(l, size, steps, i)
  }

  /** The blocks changed since no operation was under way. */
  ghost function Since(steps: seq<Step>, i: nat): set<nat>
    requires i <= |steps|
  {
    if i == 0 || Boundary(steps, i) then {} else
      match steps[i - 1]
      case Put(_, b, _) => Since(steps, i - 1) + {b}
      case _ => Since(steps, i - 1)
  }

  /** The i-th call has to wait: begin_op for room in the log, or the commit of end_op for a
      buffer, because every one of them holds a block of the group. */
  ghost predicate Stops(steps: seq<Step>, i: nat)
    requires i < |steps|
  {
    match steps[i]
    case Begin(_) => |Since(steps, i)| + (|Active(steps, i)| + 1) * MAXOPBLOCKS > LOGSIZE
    case Put(_, _, _) => false
    case End(_) => Boundary(steps, i + 1) && |Since(steps, i)| >= Ring.NBUF
  }

  /** After i steps no operation is under way. */
  ghost predicate Boundary(steps: seq<Step>, i: nat) {
    i <= |steps| && Active(steps, i) == map[]
  }

  /** Disk d recovers to the changes of the steps up to the boundary j. */
  ghost predicate KeptAt(l: Layout, d: Disk, start: Disk, steps: seq<Step>, j: nat) {
    Boundary(steps, j) && Recoverable(l, d) && SameHome(l, Recovered(l, d), Written(start, steps, j))
  }

  /** Each disk state from h0 on recovers to the boundary that `kept` gives; later states
      never to an earlier boundary, and none to one after b. */
  ghost predicate Kept(l: Layout, history: seq<Disk>, h0: nat, start: Disk, steps: seq<Step>, kept: seq<nat>, b: nat) {
    && |history| == h0 + |kept|
    && (forall k {:trigger kept[k]} :: 0 <= k < |kept| ==> KeptAt(l, history[h0 + k], start, steps, kept[k]) && kept[k] <= b)
    && (forall j, k :: 0 <= j < k < |kept| ==> kept[j] <= kept[k])
  }

  // ---- the commit of a group of operations ----------------------------------

  /** What the new disk states of a commit recover to: the boundary b before it, or i. */
  ghost function KeptMore(kept: seq<nat>, survives: seq<nat>, s0: nat, t0: nat, b: nat, i: nat): (r: seq<nat>)
    requires s0 <= |survives|
    ensures |r| == |kept| + |survives| - s0
    ensures forall k :: 0 <= k < |r| ==>
              r[k] == if k < |kept| then kept[k] else if survives[s0 + (k - |kept|)] == t0 then b else i
  {
    kept + seq(|survives| - s0, s requires 0 <= s < |survives| - s0 => if survives[s0 + s] == t0 then b else i)
  }

  lemma StateKept(l: Layout, origin: Disk, txs0: seq<Tx>, txs: seq<Tx>, d: Disk, p: nat,
                  start: Disk, steps: seq<Step>, b: nat, i: nat)
    requires |txs| == |txs0| + 1 && txs[..|txs0|] == txs0 && AllValid(l, txs, |origin|) && AllValid(l, txs0, |origin|)
    requires L.RecoversTo(l, origin, txs, d, p) && (p == |txs0| || p == |txs|)
    requires Boundary(steps, b) && SameHome(l, Effects(origin, txs0), Written(start, steps, b))
    requires Boundary(steps, i) && SameHome(l, Effects(origin, txs), Written(start, steps, i))
    ensures KeptAt(l, d, start, steps, if p == |txs0| then b else i)
  {
    hide Effects, Recoverable, Recovered, SameHome, Active, Written;
    if p == |txs0| {
      SameHomeThrough(l, Recovered(l, d), Effects(origin, txs0), Written(start, steps, b));
    } else {
      assert txs[..p] == txs;
      SameHomeThrough(l, Recovered(l, d), Effects(origin, txs), Written(start, steps, i));
    }
  }

  lemma CommitKept(l: Layout, origin: Disk, txs0: seq<Tx>, txs: seq<Tx>, history0: seq<Disk>, history: seq<Disk>,
                   survives0: seq<nat>, survives: seq<nat>, n: nat, done: bool, logical: Disk,
                   h0: nat, start: Disk, steps: seq<Step>, kept: seq<nat>, b: nat, i: nat)
    requires GroupCommitted(l, origin, txs0, txs, history0, history, survives0, survives, n, done, logical)
    requires Kept(l, history0, h0, start, steps, kept, b) && b <= i
    requires Boundary(steps, b) && SameHome(l, Effects(origin, txs0), Written(start, steps, b))
    requires Boundary(steps, i) && SameHome(l, logical, Written(start, steps, i))
    ensures AllValid(l, txs, |origin|) && SameHome(l, Effects(origin, txs), Written(start, steps, i))
    ensures Kept(l, history, h0, start, steps, KeptMore(kept, survives, |survives0|, |txs0|, b, i), i)
    ensures |survives0| <= |survives|
  {
    hide Active, Written, KeptAt, L.RecoversTo, L.Surviving, L.Extended;
    SameHomeThrough(l, Effects(origin, txs), logical, Written(start, steps, i));
    hide Effects, SameHome;
    NewKept(l, origin, txs0, txs, history, survives0, survives, n, done, start, steps, b, i);
    var r := KeptMore(kept, survives, |survives0|, |txs0|, b, i);
    MoreKept(l, history, survives, h0, |txs0|, start, steps, kept, r, b, i);
    KeptGrows(l, history0, history, h0, start, steps, kept, r, b, i);
  }

  lemma MoreKept(l: Layout, history: seq<Disk>, survives: seq<nat>, h0: nat, t0: nat, start: Disk, steps: seq<Step>,
                 kept: seq<nat>, r: seq<nat>, b: nat, i: nat)
    requires h0 + |kept| <= |survives| == |history| && b <= i && r == KeptMore(kept, survives, h0 + |kept|, t0, b, i)
    requires forall s {:trigger survives[s]} :: h0 + |kept| <= s < |survives| ==>
               KeptAt(l, history[s], start, steps, if survives[s] == t0 then b else i)
    requires forall s, t :: h0 + |kept| <= s < t < |survives| ==> survives[s] != t0 ==> survives[t] != t0
    ensures kept <= r && |history| == h0 + |r|
    ensures forall k {:trigger r[k]} :: |kept| <= k < |r| ==> KeptAt(l, history[h0 + k], start, steps, r[k]) && b <= r[k] <= i
    ensures forall j, k :: |kept| <= j < k < |r| ==> r[j] <= r[k]
  {
    hide KeptAt;
    forall k {:trigger r[k]} | |kept| <= k < |r|
      ensures KeptAt(l, history[h0 + k], start, steps, r[k]) && b <= r[k] <= i
    {
      assert survives[h0 + k] == survives[h0 + |kept| + (k - |kept|)];
    }
    forall j, k | |kept| <= j < k < |r| ensures r[j] <= r[k] {
      assert r[j] == if survives[h0 + j] == t0 then b else i;
      assert r[k] == if survives[h0 + k] == t0 then b else i;
    }
  }

  lemma KeptGrows(l: Layout, history0: seq<Disk>, history: seq<Disk>, h0: nat, start: Disk, steps: seq<Step>,
                  kept: seq<nat>, r: seq<nat>, b: nat, i: nat)
    requires Kept(l, history0, h0, start, steps, kept, b) && b <= i
    requires history0 <= history && kept <= r && |history| == h0 + |r|
    requires forall k {:trigger r[k]} :: |kept| <= k < |r| ==> KeptAt(l, history[h0 + k], start, steps, r[k]) && b <= r[k] <= i
    requires forall j, k :: |kept| <= j < k < |r| ==> r[j] <= r[k]
    ensures Kept(l, history, h0, start, steps, r, i)
  {
    hide KeptAt;
    forall k {:trigger r[k]} | 0 <= k < |r| ensures KeptAt(l, history[h0 + k], start, steps, r[k]) && r[k] <= i {
      if k < |kept| {
        assert r[k] == kept[k] && history[h0 + k] == history0[h0 + k];
      }
    }
  }

  lemma NewKept(l: Layout, origin: Disk, txs0: seq<Tx>, txs: seq<Tx>, history: seq<Disk>,
                survives0: seq<nat>, survives: seq<nat>, n: nat, done: bool,
                start: Disk, steps: seq<Step>, b: nat, i: nat)
    requires |txs| == |txs0| + 1 && txs[..|txs0|] == txs0 && AllValid(l, txs0, |origin|)
    requires L.CrashSafe(l, origin, txs, history, survives) && L.Extended(survives0, survives, |txs0|, n, done)
    requires Boundary(steps, b) && SameHome(l, Effects(origin, txs0), Written(start, steps, b))
    requires Boundary(steps, i) && SameHome(l, Effects(origin, txs), Written(start, steps, i))
    ensures |survives| == |history| && AllValid(l, txs, |origin|)
    ensures forall s {:trigger survives[s]} :: |survives0| <= s < |survives| ==>
              KeptAt(l, history[s], start, steps, if survives[s] == |txs0| then b else i)
    ensures forall s, t :: |survives0| <= s < t < |survives| ==> survives[s] != |txs0| ==> survives[t] != |txs0|
  {
    hide Effects, SameHome, Active, Written, KeptAt, L.RecoversTo;
    forall s {:trigger survives[s]} | |survives0| <= s < |survives|
      ensures KeptAt(l, history[s], start, steps, if survives[s] == |txs0| then b else i)
    {
      StateKept(l, origin, txs0, txs, history[s], survives[s], start, steps, b, i);
    }
  }

  // ---- serving ---------------------------------------------------------------

  /** The active operations are those of the schedule, each within its changes so far. */
  ghost predicate SameWork(ops: map<nat, set<nat>>, active: map<nat, nat>) {
    && (forall p :: p in ops <==> p in active)
    && (forall p :: p in ops ==> |ops[p]| <= active[p])
  }

  lemma SameSize(ops: map<nat, set<nat>>, active: map<nat, nat>)
    requires SameWork(ops, active)
    ensures |ops| == |active|
  {
    assert ops.Keys == active.Keys;
  }

  /** The header lists the blocks changed since the last commit. */
  ghost predicate Lists(blks: seq<nat>, since: set<nat>) {
    |blks| == |since| && forall b :: b in blks <==> b in since
  }

  lemma ListsMore(v: Admission.View, pid: nat, b: nat, since: set<nat>)
    requires pid in v.ops && Lists(v.blks, since)
    ensures Lists(Admission.Write(v, pid, b).blks, since + {b})
  {
    if b in v.blks {
      assert since + {b} == since;
    }
  }

  /** Nobody waits for a buffer. */
  ghost predicate Calm(log: L.Log)
    reads log.cache
  {
    |log.cache.waiting| == Ring.NBUF && forall k :: 0 <= k < Ring.NBUF ==> log.cache.waiting[k] == {}
  }

  /** The machine has done i steps; b is the last boundary that has been committed. */
  ghost predicate Serving(log: L.Log, start: Disk, steps: seq<Step>, i: nat, b: nat)
    reads log, log.block, log.cache, log.cache.buf, log.cache.disk, log.cache.disk.image
  {
    && Sound(log) && i <= |steps| && Legal(log.layout, |start|, steps)
    && SameWork(log.ops, Active(steps, i)) && Lists(log.block[..log.n], Since(steps, i))
    && |log.cache.logical| == log.cache.disk.image.Length
    && SameHome(log.layout, log.cache.logical, Written(start, steps, i))
    && b <= i && Boundary(steps, b) && SameHome(log.layout, Effects(log.origin, log.txs), Written(start, steps, b))
  }

  /** Between two calls: the log is valid, admission's invariant holds, no commit is running
      and nobody holds a modified buffer or waits for one. */
  ghost predicate Sound(log: L.Log)
    reads log, log.block, log.cache, log.cache.buf, log.cache.disk, log.cache.disk.image
  {
    && log.Valid() && Admission.Inv(log.View()) && log.layout.size > LOGSIZE
    && !log.committing && log.cache.pending == map[] && Calm(log) && log.Easy()
    && AllValid(log.layout, log.txs, |log.origin|)
  }

  lemma BeginMeans(steps: seq<Step>, i: nat, pid: nat, ops: map<nat, set<nat>>, start: Disk)
    requires i < |steps| && steps[i] == Begin(pid) && SameWork(ops, Active(steps, i))
    ensures SameWork(ops[pid := {}], Active(steps, i + 1)) && Since(steps, i + 1) == Since(steps, i)
    ensures Written(start, steps, i + 1) == Written(start, steps, i)
    ensures pid in ops <==> pid in Active(steps, i)
  {
    assert pid in Active(steps, i + 1);
  }

  lemma BeginStops(v: Admission.View, steps: seq<Step>, i: nat)
    requires i < |steps| && steps[i].Begin? && SameWork(v.ops, Active(steps, i)) && Lists(v.blks, Since(steps, i)) && !v.committing
    ensures Stops(steps, i) <==> !Admission.Admits(v)
  {
    SameSize(v.ops, Active(steps, i));
  }

  method ServeBegin(log: L.Log, pid: nat, ghost start: Disk, ghost steps: seq<Step>, ghost i: nat, ghost b: nat)
    returns (ok: bool)
    requires Serving(log, start, steps, i, b) && i < |steps| && steps[i] == Begin(pid)
    modifies log`outstanding, log`ops
    ensures ok ==> Serving(log, start, steps, i + 1, b)
    ensures ok <==> !Stops(steps, i)
  {
    hide BC.BufferCache.Valid, L.Log.Listing, L.Log.Recorded, Effects, Admission.Inv, SameHome, Legal, BC.Resting, AllValid;
    hide Active, Since, Written, SameWork, Lists, Stops, Effects;
    BeginStops(log.View(), steps, i);
    BeginMeans(steps, i, pid, log.ops, start);
    assert LegalAt(log.layout, |start|, steps, i) by { Lawful(log.layout, |start|, steps, i); }
    if Admission.Admits(log.View()) {
      Admission.BeginKeepsInv(log.View(), pid);
    }
    ok := log.BeginOp(pid);
  }

  lemma Lawful(l: Layout, size: nat, steps: seq<Step>, i: nat)
    requires Legal(l, size, steps) && i < |steps|
    ensures LegalAt(l, size, steps, i)
  {
  }

  lemma AtWork(log: L.Log, pid: nat, n: nat)
    requires Sound(log) && pid in log.ops && |log.ops[pid]| <= n
    ensures Between(log, pid, n)
  {
  }

  lemma PutMeans(steps: seq<Step>, i: nat)
    requires i < |steps| && steps[i].Put? && steps[i].pid in Active(steps, i)
    ensures var p := steps[i].pid; Active(steps, i + 1) == Active(steps, i)[p := Active(steps, i)[p] + 1]
    ensures Since(steps, i + 1) == Since(steps, i) + {steps[i].blockno}
  {
    assert steps[i].pid in Active(steps, i + 1);
  }

  /** What a change does to the schedule's own records. */
  lemma PutServes(steps: seq<Step>, i: nat, pid: nat, blockno: nat, data: Block, v: Admission.View, start: Disk,
                  l: Layout, logical: Disk)
    requires i < |steps| && steps[i] == Put(pid, blockno, data) && pid in v.ops && blockno < |start|
    requires SameWork(v.ops, Active(steps, i)) && Lists(v.blks, Since(steps, i)) && SameHome(l, logical, Written(start, steps, i))
    ensures var w := Admission.Write(v, pid, blockno);
            && SameWork(w.ops, Active(steps, i + 1)) && Lists(w.blks, Since(steps, i + 1))
            && SameHome(l, logical[blockno := data], Written(start, steps, i + 1))
  {
    PutMeans(steps, i);
    ListsMore(v, pid, blockno, Since(steps, i));
    MoreWork(v, pid, blockno, Active(steps, i));
    hide Since, Active;
  }

  lemma MayPut(ops: map<nat, set<nat>>, steps: seq<Step>, i: nat, pid: nat, l: Layout, size: nat)
    requires i < |steps| && steps[i].Put? && steps[i].pid == pid && LegalAt(l, size, steps, i) && SameWork(ops, Active(steps, i))
    ensures pid in ops && pid in Active(steps, i) && |ops[pid]| <= Active(steps, i)[pid] < MAXOPBLOCKS
    ensures steps[i].blockno < size && !InLog(l, steps[i].blockno) && !Stops(steps, i)
  {
  }

  lemma MoreWork(v: Admission.View, pid: nat, b: nat, active: map<nat, nat>)
    requires pid in v.ops && SameWork(v.ops, active)
    ensures pid in active && SameWork(Admission.Write(v, pid, b).ops, active[pid := active[pid] + 1])
  {
    if b in v.ops[pid] {
      assert v.ops[pid] + {b} == v.ops[pid];
    }
  }

  method ServePut(log: L.Log, pid: nat, blockno: nat, data: Block,
                  ghost start: Disk, ghost steps: seq<Step>, ghost i: nat, ghost b: nat)
    returns (ok: bool)
    requires Serving(log, start, steps, i, b) && i < |steps| && steps[i] == Put(pid, blockno, data)
    modifies log`n, log`ops, log.block, log.cache, log.cache.buf
    ensures ok && Serving(log, start, steps, i + 1, b) && !Stops(steps, i)
  {
    hide BC.BufferCache.Valid, L.Log.Listing, L.Log.Recorded, Effects, Admission.Inv, Legal, BC.Resting, AllValid;
    Lawful(log.layout, |start|, steps, i);
    MayPut(log.ops, steps, i, pid, log.layout, |start|);
    hide Lists, SameWork, Since, Active, Written, Admission.Write;
    ghost var n := Active(steps, i)[pid];
    AtWork(log, pid, n);
    PutServes(steps, i, pid, blockno, data, log.View(), start, log.layout, log.cache.logical);
    ok := WriteBlock(log, blockno, data, pid, n);
  }

  /** The call of end_op commits exactly when the schedule reaches a boundary. */
  lemma LastOut(ops: map<nat, set<nat>>, steps: seq<Step>, i: nat, pid: nat)
    requires i < |steps| && steps[i] == End(pid) && SameWork(ops, Active(steps, i)) && pid in ops
    ensures |ops| == 1 <==> Boundary(steps, i + 1)
    ensures SameWork(ops - {pid}, Active(steps, i + 1))
  {
    var rest := ops - {pid};
    assert ops.Keys == rest.Keys + {pid};
    assert |ops| == |ops.Keys| && |rest| == |rest.Keys|;
    assert Boundary(steps, i + 1) ==> rest == map[];
    if |ops| == 1 {
      assert rest.Keys == {};
      assert Active(steps, i + 1) == map[];
    }
  }

  lemma OneOut(log: L.Log)
    requires log.Valid()
    ensures log.outstanding == |log.ops|
  {
  }

  lemma MayEnd(ops: map<nat, set<nat>>, steps: seq<Step>, i: nat, pid: nat, l: Layout, size: nat)
    requires i < |steps| && steps[i] == End(pid) && LegalAt(l, size, steps, i) && SameWork(ops, Active(steps, i))
    ensures pid in ops && pid in Active(steps, i) && |ops[pid]| <= Active(steps, i)[pid]
  {
  }

  lemma EndMeans(steps: seq<Step>, i: nat, start: Disk, blks: seq<nat>)
    requires i < |steps| && steps[i].End? && Lists(blks, Since(steps, i))
    ensures Written(start, steps, i + 1) == Written(start, steps, i)
    ensures Lists(if Boundary(steps, i + 1) then [] else blks, Since(steps, i + 1))
    ensures Stops(steps, i) <==> Boundary(steps, i + 1) && |blks| >= Ring.NBUF
  {
  }

  method ServeEnd(log: L.Log, pid: nat, ghost start: Disk, ghost steps: seq<Step>, ghost i: nat, ghost b: nat,
                  ghost h0: nat, ghost kept: seq<nat>)
    returns (ok: bool, ghost b': nat, ghost kept': seq<nat>)
    requires Serving(log, start, steps, i, b) && i < |steps| && steps[i] == End(pid)
    requires Kept(log.layout, log.cache.disk.history, h0, start, steps, kept, b)
    modifies log, log.cache, log.cache.buf, log.cache.disk, log.cache.disk.image
    ensures Kept(log.layout, log.cache.disk.history, h0, start, steps, kept', b') && kept <= kept' && b' <= i + 1
    ensures forall k :: |kept| <= k < |kept'| ==> b <= kept'[k]
    ensures old(log.cache.disk.history) <= log.cache.disk.history
    ensures ok ==> Serving(log, start, steps, i + 1, b')
    ensures b' == if Boundary(steps, i + 1) then i + 1 else b
    ensures ok <==> !Stops(steps, i)
  {
    hide BC.BufferCache.Valid, L.Log.Listing, L.Log.Recorded, L.Log.Counting, Effects, Admission.Inv;
    hide Legal, Kept, GroupCommitted, OldOrNew, SameHome, BC.Resting, AllValid;
    Lawful(log.layout, |start|, steps, i);
    MayEnd(log.ops, steps, i, pid, log.layout, |start|);
    ghost var n := Active(steps, i)[pid];
    AtWork(log, pid, n);
    LastOut(log.ops, steps, i, pid);
    EndMeans(steps, i, start, log.block[..log.n]);
    OneOut(log);
    hide Active, Since, Written, SameWork, Lists, Stops;
    ghost var txs, history, survives, blocks, logical := log.txs, log.cache.disk.history, log.survives, log.n, log.cache.logical;
    var r := EndOp(log, pid, n);
    ok := r.Ended?;
    if ok {
      SameHomeThrough(log.layout, log.cache.logical, logical, Written(start, steps, i + 1));
    }
    b', kept' := b, kept;
    if Boundary(steps, i + 1) {
      CommitKept(log.layout, log.origin, txs, log.txs, history, log.cache.disk.history, survives, log.survives, blocks, ok,
                 logical, h0, start, steps, kept, b, i + 1);
      b', kept' := i + 1, KeptMore(kept, log.survives, |survives|, |txs|, b, i + 1);
    }
  }

  /** The calls of the schedule one after another, until one has to wait (Stops).  Every
      disk state on the way recovers to a boundary, never to an earlier one than the state
      before it; a boundary that is reached is on the disk. */
  method Serve(log: L.Log, steps: seq<Step>, ghost start: Disk, ghost h0: nat, ghost kept0: seq<nat>)
    returns (done: nat, ghost b: nat, ghost kept: seq<nat>)
    requires Serving(log, start, steps, 0, 0) && Kept(log.layout, log.cache.disk.history, h0, start, steps, kept0, 0)
    modifies log, log.block, log.cache, log.cache.buf, log.cache.disk, log.cache.disk.image
    ensures b <= done <= |steps| && kept0 <= kept && old(log.cache.disk.history) <= log.cache.disk.history
    ensures Kept(log.layout, log.cache.disk.history, h0, start, steps, kept, if done < |steps| then done + 1 else done)
    ensures done == |steps| ==> Serving(log, start, steps, done, b)
    ensures (forall j :: 0 <= j < done ==> !Stops(steps, j)) && (done < |steps| ==> Stops(steps, done))
    ensures done == |steps| && Boundary(steps, done) ==> AtRest(log, start, steps)
  {
    hide Serving, Kept, Effects, Admission.Inv, Stops;
    done, b, kept := 0, 0, kept0;
    while done < |steps|
      invariant b <= done <= |steps| && kept0 <= kept && old(log.cache.disk.history) <= log.cache.disk.history
      invariant Serving(log, start, steps, done, b) && forall j :: 0 <= j < done ==> !Stops(steps, j)
      invariant Kept(log.layout, log.cache.disk.history, h0, start, steps, kept, b)
      decreases |steps| - done
    {
      var ok;
      ghost var next := b;
      match steps[done] {
        case Begin(p) => ok := ServeBegin(log, p, start, steps, done, b);
        case Put(p, n, data) => ok := ServePut(log, p, n, data, start, steps, done, b);
        case End(p) => ok, next, kept := ServeEnd(log, p, start, steps, done, b, h0, kept);
      }
      if !ok {
        KeptLater(log.layout, log.cache.disk.history, h0, start, steps, kept, next, done + 1);
        return;
      }
      b, done := next, done + 1;
    }
    KeptLater(log.layout, log.cache.disk.history, h0, start, steps, kept, b, done);
    if Boundary(steps, done) {
      ComesToRest(log, start, steps, done, b);
    }
  }

  lemma KeptLater(l: Layout, history: seq<Disk>, h0: nat, start: Disk, steps: seq<Step>, kept: seq<nat>, b: nat, i: nat)
    requires Kept(l, history, h0, start, steps, kept, b) && b <= i
    ensures Kept(l, history, h0, start, steps, kept, i)
  {
  }

  /** No operation is under way, and the disk has all their changes. */
  ghost predicate AtRest(log: L.Log, start: Disk, steps: seq<Step>)
    reads log.cache, log.cache.disk, log.cache.disk.image
  {
    && log.cache.disk.image[..] == log.cache.logical
    && SameHome(log.layout, log.cache.disk.image[..], Written(start, steps, |steps|))
  }

  lemma ComesToRest(log: L.Log, start: Disk, steps: seq<Step>, i: nat, b: nat)
    requires Serving(log, start, steps, i, b) && Boundary(steps, i) && i == |steps|
    ensures AtRest(log, start, steps)
  {
    assert log.ops == map[];
    log.IdleOnDisk();
  }

  // ---- from power-on ---------------------------------------------------------

  /** Recovery from any recoverable disk, by process pid. */
  method Boot(blocks: seq<Block>, layout: Layout, pid: nat) returns (log: L.Log, ok: bool)
    requires Recoverable(layout, blocks) && layout.size > LOGSIZE && pid != 0
    ensures fresh(log) && fresh(log.block) && fresh(log.cache) && fresh(log.cache.buf)
    ensures fresh(log.cache.disk) && fresh(log.cache.disk.image) && log.layout == layout
    ensures L.CrashSafe(layout, Recovered(layout, blocks), [], log.cache.disk.history, seq(|log.cache.disk.history|, _ => 0))
    ensures ok && Sound(log) && log.cache.logical == log.origin == Recovered(layout, blocks)
                   && log.View() == Admission.Initial(layout.size) && log.txs == []
  {
    hide BC.Coherent, BC.Unique, BC.Aged, BC.Complete, Ring.Ring, Recovered, Effects, L.RecoversTo;
    var disk := new MemIde.MemIde(blocks);
    var cache := new BC.BufferCache(disk);
    log := new L.Log(cache, layout);
    assert forall k :: 0 <= k < Ring.NBUF ==> cache.waiting[k] == {};
    assert log.Easy();
    ok := log.Recover(pid);
  }

  /** What recovery leaves behind after any of its writes is the disk it started from. */
  lemma RecoveryKept(l: Layout, start: Disk, history: seq<Disk>, steps: seq<Step>, kept: seq<nat>)
    requires L.CrashSafe(l, start, [], history, kept) && kept == seq(|history|, _ => 0)
    ensures Kept(l, history, 0, start, steps, kept, 0)
  {
    forall k {:trigger kept[k]} | 0 <= k < |kept| ensures KeptAt(l, history[k], start, steps, kept[k]) {
      assert L.RecoversTo(l, start, [], history[k], kept[k]);
      assert Effects(start, []) == start;
    }
  }

  lemma ReadyToServe(log: L.Log, steps: seq<Step>)
    requires Sound(log) && log.View() == Admission.Initial(log.layout.size) && log.txs == []
    requires log.cache.logical == log.origin && Legal(log.layout, |log.origin|, steps)
    ensures Serving(log, log.origin, steps, 0, 0)
  {
    assert Effects(log.origin, []) == log.origin;
  }

  /** The machine is switched on with any disk that a power failure can have left, and does
      the calls of any schedule.  After each of its disk writes, recovery's own included,
      the power may fail: the disk is then one this method can be called with again, and it
      recovers to all the changes up to a boundary of the schedule and to nothing else; the
      boundaries never go back.  When the schedule ends at a boundary all of it is on the
      disk.  It stops early (done < |steps|) exactly at the first call that has to wait. */
  method PowerOn(blocks: seq<Block>, layout: Layout, pid: nat, steps: seq<Step>)
    returns (log: L.Log, done: nat, ghost kept: seq<nat>)
    requires Recoverable(layout, blocks) && layout.size > LOGSIZE && pid != 0 && Legal(layout, |blocks|, steps)
    ensures fresh(log) && log.layout == layout && done <= |steps|
    ensures Kept(layout, log.cache.disk.history, 0, Recovered(layout, blocks), steps, kept, |steps|)
    ensures (forall j :: 0 <= j < done ==> !Stops(steps, j)) && (done < |steps| ==> Stops(steps, done))
    ensures done == |steps| && Boundary(steps, done) ==> AtRest(log, Recovered(layout, blocks), steps)
  {
    var booted;
    log, booted := Boot(blocks, layout, pid);
    ghost var start := Recovered(layout, blocks);
    kept := seq(|log.cache.disk.history|, _ => 0);
    RecoveryKept(layout, start, log.cache.disk.history, steps, kept);
    ReadyToServe(log, steps);
    hide Stops;
    ghost var b;
    done, b, kept := Serve(log, steps, start, 0, kept);
    KeptLater(layout, log.cache.disk.history, 0, start, steps, kept, if done < |steps| then done + 1 else done, |steps|);
  }

  // ---- a commit without a buffer -----------------------------------------------

  /** Three operations that each change ten blocks, taking turns, and then end. */
  ghost function Burst(x: nat): (r: seq<Step>)
    ensures |r| == 36
  {
    [Begin(1), Begin(2), Begin(3)] + seq(30, j requires 0 <= j < 30 => Put(j % 3 + 1, x + j, ZeroBlock())) + [End(1), End(2), End(3)]
  }

  lemma BurstAt(x: nat, i: nat)
    requires i < 36
    ensures Burst(x)[i] == if i < 3 then Begin(i + 1)
                           else if i < 33 then Put((i - 3) % 3 + 1, x + (i - 3), ZeroBlock()) else End(i - 32)
  {
  }

  ghost function Range(x: nat, k: nat): (r: set<nat>)
    ensures |r| == k && forall b: nat :: b in r <==> x <= b < x + k
  {
    if k == 0 then {} else Range(x, k - 1) + {x + k - 1}
  }

  lemma BurstBegins(x: nat)
    ensures var s := Burst(x);
            && Active(s, 0) == map[] && Active(s, 1) == map[1 := 0] && Active(s, 2) == map[1 := 0, 2 := 0]
            && Active(s, 3) == map[1 := 0, 2 := 0, 3 := 0]
            && Since(s, 0) == Since(s, 1) == Since(s, 2) == Since(s, 3) == {}
  {
    var s := Burst(x);
    BurstAt(x, 0);
    BurstAt(x, 1);
    BurstAt(x, 2);
    hide Burst;
    assert 1 in Active(s, 1) && 1 in Active(s, 2) && 1 in Active(s, 3);
  }

  ghost function Turns(k: nat): map<nat, nat> {
    map[1 := (k + 2) / 3, 2 := (k + 1) / 3, 3 := k / 3]
  }

  lemma TurnTaken(k: nat)
    requires k > 0
    ensures var p, m := (k - 1) % 3 + 1, Turns(k - 1); p in m && m[p := m[p] + 1] == Turns(k)
    ensures var p, m := (k - 1) % 3 + 1, Turns(k - 1); k <= 30 ==> m[p] < MAXOPBLOCKS
    ensures Turns(0) == map[1 := 0, 2 := 0, 3 := 0]
  {
    var q := (k - 1) / 3;
    if k - 1 == 3 * q {
    } else if k - 1 == 3 * q + 1 {
    } else {
      assert k - 1 == 3 * q + 2;
    }
  }

  lemma {:induction false} BurstSoFar(x: nat, k: nat)
    requires k <= 30
    ensures Active(Burst(x), 3 + k) == Turns(k)
    ensures Since(Burst(x), 3 + k) == Range(x, k)
  {
    hide Burst, Active, Since, Turns;
    if k == 0 {
      TurnTaken(1);
      BurstBegins(x);
    } else {
      BurstSoFar(x, k - 1);
      var s := Burst(x);
      BurstAt(x, 3 + (k - 1));
      TurnTaken(k);
      PutMeans(s, 3 + (k - 1));
    }
  }

  lemma BurstEnds(x: nat)
    ensures var s := Burst(x);
            && Active(s, 33) == map[1 := 10, 2 := 10, 3 := 10] && Active(s, 34) == map[2 := 10, 3 := 10]
            && Active(s, 35) == map[3 := 10] && Active(s, 36) == map[] && |Since(s, 35)| == 30
  {
    var s := Burst(x);
    BurstSoFar(x, 30);
    BurstAt(x, 33);
    BurstAt(x, 34);
    BurstAt(x, 35);
    hide Burst;
    assert 2 in Active(s, 34) && 3 in Active(s, 35);
  }

  /** Every operation keeps to its budget, all are let in, and still the commit finds every
      buffer taken by a block of the group: there are NBUF of them, no more than LOGSIZE. */
  lemma CommitCanWait(l: Layout, size: nat, x: nat)
    requires x + 30 <= size && forall b :: x <= b < x + 30 ==> !InLog(l, b)
    ensures Legal(l, size, Burst(x))
    ensures (forall i :: 0 <= i < 35 ==> !Stops(Burst(x), i)) && Stops(Burst(x), 35)
  {
    forall i {:trigger LegalAt(l, size, Burst(x), i)} {:trigger Stops(Burst(x), i)} | 0 <= i < 36
      ensures LegalAt(l, size, Burst(x), i) && (i == 35 <==> Stops(Burst(x), i))
    {
      BurstStep(l, size, x, i);
    }
    hide LegalAt, Stops, Burst;
  }

  lemma BurstStep(l: Layout, size: nat, x: nat, i: nat)
    requires x + 30 <= size && (forall b :: x <= b < x + 30 ==> !InLog(l, b)) && i < 36
    ensures LegalAt(l, size, Burst(x), i) && (i == 35 <==> Stops(Burst(x), i))
  {
    BurstAt(x, i);
    hide Burst, Active, Since;
    if i < 3 {
      BurstBegins(x);
    } else if i < 33 {
      BurstSoFar(x, i - 3);
      TurnTaken(i - 2);
    } else {
      BurstEnds(x);
    }
  }
}
