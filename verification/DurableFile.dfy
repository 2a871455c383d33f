/** filewrite over the log: its transactions as calls of begin_op, log_write and end_op, and
    what a machine that loses power in the middle of them finds in its files afterwards. */
module DurableFile {
  import opened Blocks
  import opened FsBlocks
  import opened FileBytes
  import opened FileSystem
  import opened FileLayer
  import opened RedoLog
  import opened Dinodes
  import M = Machine
  import L = Log
  import opened Wrappers

  type Steps = seq<M.Step>

  // ---- a set of logged blocks as a change list --------------------------------

  /** The elements of l in some order. */
  ghost function Listed(l: set<nat>): (r: seq<nat>)
    ensures |r| == |l| && forall b :: b in r <==> b in l
    ensures forall i, j :: 0 <= i < j < |r| ==> r[i] != r[j]
    decreases |l|
  {
    if l == {} then [] else
      var b :| b in l;
      var rest := Listed(l - {b});
      assert forall i :: 0 <= i < |rest| ==> rest[i] in rest;
      [b] + rest
  }

  /** The blocks of l with what they hold in d. */
  ghost function ChangeList(d: Disk, l: set<nat>): (tx: Tx)
    requires forall b :: b in l ==> b < |d|
    ensures |tx.blks| == |l| && Writable(tx, |d|)
  {
    assert forall i :: 0 <= i < |Listed(l)| ==> Listed(l)[i] in Listed(l);
    Tx(Listed(l), seq(|l|, i requires 0 <= i < |l| => d[Listed(l)[i]]))
  }

  /** When only blocks of l differ, the change list of l makes the whole difference. */
  lemma ChangeListMeans(d0: Disk, d: Disk, l: set<nat>)
    requires Confined(d0, d, l) && forall b :: b in l ==> b < |d|
    ensures Effect(d0, ChangeList(d, l)) == d
  {
    var tx := ChangeList(d, l);
    forall x | 0 <= x < |d| ensures Effect(d0, tx)[x] == d[x] {
      AppliedAt(d0, tx, |tx.blks|, x);
      assert tx.blks[..|tx.blks|] == tx.blks;
    }
  }

  /** The transaction as the log takes it. */
  lemma ChangeListFits(l: Layout, sb: Super, d: Disk, tx: set<nat>, ninodes: nat)
    requires LaidOut(l, sb, ninodes) && Beyond(sb, tx) && |tx| <= MAXOPBLOCKS < l.size && sb.size <= |d|
    ensures ValidTx(l, ChangeList(d, tx), |d|) && |ChangeList(d, tx).blks| <= MAXOPBLOCKS
  {
    var blks := ChangeList(d, tx).blks;
    forall i | 0 <= i < |blks| ensures blks[i] < |d| && !InLog(l, blks[i]) {
      assert blks[i] in tx;
    }
  }

  // ---- a transaction as calls ---------------------------------------------------

  /** begin_op, the changes, end_op. */
  ghost function Calls(pid: nat, tx: Tx): (r: Steps)
    requires |tx.blks| == |tx.vals|
    ensures |r| == |tx.blks| + 2
  {
    [M.Begin(pid)] + seq(|tx.blks|, k requires 0 <= k < |tx.blks| => M.Put(pid, tx.blks[k], tx.vals[k])) + [M.End(pid)]
  }

  /** The first steps of a schedule mean what they mean alone. */
  lemma {:induction false} Prefix(a: Steps, b: Steps, d: Disk, i: nat)
    requires i <= |a|
    ensures M.Active(a + b, i) == M.Active(a, i) && M.Written(d, a + b, i) == M.Written(d, a, i)
    ensures M.Since(a + b, i) == M.Since(a, i)
  {
    if i != 0 {
      Prefix(a, b, d, i - 1);
    }
  }

  /** Within the calls of one transaction after a boundary: its changes are made one by one. */
  lemma {:induction false} CallsSoFar(a: Steps, pid: nat, tx: Tx, d: Disk, k: nat)
    requires Writable(tx, |d|) && k <= |tx.blks| && M.Boundary(a, |a|)
    ensures M.Active(a + Calls(pid, tx), |a| + 1 + k) == map[pid := k]
    ensures M.Written(d, a + Calls(pid, tx), |a| + 1 + k) == Apply(M.Written(d, a, |a|), tx, k)
  {
    var s := a + Calls(pid, tx);
    Prefix(a, Calls(pid, tx), d, |a|);
    if k == 0 {
      assert s[|a|] == M.Begin(pid);
    } else {
      CallsSoFar(a, pid, tx, d, k - 1);
      assert s[|a| + k] == M.Put(pid, tx.blks[k - 1], tx.vals[k - 1]);
    }
  }

  lemma {:induction false} CallsSince(a: Steps, pid: nat, tx: Tx, d: Disk, k: nat)
    requires Writable(tx, |d|) && k <= |tx.blks| && M.Boundary(a, |a|)
    ensures |M.Since(a + Calls(pid, tx), |a| + 1 + k)| <= k
  {
    var s := a + Calls(pid, tx);
    NoBoundary(a, pid, tx, d, k);
    if k == 0 {
      Prefix(a, Calls(pid, tx), d, |a|);
      assert s[|a|] == M.Begin(pid) && M.Since(s, |a|) == {};
    } else {
      CallsSince(a, pid, tx, d, k - 1);
      assert s[|a| + k] == M.Put(pid, tx.blks[k - 1], tx.vals[k - 1]);
      AddOne(M.Since(s, |a| + k), tx.blks[k - 1]);
    }
  }

  /** One small transaction at a time never has to wait. */
  lemma NeverWaits(a: Steps, pid: nat, tx: Tx, d: Disk)
    requires Writable(tx, |d|) && |tx.blks| <= MAXOPBLOCKS && M.Boundary(a, |a|)
    requires forall i :: 0 <= i < |a| ==> !M.Stops(a, i)
    ensures forall i :: 0 <= i < |a + Calls(pid, tx)| ==> !M.Stops(a + Calls(pid, tx), i)
  {
    var s, n := a + Calls(pid, tx), |tx.blks|;
    forall i | 0 <= i < |s| ensures !M.Stops(s, i) {
      if i < |a| {
        Prefix(a, Calls(pid, tx), d, i);
        Prefix(a, Calls(pid, tx), d, i + 1);
        assert s[i] == a[i] && !M.Stops(a, i);
      } else if i == |a| {
        Prefix(a, Calls(pid, tx), d, i);
        assert s[i] == M.Begin(pid);
      } else {
        var k := i - |a| - 1;
        CallsSince(a, pid, tx, d, k);
        assert s[i] == if k < n then M.Put(pid, tx.blks[k], tx.vals[k]) else M.End(pid);
      }
    }
  }

  /** After them: a boundary again, and the transaction's effect. */
  lemma CallsDone(a: Steps, pid: nat, tx: Tx, d: Disk)
    requires Writable(tx, |d|) && M.Boundary(a, |a|)
    ensures var s := a + Calls(pid, tx);
            M.Boundary(s, |s|) && M.Written(d, s, |s|) == Effect(M.Written(d, a, |a|), tx)
  {
    var s, n := a + Calls(pid, tx), |tx.blks|;
    CallsSoFar(a, pid, tx, d, n);
    assert s[|a| + 1 + n] == M.End(pid);
  }

  /** The boundaries of the longer schedule are the old ones and its end. */
  lemma NewBoundary(a: Steps, pid: nat, tx: Tx, d: Disk, i: nat)
    requires Writable(tx, |d|) && M.Boundary(a, |a|) && M.Boundary(a + Calls(pid, tx), i)
    ensures i == |a + Calls(pid, tx)| || (M.Boundary(a, i) && M.Written(d, a + Calls(pid, tx), i) == M.Written(d, a, i))
  {
    if i <= |a| {
      Prefix(a, Calls(pid, tx), d, i);
    } else if i < |a + Calls(pid, tx)| {
      NoBoundary(a, pid, tx, d, i - |a| - 1);
    }
  }

  lemma NoBoundary(a: Steps, pid: nat, tx: Tx, d: Disk, k: nat)
    requires Writable(tx, |d|) && k <= |tx.blks| && M.Boundary(a, |a|)
    ensures !M.Boundary(a + Calls(pid, tx), |a| + 1 + k)
  {
    CallsSoFar(a, pid, tx, d, k);
    assert pid in M.Active(a + Calls(pid, tx), |a| + 1 + k);
  }

  lemma CallsLegal(l: Layout, a: Steps, pid: nat, tx: Tx, d: Disk)
    requires ValidTx(l, tx, |d|) && |tx.blks| <= MAXOPBLOCKS && pid != 0
    requires M.Boundary(a, |a|) && M.Legal(l, |d|, a)
    ensures M.Legal(l, |d|, a + Calls(pid, tx))
  {
    var s, n := a + Calls(pid, tx), |tx.blks|;
    forall i {:trigger M.LegalAt(l, |d|, s, i)} | 0 <= i < |s| ensures M.LegalAt(l, |d|, s, i) {
      if i <= |a| {
        Prefix(a, Calls(pid, tx), d, i);
        assert i < |a| ==> s[i] == a[i] && M.LegalAt(l, |d|, a, i);
      } else {
        var k := i - |a| - 1;
        CallsSoFar(a, pid, tx, d, k);
        assert s[i] == if k < n then M.Put(pid, tx.blks[k], tx.vals[k]) else M.End(pid);
      }
    }
  }

  // ---- the transactions of a filewrite ---------------------------------------------

  /** Where a filewrite's transactions go: the log, and the states between them. */
  datatype Plan = Plan(l: Layout, sb: Super, states: seq<Fs>, txs: seq<set<nat>>)

  ghost predicate SameSize(p: Plan, t: nat)
    requires 0 < |p.states| && t < |p.states|
  {
    |p.states[t].disk| == |p.states[0].disk| && |p.states[t].inodes| == |p.states[0].inodes|
  }

  ghost predicate Sound(p: Plan) {
    && |p.states| == |p.txs| + 1 && p.sb.size <= |p.states[0].disk|
    && LaidOut(p.l, p.sb, |p.states[0].inodes|) && MAXOPBLOCKS < p.l.size
    && (forall t {:trigger p.states[t]} {:trigger SameSize(p, t)} :: 0 <= t < |p.states| ==>
          AllStorable(p.states[t].inodes) && SameSize(p, t))
    && (forall t {:trigger p.txs[t]} :: 0 <= t < |p.txs| ==> Change(p.states[t], p.states[t + 1], p.sb, p.txs[t]))
  }

  /** What the t-th transaction passes to log_write. */
  ghost function TxOf(p: Plan, t: nat): (tx: Tx)
    requires Sound(p) && t < |p.txs|
    ensures |tx.blks| == |tx.vals|
  {
    Places(p, t);
    ChangeList(Image(p.states[t + 1], p.sb), p.txs[t])
  }

  lemma Places(p: Plan, t: nat)
    requires Sound(p) && t < |p.txs|
    ensures |p.states[t + 1].disk| == |p.states[t].disk| == |p.states[0].disk|
    ensures forall b :: b in p.txs[t] ==> b < |p.states[0].disk|
  {
    assert Change(p.states[t], p.states[t + 1], p.sb, p.txs[t]);
    assert SameSize(p, t) && SameSize(p, t + 1);
  }

  /** It is a transaction that the log admits, and its effect is the next state. */
  lemma TxMeans(p: Plan, t: nat)
    requires Sound(p) && t < |p.txs|
    ensures ValidTx(p.l, TxOf(p, t), |p.states[0].disk|) && |TxOf(p, t).blks| <= MAXOPBLOCKS
    ensures |p.states[t + 1].disk| == |p.states[t].disk| == |p.states[0].disk|
    ensures Effect(Image(p.states[t], p.sb), TxOf(p, t)) == Image(p.states[t + 1], p.sb)
  {
    var v, w, tx := p.states[t], p.states[t + 1], p.txs[t];
    assert Change(v, w, p.sb, tx);
    Places(p, t);
    ImageConfined(v, w, p.sb, tx);
    ChangeListFits(p.l, p.sb, Image(w, p.sb), tx, |p.states[0].inodes|);
    ChangeListMeans(Image(v, p.sb), Image(w, p.sb), tx);
  }

  /** The calls of the first t transactions, by process pid. */
  ghost function Schedule(p: Plan, pid: nat, t: nat): Steps
    requires Sound(p) && t <= |p.txs|
  {
    if t == 0 then [] else Schedule(p, pid, t - 1) + Calls(pid, TxOf(p, t - 1))
  }

  lemma OneMore(p: Plan, pid: nat, t: nat)
    requires Sound(p) && 0 < t <= |p.txs|
    ensures Schedule(p, pid, t) == Schedule(p, pid, t - 1) + Calls(pid, TxOf(p, t - 1))
    ensures |Schedule(p, pid, t - 1)| < |Schedule(p, pid, t)|
  {
    hide Sound;
    assert |Calls(pid, TxOf(p, t - 1))| > 0;
  }

  /** One transaction more, on schedules. */
  lemma OneTxMore(l: Layout, a: Steps, pid: nat, tx: Tx, start: Disk, v: Disk)
    requires M.Legal(l, |start|, a) && M.Boundary(a, |a|) && SameHome(l, M.Written(start, a, |a|), v)
    requires pid != 0 && ValidTx(l, tx, |start|) && |tx.blks| <= MAXOPBLOCKS
    ensures var s := a + Calls(pid, tx);
            && M.Legal(l, |start|, s) && M.Boundary(s, |s|)
            && SameHome(l, M.Written(start, s, |s|), Effect(v, tx))
  {
    CallsDone(a, pid, tx, start);
    CallsLegal(l, a, pid, tx, start);
    EffectRespectsHome(l, M.Written(start, a, |a|), v, tx);
  }

  /** The whole schedule is legal and leads from state to state. */
  lemma {:induction false} ScheduleMeans(p: Plan, pid: nat, start: Disk, t: nat)
    requires Sound(p) && pid != 0 && t <= |p.txs|
    requires AllStorable(p.states[0].inodes) && AllStorable(p.states[t].inodes)
    requires SameHome(p.l, start, Image(p.states[0], p.sb))
    ensures var s := Schedule(p, pid, t);
            && M.Legal(p.l, |start|, s) && M.Boundary(s, |s|)
            && SameHome(p.l, M.Written(start, s, |s|), Image(p.states[t], p.sb))
  {
    hide Sound, Schedule, Calls, M.Legal, M.Boundary, M.Written, Effect, Image, SameHome, ValidTx, AllStorable;
    if t == 0 {
      NoCalls(p, pid, start);
    } else {
      Storables(p, t - 1);
      ScheduleMeans(p, pid, start, t - 1);
      TxMeans(p, t - 1);
      OneMore(p, pid, t);
      SameLength(p.l, start, Image(p.states[0], p.sb));
      OneTxMore(p.l, Schedule(p, pid, t - 1), pid, TxOf(p, t - 1), start, Image(p.states[t - 1], p.sb));
    }
  }

  /** No call of the schedule has to wait. */
  lemma {:induction false} ScheduleGoesOn(p: Plan, pid: nat, start: Disk, t: nat)
    requires Sound(p) && pid != 0 && t <= |p.txs|
    requires AllStorable(p.states[0].inodes) && SameHome(p.l, start, Image(p.states[0], p.sb))
    ensures forall i :: 0 <= i < |Schedule(p, pid, t)| ==> !M.Stops(Schedule(p, pid, t), i)
  {
    hide Sound, Schedule, Calls, M.Legal, M.Boundary, M.Written, M.Stops, Effect, Image, SameHome, ValidTx, AllStorable;
    if t == 0 {
      NoCalls(p, pid, start);
    } else {
      ScheduleGoesOn(p, pid, start, t - 1);
      Storables(p, t - 1);
      ScheduleMeans(p, pid, start, t - 1);
      TxMeans(p, t - 1);
      OneMore(p, pid, t);
      SameLength(p.l, start, Image(p.states[0], p.sb));
      CanWrite(p.l, TxOf(p, t - 1), |start|);
      NeverWaits(Schedule(p, pid, t - 1), pid, TxOf(p, t - 1), start);
    }
  }

  lemma CanWrite(l: Layout, tx: Tx, size: nat)
    requires ValidTx(l, tx, size)
    ensures Writable(tx, size)
  {
  }

  lemma NoCalls(p: Plan, pid: nat, start: Disk)
    requires Sound(p)
    ensures Schedule(p, pid, 0) == [] && M.Legal(p.l, |start|, []) && M.Boundary([], 0) && M.Written(start, [], 0) == start
  {
    hide Sound;
  }

  lemma SameLength(l: Layout, a: Disk, b: Disk)
    requires SameHome(l, a, b)
    ensures |a| == |b|
  {
  }

  lemma AtZero(p: Plan, pid: nat, t: nat, i: nat)
    requires Sound(p) && t <= |p.txs| && M.Boundary(Schedule(p, pid, t), i) && i != |Schedule(p, pid, t)|
    ensures t > 0
  {
    hide Sound;
  }

  lemma Storables(p: Plan, t: nat)
    requires Sound(p) && t <= |p.txs|
    ensures |p.states| == |p.txs| + 1 && AllStorable(p.states[t].inodes)
  {
  }

  lemma EffectRespectsHome(l: Layout, a: Disk, b: Disk, tx: Tx)
    requires SameHome(l, a, b) && ValidTx(l, tx, |a|)
    ensures SameHome(l, Effect(a, tx), Effect(b, tx))
  {
    EffectsRespectHome(l, a, b, [tx]);
    assert Effects(a, [tx]) == Effect(a, tx) && Effects(b, [tx]) == Effect(b, tx);
  }

  lemma {:induction false} Longer(p: Plan, pid: nat, t: nat, u: nat)
    requires Sound(p) && t < u <= |p.txs|
    ensures |Schedule(p, pid, t)| < |Schedule(p, pid, u)|
  {
    hide Sound, Schedule;
    OneMore(p, pid, u);
    if t < u - 1 {
      Longer(p, pid, t, u - 1);
    }
  }

  /** At a boundary the changes are those of a whole number of transactions. */
  lemma {:induction false} BoundaryMeans(p: Plan, pid: nat, start: Disk, t: nat, i: nat) returns (u: nat)
    requires Sound(p) && pid != 0 && t <= |p.txs|
    requires AllStorable(p.states[0].inodes) && SameHome(p.l, start, Image(p.states[0], p.sb))
    requires M.Boundary(Schedule(p, pid, t), i)
    ensures u <= t && i == |Schedule(p, pid, u)| && AllStorable(p.states[u].inodes)
    ensures SameHome(p.l, M.Written(start, Schedule(p, pid, t), i), Image(p.states[u], p.sb))
  {
    hide Sound, Schedule, Calls, M.Legal, M.Boundary, M.Written, Effect, Image, SameHome, ValidTx, AllStorable;
    u := t;
    Storables(p, t);
    ScheduleMeans(p, pid, start, t);
    if i != |Schedule(p, pid, t)| {
      assert t > 0 by { AtZero(p, pid, t, i); }
      Storables(p, t - 1);
      ScheduleMeans(p, pid, start, t - 1);
      TxMeans(p, t - 1);
      OneMore(p, pid, t);
      SameLength(p.l, start, Image(p.states[0], p.sb));
      NewBoundary(Schedule(p, pid, t - 1), pid, TxOf(p, t - 1), start, i);
      u := BoundaryMeans(p, pid, start, t - 1, i);
    }
  }

  // ---- the file after a power failure --------------------------------------------------

  /** The files of m are those after t transactions: the others as they were, file i with
      the first t chunks of src. */
  ghost predicate HasChunks(v: Fs, m: Fs, sb: Super, i: nat, src: seq<Byte>, off: nat, states: seq<Fs>, t: nat) {
    && t < |states| && SameFiles(states[t], m, sb) && Whole(v, sb) && SlotsInRange(v, sb)
    && |m.inodes| == |v.inodes| && i < |v.inodes|
    && (off <= v.inodes[i].size ==> Wrote(v, m, sb, i, src[..Chunks(t, |src|)], off))
  }

  lemma {:induction false} SizesStay(p: Plan, t: nat)
    requires |p.states| == |p.txs| + 1 && t < |p.states|
    requires forall t {:trigger p.txs[t]} :: 0 <= t < |p.txs| ==> Change(p.states[t], p.states[t + 1], p.sb, p.txs[t])
    ensures SameSize(p, t)
  {
    if t != 0 {
      SizesStay(p, t - 1);
      assert Change(p.states[t - 1], p.states[t], p.sb, p.txs[t - 1]);
    }
  }

  lemma FilewriteSound(l: Layout, sb: Super, v: Fs, i: nat, src: seq<Byte>, off: nat, states: seq<Fs>, txs: seq<set<nat>>)
    requires Staged(v, sb, i, src, off, states, txs) && LaidOut(l, sb, |v.inodes|) && MAXOPBLOCKS < l.size
    ensures Sound(Plan(l, sb, states, txs)) && Whole(v, sb) && SlotsInRange(v, sb) && AllStorable(v.inodes)
  {
    hide Change, Wrote, FilesOk, SlotsInRange, AllStorable, SameSize, LaidOut, Sound;
    var p := Plan(l, sb, states, txs);
    assert Stage(v, states[0], sb, i, src, off, 0) && WellFormed(v, sb);
    forall t {:trigger p.states[t]} {:trigger SameSize(p, t)} | 0 <= t < |p.states|
      ensures AllStorable(p.states[t].inodes) && SameSize(p, t)
    {
      assert Stage(v, states[t], sb, i, src, off, t);
      WholeStorable(states[t], sb);
      SizesStay(p, t);
    }
    WholeStorable(v, sb);
    MakesSound(p);
  }

  lemma MakesSound(p: Plan)
    requires |p.states| == |p.txs| + 1 && p.sb.size <= |p.states[0].disk|
    requires LaidOut(p.l, p.sb, |p.states[0].inodes|) && MAXOPBLOCKS < p.l.size
    requires forall t {:trigger p.states[t]} {:trigger SameSize(p, t)} :: 0 <= t < |p.states| ==>
               AllStorable(p.states[t].inodes) && SameSize(p, t)
    requires forall t {:trigger p.txs[t]} :: 0 <= t < |p.txs| ==> Change(p.states[t], p.states[t + 1], p.sb, p.txs[t])
    ensures Sound(p)
  {
  }

  lemma WroteToo(v: Fs, w: Fs, m: Fs, sb: Super, i: nat, s: seq<Byte>, off: nat)
    requires SameFiles(w, m, sb) && Whole(v, sb) && SlotsInRange(v, sb) && |w.inodes| == |v.inodes| && i < |v.inodes|
    requires off <= v.inodes[i].size && Wrote(v, w, sb, i, s, off)
    ensures Wrote(v, m, sb, i, s, off)
  {
    hide Bytes;
    forall i' | 0 <= i' < |v.inodes| && i' != i ensures m.inodes[i'] == v.inodes[i'] && Bytes(m, sb, i') == Bytes(v, sb, i') {
      assert Bytes(m, sb, i') == Bytes(w, sb, i');
    }
  }

  /** A disk with the home blocks of the state after t transactions has t chunks. */
  lemma ChunksBack(l: Layout, sb: Super, v: Fs, i: nat, src: seq<Byte>, off: nat, states: seq<Fs>, txs: seq<set<nat>>,
                   t: nat, d: Disk)
    requires Staged(v, sb, i, src, off, states, txs) && LaidOut(l, sb, |v.inodes|) && MAXOPBLOCKS < l.size
    requires t <= |txs| && AllStorable(states[t].inodes) && SameHome(l, d, Image(states[t], sb))
    ensures HasInodeBlocks(d, sb, |v.inodes|) && HasChunks(v, Mounted(d, sb, |v.inodes|), sb, i, src, off, states, t)
  {
    FilewriteSound(l, sb, v, i, src, off, states, txs);
    assert Stage(v, states[t], sb, i, src, off, t);
    hide Staged, Sound, LaidOut, SameHome, Image, Storable, AllStorable, Owned, FilesOk, Wrote, Bytes;
    var w := states[t];
    ReadBack(w, sb, l, d);
    if off <= v.inodes[i].size {
      WroteToo(v, w, Mounted(d, sb, |v.inodes|), sb, i, src[..Chunks(t, |src|)], off);
    }
  }

  /** The calls that a filewrite makes may be given to the machine. */
  lemma FilewriteLegal(l: Layout, sb: Super, v: Fs, i: nat, src: seq<Byte>, off: nat, states: seq<Fs>, txs: seq<set<nat>>,
                       pid: nat, start: Disk)
    requires Staged(v, sb, i, src, off, states, txs) && LaidOut(l, sb, |v.inodes|) && MAXOPBLOCKS < l.size && pid != 0
    requires AllStorable(v.inodes) && SameHome(l, start, Image(v, sb))
    ensures Sound(Plan(l, sb, states, txs))
    ensures var s := Schedule(Plan(l, sb, states, txs), pid, |txs|);
            M.Legal(l, |start|, s) && M.Boundary(s, |s|) && SameHome(l, M.Written(start, s, |s|), Image(states[|txs|], sb))
  {
    FilewriteSound(l, sb, v, i, src, off, states, txs);
    ScheduleMeans(Plan(l, sb, states, txs), pid, start, |txs|);
  }

  /** Disk d recovers to files that have the first t chunks. */
  ghost predicate Survived(l: Layout, sb: Super, v: Fs, i: nat, src: seq<Byte>, off: nat, states: seq<Fs>, txs: seq<set<nat>>,
                           d: Disk, t: nat)
  {
    && t <= |txs| && Recoverable(l, d) && HasInodeBlocks(Recovered(l, d), sb, |v.inodes|)
    && HasChunks(v, Mounted(Recovered(l, d), sb, |v.inodes|), sb, i, src, off, states, t)
  }

  lemma StateSurvives(l: Layout, sb: Super, v: Fs, i: nat, src: seq<Byte>, off: nat, states: seq<Fs>, txs: seq<set<nat>>,
                      pid: nat, start: Disk, d: Disk, j: nat) returns (u: nat)
    requires Staged(v, sb, i, src, off, states, txs) && LaidOut(l, sb, |v.inodes|) && MAXOPBLOCKS < l.size && pid != 0
    requires AllStorable(v.inodes) && SameHome(l, start, Image(v, sb)) && Sound(Plan(l, sb, states, txs))
    requires M.KeptAt(l, d, start, Schedule(Plan(l, sb, states, txs), pid, |txs|), j)
    ensures u <= |txs| && j == |Schedule(Plan(l, sb, states, txs), pid, u)|
    ensures Survived(l, sb, v, i, src, off, states, txs, d, u)
  {
    hide Sound, Stage, LaidOut, SameHome, Image, AllStorable, M.Written, Schedule, Recoverable, Recovered, HasChunks;
    var p := Plan(l, sb, states, txs);
    u := BoundaryMeans(p, pid, start, |txs|, j);
    SameHomeThrough(l, Recovered(l, d), M.Written(start, Schedule(p, pid, |txs|), j), Image(states[u], sb));
    ChunksBack(l, sb, v, i, src, off, states, txs, u, Recovered(l, d));
  }

  /** The machine does a filewrite's calls and loses power after any of its disk writes.  Once
      recovered, it finds the first `chunks` chunks of src in the file and every other file
      as before; the number of chunks never goes down. */
  lemma FilewriteSurvives(l: Layout, sb: Super, v: Fs, i: nat, src: seq<Byte>, off: nat, states: seq<Fs>, txs: seq<set<nat>>,
                          pid: nat, start: Disk, history: seq<Disk>, kept: seq<nat>, b: nat) returns (chunks: seq<nat>)
    requires Staged(v, sb, i, src, off, states, txs) && LaidOut(l, sb, |v.inodes|) && MAXOPBLOCKS < l.size && pid != 0
    requires AllStorable(v.inodes) && SameHome(l, start, Image(v, sb)) && Sound(Plan(l, sb, states, txs))
    requires M.Kept(l, history, 0, start, Schedule(Plan(l, sb, states, txs), pid, |txs|), kept, b)
    ensures |chunks| == |history| && forall j, k :: 0 <= j < k < |chunks| ==> chunks[j] <= chunks[k]
    ensures forall k {:trigger chunks[k]} :: 0 <= k < |chunks| ==>
              Survived(l, sb, v, i, src, off, states, txs, history[k], chunks[k])
  {
    hide Staged, Sound, LaidOut, SameHome, Image, AllStorable, Schedule, M.KeptAt, Survived;
    var p := Plan(l, sb, states, txs);
    chunks := [];
    for k := 0 to |history|
      invariant |chunks| == k && forall j :: 0 <= j < k ==> chunks[j] <= |txs| && kept[j] == |Schedule(p, pid, chunks[j])|
      invariant forall j {:trigger chunks[j]} :: 0 <= j < k ==> Survived(l, sb, v, i, src, off, states, txs, history[j], chunks[j])
    {
      assert M.KeptAt(l, history[0 + k], start, Schedule(p, pid, |txs|), kept[k]);
      var u := StateSurvives(l, sb, v, i, src, off, states, txs, pid, start, history[k], kept[k]);
      chunks := chunks + [u];
    }
    forall j, k | 0 <= j < k < |chunks| ensures chunks[j] <= chunks[k] {
      if chunks[j] > chunks[k] {
        Longer(p, pid, chunks[k], chunks[j]);
      }
    }
  }

  /** When the machine comes to rest all the chunks are on the disk. */
  lemma FilewriteDurable(l: Layout, sb: Super, v: Fs, i: nat, src: seq<Byte>, off: nat, states: seq<Fs>, txs: seq<set<nat>>,
                         pid: nat, start: Disk, d: Disk)
    requires Staged(v, sb, i, src, off, states, txs) && LaidOut(l, sb, |v.inodes|) && MAXOPBLOCKS < l.size && pid != 0
    requires AllStorable(v.inodes) && SameHome(l, start, Image(v, sb)) && Sound(Plan(l, sb, states, txs))
    requires var s := Schedule(Plan(l, sb, states, txs), pid, |txs|); SameHome(l, d, M.Written(start, s, |s|))
    ensures HasInodeBlocks(d, sb, |v.inodes|)
    ensures HasChunks(v, Mounted(d, sb, |v.inodes|), sb, i, src, off, states, |txs|)
  {
    hide Sound, Stage, LaidOut, SameHome, Image, AllStorable, M.Written, M.Legal, Schedule, HasChunks;
    var p := Plan(l, sb, states, txs);
    Storables(p, |txs|);
    ScheduleMeans(p, pid, start, |txs|);
    var s := Schedule(p, pid, |txs|);
    SameHomeThrough(l, d, M.Written(start, s, |s|), Image(states[|txs|], sb));
    ChunksBack(l, sb, v, i, src, off, states, txs, |txs|, d);
  }

  /** The machine is switched on with a file system on its disk and does a filewrite's calls:
      it gets to their end, and is safe on the way. */
  method RunFilewrite(blocks: seq<Block>, l: Layout, pid: nat, steps: Steps, ghost sb: Super, ghost v: Fs, ghost i: nat,
                      ghost src: seq<Byte>, ghost off: nat, ghost states: seq<Fs>, ghost txs: seq<set<nat>>)
    returns (log: L.Log, ghost chunks: seq<nat>)
    requires Recoverable(l, blocks) && l.size > LOGSIZE && pid != 0 && LaidOut(l, sb, |v.inodes|)
    requires Staged(v, sb, i, src, off, states, txs)
    requires AllStorable(v.inodes) && SameHome(l, Recovered(l, blocks), Image(v, sb))
    requires Sound(Plan(l, sb, states, txs)) && steps == Schedule(Plan(l, sb, states, txs), pid, |txs|)
    ensures |chunks| == |log.cache.disk.history| && forall j, k :: 0 <= j < k < |chunks| ==> chunks[j] <= chunks[k]
    ensures forall k {:trigger chunks[k]} :: 0 <= k < |chunks| ==>
              Survived(l, sb, v, i, src, off, states, txs, log.cache.disk.history[k], chunks[k])
    ensures HasInodeBlocks(log.cache.disk.image[..], sb, |v.inodes|)
    ensures HasChunks(v, Mounted(log.cache.disk.image[..], sb, |v.inodes|), sb, i, src, off, states, |txs|)
  {
    hide Sound, Stage, LaidOut, SameHome, Image, AllStorable, Schedule, Survived, HasChunks, M.Kept, M.Legal, M.Written, M.Stops;
    ghost var start, p := Recovered(l, blocks), Plan(l, sb, states, txs);
    FilewriteLegal(l, sb, v, i, src, off, states, txs, pid, start);
    ScheduleGoesOn(p, pid, start, |txs|);
    var done;
    ghost var kept;
    log, done, kept := M.PowerOn(blocks, l, pid, steps);
    chunks := FilewriteSurvives(l, sb, v, i, src, off, states, txs, pid, start, log.cache.disk.history, kept, |steps|);
    assert done == |steps|;
    FilewriteDurable(l, sb, v, i, src, off, states, txs, pid, start, log.cache.disk.image[..]);
  }
}
