/** The write-ahead log (log.c) over the buffer cache.  Every method that writes the
    disk says which block writes it makes, so that the crash theorems of RedoLog
    apply to each disk state the machine can be left with. */
module Log {
  import opened Blocks
  import opened RedoLog
  import Ring = LruRing
  import BC = BufferCache
  import Admission = LogAdmission
  import opened Wrappers

  /** Whatever write the power fails after, recovery finds the effect of a whole number
      of transactions: history[k] recovers to the first survives[k] of them. */
  ghost predicate CrashSafe(l: Layout, origin: Disk, txs: seq<Tx>, history: seq<Disk>, survives: seq<nat>) {
    && |survives| == |history| && AllValid(l, txs, |origin|)
    && forall k :: 0 <= k < |history| ==> RecoversTo(l, origin, txs, history[k], survives[k])
  }

  ghost predicate RecoversTo(l: Layout, origin: Disk, txs: seq<Tx>, d: Disk, p: nat)
    requires AllValid(l, txs, |origin|)
  {
    && p <= |txs| && |d| == |origin| && Recoverable(l, d)
    && SameHome(l, Recovered(l, d), Effects(origin, txs[..p]))
  }

  lemma {:induction false} EffectsSnoc(l: Layout, d: Disk, txs: seq<Tx>, tx: Tx)
    requires AllValid(l, txs, |d|) && ValidTx(l, tx, |d|)
    ensures AllValid(l, txs + [tx], |d|)
    ensures Effects(d, txs + [tx]) == Effect(Effects(d, txs), tx)
    decreases |txs|
  {
    if txs == [] {
      assert (txs + [tx])[1..] == [];
    } else {
      assert (txs + [tx])[1..] == txs[1..] + [tx];
      EffectsSnoc(l, Effect(d, txs[0]), txs[1..], tx);
    }
  }

  lemma EffectRespectsHome(l: Layout, a: Disk, b: Disk, tx: Tx)
    requires SameHome(l, a, b) && ValidTx(l, tx, |a|)
    ensures SameHome(l, Effect(a, tx), Effect(b, tx))
  {
    EffectsRespectHome(l, a, b, [tx]);
    assert Effects(a, [tx]) == Effect(a, tx) && Effects(b, [tx]) == Effect(b, tx);
  }

  /** One more commit, cut off after any number of its writes, keeps the record safe. */
  lemma CommitKeepsSafe(l: Layout, origin: Disk, txs: seq<Tx>, d: Disk, tx: Tx, step: nat)
    requires AllValid(l, txs, |origin|) && |d| == |origin|
    requires Idle(l, d) && SameHome(l, d, Effects(origin, txs))
    requires ValidTx(l, tx, |d|) && step <= CommitWrites(|tx.blks|)
    ensures AllValid(l, txs + [tx], |origin|)
    ensures RecoversTo(l, origin, txs + [tx], CommitDisk(l, d, tx, step),
                       if step <= |tx.blks| then |txs| else |txs| + 1)
    ensures SameHome(l, CommitDisk(l, d, tx, CommitWrites(|tx.blks|)), Effects(origin, txs + [tx]))
  {
    CommitAtomic(l, d, tx, step);
    CommitDone(l, d, tx);
    EffectsSnoc(l, origin, txs, tx);
    EffectRespectsHome(l, d, Effects(origin, txs), tx);
    assert (txs + [tx])[..|txs|] == txs;
    assert (txs + [tx])[..|txs| + 1] == txs + [tx];
  }

  lemma MoreTxs(l: Layout, origin: Disk, txs: seq<Tx>, tx: Tx, d: Disk, p: nat)
    requires AllValid(l, txs, |origin|) && AllValid(l, txs + [tx], |origin|) && RecoversTo(l, origin, txs, d, p)
    ensures RecoversTo(l, origin, txs + [tx], d, p)
  {
    assert (txs + [tx])[..p] == txs[..p];
  }

  /** The disk states after each of commit's first k writes. */
  ghost function CommitStates(l: Layout, d: Disk, tx: Tx, k: nat): (w: seq<Disk>)
    requires Fits(l, d) && ValidTx(l, tx, |d|) && k <= CommitWrites(|tx.blks|)
    ensures |w| == k && forall s :: 0 <= s < k ==> w[s] == CommitDisk(l, d, tx, s + 1)
  {
    if k == 0 then [] else CommitStates(l, d, tx, k - 1) + [CommitDisk(l, d, tx, k)]
  }

  /** The disk states after each of install_trans's first k writes. */
  ghost function InstallStates(l: Layout, d: Disk, blks: seq<nat>, k: nat): (w: seq<Disk>)
    requires Fits(l, d) && ValidBlocks(l, blks, |d|) && k <= |blks|
    ensures |w| == k && forall s :: 0 <= s < k ==> w[s] == Installed(l, d, blks, s + 1)
  {
    if k == 0 then [] else InstallStates(l, d, blks, k - 1) + [Installed(l, d, blks, k)]
  }

  lemma InstalledIsCommit(l: Layout, d: Disk, tx: Tx, h: Disk, k: nat)
    requires Fits(l, d) && ValidTx(l, tx, |d|) && |tx.blks| > 0 && k <= |tx.blks|
    requires h == CommitDisk(l, d, tx, |tx.blks| + 1)
    ensures Installed(l, h, tx.blks, k) == CommitDisk(l, d, tx, |tx.blks| + 1 + k)
  {
  }

  lemma {:induction false} InstallIsCommit(l: Layout, d: Disk, tx: Tx, h: Disk, k: nat)
    requires Fits(l, d) && ValidTx(l, tx, |d|) && |tx.blks| > 0 && k <= |tx.blks|
    requires h == CommitDisk(l, d, tx, |tx.blks| + 1)
    ensures Installed(l, h, tx.blks, k) == CommitDisk(l, d, tx, |tx.blks| + 1 + k)
    ensures CommitStates(l, d, tx, |tx.blks| + 1) + InstallStates(l, h, tx.blks, k)
            == CommitStates(l, d, tx, |tx.blks| + 1 + k)
  {
    InstalledIsCommit(l, d, tx, h, k);
    hide CommitDisk, Installed;
    var n := |tx.blks| + 1;
    if k > 0 {
      InstallIsCommit(l, d, tx, h, k - 1);
      Assoc(CommitStates(l, d, tx, n), InstallStates(l, h, tx.blks, k - 1), [Installed(l, h, tx.blks, k)]);
    }
  }

  lemma Assoc<T>(a: seq<T>, b: seq<T>, c: seq<T>)
    ensures a + b + c == a + (b + c)
  {
  }

  /** The same, after a history h0. */
  lemma InstallIsCommitFrom(l: Layout, d: Disk, tx: Tx, h0: seq<Disk>, k: nat)
    requires Fits(l, d) && ValidTx(l, tx, |d|) && |tx.blks| > 0 && k <= |tx.blks|
    ensures var n := |tx.blks|; var h := CommitDisk(l, d, tx, n + 1);
            && Installed(l, h, tx.blks, k) == CommitDisk(l, d, tx, n + 1 + k)
            && h0 + CommitStates(l, d, tx, n + 1) + InstallStates(l, h, tx.blks, k)
               == h0 + CommitStates(l, d, tx, n + 1 + k)
  {
    var n := |tx.blks|;
    var h := CommitDisk(l, d, tx, n + 1);
    InstallIsCommit(l, d, tx, h, k);
    Assoc(h0, CommitStates(l, d, tx, n + 1), InstallStates(l, h, tx.blks, k));
  }

  /** One write of the commit at a time. */
  lemma CommitDiskNext(l: Layout, d: Disk, tx: Tx, step: nat)
    requires Fits(l, d) && ValidTx(l, tx, |d|) && step < CommitWrites(|tx.blks|)
    ensures var n, c, e := |tx.blks|, CommitDisk(l, d, tx, step), CommitDisk(l, d, tx, step + 1);
            && (step < n ==> e == c[l.start + step + 1 := tx.vals[step]])
            && (step == n ==> e == HeadWritten(l, c, tx.blks))
            && (n < step <= 2 * n ==> e == c[tx.blks[step - n - 1] := c[l.start + (step - n)]])
            && (step == 2 * n + 1 ==> e == HeadWritten(l, c, []))
  {
  }

  /** The listed blocks with their contents in the block map lg. */
  ghost function TxOf(blks: seq<nat>, lg: Disk): (tx: Tx)
    ensures tx.blks == blks && |tx.vals| == |blks|
    ensures forall i :: 0 <= i < |blks| && blks[i] < |lg| ==> tx.vals[i] == lg[blks[i]]
  {
    Tx(blks, seq(|blks|, i requires 0 <= i < |blks| => if blks[i] < |lg| then lg[blks[i]] else ZeroBlock()))
  }

  /** The disk and the block map once the commit is complete. */
  lemma CommitEnds(l: Layout, origin: Disk, txs: seq<Tx>, d: Disk, lg: Disk, tx: Tx)
    requires AllValid(l, txs, |origin|) && |d| == |origin| == |lg|
    requires Idle(l, d) && Idle(l, lg) && SameHome(l, d, Effects(origin, txs)) && ValidTx(l, tx, |d|)
    requires forall i :: 0 <= i < |tx.blks| ==> lg[tx.blks[i]] == tx.vals[i]
    ensures AllValid(l, txs + [tx], |origin|)
    ensures var w := CommitWrites(|tx.blks|);
            && Idle(l, CommitDisk(l, d, tx, w))
            && SameHome(l, CommitDisk(l, d, tx, w), Effects(origin, txs + [tx]))
            && SameHome(l, CommitDisk(l, lg, tx, w), lg)
  {
    CommitDone(l, d, tx);
    CommitDone(l, lg, tx);
    CommitKeepsSafe(l, origin, txs, d, tx, 0);
    forall x: nat | x < |lg| ensures Effect(lg, tx)[x] == lg[x] {
      AppliedAt(lg, tx, |tx.blks|, x);
      assert tx.blks[..|tx.blks|] == tx.blks;
    }
  }

  /** The states recovery itself goes through all recover to the same home blocks. */
  lemma SafeDuringRecovery(l: Layout, d: Disk, k: nat)
    requires Recoverable(l, d) && k <= HeadCount(d[l.start])
    ensures CrashSafe(l, Recovered(l, d), [], InstallStates(l, d, Head(d[l.start]), k), seq(k, _ => 0))
    ensures RecoversTo(l, Recovered(l, d), [], Recovered(l, d), 0) && Idle(l, Recovered(l, d))
  {
    var h := InstallStates(l, d, Head(d[l.start]), k);
    forall s: nat | s < k ensures RecoversTo(l, Recovered(l, d), [], h[s], 0) {
      RecoveryRestarts(l, d, s + 1);
      assert h[s] == RecoverDisk(l, d, s + 1);
    }
    RecoveryRestarts(l, d, HeadCount(d[l.start]) + 1);
    RecoveryRestarts(l, d, 0);
  }

  /** How many transactions survive a power failure after each of commit's writes. */
  ghost function Surviving(txs: nat, n: nat, k: nat): (p: seq<nat>)
    ensures |p| == k && forall s :: 0 <= s < k ==> p[s] == if s + 1 <= n then txs else txs + 1
  {
    seq(k, s => if s + 1 <= n then txs else txs + 1)
  }

  lemma SafeAfterCommit(l: Layout, origin: Disk, txs: seq<Tx>, history: seq<Disk>, survives: seq<nat>,
                        d: Disk, tx: Tx, k: nat)
    requires CrashSafe(l, origin, txs, history, survives) && |d| == |origin|
    requires Idle(l, d) && SameHome(l, d, Effects(origin, txs))
    requires ValidTx(l, tx, |d|) && k <= CommitWrites(|tx.blks|)
    ensures CrashSafe(l, origin, txs + [tx], history + CommitStates(l, d, tx, k),
                      survives + Surviving(|txs|, |tx.blks|, k))
  {
    var h := history + CommitStates(l, d, tx, k);
    var p := survives + Surviving(|txs|, |tx.blks|, k);
    CommitKeepsSafe(l, origin, txs, d, tx, 0);
    forall i | 0 <= i < |h| ensures RecoversTo(l, origin, txs + [tx], h[i], p[i]) {
      if i < |history| {
        assert RecoversTo(l, origin, txs, history[i], survives[i]);
        MoreTxs(l, origin, txs, tx, history[i], survives[i]);
      } else {
        CommitKeepsSafe(l, origin, txs, d, tx, i - |history| + 1);
      }
    }
  }

  // ---- the steps of commit and recovery on the values they work on -----------

  /** The listed blocks, the cache's view of the disk, and the disk. */
  datatype Stored = Stored(blks: seq<nat>, pinned: map<nat, nat>, logical: Disk, disk: Disk, history: seq<Disk>)

  /** Block dst gets the contents of src, in the cache and by one write on the disk. */
  ghost predicate Copied(s: Stored, t: Stored, src: nat, dst: nat) {
    && src < |s.logical| && dst < |s.logical| == |s.disk|
    && t.blks == s.blks && t.pinned == s.pinned - {dst}
    && t.logical == s.logical[dst := s.logical[src]]
    && t.disk == s.disk[dst := s.logical[src]] && t.history == s.history + [t.disk]
  }

  /** The list of blocks goes to the header block. */
  ghost predicate HeadPut(l: Layout, s: Stored, t: Stored) {
    && Fits(l, s.disk) && |s.logical| == |s.disk| && s.logical[l.start] == s.disk[l.start] && |s.blks| <= LOGSIZE
    && (forall i :: 0 <= i < |s.blks| ==> s.blks[i] < TWO_32)
    && t.blks == s.blks && t.pinned == s.pinned - {l.start}
    && t.disk == HeadWritten(l, s.disk, s.blks) && t.history == s.history + [t.disk]
    && t.logical == s.logical[l.start := t.disk[l.start]]
  }

  /** Exactly the first `step` writes of the commit of tx over d have reached the disk. */
  ghost predicate At(l: Layout, disk: Disk, history: seq<Disk>, d: Disk, tx: Tx, h0: seq<Disk>, step: nat) {
    && Fits(l, d) && ValidTx(l, tx, |d|) && step <= CommitWrites(|tx.blks|)
    && disk == CommitDisk(l, d, tx, step)
    && history == h0 + CommitStates(l, d, tx, step)
  }

  /** tx is being committed over the disk d, with lg as the block map, and `step` of the
      block writes have been made since the history h0. */
  ghost predicate Committing(l: Layout, s: Stored, d: Disk, tx: Tx, lg: Disk, h0: seq<Disk>, step: nat) {
    && |d| == |lg| && Fits(l, d) && ValidTx(l, tx, |d|) && s.blks == tx.blks
    && (forall b :: b in s.pinned ==> !InLog(l, b))
    && (forall i :: 0 <= i < |tx.blks| ==> lg[tx.blks[i]] == tx.vals[i])
    && At(l, s.disk, s.history, d, tx, h0, step)
    && s.logical == CommitDisk(l, lg, tx, step)
  }

  /** The state install_trans works in: k of the listed blocks have been installed. */
  ghost predicate Installing(l: Layout, s: Stored, d: Disk, lg: Disk, h0: seq<Disk>, k: nat) {
    && |d| == |lg| && Fits(l, d) && ValidBlocks(l, s.blks, |d|) && k <= |s.blks|
    && (forall b :: b in s.pinned ==> !InLog(l, b) && b !in s.blks[..k])
    && s.disk == Installed(l, d, s.blks, k)
    && s.history == h0 + InstallStates(l, d, s.blks, k)
    && s.logical == Installed(l, lg, s.blks, k)
  }

  lemma LogsOne(l: Layout, s: Stored, t: Stored, d: Disk, tx: Tx, lg: Disk, h0: seq<Disk>, tail: nat)
    requires Committing(l, s, d, tx, lg, h0, tail) && tail < |tx.blks|
    requires Copied(s, t, s.blks[tail], l.start + tail + 1)
    ensures Committing(l, t, d, tx, lg, h0, tail + 1) && t.pinned == s.pinned
  {
    CommitDiskNext(l, d, tx, tail);
    CommitDiskNext(l, lg, tx, tail);
    LogCopiedAt(l, lg, tx, tail, s.blks[tail]);
    assert t.pinned == s.pinned;
  }

  lemma PutsHead(l: Layout, s: Stored, t: Stored, d: Disk, tx: Tx, lg: Disk, h0: seq<Disk>)
    requires Committing(l, s, d, tx, lg, h0, |tx.blks|) && |tx.blks| > 0 && HeadPut(l, s, t)
    ensures Committing(l, t, d, tx, lg, h0, |tx.blks| + 1) && t.pinned == s.pinned
  {
    CommitDiskNext(l, d, tx, |tx.blks|);
    CommitDiskNext(l, lg, tx, |tx.blks|);
    assert t.pinned == s.pinned;
  }

  lemma InstallsOne(l: Layout, s: Stored, t: Stored, d: Disk, lg: Disk, h0: seq<Disk>, tail: nat)
    requires Installing(l, s, d, lg, h0, tail) && tail < |s.blks|
    requires Copied(s, t, l.start + tail + 1, s.blks[tail])
    requires s.disk[l.start + tail + 1] == s.logical[l.start + tail + 1]
    ensures Installing(l, t, d, lg, h0, tail + 1)
  {
    assert s.blks[..tail + 1] == s.blks[..tail] + [s.blks[tail]];
  }

  lemma StartsInstalling(l: Layout, s: Stored, d: Disk, tx: Tx, lg: Disk, h0: seq<Disk>, n: nat)
    requires Committing(l, s, d, tx, lg, h0, n + 1) && n == |tx.blks| > 0
    ensures Installing(l, s, CommitDisk(l, d, tx, n + 1), CommitDisk(l, lg, tx, n + 1),
                       h0 + CommitStates(l, d, tx, n + 1), 0)
  {
  }

  lemma PartlyInstalled(l: Layout, s: Stored, d: Disk, tx: Tx, h0: seq<Disk>, n: nat, k: nat)
    requires Fits(l, d) && ValidTx(l, tx, |d|) && s.blks == tx.blks && n == |tx.blks| > 0 && k <= n
    requires s.disk == Installed(l, CommitDisk(l, d, tx, n + 1), tx.blks, k)
    requires s.history == h0 + CommitStates(l, d, tx, n + 1)
                          + InstallStates(l, CommitDisk(l, d, tx, n + 1), tx.blks, k)
    ensures At(l, s.disk, s.history, d, tx, h0, n + 1 + k)
  {
    InstallIsCommitFrom(l, d, tx, h0, k);
  }

  lemma EndsInstalling(l: Layout, s: Stored, d: Disk, tx: Tx, lg: Disk, h0: seq<Disk>, n: nat)
    requires |d| == |lg| && Fits(l, d) && ValidTx(l, tx, |d|) && s.blks == tx.blks && n == |tx.blks| > 0
    requires forall i :: 0 <= i < |tx.blks| ==> lg[tx.blks[i]] == tx.vals[i]
    requires Installing(l, s, CommitDisk(l, d, tx, n + 1), CommitDisk(l, lg, tx, n + 1),
                        h0 + CommitStates(l, d, tx, n + 1), n)
    ensures Committing(l, s, d, tx, lg, h0, n + 1 + n) && forall b :: b in s.pinned ==> b !in tx.blks
  {
    assert tx.blks[..n] == tx.blks;
    PartlyInstalled(l, s, d, tx, h0, n, n);
    InstallIsCommitFrom(l, lg, tx, h0, n);
  }

  lemma Clears(l: Layout, s: Stored, t: Stored, d: Disk, tx: Tx, lg: Disk, h0: seq<Disk>, n: nat)
    requires Committing(l, s, d, tx, lg, h0, n + 1 + n) && n == |tx.blks| > 0
    requires HeadPut(l, s.(blks := []), t)
    ensures At(l, t.disk, t.history, d, tx, h0, n + 1 + n + 1) && t.pinned == s.pinned
    ensures t.logical == CommitDisk(l, lg, tx, n + 1 + n + 1)
  {
    CommitDiskNext(l, d, tx, n + 1 + n);
    CommitDiskNext(l, lg, tx, n + 1 + n);
    assert t.pinned == s.pinned;
  }

  ghost predicate PinnedFrom(blks: seq<nat>, pinned: map<nat, nat>, k: nat) {
    forall i :: k <= i < |blks| ==> blks[i] in pinned
  }

  /** Since p0, installing the first k blocks has only taken pins away, and none of the others'. */
  ghost predicate Unpinned(p0: map<nat, nat>, p: map<nat, nat>, blks: seq<nat>, k: nat) {
    && (forall b :: b in p ==> b in p0) && |p| <= |p0| && (p0 == map[] ==> p == map[])
    && (PinnedFrom(blks, p0, 0) ==> PinnedFrom(blks, p, k))
  }

  lemma UnpinnedStart(p: map<nat, nat>, blks: seq<nat>)
    ensures Unpinned(p, p, blks, 0)
  {
  }

  lemma UnpinnedMore(l: Layout, size: nat, p0: map<nat, nat>, p: map<nat, nat>, blks: seq<nat>, k: nat)
    requires k < |blks| && ValidBlocks(l, blks, size) && Unpinned(p0, p, blks, k)
    ensures Unpinned(p0, p - {blks[k]}, blks, k + 1)
    ensures PinnedFrom(blks, p0, 0) || p0 == map[] ==> blks[k] in p || p == map[]
  {
    assert (p - {blks[k]}).Keys == p.Keys - {blks[k]};
    SubsetSize(p.Keys - {blks[k]}, p.Keys);
  }

  lemma UnpinnedSays(p0: map<nat, nat>, p: map<nat, nat>, blks: seq<nat>, k: nat)
    requires Unpinned(p0, p, blks, k)
    ensures (forall b :: b in p ==> b in p0) && |p| <= |p0|
  {
  }

  lemma InstallingSays(l: Layout, s: Stored, d: Disk, lg: Disk, h0: seq<Disk>, k: nat)
    requires Installing(l, s, d, lg, h0, k)
    ensures ValidBlocks(l, s.blks, |d|) && Fits(l, d) && k <= |s.blks|
    ensures s.disk == Installed(l, d, s.blks, k) && s.history == h0 + InstallStates(l, d, s.blks, k)
  {
  }

  lemma {:induction false} CountOf(blks: seq<nat>, m: map<nat, nat>)
    requires forall i, j :: 0 <= i < j < |blks| ==> blks[i] != blks[j]
    requires forall b :: b in m <==> b in blks
    ensures |m| == |blks|
  {
    if blks == [] {
      assert m == map[];
    } else {
      var b, rest := blks[|blks| - 1], blks[..|blks| - 1];
      assert blks == rest + [b];
      var r := m - {b};
      assert m.Keys == r.Keys + {b};
      CountOf(rest, r);
    }
  }

  /** What a commit of n blocks adds to the record: nothing is lost, and the new disk
      states survive with txs transactions before the first write_head, one more after. */
  ghost predicate Extended(before: seq<nat>, after: seq<nat>, txs: nat, n: nat, done: bool) {
    && |before| <= |after| <= |before| + CommitWrites(n)
    && (done ==> |after| == |before| + CommitWrites(n))
    && after == before + Surviving(txs, n, |after| - |before|)
  }

  lemma StartsRecovery(l: Layout, s: Stored, d: Disk)
    requires Recoverable(l, d) && s.blks == Head(d[l.start]) && s.pinned == map[]
    requires s.logical == s.disk == d && s.history == []
    ensures Installing(l, s, d, d, [], 0)
  {
  }

  lemma EndsRecovery(l: Layout, s: Stored, t: Stored, d: Disk, survives: seq<nat>)
    requires Recoverable(l, d) && Installing(l, s, d, d, [], |s.blks|) && s.blks == Head(d[l.start])
    requires HeadPut(l, s.(blks := []), t)
    requires CrashSafe(l, Recovered(l, d), [], s.history, survives)
    ensures t.disk == t.logical == Recovered(l, d) && Idle(l, t.disk) && t.pinned == s.pinned
    ensures CrashSafe(l, Recovered(l, d), [], t.history, survives + [0])
  {
    SafeDuringRecovery(l, d, 0);
    assert t.pinned == s.pinned;
  }

  class Log {
    const cache: BC.BufferCache
    const layout: Layout
    var outstanding: int
    var committing: bool
    var n: nat             // lh.n
    const block: array<nat> // lh.block
    ghost var ops: map<nat, set<nat>>  // active operations and the blocks each has logged
    ghost var origin: Disk             // the disk when the log came up
    ghost var txs: seq<Tx>             // the transactions whose commit has begun since
    ghost var survives: seq<nat>

    constructor (cache: BC.BufferCache, layout: Layout)
      ensures this.cache == cache && this.layout == layout && fresh(block) && block.Length == LOGSIZE && n == 0
    {
      this.cache := cache;
      this.layout := layout;
      block := new nat[LOGSIZE];
      outstanding, committing, n := 0, false, 0;
      ops, origin, txs, survives := map[], [], [], [];
    }

    // ---- the commit machinery ------------------------------------------------

    /** During commit and recovery no file-system operation holds a modified buffer. */
    ghost predicate Quiet(pid: nat)
      reads this, block, cache, cache.buf, cache.disk, cache.disk.image
    {
      && cache.Valid() && cache.pending == map[] && pid != 0
      && (forall k :: 0 <= k < Ring.NBUF ==> pid !in cache.waiting[k])
      && Fits(layout, cache.disk.image[..])
      && block.Length == LOGSIZE && n <= LOGSIZE
    }

    /** Nobody holds a buffer or waits for one. */
    ghost predicate Easy()
      reads cache, cache.buf
    {
      cache.buf.Length == 31 && BC.Resting(cache.buf[..])
    }

    /** The listed blocks from the k-th on are pinned in the cache. */
    ghost predicate Covered(k: nat)
      requires n <= block.Length
      reads this, block, cache
    {
      PinnedFrom(block[..n], cache.pinned, k)
    }

    ghost function Now(): Stored
      requires n <= block.Length
      reads this, block, cache, cache.disk, cache.disk.image
    {
      Stored(block[..n], cache.pinned, cache.logical, cache.disk.image[..], cache.disk.history)
    }

    /** The body of the loops of write_log and install_trans: the contents of block src
        go to block dst.  The two loops differ in which buffer they get first. */
    method CopyBlock(src: nat, dst: nat, dstFirst: bool, pid: nat) returns (ok: bool)
      requires Quiet(pid) && src != dst && src < cache.disk.image.Length && dst < cache.disk.image.Length
      modifies cache, cache.buf, cache.disk, cache.disk.image
      ensures cache.Valid()
      ensures ok ==> Quiet(pid) && Copied(old(Now()), Now(), src, dst) && cache.waiting == old(cache.waiting)
      ensures !ok ==> cache.disk.image[..] == old(cache.disk.image[..])
                      && cache.disk.history == old(cache.disk.history)
      ensures ok && old(Easy()) ==> Easy()
      ensures var first, second := if dstFirst then dst else src, if dstFirst then src else dst;
              old(Easy()) && (second in old(cache.pinned) || old(cache.pinned) == map[]) ==>
                (ok <==> first in old(cache.pinned) || |old(cache.pinned)| < Ring.NBUF)
    {
      hide BC.BufferCache.Valid, BC.Coherent, BC.Resting, BC.RestingPair;
      cache.SameSize();
      var first, second;
      first, second, ok := ReadTwo(if dstFirst then dst else src, if dstFirst then src else dst, pid);
      if ok {
        MoveData(if dstFirst then second else first, if dstFirst then first else second, pid);
        cache.SameSize();
      }
    }

    /** bread of one block after another. */
    method ReadTwo(x: nat, y: nat, pid: nat) returns (first: nat, second: nat, ok: bool)
      requires Quiet(pid) && x != y && x < cache.disk.image.Length && y < cache.disk.image.Length
      modifies cache`waiting, cache.buf
      ensures cache.Valid() && (ok ==> Quiet(pid) && cache.waiting == old(cache.waiting))
      ensures ok ==> first < Ring.NBUF && second < Ring.NBUF && first != second
      ensures ok ==> cache.buf[first].holder == cache.buf[second].holder == pid && cache.buf[first].valid && cache.buf[second].valid
      ensures ok ==> cache.buf[first].blockno == x && cache.buf[second].blockno == y
      ensures ok ==> cache.buf[first].data == cache.logical[x] && cache.buf[second].data == cache.logical[y]
      ensures ok && old(Easy()) ==> BC.RestingPair(cache.buf[..], first, second) && BC.RestingPair(cache.buf[..], second, first)
      ensures old(Easy()) && (y in cache.pinned || cache.pinned == map[]) ==>
                (ok <==> x in cache.pinned || |cache.pinned| < Ring.NBUF)
    {
      hide BC.Coherent, BC.Unique, BC.Counted, BC.Aged, BC.Complete, Ring.Ring, Ring.Core;
      hide BC.Busy, BC.NoBuffer, BC.Evictable, BC.Resting, BC.RestingBut, BC.RestingPair;
      cache.SameSize();
      ghost var easy := Easy();
      second := 0;
      first, ok := cache.Bread(x, pid);
      if !ok { return; }
      ghost var t: Ring.Bufs := cache.buf[..];
      if easy && (y in cache.pinned || cache.pinned == map[]) {
        BC.SecondServed(t, first, x, y, cache.disk.image[..], cache.logical, cache.pinned, cache.pending);
      }
      second, ok := cache.Bread(y, pid);
      if ok && easy {
        BC.SecondHeld(t, cache.buf[..], first, second);
      }
    }

    /** The held buffer gets new contents, which bwrite puts on the disk. */
    method StoreBlock(b: nat, data: Block, pid: nat)
      requires Quiet(pid) && b < Ring.NBUF && cache.buf[b].holder != 0 && cache.buf[b].valid
      modifies cache, cache.buf, cache.disk, cache.disk.image
      ensures Quiet(pid) && cache.waiting == old(cache.waiting)
      ensures cache.buf[..] == old(cache.buf[..])[b := old(cache.buf[b]).(data := data, dirty := false)]
      ensures var dst := old(cache.buf[b].blockno);
              && cache.disk.image[..] == old(cache.disk.image[..])[dst := data]
              && cache.disk.history == old(cache.disk.history) + [cache.disk.image[..]]
              && cache.logical == old(cache.logical)[dst := data]
              && cache.pinned == old(cache.pinned) - {dst}
    {
      ghost var s: Ring.Bufs := cache.buf[..];
      cache.Modify(b, data);
      BC.UpdateTwice(s, b, s[b].(data := data), s[b].(data := data, dirty := false));
      cache.Bwrite(b);
      assert cache.pending == map[];
    }

    /** The contents of one held buffer go to the other, which is written to the disk;
        then both are released. */
    method MoveData(from: nat, to: nat, pid: nat)
      requires Quiet(pid) && from < Ring.NBUF && to < Ring.NBUF && from != to
      requires cache.buf[from].holder != 0 && cache.buf[to].holder != 0 && cache.buf[to].valid && cache.buf[from].valid
      modifies cache, cache.buf, cache.disk, cache.disk.image
      ensures Quiet(pid) && cache.waiting == old(cache.waiting)
      ensures var dst, data := old(cache.buf[to].blockno), old(cache.buf[from].data);
              && cache.disk.image[..] == old(cache.disk.image[..])[dst := data]
              && cache.disk.history == old(cache.disk.history) + [cache.disk.image[..]]
              && cache.logical == old(cache.logical)[dst := data]
              && cache.pinned == old(cache.pinned) - {dst}
      ensures old(BC.RestingPair(cache.buf[..], from, to)) ==> Easy()
    {
      hide BC.Coherent, BC.Unique, BC.Aged, BC.Complete, Ring.Ring;
      hide BC.Evictable, BC.Resting, BC.RestingBut, BC.RestingPair;
      ghost var z: Ring.Bufs, pair := cache.buf[..], BC.RestingPair(cache.buf[..], from, to);
      StoreBlock(to, cache.buf[from].data, pid);
      ghost var s: Ring.Bufs := cache.buf[..];
      cache.Brelse(from);
      ghost var t: Ring.Bufs := cache.buf[..];
      cache.Brelse(to);
      if pair {
        BC.StillPair(z, s, from, to);
        BC.OneReleased(s, t, from, to);
        BC.LastReleased(t, cache.buf[..], to);
      }
    }

    /** The header block b with the count and the listed blocks put into it. */
    method FillHead(b: Block) returns (h: Block)
      requires block.Length == LOGSIZE && n <= LOGSIZE && forall i :: 0 <= i < n ==> block[i] < TWO_32
      ensures h == PutHead(b, block[..n])
    {
      h := PutWord(b, 0, n);
      ghost var h0 := h;
      for i := 0 to n
        invariant h == PutEntries(h0, block[..n], i)
      {
        h := PutWord(h, i + 1, block[i]);
      }
    }

    /** write_head: one block write. */
    method WriteHead(pid: nat) returns (ok: bool)
      requires Quiet(pid) && forall i :: 0 <= i < n ==> block[i] < TWO_32
      requires cache.disk.image[layout.start] == cache.logical[layout.start]
      modifies cache, cache.buf, cache.disk, cache.disk.image
      ensures cache.Valid()
      ensures ok ==> Quiet(pid) && HeadPut(layout, old(Now()), Now()) && cache.waiting == old(cache.waiting)
      ensures !ok ==> cache.disk.image[..] == old(cache.disk.image[..])
                      && cache.disk.history == old(cache.disk.history)
      ensures ok && old(Easy()) ==> Easy()
      ensures old(Easy()) && layout.start !in old(cache.pinned) ==> (ok <==> |old(cache.pinned)| < Ring.NBUF)
    {
      hide BC.Coherent, BC.Unique, BC.Aged, BC.Complete, Ring.Ring;
      hide BC.Busy, BC.NoBuffer, BC.Evictable, BC.Resting, BC.RestingBut, Ring.Core;
      cache.SameSize();
      var b;
      b, ok := cache.Bread(layout.start, pid);
      if !ok { return; }
      PutHeadBlock(b, pid);
    }

    /** The rest of write_head, with the header block's buffer held. */
    method PutHeadBlock(b: nat, pid: nat)
      requires Quiet(pid) && (forall i :: 0 <= i < n ==> block[i] < TWO_32) && b < Ring.NBUF
      requires cache.buf[b].holder != 0 && cache.buf[b].valid && cache.buf[b].blockno == layout.start
      requires cache.buf[b].data == cache.logical[layout.start] == cache.disk.image[layout.start]
      requires |cache.logical| == cache.disk.image.Length
      modifies cache, cache.buf, cache.disk, cache.disk.image
      ensures Quiet(pid) && HeadPut(layout, old(Now()), Now()) && cache.waiting == old(cache.waiting)
      ensures old(BC.RestingBut(cache.buf[..], b)) ==> Easy()
    {
      hide BC.Coherent, BC.Unique, BC.Counted, BC.Aged, BC.Complete, Ring.Ring, BC.Resting, Ring.Core;
      ghost var resting := BC.RestingBut(cache.buf[..], b);
      var h := FillHead(cache.buf[b].data);
      StoreBlock(b, h, pid);
      ghost var s: Ring.Bufs := cache.buf[..];
      cache.Brelse(b);
      if resting {
        BC.LastReleased(s, cache.buf[..], b);
      }
    }

    /** read_head, given the contents of the header block. */
    method TakeHead(b: Block)
      requires block.Length == LOGSIZE && HeadCount(b) <= LOGSIZE
      modifies this`n, block
      ensures n == HeadCount(b) && block[..n] == Head(b)
    {
      n := Word(b, 0);
      for i := 0 to n
        invariant n == HeadCount(b) && forall k :: 0 <= k < i ==> block[k] == Word(b, k + 1)
      {
        block[i] := Word(b, i + 1);
      }
    }

    method WriteLogStep(tail: nat, pid: nat, ghost d: Disk, ghost tx: Tx, ghost lg: Disk, ghost h0: seq<Disk>)
      returns (ok: bool)
      requires Quiet(pid) && Committing(layout, Now(), d, tx, lg, h0, tail) && tail < n
      modifies cache, cache.buf, cache.disk, cache.disk.image
      ensures cache.Valid()
      ensures ok ==> Quiet(pid) && Committing(layout, Now(), d, tx, lg, h0, tail + 1) && cache.pinned == old(cache.pinned)
      ensures ok ==> cache.waiting == old(cache.waiting)
      ensures !ok ==> At(layout, cache.disk.image[..], cache.disk.history, d, tx, h0, tail)
      ensures ok && old(Easy()) ==> Easy()
      ensures old(Easy()) && block[tail] in old(cache.pinned) ==> (ok <==> |old(cache.pinned)| < Ring.NBUF)
    {
      hide BC.BufferCache.Valid;
      ghost var s := Now();
      ok := CopyBlock(block[tail], layout.start + tail + 1, true, pid);
      if ok {
        LogsOne(layout, s, Now(), d, tx, lg, h0, tail);
      }
    }

    /** Unpinned blocks are on the disk as they are in the cache; so is the header. */
    lemma HeaderClean(pid: nat)
      requires Quiet(pid) && layout.start !in cache.pinned
      ensures cache.disk.image[layout.start] == cache.logical[layout.start]
    {
    }

    /** write_log: the first n writes of commit; when it cannot go on, some of them. */
    method WriteLog(pid: nat, ghost d: Disk, ghost tx: Tx, ghost lg: Disk, ghost h0: seq<Disk>)
      returns (ok: bool, ghost step: nat)
      requires Quiet(pid) && Committing(layout, Now(), d, tx, lg, h0, 0) && n > 0
      modifies cache, cache.buf, cache.disk, cache.disk.image
      ensures cache.Valid() && step <= n && At(layout, cache.disk.image[..], cache.disk.history, d, tx, h0, step)
      ensures ok ==> step == n && Quiet(pid) && Committing(layout, Now(), d, tx, lg, h0, n)
      ensures ok ==> cache.pinned == old(cache.pinned) && cache.waiting == old(cache.waiting)
      ensures ok && old(Easy()) ==> Easy()
      ensures old(Easy() && Covered(0)) ==> (ok <==> |old(cache.pinned)| < Ring.NBUF)
    {
      hide BC.BufferCache.Valid, At, CommitDisk, CommitStates, BC.Resting;
      var tail := 0;
      while tail < n
        invariant tail <= n && Quiet(pid) && Committing(layout, Now(), d, tx, lg, h0, tail)
        invariant cache.pinned == old(cache.pinned) && cache.waiting == old(cache.waiting)
        invariant old(Easy()) ==> Easy() && (tail > 0 && old(Covered(0)) ==> |cache.pinned| < Ring.NBUF)
      {
        ok := WriteLogStep(tail, pid, d, tx, lg, h0);
        if !ok { return false, tail; }
        tail := tail + 1;
      }
      return true, tail;
    }

    method InstallStep(tail: nat, pid: nat, ghost d: Disk, ghost lg: Disk, ghost h0: seq<Disk>)
      returns (ok: bool)
      requires Quiet(pid) && Installing(layout, Now(), d, lg, h0, tail) && tail < n
      modifies cache, cache.buf, cache.disk, cache.disk.image
      ensures cache.Valid()
      ensures ok ==> Quiet(pid) && Installing(layout, Now(), d, lg, h0, tail + 1)
      ensures ok ==> cache.pinned == old(cache.pinned) - {block[tail]} && cache.waiting == old(cache.waiting)
      ensures !ok ==> cache.disk.image[..] == old(cache.disk.image[..]) && cache.disk.history == old(cache.disk.history)
      ensures ok && old(Easy()) ==> Easy()
      ensures old(Easy()) && (block[tail] in old(cache.pinned) || old(cache.pinned) == map[]) ==> (ok <==> |old(cache.pinned)| < Ring.NBUF)
    {
      ghost var s := Now();
      ok := CopyBlock(layout.start + tail + 1, block[tail], false, pid);
      if ok {
        InstallsOne(layout, s, Now(), d, lg, h0, tail);
      }
    }

    /** install_trans: every listed block goes home; their buffers are clean afterwards. */
    method InstallTrans(pid: nat, ghost d: Disk, ghost lg: Disk, ghost h0: seq<Disk>)
      returns (ok: bool, ghost k: nat)
      requires Quiet(pid) && Installing(layout, Now(), d, lg, h0, 0)
      modifies cache, cache.buf, cache.disk, cache.disk.image
      ensures cache.Valid() && k <= n && ValidBlocks(layout, block[..n], |d|) && Fits(layout, d)
      ensures cache.disk.image[..] == Installed(layout, d, block[..n], k)
      ensures cache.disk.history == h0 + InstallStates(layout, d, block[..n], k)
      ensures ok ==> k == n && Quiet(pid) && Installing(layout, Now(), d, lg, h0, n)
      ensures ok ==> forall b :: b in cache.pinned ==> b in old(cache.pinned)
      ensures ok ==> cache.waiting == old(cache.waiting)
      ensures ok ==> |cache.pinned| <= |old(cache.pinned)| && (old(Easy()) ==> Easy())
      ensures old(Easy() && (Covered(0) || cache.pinned == map[]) && |cache.pinned| < Ring.NBUF) ==> ok
    {
      hide BC.BufferCache.Valid, Installed, InstallStates, BC.Resting, Installing, ValidBlocks, Fits, Unpinned, PinnedFrom;
      ghost var p0 := cache.pinned;
      var tail := 0;
      InstallingSays(layout, Now(), d, lg, h0, 0);
      UnpinnedStart(p0, block[..n]);
      while tail < n
        invariant tail <= n && Quiet(pid) && Installing(layout, Now(), d, lg, h0, tail)
        invariant ValidBlocks(layout, block[..n], |d|) && Fits(layout, d)
        invariant cache.disk.image[..] == Installed(layout, d, block[..n], tail)
        invariant cache.disk.history == h0 + InstallStates(layout, d, block[..n], tail)
        invariant cache.waiting == old(cache.waiting) && (old(Easy()) ==> Easy())
        invariant Unpinned(p0, cache.pinned, block[..n], tail)
      {
        UnpinnedMore(layout, |d|, p0, cache.pinned, block[..n], tail);
        UnpinnedSays(p0, cache.pinned, block[..n], tail);
        ok := InstallStep(tail, pid, d, lg, h0);
        if !ok { return false, tail; }
        tail := tail + 1;
        InstallingSays(layout, Now(), d, lg, h0, tail);
      }
      UnpinnedSays(p0, cache.pinned, block[..n], tail);
      return true, tail;
    }

    method CommitHead(pid: nat, ghost d: Disk, ghost tx: Tx, ghost lg: Disk, ghost h0: seq<Disk>)
      returns (ok: bool)
      requires Quiet(pid) && Committing(layout, Now(), d, tx, lg, h0, n) && n > 0
      modifies cache, cache.buf, cache.disk, cache.disk.image
      ensures cache.Valid()
      ensures ok ==> Quiet(pid) && Committing(layout, Now(), d, tx, lg, h0, n + 1) && cache.pinned == old(cache.pinned)
      ensures ok ==> cache.waiting == old(cache.waiting)
      ensures !ok ==> At(layout, cache.disk.image[..], cache.disk.history, d, tx, h0, n)
      ensures ok && old(Easy()) ==> Easy()
      ensures old(Easy()) ==> (ok <==> |old(cache.pinned)| < Ring.NBUF)
    {
      ghost var s := Now();
      ok := WriteHead(pid);
      if ok {
        PutsHead(layout, s, Now(), d, tx, lg, h0);
      }
    }

    method CommitInstall(pid: nat, ghost d: Disk, ghost tx: Tx, ghost lg: Disk, ghost h0: seq<Disk>)
      returns (ok: bool, ghost step: nat)
      requires Quiet(pid) && Committing(layout, Now(), d, tx, lg, h0, n + 1) && n > 0
      modifies cache, cache.buf, cache.disk, cache.disk.image
      ensures cache.Valid() && At(layout, cache.disk.image[..], cache.disk.history, d, tx, h0, step)
      ensures ok ==> step == n + 1 + n && Quiet(pid) && Committing(layout, Now(), d, tx, lg, h0, step)
      ensures ok ==> forall b :: b in cache.pinned ==> b in old(cache.pinned) && b !in tx.blks
      ensures ok ==> cache.waiting == old(cache.waiting)
      ensures ok ==> |cache.pinned| <= |old(cache.pinned)| && (old(Easy()) ==> Easy())
      ensures old(Easy() && Covered(0) && |cache.pinned| < Ring.NBUF) ==> ok
    {
      hide BC.BufferCache.Valid, CommitDisk, CommitStates, Installed, InstallStates;
      ghost var k;
      StartsInstalling(layout, Now(), d, tx, lg, h0, n);
      ok, k := InstallTrans(pid, CommitDisk(layout, d, tx, n + 1), CommitDisk(layout, lg, tx, n + 1),
                            h0 + CommitStates(layout, d, tx, n + 1));
      PartlyInstalled(layout, Now(), d, tx, h0, n, k);
      step := n + 1 + k;
      if ok {
        EndsInstalling(layout, Now(), d, tx, lg, h0, n);
      }
    }

    method CommitClear(pid: nat, ghost d: Disk, ghost tx: Tx, ghost lg: Disk, ghost h0: seq<Disk>)
      returns (ok: bool, ghost step: nat)
      requires Quiet(pid) && Committing(layout, Now(), d, tx, lg, h0, n + 1 + n) && n > 0
      modifies this`n, cache, cache.buf, cache.disk, cache.disk.image
      ensures cache.Valid() && n == 0 && At(layout, cache.disk.image[..], cache.disk.history, d, tx, h0, step)
      ensures ok ==> step == CommitWrites(|tx.blks|) && Quiet(pid) && cache.pinned == old(cache.pinned)
      ensures ok ==> cache.waiting == old(cache.waiting)
      ensures ok ==> cache.logical == CommitDisk(layout, lg, tx, step)
      ensures ok && old(Easy()) ==> Easy()
      ensures old(Easy() && |cache.pinned| < Ring.NBUF) ==> ok
    {
      hide BC.BufferCache.Valid;
      HeaderClean(pid);
      ghost var s, m := Now(), n;
      n := 0;
      ok := WriteHead(pid);
      step := m + 1 + m;
      if ok {
        Clears(layout, s, Now(), d, tx, lg, h0, m);
        step := m + 1 + m + 1;
      }
    }

    /** commit's second half: the writes after the commit point. */
    method CommitRest(pid: nat, ghost d: Disk, ghost tx: Tx, ghost lg: Disk, ghost h0: seq<Disk>)
      returns (ok: bool, ghost step: nat)
      requires Quiet(pid) && Committing(layout, Now(), d, tx, lg, h0, n + 1) && n > 0
      modifies this`n, cache, cache.buf, cache.disk, cache.disk.image
      ensures cache.Valid() && At(layout, cache.disk.image[..], cache.disk.history, d, tx, h0, step)
      ensures ok ==> Quiet(pid) && step == CommitWrites(|tx.blks|) && n == 0
      ensures ok ==> cache.logical == CommitDisk(layout, lg, tx, step)
      ensures ok ==> forall b :: b in cache.pinned ==> b in old(cache.pinned) && b !in tx.blks
      ensures ok ==> cache.waiting == old(cache.waiting)
      ensures ok && old(Easy()) ==> Easy()
      ensures old(Easy() && Covered(0) && |cache.pinned| < Ring.NBUF) ==> ok
    {
      hide *;
      ok, step := CommitInstall(pid, d, tx, lg, h0);
      if ok {
        ok, step := CommitClear(pid, d, tx, lg, h0);
      }
    }

    /** commit(): write_log, write_head, install_trans, and the header once more.  If
        it cannot finish, a prefix of exactly those writes has reached the disk. */
    method Commit(pid: nat, ghost d: Disk, ghost tx: Tx, ghost lg: Disk, ghost h0: seq<Disk>)
      returns (ok: bool, ghost step: nat)
      requires Quiet(pid) && Committing(layout, Now(), d, tx, lg, h0, 0)
      modifies this`n, cache, cache.buf, cache.disk, cache.disk.image
      ensures cache.Valid() && At(layout, cache.disk.image[..], cache.disk.history, d, tx, h0, step)
      ensures ok ==> Quiet(pid) && step == CommitWrites(|tx.blks|) && n == 0
      ensures ok ==> cache.logical == CommitDisk(layout, lg, tx, step)
      ensures ok ==> forall b :: b in cache.pinned ==> b in old(cache.pinned) && b !in tx.blks
      ensures ok ==> cache.waiting == old(cache.waiting)
      ensures ok && old(Easy()) ==> Easy()
      ensures old(Easy() && Covered(0)) ==> (ok <==> old(n) == 0 || |old(cache.pinned)| < Ring.NBUF)
    {
      if n == 0 { return true, 0; }
      ok, step := WriteLog(pid, d, tx, lg, h0);
      if !ok { return; }
      ok := CommitHead(pid, d, tx, lg, h0);
      if !ok { return; }
      ok, step := CommitRest(pid, d, tx, lg, h0);
    }

    // ---- the log as its callers see it ---------------------------------------

    ghost predicate Valid()
      reads this, block, cache, cache.buf, cache.disk, cache.disk.image
    {
      && cache.Valid() && block.Length == LOGSIZE && n <= LOGSIZE
      && Listing() && Counting() && Recorded()
    }

    /** Exactly the listed blocks are pinned in the cache; only active operations hold
        modified buffers; the on-disk header is clear. */
    ghost predicate Listing()
      requires block.Length == LOGSIZE && n <= LOGSIZE && cache.buf.Length == 31
      reads this, block, cache, cache.buf, cache.disk, cache.disk.image
    {
      && Idle(layout, cache.disk.image[..])
      && ValidBlocks(layout, block[..n], cache.disk.image.Length)
      && (forall b :: b in cache.pinned <==> b in block[..n])
      && (forall b :: b in cache.pending ==>
            !InLog(layout, b) && cache.pending[b] < Ring.NBUF && cache.buf[cache.pending[b]].holder in ops)
    }

    ghost predicate Counting()
      reads this
    {
      && outstanding == |ops| && 0 !in ops
      && (committing ==> |ops| == 0)
      && (!committing && |ops| == 0 ==> n == 0)
    }

    /** The disk holds the committed transactions, and every disk state the run has gone
        through recovers to a prefix of them. */
    ghost predicate Recorded()
      requires Idle(layout, cache.disk.image[..])
      reads this, cache, cache.disk, cache.disk.image
    {
      && |origin| == cache.disk.image.Length
      && CrashSafe(layout, origin, txs, cache.disk.history, survives)
      && SameHome(layout, cache.disk.image[..], Effects(origin, txs))
    }

    ghost function View(): Admission.View
      requires n <= block.Length
      reads this, block
    {
      Admission.View(layout.size, block[..n], committing, ops)
    }

    /** begin_op, one round of its loop: when not admitted the caller sleeps. */
    method BeginOp(pid: nat) returns (admitted: bool)
      requires Valid() && pid != 0 && pid !in ops
      modifies this`outstanding, this`ops
      ensures Valid()
      ensures admitted == Admission.Admits(old(View()))
      ensures View() == if admitted then Admission.Begin(old(View()), pid) else old(View())
      ensures outstanding == old(outstanding) + if admitted then 1 else 0
    {
      if committing || n + (outstanding + 1) * MAXOPBLOCKS > LOGSIZE {
        return false;
      }
      outstanding := outstanding + 1;
      ops := ops[pid := {}];
      return true;
    }

    /** end_op up to the commit: the last operation to leave starts it. */
    method EndOp(pid: nat) returns (doCommit: bool)
      requires Valid() && pid in ops
      requires forall b :: b in cache.pending ==> cache.buf[cache.pending[b]].holder != pid
      modifies this`outstanding, this`ops, this`committing
      ensures Valid() && View() == Admission.End(old(View()), pid)
      ensures doCommit == committing
    {
      outstanding := outstanding - 1;
      assert !committing;
      if outstanding == 0 {
        doCommit, committing := true, true;
      } else {
        doCommit := false;
      }
      ops := ops - {pid};
    }

    /** The rest of end_op when it is to commit.  The new disk states are exactly those of
        the commit's writes so far; each recovers to the transactions before this one, and
        from the first write_head on to this one as well. */
    method CommitOp(pid: nat) returns (ok: bool)
      requires Valid() && committing && pid != 0
      requires forall k :: 0 <= k < Ring.NBUF ==> pid !in cache.waiting[k]
      modifies this, cache, cache.buf, cache.disk, cache.disk.image
      ensures txs == old(txs) + [TxOf(old(block[..n]), old(cache.logical))]
      ensures CrashSafe(layout, origin, txs, cache.disk.history, survives) && origin == old(origin)
      ensures Extended(old(survives), survives, |old(txs)|, old(n), ok)
      ensures At(layout, cache.disk.image[..], cache.disk.history, old(cache.disk.image[..]),
                 TxOf(old(block[..n]), old(cache.logical)), old(cache.disk.history), |survives| - |old(survives)|)
      ensures old(cache.disk.history) <= cache.disk.history
      ensures SameHome(layout, Effects(origin, txs), old(cache.logical))
      ensures ok ==> Valid() && View() == Admission.Finish(old(View()))
      ensures ok ==> SameHome(layout, cache.logical, old(cache.logical))
      ensures ok ==> cache.waiting == old(cache.waiting)
      ensures old(Easy()) ==> (ok <==> old(n) < Ring.NBUF) && (ok ==> Easy())
    {
      hide BC.BufferCache.Valid, At, Extended, CrashSafe, SameHome;
      ok := CommitAndRecord(pid);
      if ok {
        ClearCommitting();
      }
    }

    method CommitAndRecord(pid: nat) returns (ok: bool)
      requires Valid() && committing && pid != 0
      requires forall k :: 0 <= k < Ring.NBUF ==> pid !in cache.waiting[k]
      modifies this`n, this`txs, this`survives, cache, cache.buf, cache.disk, cache.disk.image
      ensures cache.Valid() && txs == old(txs) + [TxOf(old(block[..n]), old(cache.logical))]
      ensures CrashSafe(layout, origin, txs, cache.disk.history, survives)
      ensures Extended(old(survives), survives, |old(txs)|, old(n), ok)
      ensures At(layout, cache.disk.image[..], cache.disk.history, old(cache.disk.image[..]),
                 TxOf(old(block[..n]), old(cache.logical)), old(cache.disk.history), |survives| - |old(survives)|)
      ensures old(cache.disk.history) <= cache.disk.history
      ensures SameHome(layout, Effects(origin, txs), old(cache.logical))
      ensures ok ==> Quiet(pid) && n == 0 && Idle(layout, cache.disk.image[..]) && Recorded()
      ensures ok ==> forall b :: b !in cache.pinned
      ensures ok ==> SameHome(layout, cache.logical, old(cache.logical))
      ensures ok ==> cache.waiting == old(cache.waiting)
      ensures old(Easy()) ==> (ok <==> old(n) < Ring.NBUF) && (ok ==> Easy())
    {
      hide BC.BufferCache.Valid, CommitStates, CommitDisk, Effects, RecoversTo, At, Committing, BC.Resting;
      hide Covered, Listing, Counting, CrashSafe;
      ghost var d, lg, h0, tx, step := cache.disk.image[..], cache.logical, cache.disk.history, TxOf(block[..n], cache.logical), 0;
      BeforeCommit(pid);
      ok, step := Commit(pid, d, tx, lg, h0);
      Record(d, lg, h0, tx, step);
    }

    lemma BeforeCommit(pid: nat)
      requires Valid() && committing && pid != 0
      requires forall k :: 0 <= k < Ring.NBUF ==> pid !in cache.waiting[k]
      ensures Quiet(pid) && Idle(layout, cache.logical) && |cache.pinned| == n && Covered(0)
      ensures forall b :: b in cache.pinned ==> b in block[..n]
      ensures var d, tx := cache.disk.image[..], TxOf(block[..n], cache.logical);
              && Committing(layout, Now(), d, tx, cache.logical, cache.disk.history, 0)
              && Idle(layout, d) && |d| == |cache.logical| == |origin| && ValidTx(layout, tx, |d|)
              && CrashSafe(layout, origin, txs, cache.disk.history, survives) && SameHome(layout, d, Effects(origin, txs))
              && (forall i :: 0 <= i < n ==> cache.logical[tx.blks[i]] == tx.vals[i])
              && AllValid(layout, txs + [tx], |origin|)
              && SameHome(layout, Effects(origin, txs + [tx]), cache.logical)
    {
      StartsCommitting(pid);
      ListedPinned();
      CommitMeaning();
    }

    method ClearCommitting()
      requires cache.Valid() && block.Length == LOGSIZE && n == 0 && Counting()
      requires Idle(layout, cache.disk.image[..]) && Recorded()
      requires cache.pending == map[] && forall b :: b !in cache.pinned
      requires committing
      modifies this`committing
      ensures Valid() && View() == Admission.Finish(old(View()))
    {
      committing := false;
      assert block[..n] == [];
    }

    /** Notes the transaction and what each new disk state recovers to. */
    ghost method Record(d: Disk, lg: Disk, h0: seq<Disk>, tx: Tx, step: nat)
      requires Idle(layout, d) && Idle(layout, lg) && |d| == |lg| == |origin| && ValidTx(layout, tx, |d|)
      requires CrashSafe(layout, origin, txs, h0, survives) && SameHome(layout, d, Effects(origin, txs))
      requires forall i :: 0 <= i < |tx.blks| ==> lg[tx.blks[i]] == tx.vals[i]
      requires At(layout, cache.disk.image[..], cache.disk.history, d, tx, h0, step)
      modifies this`txs, this`survives
      ensures txs == old(txs) + [tx]
      ensures CrashSafe(layout, origin, txs, cache.disk.history, survives)
      ensures survives == old(survives) + Surviving(|old(txs)|, |tx.blks|, step)
      ensures step == CommitWrites(|tx.blks|) ==> Idle(layout, cache.disk.image[..]) && Recorded()
      ensures SameHome(layout, CommitDisk(layout, lg, tx, CommitWrites(|tx.blks|)), lg)
    {
      SafeAfterCommit(layout, origin, txs, h0, survives, d, tx, step);
      CommitEnds(layout, origin, txs, d, lg, tx);
      txs, survives := txs + [tx], survives + Surviving(|txs|, |tx.blks|, step);
    }

    /** As many blocks are pinned as are listed. */
    lemma ListedPinned()
      requires Valid()
      ensures |cache.pinned| == n && Covered(0)
    {
      assert forall b :: b in cache.pinned <==> b in block[..n];
      CountOf(block[..n], cache.pinned);
      forall i | 0 <= i < n ensures block[i] in cache.pinned {
        assert block[..n][i] == block[i];
      }
    }

    lemma StartsCommitting(pid: nat)
      requires Valid() && committing && pid != 0
      requires forall k :: 0 <= k < Ring.NBUF ==> pid !in cache.waiting[k]
      ensures Quiet(pid) && Idle(layout, cache.logical)
      ensures forall b :: b in cache.pinned ==> b in block[..n]
      ensures Committing(layout, Now(), cache.disk.image[..], TxOf(block[..n], cache.logical), cache.logical,
                         cache.disk.history, 0)
    {
      assert ops == map[];
      assert cache.pending == map[];
    }

    /** What is committed is what the operations see: every block that differs from the
        disk is listed. */
    lemma CommitMeaning()
      requires Valid() && committing
      ensures var tx := TxOf(block[..n], cache.logical);
              && ValidTx(layout, tx, |origin|) && AllValid(layout, txs + [tx], |origin|)
              && SameHome(layout, Effects(origin, txs + [tx]), cache.logical)
    {
      assert ops == map[] && cache.pending == map[];
      var tx := TxOf(block[..n], cache.logical);
      EffectsSnoc(layout, origin, txs, tx);
      forall x: nat | x < |origin| && !InLog(layout, x)
        ensures Effects(origin, txs + [tx])[x] == cache.logical[x]
      {
        AppliedAt(Effects(origin, txs), tx, |tx.blks|, x);
        assert tx.blks[..|tx.blks|] == tx.blks;
      }
    }

    /** With no operation active and no commit running, the disk is what the cache says. */
    lemma IdleOnDisk()
      requires Valid() && ops == map[] && !committing
      ensures cache.disk.image[..] == cache.logical
    {
      assert block[..n] == [];
    }

    // ---- recovery ------------------------------------------------------------

    /** initlog's recover_from_log, on a machine just switched on: read_head,
        install_trans, and an empty header.  Cut off anywhere, it leaves a disk that
        recovers to the same home blocks as the one it found. */
    method Recover(pid: nat) returns (ok: bool)
      requires Quiet(pid)
      requires cache.pinned == map[] && cache.logical == cache.disk.image[..]
      requires Recoverable(layout, cache.disk.image[..]) && cache.disk.history == []
      modifies this, block, cache, cache.buf, cache.disk, cache.disk.image
      ensures txs == [] && origin == Recovered(layout, old(cache.disk.image[..]))
      ensures CrashSafe(layout, origin, txs, cache.disk.history, survives)
      ensures survives == seq(|cache.disk.history|, _ => 0)
      ensures ok ==> Valid() && cache.disk.image[..] == origin && cache.logical == origin
      ensures ok ==> View() == Admission.Initial(layout.size)
      ensures ok ==> cache.waiting == old(cache.waiting)
      ensures old(Easy()) ==> ok && Easy()
    {
      ghost var d := cache.disk.image[..];
      Forget(d);
      ok := ReadHead(pid);
      if ok {
        ok := RecoverInstalls(pid, d);
      }
    }

    /** The log's memory as static storage starts out, with the record of a new run. */
    method Forget(ghost d: Disk)
      requires Recoverable(layout, d)
      modifies this`outstanding, this`committing, this`ops, this`txs, this`survives, this`origin
      ensures outstanding == 0 && !committing && ops == map[] && txs == [] && survives == []
      ensures origin == Recovered(layout, d) && CrashSafe(layout, origin, [], [], [])
    {
      outstanding, committing, ops := 0, false, map[];
      txs, survives := [], [];
      origin := Recovered(layout, d);
      SafeDuringRecovery(layout, d, 0);
    }

    /** read_head. */
    method ReadHead(pid: nat) returns (ok: bool)
      requires Quiet(pid) && HeadCount(cache.logical[layout.start]) <= LOGSIZE
      modifies this`n, block, cache, cache.buf
      ensures cache.Valid() && cache.logical == old(cache.logical) && cache.pinned == old(cache.pinned)
      ensures ok ==> Quiet(pid) && block[..n] == Head(cache.logical[layout.start]) && cache.waiting == old(cache.waiting)
      ensures old(Easy()) && cache.pinned == map[] ==> ok && Easy()
    {
      hide BC.Coherent, BC.Unique, BC.Aged, BC.Complete, Ring.Ring;
      hide BC.Busy, BC.NoBuffer, BC.Evictable, BC.Resting, BC.RestingBut, BC.RestingPair, Ring.Core;
      var b;
      ghost var easy := Easy();
      b, ok := cache.Bread(layout.start, pid);
      if !ok { return; }
      TakeHead(cache.buf[b].data);
      ghost var s: Ring.Bufs := cache.buf[..];
      cache.Brelse(b);
      if easy {
        BC.LastReleased(s, cache.buf[..], b);
      }
    }

    method RecoverInstalls(pid: nat, ghost d: Disk) returns (ok: bool)
      requires Recoverable(layout, d) && Quiet(pid) && block[..n] == Head(d[layout.start])
      requires cache.pinned == map[] && cache.logical == cache.disk.image[..] == d && cache.disk.history == []
      requires outstanding == 0 && !committing && ops == map[] && txs == [] && origin == Recovered(layout, d)
      modifies this`n, this`survives, cache, cache.buf, cache.disk, cache.disk.image
      ensures CrashSafe(layout, origin, txs, cache.disk.history, survives)
      ensures survives == seq(|cache.disk.history|, _ => 0)
      ensures ok ==> Valid() && cache.disk.image[..] == origin && cache.logical == origin
      ensures ok ==> View() == Admission.Initial(layout.size)
      ensures ok ==> cache.waiting == old(cache.waiting)
      ensures old(Easy()) ==> ok && Easy()
    {
      hide BC.BufferCache.Valid, Installed, InstallStates, Recovered;
      ghost var k;
      StartsRecovery(layout, Now(), d);
      ok, k := InstallTrans(pid, d, d, []);
      SafeDuringRecovery(layout, d, k);
      survives := seq(k, _ => 0);
      if ok {
        ok := ClearLog(pid, d);
      }
    }

    /** The last write of recovery: a header without blocks. */
    method ClearLog(pid: nat, ghost d: Disk) returns (ok: bool)
      requires Recoverable(layout, d) && Quiet(pid) && Installing(layout, Now(), d, d, [], n)
      requires block[..n] == Head(d[layout.start]) && forall b :: b !in cache.pinned
      requires outstanding == 0 && !committing && ops == map[] && txs == [] && origin == Recovered(layout, d)
      requires CrashSafe(layout, origin, [], cache.disk.history, survives)
      requires survives == seq(|cache.disk.history|, _ => 0)
      modifies this`n, this`survives, cache, cache.buf, cache.disk, cache.disk.image
      ensures CrashSafe(layout, origin, txs, cache.disk.history, survives)
      ensures survives == seq(|cache.disk.history|, _ => 0)
      ensures ok ==> Valid() && cache.disk.image[..] == origin && cache.logical == origin
      ensures ok ==> View() == Admission.Initial(layout.size)
      ensures ok ==> cache.waiting == old(cache.waiting)
      ensures old(Easy()) ==> ok && Easy()
    {
      hide BC.BufferCache.Valid;
      HeaderClean(pid);
      ghost var s := Now();
      n := 0;
      ok := WriteHead(pid);
      if ok {
        EndsRecovery(layout, s, Now(), d, survives);
        survives := survives + [0];
        StartsIdle(pid);
      }
    }

    /** An empty list over a disk with a clear header is a log nobody uses. */
    lemma StartsIdle(pid: nat)
      requires Quiet(pid) && n == 0 && outstanding == 0 && !committing && ops == map[]
      requires Idle(layout, cache.disk.image[..]) && Recorded() && forall b :: b !in cache.pinned
      ensures Valid() && View() == Admission.Initial(layout.size)
    {
      assert block[..n] == [];
    }

    // ---- what a file-system operation does between begin_op and end_op --------

    /** log_write's scan: the place of the block in the header, or n. */
    method FindListed(b: nat) returns (i: nat)
      requires n <= block.Length
      ensures i <= n && b !in block[..i] && (i < n ==> block[i] == b)
    {
      i := 0;
      while i < n
        invariant i <= n && b !in block[..i]
      {
        if block[i] == b { return; }
        assert block[..i + 1] == block[..i] + [block[i]];
        i := i + 1;
      }
    }

    /** log_write of a buffer the operation holds.  On a panic nothing changes. */
    method LogWrite(b: nat, pid: nat) returns (panicked: bool)
      requires Valid() && pid in ops && b < Ring.NBUF
      requires cache.buf[b].holder == pid && cache.buf[b].valid && !InLog(layout, cache.buf[b].blockno)
      modifies this`n, this`ops, block, cache`pinned, cache`pending, cache.buf
      ensures Valid() && panicked == Admission.TooBig(old(View()))
      ensures panicked ==> View() == old(View()) && cache.buf[..] == old(cache.buf[..]) && cache.pending == old(cache.pending)
      ensures !panicked ==> View() == Admission.Write(old(View()), pid, old(cache.buf[b].blockno))
      ensures !panicked ==> cache.buf[..] == old(cache.buf[..])[b := old(cache.buf[b]).(dirty := true)]
      ensures !panicked ==> cache.pending == old(cache.pending) - {old(cache.buf[b].blockno)}
    {
      if n >= LOGSIZE || n >= layout.size - 1 {
        return true;
      }
      var i := FindListed(cache.buf[b].blockno);
      AddListed(i, cache.buf[b].blockno, pid);
      PinListed(b);
      return false;
    }

    /** The buffer of a block that the header lists is pinned in the cache. */
    method PinListed(b: nat)
      requires cache.Valid() && block.Length == LOGSIZE && n <= LOGSIZE && b < Ring.NBUF
      requires cache.buf[b].holder != 0 && cache.buf[b].valid
      requires Idle(layout, cache.disk.image[..]) && ValidBlocks(layout, block[..n], cache.disk.image.Length)
      requires forall x :: x in block[..n] <==> x == cache.buf[b].blockno || x in cache.pinned
      requires forall x :: x in cache.pending ==>
                 !InLog(layout, x) && cache.pending[x] < Ring.NBUF && cache.buf[cache.pending[x]].holder in ops
      requires Counting() && Recorded()
      modifies cache`pinned, cache`pending, cache.buf
      ensures Valid() && cache.buf[..] == old(cache.buf[..])[b := old(cache.buf[b]).(dirty := true)]
      ensures cache.pending == old(cache.pending) - {old(cache.buf[b].blockno)}
    {
      cache.SetDirty(b);
    }

    /** The block is entered in the header; an absorbed one keeps its place. */
    method AddListed(i: nat, b: nat, pid: nat)
      requires block.Length == LOGSIZE && n < LOGSIZE && n < layout.size - 1 && pid in ops
      requires i <= n && b !in block[..i] && (i < n ==> block[i] == b)
      requires ValidBlocks(layout, block[..n], cache.disk.image.Length) && b < cache.disk.image.Length && !InLog(layout, b)
      modifies this`n, this`ops, block
      ensures n <= LOGSIZE && View() == Admission.Write(old(View()), pid, b)
      ensures ValidBlocks(layout, block[..n], cache.disk.image.Length)
      ensures forall x :: x in block[..n] <==> x == b || x in old(block[..n])
      ensures |ops| == old(|ops|) && forall p :: p in ops <==> p in old(ops)
    {
      block[i] := b;
      ops := ops[pid := ops[pid] + {b}];
      if i == n {
        n := n + 1;
        assert block[..n] == old(block[..n]) + [b];
      } else {
        assert block[..n] == old(block[..n]);
      }
      assert ops.Keys == old(ops).Keys;
    }

    /** bread by any process, inside an operation or not. */
    method ReadBlock(blockno: nat, pid: nat) returns (b: nat, ok: bool)
      requires Valid() && pid != 0 && blockno < cache.disk.image.Length
      requires forall k :: 0 <= k < Ring.NBUF ==> pid !in cache.waiting[k]
      modifies cache`waiting, cache.buf
      ensures Valid()
      ensures ok ==> b < Ring.NBUF && cache.waiting == old(cache.waiting)
      ensures ok ==> cache.buf[b].holder == pid && cache.buf[b].valid && cache.buf[b].blockno == blockno
                     && cache.buf[b].data == cache.logical[blockno]
      ensures ok ==> old(cache.buf[b]).holder == 0 && Ring.OthersSame(old(cache.buf[..]), cache.buf[..], b)
      ensures !ok ==> forall k :: 0 <= k < Ring.NBUF && old(cache.buf[k]).holder != 0 ==>
                        Ring.Core(cache.buf[k]) == old(Ring.Core(cache.buf[k]))
      ensures ok ==> cache.buf[b].refcnt == old(cache.buf[b]).refcnt + 1
      ensures old(Easy()) ==> (ok <==> blockno in block[..n] || n < Ring.NBUF) && (ok ==> BC.RestingBut(cache.buf[..], b))
    {
      hide BC.Unique, BC.Complete, BC.Aged, Ring.Ring, CrashSafe, Effects, Recovered, SameHome;
      hide BC.Busy, BC.NoBuffer, BC.Resting, BC.RestingBut, BC.Counted, BC.Coherent, BC.Evictable, Ring.Core;
      ListedPinned();
      ghost var s: Ring.Bufs, w := cache.buf[..], cache.waiting;
      b, ok := cache.Bread(blockno, pid);
      if ok {
        BC.HoldersStay(s, cache.buf[..], b, cache.pending, ops.Keys);
      } else {
        BC.HoldersStayToo(s, cache.buf[..], w, cache.pending, ops.Keys);
      }
    }

    /** An operation changes a buffer it holds; only it can see the change until then. */
    method ModifyBlock(b: nat, data: Block, pid: nat)
      requires Valid() && pid in ops && b < Ring.NBUF
      requires cache.buf[b].holder == pid && cache.buf[b].valid && !InLog(layout, cache.buf[b].blockno)
      modifies cache`logical, cache`pending, cache.buf
      ensures Valid()
      ensures cache.logical == old(cache.logical)[old(cache.buf[b].blockno) := data]
      ensures cache.buf[..] == old(cache.buf[..])[b := old(cache.buf[b]).(data := data)]
      ensures cache.pending == old(cache.pending)[old(cache.buf[b].blockno) := b]
    {
      cache.Modify(b, data);
    }

    /** brelse by the holder, after log_write if the contents were changed. */
    method ReleaseBlock(b: nat)
      requires Valid() && b < Ring.NBUF && cache.buf[b].holder != 0 && cache.buf[b].blockno !in cache.pending
      modifies cache`order, cache`released, cache`now, cache.buf
      ensures Valid() && cache.buf[b].holder == 0 && cache.buf[b].refcnt == old(cache.buf[b].refcnt) - 1
      ensures Ring.OthersSame(old(cache.buf[..]), cache.buf[..], b)
    {
      hide BC.Unique, BC.Counted, BC.Complete, BC.Aged, Ring.Ring, CrashSafe, Effects, Recovered, SameHome;
      cache.Brelse(b);
    }
  }
}