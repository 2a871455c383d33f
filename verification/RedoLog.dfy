/** The on-disk protocol of the write-ahead log, as the exact sequence of block
    writes that commit() and recover_from_log() issue.  A crash may fall between
    any two of these writes; the theorems say what recovery then rebuilds. */
module RedoLog {
  import opened Blocks
  import opened Wrappers

  const LOGSIZE: nat := 30  // 3 * MAXOPBLOCKS

  type Disk = seq<Block>

  /** The log occupies blocks start .. start+size-1; block start is its header. */
  datatype Layout = Layout(start: nat, size: nat)

  predicate InLog(l: Layout, b: nat) {
    l.start <= b < l.start + l.size
  }

  predicate Fits(l: Layout, d: Disk) {
    1 <= l.size && l.start + l.size <= |d| < TWO_32
  }

  // ---- the header block ----------------------------------------------------

  function HeadCount(b: Block): nat {
    Word(b, 0)
  }

  /** read_head: the block numbers recorded in a header block. */
  function Head(b: Block): (blks: seq<nat>)
    requires HeadCount(b) <= LOGSIZE
    ensures |blks| == HeadCount(b)
  {
    seq(HeadCount(b), i requires 0 <= i < HeadCount(b) => Word(b, i + 1))
  }

  /** write_head: the count and the entries go over the old contents; the rest of
      the block stays as it was. */
  function PutHead(b: Block, blks: seq<nat>): Block
    requires |blks| <= LOGSIZE && forall i :: 0 <= i < |blks| ==> blks[i] < TWO_32
  {
    PutEntries(PutWord(b, 0, |blks|), blks, |blks|)
  }

  function PutEntries(b: Block, blks: seq<nat>, k: nat): Block
    requires k <= |blks| <= LOGSIZE && forall i :: 0 <= i < |blks| ==> blks[i] < TWO_32
  {
    if k == 0 then b else PutWord(PutEntries(b, blks, k - 1), k, blks[k - 1])
  }

  lemma {:induction false} WordOfEntries(b: Block, blks: seq<nat>, k: nat, j: nat)
    requires k <= |blks| <= LOGSIZE && forall i :: 0 <= i < |blks| ==> blks[i] < TWO_32
    requires j < WORDS_PER_BLOCK
    ensures Word(PutEntries(b, blks, k), j) == if 1 <= j <= k then blks[j - 1] else Word(b, j)
  {
    if k != 0 {
      WordOfEntries(b, blks, k - 1, j);
      WordAfterPut(PutEntries(b, blks, k - 1), k, blks[k - 1], j);
    }
  }

  /** What write_head stores, read_head reads back, whatever the block held. */
  lemma HeadRoundTrip(b: Block, blks: seq<nat>)
    requires |blks| <= LOGSIZE && forall i :: 0 <= i < |blks| ==> blks[i] < TWO_32
    ensures HeadCount(PutHead(b, blks)) == |blks|
    ensures Head(PutHead(b, blks)) == blks
  {
    var b0 := PutWord(b, 0, |blks|);
    WordOfEntries(b0, blks, |blks|, 0);
    WordAfterPut(b, 0, |blks|, 0);
    forall i | 0 <= i < |blks| ensures Word(PutHead(b, blks), i + 1) == blks[i] {
      WordOfEntries(b0, blks, |blks|, i + 1);
    }
  }

  // ---- transactions --------------------------------------------------------

  /** A transaction ready to commit: lh.block[] and the cached contents to log. */
  datatype Tx = Tx(blks: seq<nat>, vals: seq<Block>)

  /** Absorption keeps the blocks distinct; callers log only home blocks; the log
      has one header block, so at most size - 1 blocks fit. */
  ghost predicate ValidBlocks(l: Layout, blks: seq<nat>, diskSize: nat) {
    && |blks| <= LOGSIZE && |blks| < l.size
    && (forall i :: 0 <= i < |blks| ==> blks[i] < diskSize && !InLog(l, blks[i]))
    && (forall i, j :: 0 <= i < j < |blks| ==> blks[i] != blks[j])
  }

  ghost predicate ValidTx(l: Layout, tx: Tx, diskSize: nat) {
    |tx.blks| == |tx.vals| && ValidBlocks(l, tx.blks, diskSize)
  }

  predicate Writable(tx: Tx, diskSize: nat) {
    |tx.blks| == |tx.vals| && forall i :: 0 <= i < |tx.blks| ==> tx.blks[i] < diskSize
  }

  /** The meaning of a transaction: its first k writes done in place. */
  function Apply(d: Disk, tx: Tx, k: nat): (r: Disk)
    requires k <= |tx.blks| && Writable(tx, |d|)
    ensures |r| == |d|
  {
    if k == 0 then d else Apply(d, tx, k - 1)[tx.blks[k - 1] := tx.vals[k - 1]]
  }

  function Effect(d: Disk, tx: Tx): (r: Disk)
    requires Writable(tx, |d|)
    ensures |r| == |d|
  {
    Apply(d, tx, |tx.blks|)
  }

  /** Two disks that agree on every block outside the log. */
  ghost predicate SameHome(l: Layout, a: Disk, b: Disk) {
    |a| == |b| && forall x :: 0 <= x < |a| && !InLog(l, x) ==> a[x] == b[x]
  }

  // ---- the block writes of commit and recovery -----------------------------

  /** write_log after k writes. */
  function LogCopied(l: Layout, d: Disk, tx: Tx, k: nat): (r: Disk)
    requires k <= |tx.blks| == |tx.vals| < l.size && Fits(l, d)
    ensures |r| == |d|
  {
    if k == 0 then d else LogCopied(l, d, tx, k - 1)[l.start + k := tx.vals[k - 1]]
  }

  /** write_head. */
  function HeadWritten(l: Layout, d: Disk, blks: seq<nat>): (r: Disk)
    requires Fits(l, d) && |blks| <= LOGSIZE
    requires forall i :: 0 <= i < |blks| ==> blks[i] < TWO_32
    ensures |r| == |d|
  {
    d[l.start := PutHead(d[l.start], blks)]
  }

  /** install_trans after k writes. */
  function Installed(l: Layout, d: Disk, blks: seq<nat>, k: nat): (r: Disk)
    requires Fits(l, d) && k <= |blks| < l.size
    requires forall i :: 0 <= i < |blks| ==> blks[i] < |d|
    ensures |r| == |d|
  {
    if k == 0 then d else
      var p := Installed(l, d, blks, k - 1);
      p[blks[k - 1] := p[l.start + k]]
  }

  /** The number of disk writes in commit(): nothing is written when lh.n is 0. */
  function CommitWrites(n: nat): nat {
    if n == 0 then 0 else 2 * n + 2
  }

  /** The disk after the first `step` writes of commit(). */
  function CommitDisk(l: Layout, d: Disk, tx: Tx, step: nat): (r: Disk)
    requires Fits(l, d) && Writable(tx, |d|) && |tx.blks| <= LOGSIZE && |tx.blks| < l.size
    requires step <= CommitWrites(|tx.blks|)
    ensures |r| == |d|
  {
    var n := |tx.blks|;
    if step <= n then LogCopied(l, d, tx, step)
    else
      var h := HeadWritten(l, LogCopied(l, d, tx, n), tx.blks);
      if step <= 2 * n + 1 then Installed(l, h, tx.blks, step - n - 1)
      else HeadWritten(l, Installed(l, h, tx.blks, n), [])
  }

  /** A disk recovery can start from: a header that commit could have written. */
  ghost predicate Recoverable(l: Layout, d: Disk) {
    Fits(l, d) && HeadCount(d[l.start]) <= LOGSIZE && ValidBlocks(l, Head(d[l.start]), |d|)
  }

  /** The disk after the first `step` writes of recover_from_log(). */
  ghost function RecoverDisk(l: Layout, d: Disk, step: nat): (r: Disk)
    requires Recoverable(l, d) && step <= HeadCount(d[l.start]) + 1
    ensures |r| == |d|
  {
    var blks := Head(d[l.start]);
    if step <= |blks| then Installed(l, d, blks, step)
    else HeadWritten(l, Installed(l, d, blks, |blks|), [])
  }

  ghost function Recovered(l: Layout, d: Disk): (r: Disk)
    requires Recoverable(l, d)
    ensures |r| == |d|
  {
    RecoverDisk(l, d, HeadCount(d[l.start]) + 1)
  }

  // ---- pointwise facts -----------------------------------------------------

  lemma {:induction false} AppliedAt(d: Disk, tx: Tx, k: nat, x: nat)
    requires k <= |tx.blks| && Writable(tx, |d|) && x < |d|
    requires forall i, j :: 0 <= i < j < |tx.blks| ==> tx.blks[i] != tx.blks[j]
    ensures forall i :: 0 <= i < k && tx.blks[i] == x ==> Apply(d, tx, k)[x] == tx.vals[i]
    ensures x !in tx.blks[..k] ==> Apply(d, tx, k)[x] == d[x]
  {
    if k != 0 {
      AppliedAt(d, tx, k - 1, x);
      assert tx.blks[..k] == tx.blks[..k - 1] + [tx.blks[k - 1]];
    }
  }

  lemma {:induction false} LogCopiedAt(l: Layout, d: Disk, tx: Tx, k: nat, x: nat)
    requires k <= |tx.blks| == |tx.vals| < l.size && Fits(l, d) && x < |d|
    ensures LogCopied(l, d, tx, k)[x] ==
            if l.start < x <= l.start + k then tx.vals[x - l.start - 1] else d[x]
  {
    if k != 0 {
      LogCopiedAt(l, d, tx, k - 1, x);
    }
  }

  /** Installing touches only the listed home blocks, each with its log copy. */
  lemma {:induction false} InstalledAt(l: Layout, d: Disk, blks: seq<nat>, k: nat, x: nat)
    requires Fits(l, d) && k <= |blks| && ValidBlocks(l, blks, |d|) && x < |d|
    ensures forall i :: 0 <= i < k && blks[i] == x ==> Installed(l, d, blks, k)[x] == d[l.start + i + 1]
    ensures x !in blks[..k] ==> Installed(l, d, blks, k)[x] == d[x]
    ensures InLog(l, x) ==> Installed(l, d, blks, k)[x] == d[x]
  {
    if k != 0 {
      InstalledAt(l, d, blks, k - 1, x);
      InstalledAt(l, d, blks, k - 1, l.start + k);
      assert blks[..k] == blks[..k - 1] + [blks[k - 1]];
    }
  }

  // ---- crash atomicity of one transaction ----------------------------------

  lemma EmptyHead(l: Layout, d: Disk)
    requires Fits(l, d)
    ensures HeadCount(HeadWritten(l, d, [])[l.start]) == 0
  {
    HeadRoundTrip(d[l.start], []);
  }

  /** With an empty header, recovery changes no home block. */
  lemma RecoverEmpty(l: Layout, d: Disk)
    requires Fits(l, d) && HeadCount(d[l.start]) == 0
    ensures Recoverable(l, d) && SameHome(l, Recovered(l, d), d)
    ensures HeadCount(Recovered(l, d)[l.start]) == 0
  {
    EmptyHead(l, d);
  }

  /** With a written header, recovery performs exactly the logged transaction. */
  lemma RecoverFull(l: Layout, d: Disk, tx: Tx, base: Disk)
    requires Fits(l, d) && ValidTx(l, tx, |d|) && |base| == |d| && Logged(l, d, tx, base)
    ensures Recoverable(l, d) && SameHome(l, Recovered(l, d), Effect(base, tx))
    ensures HeadCount(Recovered(l, d)[l.start]) == 0
  {
    var n := |tx.blks|;
    var inst := Installed(l, d, tx.blks, n);
    EmptyHead(l, inst);
    assert tx.blks[..n] == tx.blks;
    forall x: nat | x < |d| && !InLog(l, x) ensures Recovered(l, d)[x] == Effect(base, tx)[x] {
      InstalledAt(l, d, tx.blks, n, x);
      AppliedAt(base, tx, n, x);
    }
  }

  /** What the first write_head leaves: the transaction's header and log copies,
      over home blocks that are still the old ones. */
  ghost predicate Logged(l: Layout, c: Disk, tx: Tx, d: Disk)
    requires Fits(l, d) && ValidTx(l, tx, |d|) && |c| == |d|
  {
    && HeadCount(c[l.start]) <= LOGSIZE && Head(c[l.start]) == tx.blks
    && (forall i :: 0 <= i < |tx.blks| ==> c[l.start + i + 1] == tx.vals[i])
    && (forall x :: 0 <= x < |d| && !InLog(l, x) && x !in tx.blks ==> c[x] == d[x])
  }

  lemma HeadWrittenLogged(l: Layout, d: Disk, tx: Tx)
    requires Fits(l, d) && ValidTx(l, tx, |d|)
    ensures Logged(l, HeadWritten(l, LogCopied(l, d, tx, |tx.blks|), tx.blks), tx, d)
  {
    var n := |tx.blks|;
    var copied := LogCopied(l, d, tx, n);
    HeadRoundTrip(copied[l.start], tx.blks);
    forall x: nat | x < |d| && x != l.start
      ensures HeadWritten(l, copied, tx.blks)[x]
              == if l.start < x <= l.start + n then tx.vals[x - l.start - 1] else d[x]
    {
      LogCopiedAt(l, d, tx, n, x);
    }
  }

  /** Installing keeps it so: the log is not written and only logged blocks move. */
  lemma InstallKeepsLogged(l: Layout, c: Disk, tx: Tx, d: Disk, k: nat)
    requires Fits(l, d) && ValidTx(l, tx, |d|) && |c| == |d| && k <= |tx.blks|
    requires Logged(l, c, tx, d)
    ensures Logged(l, Installed(l, c, tx.blks, k), tx, d)
  {
    forall x: nat | x < |d| && (InLog(l, x) || x !in tx.blks)
      ensures Installed(l, c, tx.blks, k)[x] == c[x]
    {
      InstalledAt(l, c, tx.blks, k, x);
    }
  }

  /** The home blocks after a finished commit are the transaction's effect. */
  lemma CommitDone(l: Layout, d: Disk, tx: Tx)
    requires Fits(l, d) && ValidTx(l, tx, |d|) && HeadCount(d[l.start]) == 0
    ensures var c := CommitDisk(l, d, tx, CommitWrites(|tx.blks|));
            SameHome(l, c, Effect(d, tx)) && HeadCount(c[l.start]) == 0
  {
    var n := |tx.blks|;
    if n != 0 {
      var h := HeadWritten(l, LogCopied(l, d, tx, n), tx.blks);
      HeadWrittenLogged(l, d, tx);
      EmptyHead(l, Installed(l, h, tx.blks, n));
      assert tx.blks[..n] == tx.blks;
      forall x: nat | x < |d| && !InLog(l, x) ensures Installed(l, h, tx.blks, n)[x] == Effect(d, tx)[x] {
        InstalledAt(l, h, tx.blks, n, x);
        AppliedAt(d, tx, n, x);
      }
    }
  }

  /** Crash atomicity: after a power failure following any number of commit's
      writes, recovery yields all of the transaction if its first write_head had
      finished and none of it otherwise. */
  lemma CommitAtomic(l: Layout, d: Disk, tx: Tx, step: nat)
    requires Fits(l, d) && ValidTx(l, tx, |d|) && HeadCount(d[l.start]) == 0
    requires step <= CommitWrites(|tx.blks|)
    ensures var c := CommitDisk(l, d, tx, step);
            && Recoverable(l, c)
            && SameHome(l, Recovered(l, c), if step <= |tx.blks| then d else Effect(d, tx))
            && HeadCount(Recovered(l, c)[l.start]) == 0
  {
    var n := |tx.blks|;
    var c := CommitDisk(l, d, tx, step);
    if step <= n {
      forall x: nat | x < |d| && (!InLog(l, x) || x == l.start) ensures c[x] == d[x] {
        LogCopiedAt(l, d, tx, step, x);
      }
      RecoverEmpty(l, c);
    } else if step <= 2 * n + 1 {
      HeadWrittenLogged(l, d, tx);
      InstallKeepsLogged(l, HeadWritten(l, LogCopied(l, d, tx, n), tx.blks), tx, d, step - n - 1);
      RecoverFull(l, c, tx, d);
    } else {
      CommitDone(l, d, tx);
      RecoverEmpty(l, c);
    }
  }

  /** Recovery may itself be cut short after any write: starting it again rebuilds
      the same home blocks. */
  lemma RecoveryRestarts(l: Layout, d: Disk, step: nat)
    requires Recoverable(l, d) && step <= HeadCount(d[l.start]) + 1
    ensures Recoverable(l, RecoverDisk(l, d, step))
    ensures SameHome(l, Recovered(l, RecoverDisk(l, d, step)), Recovered(l, d))
    ensures HeadCount(Recovered(l, RecoverDisk(l, d, step))[l.start]) == 0
  {
    var blks := Head(d[l.start]);
    var n := |blks|;
    var tx := Tx(blks, seq(n, i requires 0 <= i < n => d[l.start + i + 1]));
    RecoverFull(l, d, tx, d);
    var r := RecoverDisk(l, d, step);
    if step <= n {
      InstalledAt(l, d, blks, step, l.start);
      forall x: nat | x < |d| ensures InLog(l, x) || x !in blks ==> r[x] == d[x] {
        InstalledAt(l, d, blks, step, x);
        assert forall y :: y in blks[..step] ==> y in blks;
      }
      RecoverFull(l, r, tx, d);
    } else {
      RecoverEmpty(l, r);
    }
  }

  // ---- whole runs ----------------------------------------------------------

  /** One thing that happens to a running system: a transaction commits, or power
      fails after `step` writes of a commit and each of the following reboots but
      the last is itself cut off after the given number of recovery writes. */
  datatype Event =
    | Committed(tx: Tx)
    | PowerLost(tx: Tx, step: nat, reboots: seq<nat>)

  /** The disk after a series of recoveries cut off early and a final complete one. */
  ghost function Rebooted(l: Layout, d: Disk, reboots: seq<nat>): (r: Disk)
    requires Recoverable(l, d)
    ensures |r| == |d|
    decreases |reboots|
  {
    if reboots == [] then Recovered(l, d)
    else
      var step := if reboots[0] <= HeadCount(d[l.start]) then reboots[0] else HeadCount(d[l.start]) + 1;
      RecoveryRestarts(l, d, step);
      Rebooted(l, RecoverDisk(l, d, step), reboots[1..])
  }

  lemma {:induction false} RebootsConverge(l: Layout, d: Disk, reboots: seq<nat>)
    requires Recoverable(l, d)
    ensures SameHome(l, Rebooted(l, d, reboots), Recovered(l, d))
    ensures HeadCount(Rebooted(l, d, reboots)[l.start]) == 0
    decreases |reboots|
  {
    if reboots == [] {
      RecoveryRestarts(l, d, 0);
      assert RecoverDisk(l, d, 0) == d;
    } else {
      var step := if reboots[0] <= HeadCount(d[l.start]) then reboots[0] else HeadCount(d[l.start]) + 1;
      RecoveryRestarts(l, d, step);
      RebootsConverge(l, RecoverDisk(l, d, step), reboots[1..]);
    }
  }

  /** A disk on which the system is up: the header is clear. */
  ghost predicate Idle(l: Layout, d: Disk) {
    Fits(l, d) && HeadCount(d[l.start]) == 0
  }

  ghost predicate ValidEvent(l: Layout, e: Event, diskSize: nat) {
    ValidTx(l, e.tx, diskSize) && (e.PowerLost? ==> e.step <= CommitWrites(|e.tx.blks|))
  }

  ghost predicate ValidEvents(l: Layout, events: seq<Event>, diskSize: nat) {
    forall i :: 0 <= i < |events| ==> ValidEvent(l, events[i], diskSize)
  }

  ghost function Happens(l: Layout, d: Disk, e: Event): (r: Disk)
    requires Idle(l, d) && ValidEvent(l, e, |d|)
    ensures Idle(l, r) && |r| == |d|
  {
    match e
    case Committed(tx) =>
      CommitDone(l, d, tx);
      CommitDisk(l, d, tx, CommitWrites(|tx.blks|))
    case PowerLost(tx, step, reboots) =>
      var c := CommitDisk(l, d, tx, step);
      CommitAtomic(l, d, tx, step);
      RebootsConverge(l, c, reboots);
      Rebooted(l, c, reboots)
  }

  ghost function Run(l: Layout, d: Disk, events: seq<Event>): (r: Disk)
    requires Idle(l, d) && ValidEvents(l, events, |d|)
    ensures Idle(l, r) && |r| == |d|
    decreases |events|
  {
    if events == [] then d else Run(l, Happens(l, d, events[0]), events[1..])
  }

  /** The transactions whose first write_head finished, in order. */
  ghost function Survivors(events: seq<Event>): seq<Tx>
    decreases |events|
  {
    if events == [] then [] else Survivor(events[0]) + Survivors(events[1..])
  }

  ghost function Survivor(e: Event): seq<Tx> {
    if e.PowerLost? && e.step <= |e.tx.blks| then [] else [e.tx]
  }

  ghost predicate AllValid(l: Layout, txs: seq<Tx>, diskSize: nat) {
    forall i :: 0 <= i < |txs| ==> ValidTx(l, txs[i], diskSize)
  }

  /** The reference semantics: whole transactions applied in place, one by one. */
  ghost function Effects(d: Disk, txs: seq<Tx>): (r: Disk)
    requires forall i :: 0 <= i < |txs| ==> Writable(txs[i], |d|)
    ensures |r| == |d|
    decreases |txs|
  {
    if txs == [] then d else Effects(Effect(d, txs[0]), txs[1..])
  }

  lemma {:induction false} SurvivorsValid(l: Layout, events: seq<Event>, diskSize: nat)
    requires ValidEvents(l, events, diskSize)
    ensures AllValid(l, Survivors(events), diskSize)
    decreases |events|
  {
    if events != [] {
      SurvivorsValid(l, events[1..], diskSize);
    }
  }

  lemma {:induction false} EffectsRespectHome(l: Layout, a: Disk, b: Disk, txs: seq<Tx>)
    requires SameHome(l, a, b) && AllValid(l, txs, |a|)
    ensures SameHome(l, Effects(a, txs), Effects(b, txs))
    decreases |txs|
  {
    if txs != [] {
      var t := txs[0];
      forall x: nat | x < |a| && !InLog(l, x) ensures Effect(a, t)[x] == Effect(b, t)[x] {
        AppliedAt(a, t, |t.blks|, x);
        AppliedAt(b, t, |t.blks|, x);
        assert t.blks[..|t.blks|] == t.blks;
      }
      EffectsRespectHome(l, Effect(a, t), Effect(b, t), txs[1..]);
    }
  }

  lemma HappensAtomically(l: Layout, d: Disk, e: Event)
    requires Idle(l, d) && ValidEvent(l, e, |d|)
    ensures SameHome(l, Happens(l, d, e), Effects(d, Survivor(e)))
  {
    match e
    case Committed(tx) =>
      CommitDone(l, d, tx);
    case PowerLost(tx, step, reboots) =>
      CommitAtomic(l, d, tx, step);
      RebootsConverge(l, CommitDisk(l, d, tx, step), reboots);
  }

  /** Main theorem: over every run, with power failing at any write of any commit
      and of any recovery, the home blocks are those obtained by applying in place,
      whole and in order, exactly the transactions whose first write_head finished. */
  lemma {:induction false} RunAtomic(l: Layout, d: Disk, events: seq<Event>)
    requires Idle(l, d) && ValidEvents(l, events, |d|)
    ensures AllValid(l, Survivors(events), |d|)
    ensures SameHome(l, Run(l, d, events), Effects(d, Survivors(events)))
    decreases |events|
  {
    SurvivorsValid(l, events, |d|);
    if events != [] {
      var d' := Happens(l, d, events[0]);
      SurvivorsValid(l, events[1..], |d|);
      RunAtomic(l, d', events[1..]);
      StepComposes(l, d, events[0], Survivors(events[1..]), Run(l, d', events[1..]));
    }
  }

  /** The first event, then what the others did. */
  lemma StepComposes(l: Layout, d: Disk, e: Event, rest: seq<Tx>, r: Disk)
    requires Idle(l, d) && ValidEvent(l, e, |d|) && AllValid(l, rest, |d|)
    requires SameHome(l, r, Effects(Happens(l, d, e), rest))
    ensures AllValid(l, Survivor(e) + rest, |d|) && SameHome(l, r, Effects(d, Survivor(e) + rest))
  {
    var d', first := Happens(l, d, e), Survivor(e);
    SurvivorValid(l, e, |d|);
    HappensAtomically(l, d, e);
    EffectsRespectHome(l, d', Effects(d, first), rest);
    EffectsInTurn(d, first, rest);
    SameHomeThrough(l, r, Effects(d', rest), Effects(Effects(d, first), rest));
  }

  lemma SurvivorValid(l: Layout, e: Event, diskSize: nat)
    requires ValidEvent(l, e, diskSize)
    ensures AllValid(l, Survivor(e), diskSize)
  {
  }

  lemma SameHomeThrough(l: Layout, a: Disk, b: Disk, c: Disk)
    requires SameHome(l, a, b) && SameHome(l, b, c)
    ensures SameHome(l, a, c)
  {
  }

  lemma EffectsInTurn(d: Disk, first: seq<Tx>, rest: seq<Tx>)
    requires |first| <= 1 && forall i :: 0 <= i < |first + rest| ==> Writable((first + rest)[i], |d|)
    requires (forall i :: 0 <= i < |first| ==> Writable(first[i], |d|)) && (forall i :: 0 <= i < |rest| ==> Writable(rest[i], |d|))
    ensures Effects(Effects(d, first), rest) == Effects(d, first + rest)
  {
    if first == [] {
      assert first + rest == rest;
    } else {
      assert (first + rest)[1..] == rest && first[1..] == [];
    }
  }
}
