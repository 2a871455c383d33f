/** Admission control of the log: which operations begin_op lets in, what log_write
    records, and how end_op decides to commit. */
module LogAdmission {
  import opened Blocks
  import opened RedoLog

  /** The in-memory log.  ops maps each active operation to the blocks it has logged;
      log.outstanding is their number. */
  datatype View = View(size: nat, blks: seq<nat>, committing: bool, ops: map<nat, set<nat>>)

  /** begin_op's test: when it fails the caller sleeps on the log and retries. */
  predicate Admits(v: View) {
    !v.committing && |v.blks| + (|v.ops| + 1) * MAXOPBLOCKS <= LOGSIZE
  }

  function Begin(v: View, pid: nat): View {
    v.(ops := v.ops[pid := {}])
  }

  /** log_write's first test; it comes before the search for an absorbed block. */
  predicate TooBig(v: View) {
    |v.blks| >= LOGSIZE || |v.blks| >= v.size - 1
  }

  function Write(v: View, pid: nat, b: nat): View
    requires pid in v.ops
  {
    v.(blks := if b in v.blks then v.blks else v.blks + [b], ops := v.ops[pid := v.ops[pid] + {b}])
  }

  /** end_op: the last operation to end starts the commit. */
  function End(v: View, pid: nat): View {
    var ops := v.ops - {pid};
    v.(ops := ops, committing := |ops| == 0)
  }

  function Finish(v: View): View {
    v.(blks := [], committing := false)
  }

  datatype Step = BeginOp(pid: nat) | LogWrite(pid: nat, b: nat) | EndOp(pid: nat) | CommitDone

  /** What may happen next, if every operation keeps to MAXOPBLOCKS distinct blocks. */
  predicate Enabled(v: View, s: Step) {
    match s
    case BeginOp(pid) => pid !in v.ops && Admits(v)
    case LogWrite(pid, b) => pid in v.ops && !TooBig(v) && |v.ops[pid] + {b}| <= MAXOPBLOCKS
    case EndOp(pid) => pid in v.ops
    case CommitDone => v.committing
  }

  function Next(v: View, s: Step): View
    requires Enabled(v, s)
  {
    match s
    case BeginOp(pid) => Begin(v, pid)
    case LogWrite(pid, b) => Write(v, pid, b)
    case EndOp(pid) => End(v, pid)
    case CommitDone => Finish(v)
  }

  /** A run from the empty log, one enabled step after another. */
  ghost predicate Run(states: seq<View>, steps: seq<Step>) {
    && |states| == |steps| + 1
    && states[0] == Initial(states[0].size)
    && forall i :: 0 <= i < |steps| ==> Enabled(states[i], steps[i]) && states[i + 1] == Next(states[i], steps[i])
  }

  ghost predicate Reachable(v: View) {
    exists states, steps :: Run(states, steps) && states[|steps|] == v
  }

  lemma ReachableNext(v: View, s: Step)
    requires Reachable(v) && Enabled(v, s)
    ensures Reachable(Next(v, s))
  {
    var states, steps :| Run(states, steps) && states[|steps|] == v;
    var states', steps' := states + [Next(v, s)], steps + [s];
    assert Run(states', steps') && states'[|steps'|] == Next(v, s);
  }

  function Initial(size: nat): View {
    View(size, [], false, map[])
  }

  /** The blocks the active operations may still add. */
  ghost function Unused(ops: map<nat, set<nat>>): int
    decreases |ops|
  {
    if |ops| == 0 then 0
    else
      var p :| p in ops;
      (MAXOPBLOCKS - |ops[p]|) + Unused(ops - {p})
  }

  lemma {:induction false} UnusedSplit(ops: map<nat, set<nat>>, p: nat)
    requires p in ops
    ensures Unused(ops) == (MAXOPBLOCKS - |ops[p]|) + Unused(ops - {p})
    decreases |ops|
  {
    var q :| q in ops && Unused(ops) == (MAXOPBLOCKS - |ops[q]|) + Unused(ops - {q});
    if q != p {
      UnusedSplit(ops - {q}, p);
      UnusedSplit(ops - {p}, q);
      assert ops - {q} - {p} == ops - {p} - {q};
    }
  }

  lemma {:induction false} UnusedBound(ops: map<nat, set<nat>>)
    requires forall p :: p in ops ==> |ops[p]| <= MAXOPBLOCKS
    ensures 0 <= Unused(ops) <= |ops| * MAXOPBLOCKS
    decreases |ops|
  {
    if |ops| != 0 {
      var p :| p in ops;
      UnusedSplit(ops, p);
      UnusedBound(ops - {p});
    }
  }

  /** Room is reserved for everything the active operations may still log. */
  ghost predicate Inv(v: View) {
    && (forall i, j :: 0 <= i < j < |v.blks| ==> v.blks[i] != v.blks[j])
    && (forall p, b :: p in v.ops && b in v.ops[p] ==> b in v.blks)
    && (forall p :: p in v.ops ==> |v.ops[p]| <= MAXOPBLOCKS)
    && |v.blks| + Unused(v.ops) <= LOGSIZE
    && (v.committing ==> |v.ops| == 0)
    && (!v.committing && |v.ops| == 0 ==> v.blks == [])
  }

  lemma BeginKeepsInv(v: View, pid: nat)
    requires Inv(v) && pid !in v.ops && Admits(v)
    ensures Inv(Begin(v, pid))
  {
    var ops := v.ops[pid := {}];
    UnusedSplit(ops, pid);
    assert ops - {pid} == v.ops;
    UnusedBound(v.ops);
  }

  lemma WriteKeepsInv(v: View, pid: nat, b: nat)
    requires Inv(v) && pid in v.ops && |v.ops[pid] + {b}| <= MAXOPBLOCKS
    ensures Inv(Write(v, pid, b))
  {
    hide Unused;
    var ops := v.ops[pid := v.ops[pid] + {b}];
    UnusedSplit(ops, pid);
    UnusedSplit(v.ops, pid);
    assert ops - {pid} == v.ops - {pid};
    if b !in v.blks {
      assert b !in v.ops[pid];
    } else if b in v.ops[pid] {
      assert v.ops[pid] + {b} == v.ops[pid];
    }
  }

  lemma EndKeepsInv(v: View, pid: nat)
    requires Inv(v) && pid in v.ops
    ensures Inv(End(v, pid)) && !v.committing
  {
    UnusedSplit(v.ops, pid);
  }

  lemma StepKeepsInv(v: View, s: Step)
    requires Inv(v) && Enabled(v, s)
    ensures Inv(Next(v, s))
  {
    match s
    case BeginOp(pid) => BeginKeepsInv(v, pid);
    case LogWrite(pid, b) => WriteKeepsInv(v, pid, b);
    case EndOp(pid) => EndKeepsInv(v, pid);
    case CommitDone =>
  }

  lemma {:induction false} RunKeepsInv(states: seq<View>, steps: seq<Step>, n: nat)
    requires Run(states, steps) && n <= |steps|
    ensures Inv(states[n])
  {
    if n != 0 {
      RunKeepsInv(states, steps, n - 1);
      StepKeepsInv(states[n - 1], steps[n - 1]);
    }
  }

  lemma ReachableIsInv(v: View)
    requires Reachable(v)
    ensures Inv(v)
  {
    var states, steps :| Run(states, steps) && states[|steps|] == v;
    RunKeepsInv(states, steps, |steps|);
  }

  /** Over all runs: the log never holds more than it has room for, end_op never finds
      a commit in progress, a commit runs with no operation active, and an idle log
      is empty, so that it admits the next operation. */
  lemma AdmissionSafe(v: View)
    requires Reachable(v)
    ensures |v.blks| + Unused(v.ops) <= LOGSIZE && 0 <= Unused(v.ops)
    ensures forall pid :: pid in v.ops ==> !v.committing
    ensures !v.committing && |v.ops| == 0 ==> v.blks == [] && Admits(v)
  {
    ReachableIsInv(v);
    UnusedBound(v.ops);
    forall pid | pid in v.ops ensures !v.committing {
      EndKeepsInv(v, pid);
    }
  }

  /** With a log larger than LOGSIZE blocks, log_write's size panic is out of reach of
      any operation that has not used up its MAXOPBLOCKS; it strikes exactly when the
      log is full, and then no active operation has any budget left. */
  lemma SizePanicWhenFull(v: View)
    requires Reachable(v) && v.size > LOGSIZE
    ensures TooBig(v) <==> |v.blks| == LOGSIZE
    ensures forall p :: p in v.ops && |v.ops[p]| < MAXOPBLOCKS ==> !TooBig(v)
  {
    ReachableIsInv(v);
    UnusedBound(v.ops);
    forall p | p in v.ops && |v.ops[p]| < MAXOPBLOCKS ensures !TooBig(v) {
      UnusedSplit(v.ops, p);
      UnusedBound(v.ops - {p});
    }
  }

  // ---- where the promise fails ---------------------------------------------

  /** Three operations are active and have logged blocks 0 .. k-1, taking turns. */
  function Filled(size: nat, k: nat): View {
    View(size, seq(k, i => i), false, map p: nat | p < 3 :: Share(k, p))
  }

  /** The blocks below k that fall to operation p. */
  function Share(k: nat, p: nat): set<nat> {
    set b: nat | b < k && Owner(b) == p
  }

  function Owner(b: nat): nat {
    b % 3
  }

  lemma {:induction false} ShareSize(k: nat, p: nat)
    requires p < 3
    ensures |Share(k, p)| == (k + 2 - p) / 3
  {
    if k == 0 {
      assert Share(0, p) == {};
    } else {
      ShareSize(k - 1, p);
      ShareStep(k, p);
      Thirds(k, p);
      assert k - 1 !in Share(k - 1, p);
      hide Share;
    }
  }

  lemma Thirds(k: nat, p: nat)
    requires k > 0 && p < 3
    ensures (k + 2 - p) / 3 == (k + 1 - p) / 3 + if Owner(k - 1) == p then 1 else 0
  {
  }

  lemma TurnsDiffer(b: nat)
    ensures Owner(b) != Owner(b + 1) && Owner(b) < 3
  {
  }

  /** Whoever's turn it is has logged fewer than MAXOPBLOCKS blocks. */
  lemma TurnHasRoom(k: nat, b: nat)
    requires k <= b <= k + 1 && b < LOGSIZE
    ensures Owner(b) < 3 && Owner(b) != Owner(b + 1) && |Share(k, Owner(b))| < MAXOPBLOCKS && |Share(k, Owner(b)) + {b}| <= MAXOPBLOCKS
  {
    TurnsDiffer(b);
    ShareSize(k, Owner(b));
    assert b !in Share(k, Owner(b));
    hide Share;
    assert (k + 2 - Owner(b)) / 3 < MAXOPBLOCKS;
  }

  lemma ShareStep(k: nat, p: nat)
    requires k > 0
    ensures Share(k, p) == if Owner(k - 1) == p then Share(k - 1, p) + {k - 1} else Share(k - 1, p)
  {
  }

  lemma NoShares(size: nat, ops: map<nat, set<nat>>)
    requires ops == map[0 := {}, 1 := {}, 2 := {}]
    ensures View(size, [], false, ops) == Filled(size, 0)
  {
    forall p: nat | p < 3 ensures Share(0, p) == {} && p in ops && ops[p] == {} {
    }
    assert ops == Filled(size, 0).ops;
    assert Filled(size, 0).blks == [];
  }

  lemma BeginThree(size: nat)
    ensures Reachable(Filled(size, 0))
  {
    var v := Initial(size);
    assert Run([v], []);
    ReachableNext(v, BeginOp(0));
    var w := Next(v, BeginOp(0));
    assert w.ops == map[0 := {}];
    ReachableNext(w, BeginOp(1));
    var x := Next(w, BeginOp(1));
    assert x.ops == map[0 := {}, 1 := {}];
    ReachableNext(x, BeginOp(2));
    var y := Next(x, BeginOp(2));
    assert y.ops == map[0 := {}, 1 := {}, 2 := {}];
    NoShares(size, y.ops);
  }

  lemma FillStep(size: nat, k: nat)
    requires 0 < k <= LOGSIZE && k < size
    ensures |Filled(size, k).ops[Owner(k - 1)]| <= MAXOPBLOCKS && !TooBig(Filled(size, k - 1))
    ensures Enabled(Filled(size, k - 1), LogWrite(Owner(k - 1), k - 1))
    ensures Next(Filled(size, k - 1), LogWrite(Owner(k - 1), k - 1)) == Filled(size, k)
  {
    var v, p := Filled(size, k - 1), Owner(k - 1);
    ShareStep(k, p);
    ShareSize(k, p);
    var w := Write(v, p, k - 1);
    assert w.blks == Filled(size, k).blks;
    forall q: nat | q < 3 ensures w.ops[q] == Share(k, q) {
      ShareStep(k, q);
    }
    assert w.ops == Filled(size, k).ops;
  }

  lemma {:induction false} FillsUp(size: nat, k: nat)
    requires k <= LOGSIZE && (k < size || k == 0)
    ensures Reachable(Filled(size, k))
  {
    if k == 0 {
      BeginThree(size);
    } else {
      hide Reachable;
      FillsUp(size, k - 1);
      FillStep(size, k);
      ReachableNext(Filled(size, k - 1), LogWrite(Owner(k - 1), k - 1));
    }
  }

  /** Even in a large enough log, an operation within its budget of distinct blocks can
      meet the panic: once three operations have logged ten blocks each, writing block 0
      again would be absorbed, but the size test comes first. */
  lemma AbsorbedWritePanics()
    ensures var v := Filled(31, 30);
            && Reachable(v) && 0 in v.ops && 0 in v.ops[0]
            && |v.ops[0] + {0}| <= MAXOPBLOCKS && TooBig(v)
  {
    FillsUp(31, 30);
    ShareSize(30, 0);
    assert 0 in Share(30, 0);
    assert Share(30, 0) + {0} == Share(30, 0);
  }

  /** The log size decides: some operation with budget left can meet the size panic if
      and only if the log has at most LOGSIZE blocks, as mkfs makes it. */
  lemma SizePanicAvoidable(size: nat)
    ensures (exists v: View, p: nat :: v.size == size && Reachable(v) && p in v.ops && |v.ops[p]| < MAXOPBLOCKS && TooBig(v))
            <==> size <= LOGSIZE
  {
    if size <= LOGSIZE {
      var k := if size == 0 then 0 else size - 1;
      var v := Filled(size, k);
      var p := Owner(k);
      FillsUp(size, k);
      ShareSize(k, p);
      assert v.size == size && Reachable(v) && p in v.ops && |v.ops[p]| < MAXOPBLOCKS && TooBig(v);
    } else {
      forall v: View, p: nat | v.size == size && Reachable(v) && p in v.ops && |v.ops[p]| < MAXOPBLOCKS ensures !TooBig(v) {
        SizePanicWhenFull(v);
      }
    }
  }

  // ---- the size test comes before the lock is taken --------------------------

  /** log_write tests the size first and takes the log's lock afterwards.  `tested` holds
      the operations that have passed the test and are about to append. */
  datatype Racing = Racing(v: View, tested: set<nat>)

  datatype RaceStep = RBegin(pid: nat) | TestSize(pid: nat) | Append(pid: nat, b: nat) | REnd(pid: nat) | RCommitDone

  predicate REnabled(r: Racing, s: RaceStep) {
    match s
    case RBegin(pid) => pid !in r.v.ops && Admits(r.v)
    case TestSize(pid) => pid in r.v.ops && pid !in r.tested && !TooBig(r.v)
    case Append(pid, b) => pid in r.v.ops && pid in r.tested && |r.v.ops[pid] + {b}| <= MAXOPBLOCKS
    case REnd(pid) => pid in r.v.ops && pid !in r.tested
    case RCommitDone => r.v.committing
  }

  function RNext(r: Racing, s: RaceStep): Racing
    requires REnabled(r, s)
  {
    match s
    case RBegin(pid) => r.(v := Begin(r.v, pid))
    case TestSize(pid) => r.(tested := r.tested + {pid})
    case Append(pid, b) => Racing(Write(r.v, pid, b), r.tested - {pid})
    case REnd(pid) => r.(v := End(r.v, pid))
    case RCommitDone => r.(v := Finish(r.v))
  }

  ghost predicate RRun(states: seq<Racing>, steps: seq<RaceStep>) {
    && |states| == |steps| + 1
    && states[0] == Racing(Initial(states[0].v.size), {})
    && forall i :: 0 <= i < |steps| ==> REnabled(states[i], steps[i]) && states[i + 1] == RNext(states[i], steps[i])
  }

  ghost predicate RReachable(r: Racing) {
    exists states, steps :: RRun(states, steps) && states[|steps|] == r
  }

  lemma RReachableNext(r: Racing, s: RaceStep)
    requires RReachable(r) && REnabled(r, s)
    ensures RReachable(RNext(r, s))
  {
    var states, steps :| RRun(states, steps) && states[|steps|] == r;
    var states', steps' := states + [RNext(r, s)], steps + [s];
    assert RRun(states', steps') && states'[|steps'|] == RNext(r, s);
  }

  /** The reservations do not depend on the size test. */
  lemma {:induction false} RacingIsInv(states: seq<Racing>, steps: seq<RaceStep>, n: nat)
    requires RRun(states, steps) && n <= |steps|
    ensures Inv(states[n].v) && states[n].v.size == states[0].v.size
    ensures states[n].v.size <= 1 ==> states[n].v.blks == [] && states[n].tested == {}
  {
    hide Inv;
    if n == 0 {
      InitialIsInv(states[0].v.size);
    } else {
      RacingIsInv(states, steps, n - 1);
      var r := states[n - 1];
      match steps[n - 1]
      case RBegin(pid) => BeginKeepsInv(r.v, pid);
      case TestSize(pid) =>
      case Append(pid, b) => WriteKeepsInv(r.v, pid, b);
      case REnd(pid) => EndKeepsInv(r.v, pid);
      case RCommitDone => StepKeepsInv(r.v, CommitDone);
    }
  }

  lemma InitialIsInv(size: nat)
    ensures Inv(Initial(size))
  {
  }

  /** The listed blocks and the header fit in the log's size blocks. */
  predicate ListFits(v: View) {
    |v.blks| + 1 <= v.size
  }

  /** Filled is also reached when test and append are two steps. */
  lemma {:induction false} RFillsUp(size: nat, k: nat)
    requires k <= LOGSIZE && (k < size || k == 0)
    ensures RReachable(Racing(Filled(size, k), {}))
  {
    if k == 0 {
      RBeginThree(size);
    } else {
      RFillsUp(size, k - 1);
      FillStep(size, k);
      var p, v := Owner(k - 1), Filled(size, k - 1);
      RReachableNext(Racing(v, {}), TestSize(p));
      RReachableNext(Racing(v, {p}), Append(p, k - 1));
      assert {p} - {p} == {};
    }
  }

  lemma RBeginThree(size: nat)
    ensures RReachable(Racing(Filled(size, 0), {}))
  {
    var v := Initial(size);
    assert RRun([Racing(v, {})], []);
    RReachableNext(Racing(v, {}), RBegin(0));
    var w := Begin(v, 0);
    assert w.ops == map[0 := {}];
    RReachableNext(Racing(w, {}), RBegin(1));
    var x := Begin(w, 1);
    assert x.ops == map[0 := {}, 1 := {}];
    RReachableNext(Racing(x, {}), RBegin(2));
    var y := Begin(x, 2);
    assert y.ops == map[0 := {}, 1 := {}, 2 := {}];
    NoShares(size, y.ops);
  }

  /** Two operations pass the test one after the other, and both append. */
  lemma BothAppend(v: View, p: nat, q: nat, b: nat, c: nat) returns (r: Racing)
    requires RReachable(Racing(v, {})) && !TooBig(v) && p in v.ops && q in v.ops && p != q
    requires |v.ops[p] + {b}| <= MAXOPBLOCKS && |v.ops[q] + {c}| <= MAXOPBLOCKS
    ensures RReachable(r) && r.v == Write(Write(v, p, b), q, c)
  {
    hide RReachable, TooBig;
    var r0 := Racing(v, {});
    RReachableNext(r0, TestSize(p));
    var r1 := RNext(r0, TestSize(p));
    RReachableNext(r1, TestSize(q));
    var r2 := RNext(r1, TestSize(q));
    RReachableNext(r2, Append(p, b));
    var r3 := RNext(r2, Append(p, b));
    RReachableNext(r3, Append(q, c));
    r := RNext(r3, Append(q, c));
  }

  lemma NextTwo(size: nat, k: nat) returns (p: nat, q: nat)
    requires k <= LOGSIZE - 2
    ensures var v := Filled(size, k);
            && p != q && p in v.ops && q in v.ops && |v.blks| == k && k !in v.blks && k + 1 !in v.blks
            && |v.ops[p] + {k}| <= MAXOPBLOCKS && |v.ops[q] + {k + 1}| <= MAXOPBLOCKS
  {
    p, q := Owner(k), Owner(k + 1);
    TurnHasRoom(k, k);
    TurnHasRoom(k, k + 1);
    hide Owner, Share;
  }

  /** With room for one block left the list then has as many blocks as the whole log, and
      write_log would write past its end. */
  lemma TwoAtOnce(size: nat) returns (r: Racing)
    requires 2 <= size <= LOGSIZE
    ensures RReachable(r) && r.v.size == size && |r.v.blks| == size && !ListFits(r.v)
  {
    var k := size - 2;
    RFillsUp(size, k);
    var p, q := NextTwo(size, k);
    var v := Filled(size, k);
    hide RReachable, Filled;
    r := BothAppend(v, p, q, k, k + 1);
  }

  /** With the test outside the lock, the list stays within the log in every run exactly
      when the log is larger than LOGSIZE blocks (or has the one block that is its header). */
  lemma RaceIsHarmless(size: nat)
    ensures (forall r: Racing :: RReachable(r) && r.v.size == size ==> ListFits(r.v)) <==> size == 1 || size > LOGSIZE
  {
    if size == 1 || size > LOGSIZE {
      forall r: Racing | RReachable(r) && r.v.size == size ensures ListFits(r.v) {
        var states, steps :| RRun(states, steps) && states[|steps|] == r;
        RacingIsInv(states, steps, |steps|);
        UnusedBound(r.v.ops);
      }
    } else if size == 0 {
      assert RRun([Racing(Initial(0), {})], []);
      assert RReachable(Racing(Initial(0), {})) && !ListFits(Initial(0));
    } else {
      var r := TwoAtOnce(size);
    }
  }
}
