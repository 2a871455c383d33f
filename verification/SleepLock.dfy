/** acquiresleep/releasesleep and the reentrant lock as interleaved steps over the lock's own
    spinlock and ptable.lock, with sleep and wakeup taken apart at every point where another
    process can come between. */
module SleepLock {
  import opened Spinlocks
  import opened Wrappers

  datatype Kind = Plain | Reentrant

  datatype Call = Acquire | Release

  /** Where a process is.  Everything between acquire and release of a spinlock that does not
      touch ptable.lock is one step. */
  datatype Pc =
    | Idle        // outside the lock's functions, holding the lock or not
    | Acquiring   // entering: wants the spinlock
    | Entered     // has it, before the reentrant lock's first test
    | Testing     // has it, at the test of the while loop
    | Queueing    // in sleep: wants ptable.lock
    | Queued      // has both
    | Dozing      // has released the spinlock, has ptable.lock, not SLEEPING yet
    | Asleep      // SLEEPING on the lock
    | Woken       // RUNNABLE again
    | Resuming    // scheduled: back in sleep with ptable.lock
    | Retrying    // wants the spinlock again
    | Leaving(call: Call)  // has the spinlock, about to release it and return
    | Releasing   // wants the spinlock, to release the lock
    | Dropping    // has it
    | Waking      // in wakeup: has the spinlock, wants ptable.lock
    | WakingAll   // has both

  /** The fields of struct sleeplock (pid as the owner) or struct reentrantlock. */
  datatype Lock = Lock(locked: bool, owner: Option<nat>, recursive: int)

  /** depth[p] counts p's calls of acquire that have returned minus its calls of release that
      have returned, a release by a process that does not hold the lock not counting. */
  datatype State = State(lk: Option<nat>, pt: Holder, lock: Lock, pc: seq<Pc>, depth: seq<int>)

  const UNLOCKED := Lock(false, None, 0)

  function At(s: State, p: nat, pc: Pc): State
    requires p < |s.pc|
  {
    s.(pc := s.pc[p := pc])
  }

  /** The depth after the return of a call. */
  function Returned(d: int, call: Call): int {
    if call == Acquire then d + 1 else if d > 0 then d - 1 else d
  }

  /** The first test of acquire_reentrantlock. */
  function Enter(kind: Kind, s: State, p: nat): State
    requires p < |s.pc|
  {
    if kind == Reentrant && s.lock.locked && s.lock.owner == Some(p) then
      At(s.(lock := s.lock.(recursive := s.lock.recursive + 1)), p, Leaving(Acquire))
    else
      At(s, p, Testing)
  }

  /** The while loop's test, and taking the lock after it. */
  function Test(s: State, p: nat): State
    requires p < |s.pc|
  {
    if s.lock.locked then At(s, p, Queueing)
    else At(s.(lock := Lock(true, Some(p), 1)), p, Leaving(Acquire))
  }

  /** releasesleep and release_reentrantlock up to wakeup. */
  function Drop(kind: Kind, s: State, p: nat): State
    requires p < |s.pc|
  {
    if kind == Plain then
      At(s.(lock := UNLOCKED), p, Waking)
    else if s.lock.owner != Some(p) then
      At(s, p, Leaving(Release))
    else if s.lock.recursive - 1 == 0 then
      At(s.(lock := UNLOCKED), p, Waking)
    else
      At(s.(lock := s.lock.(recursive := s.lock.recursive - 1)), p, Leaving(Release))
  }

  /** wakeup1: every process asleep on the lock becomes runnable. */
  function WakeAll(pc: seq<Pc>): (r: seq<Pc>)
    ensures |r| == |pc| && forall q :: 0 <= q < |pc| ==> r[q] == if pc[q] == Asleep then Woken else pc[q]
  {
    seq(|pc|, q requires 0 <= q < |pc| => if pc[q] == Asleep then Woken else pc[q])
  }

  /** One step of process p. */
  ghost predicate StepOf(kind: Kind, s: State, t: State, p: nat)
    requires p < |s.pc| == |s.depth|
  {
    match s.pc[p]
    case Idle => t == At(s, p, Acquiring) || (t == At(s, p, Releasing) && MayRelease(kind, s, p))
    case Acquiring => s.lk == None && t == At(s.(lk := Some(p)), p, Entered)
    case Entered => t == Enter(kind, s, p)
    case Testing => t == Test(s, p)
    case Queueing => s.pt == Nobody && t == At(s.(pt := By(p)), p, Queued)
    case Queued => t == At(s.(lk := None), p, Dozing)
    case Dozing => t == At(s.(pt := Nobody), p, Asleep)
    case Asleep => false
    case Woken => s.pt == Nobody && t == At(s.(pt := By(p)), p, Resuming)
    case Resuming => t == At(s.(pt := Nobody), p, Retrying)
    case Retrying => s.lk == None && t == At(s.(lk := Some(p)), p, Testing)
    case Leaving(call) => t == At(s.(lk := None, depth := s.depth[p := Returned(s.depth[p], call)]), p, Idle)
    case Releasing => s.lk == None && t == At(s.(lk := Some(p)), p, Dropping)
    case Dropping => t == Drop(kind, s, p)
    case Waking => s.pt == Nobody && t == At(s.(pt := By(p)), p, WakingAll)
    case WakingAll => t == s.(pt := Nobody, pc := WakeAll(s.pc)[p := Leaving(Release)])
  }

  /** Only holders call releasesleep; anyone may call release_reentrantlock. */
  predicate MayRelease(kind: Kind, s: State, p: nat) {
    kind == Reentrant || s.lock.owner == Some(p)
  }

  /** The rest of the kernel: other users of ptable.lock, and kill, which wakes any sleeper. */
  ghost predicate StepElsewhere(s: State, t: State) {
    || (s.pt == Nobody && t == s.(pt := Other))
    || (s.pt == Other && t == s.(pt := Nobody))
    || (s.pt == Nobody && exists q: nat :: q < |s.pc| && s.pc[q] == Asleep && t == At(s, q, Woken))
  }

  ghost predicate Step(kind: Kind, s: State, t: State) {
    && |s.pc| == |s.depth|
    && (StepElsewhere(s, t) || exists p: nat :: p < |s.pc| && StepOf(kind, s, t, p))
  }

  ghost predicate Init(s: State) {
    && |s.pc| == |s.depth| && s.lk == None && s.pt == Nobody && s.lock == UNLOCKED
    && (forall p :: 0 <= p < |s.pc| ==> s.pc[p] == Idle && s.depth[p] == 0)
  }

  /** A run: any number of steps by any processes in any order. */
  ghost predicate Run(kind: Kind, run: seq<State>) {
    && |run| > 0 && Init(run[0])
    && forall i {:trigger StepAt(kind, run, i)} :: 0 <= i < |run| - 1 ==> StepAt(kind, run, i)
  }

  ghost predicate StepAt(kind: Kind, run: seq<State>, i: nat)
    requires i + 1 < |run|
  {
    Step(kind, run[i], run[i + 1])
  }

  // ---- the invariant -------------------------------------------------------------------

  predicate HasLk(pc: Pc) {
    pc.Leaving? || pc in {Entered, Testing, Queueing, Queued, Dropping, Waking, WakingAll}
  }

  predicate HasPt(pc: Pc) {
    pc in {Queued, Dozing, Resuming, WakingAll}
  }

  /** Some releaser has cleared the lock and has not run wakeup1 yet. */
  ghost predicate WakeupOwed(s: State) {
    exists q: nat {:trigger s.pc[q]} :: q < |s.pc| && (s.pc[q] == Waking || s.pc[q] == WakingAll)
  }

  /** From the while loop's test of acquire on, to sleep and back. */
  predicate Waits(pc: Pc) {
    pc in {Testing, Queueing, Queued, Dozing, Asleep, Woken, Resuming, Retrying}
  }

  ghost predicate Inv(kind: Kind, s: State) {
    |s.pc| == |s.depth| && Locks(s) && Counts(s) && Sleepers(s) && Kinds(kind, s)
  }

  ghost predicate Locks(s: State) {
    forall p {:trigger s.pc[p]} :: 0 <= p < |s.pc| ==>
      (HasLk(s.pc[p]) <==> s.lk == Some(p)) && (HasPt(s.pc[p]) <==> s.pt == By(p))
  }

  ghost predicate Sleepers(s: State) {
    && (forall p {:trigger s.pc[p]} :: 0 <= p < |s.pc| && s.pc[p] in {Queueing, Queued} ==> s.lock.locked)
    && (forall p {:trigger s.pc[p]} :: 0 <= p < |s.pc| && s.pc[p] in {Dozing, Asleep} ==> s.lock.locked || WakeupOwed(s))
  }

  /** A plain lock is held once and released by its holder; a reentrant one is not waited for by
      its holder. */
  ghost predicate Kinds(kind: Kind, s: State)
    requires |s.pc| == |s.depth|
  {
    && (kind == Plain && s.lock.locked ==> s.lock.recursive == 1)
    && (kind == Plain ==> forall p {:trigger s.pc[p]} :: 0 <= p < |s.pc| && s.pc[p] in {Releasing, Dropping} ==> s.lock.owner == Some(p))
    && (kind == Reentrant ==> forall p {:trigger s.pc[p]} :: 0 <= p < |s.pc| && Waits(s.pc[p]) ==> s.depth[p] == 0)
  }

  /** What the lock has down for p. */
  function Held(lock: Lock, p: nat): int {
    if lock.owner == Some(p) then lock.recursive else 0
  }

  /** The depth of a process when its call, if that is past the change of the lock, has returned. */
  function Settled(pc: Pc, d: int): int {
    match pc
    case Leaving(call) => Returned(d, call)
    case Waking => Returned(d, Release)
    case WakingAll => Returned(d, Release)
    case _ => d
  }

  /** locked iff there is an owner iff recursive > 0, and recursive is the owner's acquires
      minus releases, everyone else's being 0. */
  ghost predicate Counts(s: State)
    requires |s.pc| == |s.depth|
  {
    && (s.lock.locked <==> s.lock.owner.Some?) && (s.lock.locked <==> s.lock.recursive > 0) && s.lock.recursive >= 0
    && (s.lock.owner.Some? ==> s.lock.owner.value < |s.pc|)
    && (forall p {:trigger s.depth[p]} {:trigger s.pc[p]} :: 0 <= p < |s.pc| ==>
          s.depth[p] >= 0 && Settled(s.pc[p], s.depth[p]) == Held(s.lock, p)
          && (s.depth[p] > 0 ==> s.lock.owner == None || s.lock.owner == Some(p)))
  }

  lemma StepOfKeepsInv(kind: Kind, s: State, t: State, p: nat)
    requires Inv(kind, s) && p < |s.pc| && StepOf(kind, s, t, p)
    ensures Inv(kind, t)
  {
    match s.pc[p] {
      case Idle => MoveKeepsInv(kind, s, t, p);
      case Acquiring => MoveKeepsInv(kind, s, t, p);
      case Entered => EnterKeepsInv(kind, s, t, p);
      case Testing => TestKeepsInv(kind, s, t, p);
      case Queueing => MoveKeepsInv(kind, s, t, p);
      case Queued => MoveKeepsInv(kind, s, t, p);
      case Dozing => MoveKeepsInv(kind, s, t, p);
      case Woken => MoveKeepsInv(kind, s, t, p);
      case Resuming => MoveKeepsInv(kind, s, t, p);
      case Retrying => MoveKeepsInv(kind, s, t, p);
      case Leaving(call) => LeaveKeepsInv(kind, s, t, p);
      case Releasing => MoveKeepsInv(kind, s, t, p);
      case Dropping => DropKeepsInv(kind, s, t, p);
      case Waking => WakingGoesOn(kind, s, t, p);
      case WakingAll => WakingKeepsInv(kind, s, t, p);
    }
  }

  /** A step that changes neither the lock nor a count, nor whether p is past its call's change. */
  lemma MoveKeepsCounts(s: State, t: State, p: nat)
    requires |s.pc| == |s.depth| && Counts(s) && |t.pc| == |s.pc| && p < |s.pc| && t.lock == s.lock && t.depth == s.depth
    requires forall q :: 0 <= q < |t.pc| && q != p ==> t.pc[q] == s.pc[q]
    requires Settled(t.pc[p], s.depth[p]) == Settled(s.pc[p], s.depth[p])
    ensures Counts(t)
  {
    hide Settled, Held;
  }

  /** The steps that only move spinlocks, on the way into a call, to sleep and back. */
  predicate Moving(pc: Pc) {
    pc in {Idle, Acquiring, Retrying, Releasing, Queueing, Queued, Dozing, Woken, Resuming}
  }

  lemma MoveKeepsInv(kind: Kind, s: State, t: State, p: nat)
    requires Inv(kind, s) && p < |s.pc| && StepOf(kind, s, t, p) && Moving(s.pc[p])
    ensures Inv(kind, t)
  {
    hide StepOf, Locks, Sleepers, Kinds, Counts, WakeupOwed;
    Moved(kind, s, t, p);
    MoveKeepsLocks(kind, s, t, p);
    MoveKeepsCounts(s, t, p);
    MoveKeepsSleepers(kind, s, t, p);
    MoveKeepsKinds(kind, s, t, p);
  }

  lemma Moved(kind: Kind, s: State, t: State, p: nat)
    requires p < |s.pc| == |s.depth| && StepOf(kind, s, t, p) && Moving(s.pc[p])
    ensures |t.pc| == |s.pc| && t.lock == s.lock && t.depth == s.depth
    ensures forall q :: 0 <= q < |t.pc| && q != p ==> t.pc[q] == s.pc[q]
    ensures Settled(t.pc[p], s.depth[p]) == Settled(s.pc[p], s.depth[p])
  {
  }

  lemma MoveKeepsLocks(kind: Kind, s: State, t: State, p: nat)
    requires Locks(s) && p < |s.pc| == |s.depth| && StepOf(kind, s, t, p) && Moving(s.pc[p])
    ensures Locks(t)
  {
  }

  lemma MoveKeepsSleepers(kind: Kind, s: State, t: State, p: nat)
    requires Sleepers(s) && p < |s.pc| == |s.depth| && StepOf(kind, s, t, p) && Moving(s.pc[p])
    ensures Sleepers(t)
  {
    Moved(kind, s, t, p);
    OwedStays(s, t, p);
    hide WakeupOwed;
  }

  lemma MoveKeepsKinds(kind: Kind, s: State, t: State, p: nat)
    requires |s.pc| == |s.depth| && Kinds(kind, s) && p < |s.pc| && StepOf(kind, s, t, p) && Moving(s.pc[p])
    ensures |t.pc| == |t.depth| && Kinds(kind, t)
  {
  }

  /** The lock's spinlock is released. */
  lemma LeaveKeepsInv(kind: Kind, s: State, t: State, p: nat)
    requires Inv(kind, s) && p < |s.pc| && StepOf(kind, s, t, p)
    requires s.pc[p].Leaving?
    ensures Inv(kind, t)
  {
    forall q | 0 <= q < |t.pc| && q != p ensures t.pc[q] == s.pc[q] {
    }
    OwedStays(s, t, p);
    hide WakeupOwed;
  }

  lemma EnterKeepsInv(kind: Kind, s: State, t: State, p: nat)
    requires Inv(kind, s) && p < |s.pc| && s.pc[p] == Entered && t == Enter(kind, s, p)
    ensures Inv(kind, t)
  {
    forall q | 0 <= q < |t.pc| && q != p ensures t.pc[q] == s.pc[q] && t.depth[q] == s.depth[q] {
    }
    OwedStays(s, t, p);
  }

  lemma TestKeepsInv(kind: Kind, s: State, t: State, p: nat)
    requires Inv(kind, s) && p < |s.pc| && s.pc[p] == Testing && t == Test(s, p)
    ensures Inv(kind, t)
  {
    forall q | 0 <= q < |t.pc| && q != p ensures t.pc[q] == s.pc[q] && t.depth[q] == s.depth[q] {
    }
    OwedStays(s, t, p);
  }

  lemma DropKeepsInv(kind: Kind, s: State, t: State, p: nat)
    requires Inv(kind, s) && p < |s.pc| && s.pc[p] == Dropping && t == Drop(kind, s, p)
    ensures Inv(kind, t)
  {
    forall q | 0 <= q < |t.pc| && q != p ensures t.pc[q] == s.pc[q] && t.depth[q] == s.depth[q] {
    }
    OwedStays(s, t, p);
    DropKeepsCounts(kind, s, t, p);
    DropKeepsKinds(kind, s, t, p);
    if t.pc[p] == Waking {
      assert WakeupOwed(t);
    }
    hide Counts, Kinds;
  }

  lemma DropKeepsCounts(kind: Kind, s: State, t: State, p: nat)
    requires |s.pc| == |s.depth| && Counts(s) && Kinds(kind, s) && p < |s.pc| && s.pc[p] == Dropping && t == Drop(kind, s, p)
    ensures |t.pc| == |t.depth| && Counts(t)
  {
    forall q | 0 <= q < |t.pc| && q != p ensures t.pc[q] == s.pc[q] && t.depth[q] == s.depth[q] {
    }
  }

  lemma DropKeepsKinds(kind: Kind, s: State, t: State, p: nat)
    requires Inv(kind, s) && p < |s.pc| && s.pc[p] == Dropping && t == Drop(kind, s, p)
    ensures |t.pc| == |t.depth| && Kinds(kind, t)
  {
    forall q | 0 <= q < |t.pc| && q != p ensures t.pc[q] == s.pc[q] && t.depth[q] == s.depth[q] {
    }
    hide Sleepers, WakeupOwed;
  }

  lemma WakingGoesOn(kind: Kind, s: State, t: State, p: nat)
    requires Inv(kind, s) && p < |s.pc| && s.pc[p] == Waking && StepOf(kind, s, t, p)
    ensures Inv(kind, t)
  {
    forall q | 0 <= q < |t.pc| && q != p ensures t.pc[q] == s.pc[q] {
    }
    assert t.pc[p] == WakingAll;
  }

  lemma OwedStays(s: State, t: State, p: nat)
    requires |t.pc| == |s.pc| && p < |s.pc| && s.pc[p] != Waking && s.pc[p] != WakingAll
    requires forall q :: 0 <= q < |t.pc| && q != p ==> t.pc[q] == s.pc[q]
    ensures WakeupOwed(s) ==> WakeupOwed(t)
  {
    if WakeupOwed(s) {
      var q: nat :| q < |s.pc| && (s.pc[q] == Waking || s.pc[q] == WakingAll);
      assert t.pc[q] == s.pc[q];
    }
  }

  lemma WakingKeepsInv(kind: Kind, s: State, t: State, p: nat)
    requires Inv(kind, s) && p < |s.pc| && s.pc[p] == WakingAll && StepOf(kind, s, t, p)
    ensures Inv(kind, t)
  {
  }

  lemma ElsewhereKeepsInv(kind: Kind, s: State, t: State)
    requires Inv(kind, s) && StepElsewhere(s, t)
    ensures Inv(kind, t)
  {
    if t.pc != s.pc {
      var q: nat :| q < |s.pc| && s.pc[q] == Asleep && t == At(s, q, Woken);
      forall p | 0 <= p < |t.pc| && p != q ensures t.pc[p] == s.pc[p] {
      }
      OwedStays(s, t, q);
      hide WakeupOwed;
    } else {
      SameOwed(s, t);
      hide WakeupOwed;
    }
  }

  lemma SameOwed(s: State, t: State)
    requires t.pc == s.pc
    ensures WakeupOwed(s) ==> WakeupOwed(t)
  {
    if WakeupOwed(s) {
      var q: nat :| q < |s.pc| && (s.pc[q] == Waking || s.pc[q] == WakingAll);
      assert t.pc[q] == s.pc[q];
    }
  }

  lemma {:induction false} RunKeepsInv(kind: Kind, run: seq<State>, i: nat)
    requires Run(kind, run) && i < |run|
    ensures Inv(kind, run[i])
  {
    if i > 0 {
      RunKeepsInv(kind, run, i - 1);
      var s, t := run[i - 1], run[i];
      assert StepAt(kind, run, i - 1);
      if StepElsewhere(s, t) {
        ElsewhereKeepsInv(kind, s, t);
      } else {
        var p: nat :| p < |s.pc| && StepOf(kind, s, t, p);
        StepOfKeepsInv(kind, s, t, p);
      }
    }
  }

  // ---- the theorems -----------------------------------------------------------------------

  /** At every moment of every run at most one process has acquires that it has not released,
      and the lock names it, with exactly that number of holds; a release that is past the
      change of the lock and has not returned yet is already taken off. */
  lemma MutualExclusion(kind: Kind, run: seq<State>, i: nat, p: nat, q: nat)
    requires Run(kind, run) && i < |run| && p < |run[i].depth| && q < |run[i].depth| == |run[i].pc|
    requires run[i].depth[p] > 0 && run[i].depth[q] > 0
    ensures p == q
    ensures var n := Settled(run[i].pc[p], run[i].depth[p]); run[i].lock == if n > 0 then Lock(true, Some(p), n) else UNLOCKED
  {
    RunKeepsInv(kind, run, i);
    OneHolder(kind, run[i], p, q);
  }

  lemma OneHolder(kind: Kind, s: State, p: nat, q: nat)
    requires Inv(kind, s) && p < |s.pc| && q < |s.pc| && s.depth[p] > 0 && s.depth[q] > 0
    ensures p == q
    ensures var n := Settled(s.pc[p], s.depth[p]); s.lock == if n > 0 then Lock(true, Some(p), n) else UNLOCKED
  {
    assert Settled(s.pc[p], s.depth[p]) == Held(s.lock, p) && Settled(s.pc[q], s.depth[q]) == Held(s.lock, q);
    assert (HasLk(s.pc[p]) <==> s.lk == Some(p)) && (HasLk(s.pc[q]) <==> s.lk == Some(q));
  }

  /** Reentrance: a process that holds the reentrant lock never waits for it. */
  lemma OwnerNeverWaits(run: seq<State>, i: nat, p: nat)
    requires Run(Reentrant, run) && i < |run| && p < |run[i].depth| == |run[i].pc| && run[i].depth[p] > 0
    ensures !Waits(run[i].pc[p])
  {
    RunKeepsInv(Reentrant, run, i);
  }

  /** Its call of acquire goes straight to its return, whoever else runs in between. */
  lemma OwnerReenters(run: seq<State>, i: nat, p: nat)
    requires Run(Reentrant, run) && i + 1 < |run| && p < |run[i].depth| == |run[i].pc| && run[i].depth[p] > 0
    requires run[i].pc[p] == Entered
    ensures |run[i + 1].pc| == |run[i].pc| && run[i + 1].pc[p] in {Entered, Leaving(Acquire)}
  {
    RunKeepsInv(Reentrant, run, i);
    var s, t := run[i], run[i + 1];
    assert StepAt(Reentrant, run, i);
    assert Settled(s.pc[p], s.depth[p]) == Held(s.lock, p);
  }

  /** For a process that is in no call, what the lock has down for it is its count of calls:
      acquires minus releases, for both kinds of lock. */
  lemma CallsCount(kind: Kind, run: seq<State>, i: nat, p: nat)
    requires Run(kind, run) && i < |run| && p < |run[i].depth| == |run[i].pc| && run[i].pc[p] == Idle
    ensures run[i].depth[p] == Held(run[i].lock, p)
  {
    RunKeepsInv(kind, run, i);
  }

  /** No lost wakeup: at every moment of every run, if a process is asleep on the lock then
      somebody holds it, or a releaser still owes the wakeup. */
  lemma NoLostWakeup(kind: Kind, run: seq<State>, i: nat, p: nat)
    requires Run(kind, run) && i < |run| && p < |run[i].pc| == |run[i].depth| && run[i].pc[p] == Asleep
    ensures (exists q: nat :: q < |run[i].pc| && Settled(run[i].pc[q], run[i].depth[q]) > 0) || WakeupOwed(run[i])
  {
    RunKeepsInv(kind, run, i);
    var s := run[i];
    if s.lock.locked {
      var q := s.lock.owner.value;
      assert Settled(s.pc[q], s.depth[q]) == Held(s.lock, q) > 0;
    }
  }

  /** When nobody is inside the functions but sleepers, a free lock has none. */
  lemma QuietMeansAwake(kind: Kind, run: seq<State>, i: nat, p: nat)
    requires Run(kind, run) && i < |run| && p < |run[i].pc| && !run[i].lock.locked
    requires forall q :: 0 <= q < |run[i].pc| ==> run[i].pc[q] in {Idle, Asleep}
    ensures run[i].pc[p] == Idle
  {
    RunKeepsInv(kind, run, i);
  }
}
