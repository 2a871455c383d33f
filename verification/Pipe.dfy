/** The pipe of pipe.c as interleaved steps of any number of readers, writers and closers over
    the pipe's spinlock and ptable.lock.  Runs without kill. */
module Pipe {
  import opened Spinlocks
  import opened Wrappers

  const PIPESIZE: nat := 512

  type Buffer = b: seq<Byte> | |b| == 512 witness seq(512, _ => 0)

  /** A call in progress: pipewrite with i bytes stored, piperead with those read so far, or
      pipeclose of the write or read end. */
  datatype Job = Write(src: seq<Byte>, i: nat) | Read(n: nat, got: seq<Byte>) | Close(writable: bool)

  datatype After = ThenSleep | ThenLeave

  datatype Phase =
    | Out                              // in no pipe function
    | Wants(job: Job)                  // wants the pipe's lock, entering or after sleep
    | Looping(job: Job)                // has it: at the test of its while loop
    | Copying(job: Job)                // a reader past its while loop
    | Calling(job: Job, after: After)  // in wakeup: wants ptable.lock
    | Waking(job: Job, after: After)   // has both
    | Queueing(job: Job)               // in sleep: wants ptable.lock
    | Queued(job: Job)                 // has both
    | Dozing(job: Job)                 // has ptable.lock only
    | Asleep(job: Job)                 // SLEEPING on &nwrite or &nread
    | Woken(job: Job)                  // RUNNABLE
    | Resuming(job: Job)               // has ptable.lock
    | Leaving(job: Job, ret: int)      // has the pipe's lock, about to return ret

  /** struct pipe, the two locks, the processes, and two ghost histories: the bytes stored and
      the bytes read, in order. */
  datatype State = State(data: Buffer, nread: nat, nwrite: nat, readopen: bool, writeopen: bool,
                         lk: Option<nat>, pt: Holder, ph: seq<Phase>, sent: seq<Byte>, received: seq<Byte>)

  function At(s: State, p: nat, ph: Phase): State
    requires p < |s.ph|
  {
    s.(ph := s.ph[p := ph])
  }

  /** pipewrite holding the lock: the for loop's test, the full test, one byte stored. */
  function WriteOn(s: State, p: nat, job: Job): State
    requires p < |s.ph| && job.Write?
  {
    if job.i >= |job.src| then At(s, p, Calling(job, ThenLeave))
    else if s.nwrite == (s.nread + PIPESIZE) % TWO_32 then
      if !s.readopen then At(s, p, Leaving(job, -1)) else At(s, p, Calling(job, ThenSleep))
    else
      At(s.(data := s.data[s.nwrite % PIPESIZE := job.src[job.i]], nwrite := (s.nwrite + 1) % TWO_32, sent := s.sent + [job.src[job.i]]),
         p, Looping(Write(job.src, job.i + 1)))
  }

  /** piperead's while loop. */
  function ReadWait(s: State, p: nat, job: Job): State
    requires p < |s.ph|
  {
    if s.nread == s.nwrite && s.writeopen then At(s, p, Queueing(job)) else At(s, p, Copying(job))
  }

  /** piperead's for loop. */
  function ReadOn(s: State, p: nat, job: Job): State
    requires p < |s.ph| && job.Read?
  {
    if |job.got| >= job.n || s.nread == s.nwrite then At(s, p, Calling(job, ThenLeave))
    else
      var c := s.data[s.nread % PIPESIZE];
      At(s.(nread := (s.nread + 1) % TWO_32, received := s.received + [c]), p, Copying(Read(job.n, job.got + [c])))
  }

  /** pipeclose's body up to wakeup. */
  function CloseEnd(s: State, p: nat, job: Job): State
    requires p < |s.ph| && job.Close?
  {
    At(if job.writable then s.(writeopen := false) else s.(readopen := false), p, Calling(job, ThenLeave))
  }

  /** What a call that came to its end returns. */
  function Answer(job: Job): int {
    match job
    case Write(src, _) => |src|
    case Read(_, got) => |got|
    case Close(_) => 0
  }

  /** The calls that a job's wakeup is for: wakeup(&nread) is for readers. */
  predicate Wakes(job: Job, sleeper: Job) {
    match job
    case Write(_, _) => sleeper.Read?
    case Read(_, _) => sleeper.Write?
    case Close(w) => if w then sleeper.Read? else sleeper.Write?
  }

  function WakeAll(ph: seq<Phase>, job: Job): (r: seq<Phase>)
    ensures |r| == |ph|
    ensures forall q {:trigger r[q]} :: 0 <= q < |ph| ==> r[q] == if ph[q].Asleep? && Wakes(job, ph[q].job) then Woken(ph[q].job) else ph[q]
  {
    seq(|ph|, q requires 0 <= q < |ph| => if ph[q].Asleep? && Wakes(job, ph[q].job) then Woken(ph[q].job) else ph[q])
  }

  /** Who may start what: reads and writes need their end open; an end is closed once, when
      nobody is inside a call on it. */
  ghost predicate MayStart(s: State, job: Job) {
    match job
    case Write(src, i) => s.writeopen && i == 0 && !Inside(s, Close(true))
    case Read(n, got) => s.readopen && got == [] && !Inside(s, Close(false))
    case Close(w) => (if w then s.writeopen && !Writing(s) else s.readopen && !Reading(s)) && !Inside(s, Close(w))
  }

  ghost predicate Inside(s: State, job: Job) {
    exists p: nat {:trigger s.ph[p]} :: p < |s.ph| && HasJob(s.ph[p]) && s.ph[p].job == job
  }

  ghost predicate Writing(s: State) {
    exists p: nat {:trigger s.ph[p]} :: p < |s.ph| && HasJob(s.ph[p]) && s.ph[p].job.Write?
  }

  ghost predicate Reading(s: State) {
    exists p: nat {:trigger s.ph[p]} :: p < |s.ph| && HasJob(s.ph[p]) && s.ph[p].job.Read?
  }

  predicate HasJob(ph: Phase) {
    !ph.Out? && !ph.Leaving?
  }

  /** One step of process p. */
  ghost predicate StepOf(s: State, t: State, p: nat)
    requires p < |s.ph|
  {
    match s.ph[p]
    case Out => exists job :: MayStart(s, job) && t == At(s, p, Wants(job))
    case Wants(job) => s.lk == None && t == At(s.(lk := Some(p)), p, Looping(job))
    case Looping(job) =>
      t == if job.Write? then WriteOn(s, p, job) else if job.Read? then ReadWait(s, p, job) else CloseEnd(s, p, job)
    case Copying(job) => job.Read? && t == ReadOn(s, p, job)
    case Calling(job, after) => s.pt == Nobody && t == At(s.(pt := By(p)), p, Waking(job, after))
    case Waking(job, after) =>
      t == s.(pt := Nobody, ph := WakeAll(s.ph, job)[p := if after.ThenSleep? then Queueing(job) else Leaving(job, Answer(job))])
    case Queueing(job) => s.pt == Nobody && t == At(s.(pt := By(p)), p, Queued(job))
    case Queued(job) => t == At(s.(lk := None), p, Dozing(job))
    case Dozing(job) => t == At(s.(pt := Nobody), p, Asleep(job))
    case Asleep(job) => false
    case Woken(job) => s.pt == Nobody && t == At(s.(pt := By(p)), p, Resuming(job))
    case Resuming(job) => t == At(s.(pt := Nobody), p, Wants(job))
    case Leaving(job, ret) => t == At(s.(lk := None), p, Out)
  }

  ghost predicate StepElsewhere(s: State, t: State) {
    (s.pt == Nobody && t == s.(pt := Other)) || (s.pt == Other && t == s.(pt := Nobody))
  }

  ghost predicate Step(s: State, t: State) {
    StepElsewhere(s, t) || exists p: nat :: p < |s.ph| && StepOf(s, t, p)
  }

  /** What pipealloc makes. */
  ghost predicate Init(s: State) {
    && s.nread == s.nwrite == 0 && s.readopen && s.writeopen && s.lk == None && s.pt == Nobody
    && s.sent == s.received == [] && forall p :: 0 <= p < |s.ph| ==> s.ph[p] == Out
  }

  ghost predicate Run(run: seq<State>) {
    && |run| > 0 && Init(run[0])
    && forall i {:trigger StepAt(run, i)} :: 0 <= i < |run| - 1 ==> StepAt(run, i)
  }

  ghost predicate StepAt(run: seq<State>, i: nat)
    requires i + 1 < |run|
  {
    Step(run[i], run[i + 1])
  }

  // ---- the data ------------------------------------------------------------------------

  /** The counters count modulo 2^32, and the buffer holds exactly what was sent and not yet
      received. */
  ghost predicate Queue(s: State) {
    && |s.received| <= |s.sent| <= |s.received| + PIPESIZE
    && s.nread == |s.received| % TWO_32 && s.nwrite == |s.sent| % TWO_32
    && s.received == s.sent[..|s.received|]
    && Holds(s)
  }

  ghost predicate Holds(s: State) {
    forall k {:trigger s.sent[k]} :: |s.received| <= k < |s.sent| ==> s.data[k % PIPESIZE] == s.sent[k]
  }

  predicate Empty(s: State) {
    |s.received| == |s.sent|
  }

  predicate Full(s: State) {
    |s.sent| == |s.received| + PIPESIZE
  }

  /** The two tests on the wrapping counters say what they mean. */
  lemma Tests(s: State)
    requires Queue(s)
    ensures s.nread == s.nwrite <==> Empty(s)
    ensures s.nwrite == (s.nread + PIPESIZE) % TWO_32 <==> Full(s)
  {
    var d := |s.sent| - |s.received|;
    Wrap(|s.received|, d);
    Wrap(|s.received|, PIPESIZE);
  }

  lemma Wrap(a: nat, d: nat)
    requires d <= PIPESIZE
    ensures (a + d) % TWO_32 == (a % TWO_32 + d) % TWO_32
    ensures (a + d) % TWO_32 == a % TWO_32 + d || (a + d) % TWO_32 == a % TWO_32 + d - TWO_32
  {
  }

  /** The index into the buffer is that of the unwrapped counter: 512 divides 2^32. */
  lemma Slot(a: nat)
    ensures a % TWO_32 % PIPESIZE == a % PIPESIZE
  {
    var q, m := a / TWO_32, a % TWO_32;
    Remainder(a, 0x80_0000 * q + m / PIPESIZE, m % PIPESIZE);
  }

  lemma Remainder(a: nat, k: nat, r: nat)
    requires a == PIPESIZE * k + r && r < PIPESIZE
    ensures a % PIPESIZE == r
  {
  }

  lemma WriteKeepsQueue(s: State, p: nat, job: Job)
    requires Queue(s) && p < |s.ph| && job.Write?
    ensures Queue(WriteOn(s, p, job))
  {
    var t := WriteOn(s, p, job);
    Tests(s);
    if t.sent != s.sent {
      Slot(|s.sent|);
      Wrap(|s.sent|, 1);
      forall k {:trigger t.sent[k]} | |t.received| <= k < |t.sent| ensures t.data[k % PIPESIZE] == t.sent[k] {
        if k < |s.sent| {
          Apart(k, |s.sent|);
          assert t.sent[k] == s.sent[k];
        }
      }
    }
  }

  /** Two positions less than PIPESIZE apart lie in different slots. */
  lemma Apart(a: nat, b: nat)
    requires a < b < a + PIPESIZE
    ensures a % PIPESIZE != b % PIPESIZE
  {
  }

  lemma ReadKeepsQueue(s: State, p: nat, job: Job)
    requires Queue(s) && p < |s.ph| && job.Read?
    ensures Queue(ReadOn(s, p, job))
  {
    var t := ReadOn(s, p, job);
    Tests(s);
    if t.received != s.received {
      Slot(|s.received|);
      Wrap(|s.received|, 1);
      assert s.data[|s.received| % PIPESIZE] == s.sent[|s.received|];
      assert t.received == s.sent[..|s.received| + 1];
    }
  }

  // ---- the locks and the sleepers ----------------------------------------------------------

  predicate HasLk(ph: Phase) {
    ph.Looping? || ph.Copying? || ph.Calling? || ph.Waking? || ph.Queueing? || ph.Queued? || ph.Leaving?
  }

  predicate HasPt(ph: Phase) {
    ph.Waking? || ph.Queued? || ph.Dozing? || ph.Resuming?
  }

  predicate Down(ph: Phase) {
    ph.Dozing? || ph.Asleep?
  }

  /** The holder of the pipe's lock is about to wake readers: it is storing bytes, or it is
      already in wakeup(&nread). */
  predicate OwesReaders(ph: Phase) {
    || (ph.Looping? && ph.job.Write?)
    || ((ph.Calling? || ph.Waking?) && (ph.job.Write? || ph.job == Close(true)))
  }

  predicate OwesWriters(ph: Phase) {
    || ph.Copying?
    || ((ph.Calling? || ph.Waking?) && (ph.job.Read? || ph.job == Close(false)))
  }

  ghost predicate ReadersOwed(s: State) {
    exists q: nat {:trigger s.ph[q]} :: q < |s.ph| && OwesReaders(s.ph[q])
  }

  ghost predicate WritersOwed(s: State) {
    exists q: nat {:trigger s.ph[q]} :: q < |s.ph| && OwesWriters(s.ph[q])
  }

  ghost predicate Locks(s: State) {
    forall p {:trigger s.ph[p]} :: 0 <= p < |s.ph| ==>
      (HasLk(s.ph[p]) <==> s.lk == Some(p)) && (HasPt(s.ph[p]) <==> s.pt == By(p))
  }

  /** Only readers copy; closers never sleep; a closed end has nobody on it. */
  ghost predicate Jobs(s: State) {
    && (forall p {:trigger s.ph[p]} :: 0 <= p < |s.ph| ==> JobOk(s.ph[p]))
    && (forall p {:trigger s.ph[p]} :: 0 <= p < |s.ph| && HasJob(s.ph[p]) ==>
          (s.ph[p].job.Read? ==> s.readopen) && (s.ph[p].job.Write? ==> s.writeopen))
    && (forall p, q {:trigger s.ph[p], s.ph[q]} ::
          0 <= p < |s.ph| && 0 <= q < |s.ph| && HasJob(s.ph[p]) && HasJob(s.ph[q]) && s.ph[p].job.Close?
          ==> !(if s.ph[p].job.writable then s.ph[q].job.Write? else s.ph[q].job.Read?))
  }

  predicate JobOk(ph: Phase) {
    && (ph.Copying? ==> ph.job.Read?)
    && (ph.Queueing? || ph.Queued? || ph.Dozing? || ph.Asleep? || ph.Woken? || ph.Resuming? ==> !ph.job.Close?)
    && ((ph.Calling? || ph.Waking?) && ph.after.ThenSleep? ==> ph.job.Write?)
  }

  ghost predicate Sleepers(s: State) {
    forall p {:trigger s.ph[p]} :: 0 <= p < |s.ph| ==> SleepOk(s, s.ph[p])
  }

  /** Why a process may go to sleep, or be asleep. */
  ghost predicate SleepOk(s: State, ph: Phase) {
    && (ph.Queueing? || ph.Queued? ==> if ph.job.Read? then Empty(s) && s.writeopen else Full(s) && s.readopen)
    && ((ph.Calling? || ph.Waking?) && ph.after.ThenSleep? ==> Full(s) && s.readopen)
    && (Down(ph) && ph.job.Read? ==> (Empty(s) && s.writeopen) || ReadersOwed(s))
    && (Down(ph) && ph.job.Write? ==> (Full(s) && s.readopen) || WritersOwed(s))
  }

  ghost predicate Inv(s: State) {
    Queue(s) && Locks(s) && Jobs(s) && Sleepers(s)
  }

  /** Only p moved. */
  ghost predicate OnlyMoved(s: State, t: State, p: nat) {
    |t.ph| == |s.ph| && p < |s.ph| && forall q {:trigger t.ph[q]} {:trigger s.ph[q]} :: 0 <= q < |t.ph| && q != p ==> t.ph[q] == s.ph[q]
  }

  lemma OwedStays(s: State, t: State, p: nat)
    requires OnlyMoved(s, t, p)
    ensures ReadersOwed(s) && !OwesReaders(s.ph[p]) ==> ReadersOwed(t)
    ensures WritersOwed(s) && !OwesWriters(s.ph[p]) ==> WritersOwed(t)
    ensures OwesReaders(t.ph[p]) ==> ReadersOwed(t)
    ensures OwesWriters(t.ph[p]) ==> WritersOwed(t)
  {
    if ReadersOwed(s) && !OwesReaders(s.ph[p]) {
      var q: nat :| q < |s.ph| && OwesReaders(s.ph[q]);
      assert t.ph[q] == s.ph[q];
    }
    if WritersOwed(s) && !OwesWriters(s.ph[p]) {
      var q: nat :| q < |s.ph| && OwesWriters(s.ph[q]);
      assert t.ph[q] == s.ph[q];
    }
  }

  /** Whoever owes a wakeup has the pipe's lock, so it is the one that has the lock. */
  lemma OwerHasLock(s: State, p: nat)
    requires Locks(s) && p < |s.ph| && s.lk == Some(p)
    ensures ReadersOwed(s) ==> OwesReaders(s.ph[p])
    ensures WritersOwed(s) ==> OwesWriters(s.ph[p])
  {
    if ReadersOwed(s) {
      var q: nat :| q < |s.ph| && OwesReaders(s.ph[q]);
    }
    if WritersOwed(s) {
      var q: nat :| q < |s.ph| && OwesWriters(s.ph[q]);
    }
  }

  lemma StartKeepsInv(s: State, t: State, p: nat, job: Job)
    requires Inv(s) && p < |s.ph| && s.ph[p].Out? && MayStart(s, job) && t == At(s, p, Wants(job))
    ensures Inv(t)
  {
    assert OnlyMoved(s, t, p);
    OwedStays(s, t, p);
    StartKeepsJobs(s, t, p, job);
  }

  lemma StartKeepsJobs(s: State, t: State, p: nat, job: Job)
    requires Jobs(s) && p < |s.ph| && s.ph[p].Out? && MayStart(s, job) && t == At(s, p, Wants(job))
    ensures Jobs(t)
  {
    assert OnlyMoved(s, t, p);
  }

  lemma SameQueue(s: State, t: State)
    requires Queue(s) && t.data == s.data && t.nread == s.nread && t.nwrite == s.nwrite && t.sent == s.sent && t.received == s.received
    ensures Queue(t)
  {
  }

  lemma SameJobs(s: State, t: State, p: nat)
    requires Jobs(s) && OnlyMoved(s, t, p) && t.readopen == s.readopen && t.writeopen == s.writeopen && JobOk(t.ph[p])
    requires HasJob(t.ph[p]) ==> HasJob(s.ph[p]) && t.ph[p].job == s.ph[p].job
    ensures Jobs(t)
  {
  }

  /** The steps that move locks but not the pipe. */
  lemma MoveKeepsInv(s: State, t: State, p: nat)
    requires Inv(s) && p < |s.ph| && StepOf(s, t, p)
    requires var ph := s.ph[p]; !ph.Out? && !ph.Looping? && !ph.Copying? && !ph.Waking?
    ensures Inv(t)
  {
    hide StepOf, Queue, Locks, Jobs, Sleepers, OnlyMoved;
    MovedOnly(s, t, p);
    MovedJobs(s, t, p);
    MoveKeepsLocks(s, t, p);
    MoveKeepsSleepers(s, t, p);
  }

  lemma MovedOnly(s: State, t: State, p: nat)
    requires Queue(s) && p < |s.ph| && StepOf(s, t, p)
    requires var ph := s.ph[p]; !ph.Out? && !ph.Looping? && !ph.Copying? && !ph.Waking?
    ensures OnlyMoved(s, t, p) && Queue(t)
  {
    SameQueue(s, t);
  }

  lemma MovedJobs(s: State, t: State, p: nat)
    requires Jobs(s) && p < |s.ph| && StepOf(s, t, p) && OnlyMoved(s, t, p)
    requires var ph := s.ph[p]; !ph.Out? && !ph.Looping? && !ph.Copying? && !ph.Waking?
    ensures Jobs(t)
  {
    SameJobs(s, t, p);
  }

  lemma MoveKeepsLocks(s: State, t: State, p: nat)
    requires Locks(s) && p < |s.ph| && StepOf(s, t, p) && OnlyMoved(s, t, p)
    requires var ph := s.ph[p]; !ph.Out? && !ph.Looping? && !ph.Copying? && !ph.Waking?
    ensures Locks(t)
  {
  }

  lemma MoveKeepsSleepers(s: State, t: State, p: nat)
    requires Locks(s) && Jobs(s) && Sleepers(s) && p < |s.ph| && StepOf(s, t, p) && OnlyMoved(s, t, p)
    requires var ph := s.ph[p]; !ph.Out? && !ph.Looping? && !ph.Copying? && !ph.Waking?
    ensures Sleepers(t)
  {
    OwedStays(s, t, p);
    MovedOwes(s, t, p);
    MovedSleepOk(s, t, p);
    SleepersKept(s, t, p);
  }

  lemma MovedOwes(s: State, t: State, p: nat)
    requires Jobs(s) && p < |s.ph| && StepOf(s, t, p) && OnlyMoved(s, t, p)
    requires var ph := s.ph[p]; !ph.Out? && !ph.Looping? && !ph.Copying? && !ph.Waking?
    ensures OwesReaders(s.ph[p]) ==> OwesReaders(t.ph[p])
    ensures OwesWriters(s.ph[p]) ==> OwesWriters(t.ph[p])
    ensures t.sent == s.sent && t.received == s.received && t.readopen == s.readopen && t.writeopen == s.writeopen
  {
  }

  lemma MovedSleepOk(s: State, t: State, p: nat)
    requires Jobs(s) && Sleepers(s) && p < |s.ph| && StepOf(s, t, p) && OnlyMoved(s, t, p)
    requires var ph := s.ph[p]; !ph.Out? && !ph.Looping? && !ph.Copying? && !ph.Waking?
    requires (ReadersOwed(s) ==> ReadersOwed(t)) && (WritersOwed(s) ==> WritersOwed(t))
    ensures SleepOk(t, t.ph[p])
  {
    hide ReadersOwed, WritersOwed, OnlyMoved;
    assert SleepOk(s, s.ph[p]);
  }

  lemma SleepersKept(s: State, t: State, p: nat)
    requires Sleepers(s) && OnlyMoved(s, t, p) && SleepOk(t, t.ph[p])
    requires t.sent == s.sent && t.received == s.received && t.readopen == s.readopen && t.writeopen == s.writeopen
    requires (ReadersOwed(s) ==> ReadersOwed(t)) && (WritersOwed(s) ==> WritersOwed(t))
    ensures Sleepers(t)
  {
    forall q | 0 <= q < |t.ph| ensures SleepOk(t, t.ph[q]) {
      if q != p {
        assert t.ph[q] == s.ph[q] && SleepOk(s, s.ph[q]);
      }
    }
  }

  lemma WakeKeepsInv(s: State, t: State, p: nat)
    requires Inv(s) && p < |s.ph| && s.ph[p].Waking? && StepOf(s, t, p)
    ensures Inv(t)
  {
    OwerHasLock(s, p);
    SameQueue(s, t);
    hide Queue;
    forall q {:trigger t.ph[q]} | 0 <= q < |t.ph| && q != p
      ensures t.ph[q] == s.ph[q] || (s.ph[q].Asleep? && t.ph[q] == Woken(s.ph[q].job))
      ensures Down(t.ph[q]) ==> s.ph[q].Asleep? && t.ph[q] == s.ph[q] && !Wakes(s.ph[p].job, s.ph[q].job)
    {
    }
  }

  lemma WriteKeepsInv(s: State, t: State, p: nat)
    requires Inv(s) && p < |s.ph| && s.ph[p].Looping? && s.ph[p].job.Write? && t == WriteOn(s, p, s.ph[p].job)
    ensures Inv(t)
  {
    assert OnlyMoved(s, t, p);
    OwedStays(s, t, p);
    OwerHasLock(s, p);
    Tests(s);
    WriteKeepsQueue(s, p, s.ph[p].job);
    hide Queue, ReadersOwed, WritersOwed;
  }

  lemma ReadKeepsInv(s: State, t: State, p: nat)
    requires Inv(s) && p < |s.ph| && s.ph[p].Copying? && s.ph[p].job.Read? && t == ReadOn(s, p, s.ph[p].job)
    ensures Inv(t)
  {
    assert OnlyMoved(s, t, p);
    OwedStays(s, t, p);
    OwerHasLock(s, p);
    Tests(s);
    ReadKeepsQueue(s, p, s.ph[p].job);
    hide Queue, ReadersOwed, WritersOwed;
  }

  lemma TestKeepsInv(s: State, t: State, p: nat)
    requires Inv(s) && p < |s.ph| && s.ph[p].Looping?
    requires if s.ph[p].job.Read? then t == ReadWait(s, p, s.ph[p].job) else s.ph[p].job.Close? && t == CloseEnd(s, p, s.ph[p].job)
    ensures Inv(t)
  {
    assert OnlyMoved(s, t, p);
    OwedStays(s, t, p);
    OwerHasLock(s, p);
    Tests(s);
    SameQueue(s, t);
    hide Queue, ReadersOwed, WritersOwed;
  }

  lemma StepKeepsInv(s: State, t: State)
    requires Inv(s) && Step(s, t)
    ensures Inv(t)
  {
    if StepElsewhere(s, t) {
      SamePhases(s, t);
    } else {
      var p: nat :| p < |s.ph| && StepOf(s, t, p);
      match s.ph[p] {
        case Out =>
          var job :| MayStart(s, job) && t == At(s, p, Wants(job));
          StartKeepsInv(s, t, p, job);
        case Looping(job) =>
          if job.Write? { WriteKeepsInv(s, t, p); } else { TestKeepsInv(s, t, p); }
        case Copying(job) => ReadKeepsInv(s, t, p);
        case Waking(job, after) => WakeKeepsInv(s, t, p);
        case _ => MoveKeepsInv(s, t, p);
      }
    }
  }

  lemma SamePhases(s: State, t: State)
    requires Inv(s) && StepElsewhere(s, t)
    ensures Inv(t)
  {
    SameQueue(s, t);
    assert Locks(t);
    assert Jobs(t);
    SameSleepers(s, t);
  }

  lemma SameSleepers(s: State, t: State)
    requires Sleepers(s) && t.ph == s.ph && t.sent == s.sent && t.received == s.received
    requires t.readopen == s.readopen && t.writeopen == s.writeopen
    ensures Sleepers(t)
  {
    if ReadersOwed(s) {
      var q: nat :| q < |s.ph| && OwesReaders(s.ph[q]);
      assert OwesReaders(t.ph[q]);
    }
    if WritersOwed(s) {
      var q: nat :| q < |s.ph| && OwesWriters(s.ph[q]);
      assert OwesWriters(t.ph[q]);
    }
  }

  lemma {:induction false} RunKeepsInv(run: seq<State>, i: nat)
    requires Run(run) && i < |run|
    ensures Inv(run[i])
  {
    if i > 0 {
      RunKeepsInv(run, i - 1);
      assert StepAt(run, i - 1);
      StepKeepsInv(run[i - 1], run[i]);
    }
  }

  // ---- what a call returns -------------------------------------------------------------------

  predicate Reads(ph: Phase) {
    ph.Copying? || ph.Calling? || ph.Waking? || ph.Leaving?
  }

  predicate Ending(ph: Phase) {
    ((ph.Calling? || ph.Waking?) && ph.after.ThenLeave?) || ph.Leaving?
  }

  ghost predicate Calls(s: State) {
    forall p {:trigger s.ph[p]} :: 0 <= p < |s.ph| ==> CallOk(s, s.ph[p])
  }

  ghost predicate CallOk(s: State, ph: Phase) {
    !ph.Out? ==>
      match ph.job
      case Write(src, i) => WriteOk(s, ph, src, i)
      case Read(n, got) => GotOk(s, got) && (Reads(ph) || got == []) && ReadOk(s, ph, n, got)
      case Close(w) => ph.Wants? || ph.Looping? || (if w then !s.writeopen else !s.readopen)
  }

  /** A pipewrite ends with everything stored, or fails because nobody can read any more. */
  ghost predicate WriteOk(s: State, ph: Phase, src: seq<Byte>, i: nat)
    requires !ph.Out?
  {
    && i <= |src|
    && ((ph.Calling? || ph.Waking?) ==> (ph.after.ThenLeave? <==> i == |src|))
    && (ph.Leaving? ==> if i == |src| then ph.ret == |src| else ph.ret == -1 && !s.readopen)
  }

  /** A piperead ends with what it was asked for or with the pipe empty, and with nothing only
      when nobody can write any more. */
  ghost predicate ReadOk(s: State, ph: Phase, n: nat, got: seq<Byte>)
    requires !ph.Out?
  {
    && |got| <= n
    && (ph.Copying? && got == [] ==> !Empty(s) || !s.writeopen)
    && (Ending(ph) ==> (|got| == n || Empty(s)) && (got == [] && n > 0 ==> !s.writeopen))
    && (ph.Leaving? ==> ph.ret == |got|)
  }

  /** What a piperead in progress has put into its buffer is the end of what was received, in
      one piece: it copies without letting go of the lock. */
  predicate GotOk(s: State, got: seq<Byte>) {
    |got| <= |s.received| && s.received[|s.received| - |got|..] == got
  }

  lemma StepKeepsCalls(s: State, t: State)
    requires Inv(s) && Calls(s) && Step(s, t)
    ensures Calls(t)
  {
    StepSameLength(s, t);
    hide Inv, Step, CallOk;
    forall q: nat | q < |t.ph| ensures CallOk(t, t.ph[q]) {
      assert CallOk(s, s.ph[q]);
      StepCall(s, t, q);
    }
  }

  lemma StepSameLength(s: State, t: State)
    requires Step(s, t)
    ensures |t.ph| == |s.ph|
  {
    hide StepOf;
    if !StepElsewhere(s, t) {
      var p: nat :| p < |s.ph| && StepOf(s, t, p);
      SameLength(s, t, p);
    }
  }

  lemma SameLength(s: State, t: State, p: nat)
    requires p < |s.ph| && StepOf(s, t, p)
    ensures |t.ph| == |s.ph|
  {
  }

  lemma StepCall(s: State, t: State, q: nat)
    requires Inv(s) && Step(s, t) && q < |s.ph| == |t.ph| && CallOk(s, s.ph[q])
    ensures CallOk(t, t.ph[q])
  {
    hide Queue, Jobs, Sleepers, Locks, CallOk, StepOf;
    if StepElsewhere(s, t) {
      ElsewhereCall(s, t, q);
    } else {
      var p: nat :| p < |s.ph| && StepOf(s, t, p);
      if q != p {
        OtherCall(s, t, p, q);
      } else {
        OwnCall(s, t, p);
      }
    }
  }

  lemma ElsewhereCall(s: State, t: State, q: nat)
    requires StepElsewhere(s, t) && q < |s.ph| && CallOk(s, s.ph[q])
    ensures CallOk(t, t.ph[q])
  {
  }

  lemma NothingGot(s: State)
    ensures GotOk(s, [])
  {
    var got: seq<Byte> := [];
    assert |s.received[|s.received| - |got|..]| == 0;
  }

  lemma OwnCall(s: State, t: State, p: nat)
    requires Inv(s) && p < |s.ph| == |t.ph| && StepOf(s, t, p) && CallOk(s, s.ph[p])
    ensures CallOk(t, t.ph[p])
  {
    match s.ph[p] {
      case Out => NothingGot(t);
      case Copying(job) => CopyCall(s, t, p, job);
      case Looping(job) => LoopCall(s, t, p, job);
      case Leaving(_, _) =>
      case _ => MoveCall(s, t, p);
    }
  }

  lemma CopyCall(s: State, t: State, p: nat, job: Job)
    requires Queue(s) && p < |s.ph| == |t.ph| && s.ph[p] == Copying(job) && StepOf(s, t, p) && CallOk(s, s.ph[p])
    ensures CallOk(t, t.ph[p])
  {
    Tests(s);
    CopyStep(s, t, p, job);
    hide Queue, StepOf, CallOk, Empty;
    if t.received != s.received {
      CopiedOne(s, t, job, t.received[|s.received|]);
    } else {
      CopyingEnds(s, t, job);
    }
  }

  lemma CopiedOne(s: State, t: State, job: Job, c: Byte)
    requires job.Read? && CallOk(s, Copying(job)) && |job.got| < job.n && t.received == s.received + [c]
    ensures CallOk(t, Copying(Read(job.n, job.got + [c])))
  {
    GotMore(s, t, job.got, c);
  }

  lemma CopyingEnds(s: State, t: State, job: Job)
    requires job.Read? && CallOk(s, Copying(job)) && t.received == s.received && t.sent == s.sent && t.writeopen == s.writeopen
    requires |job.got| >= job.n || Empty(s)
    ensures CallOk(t, Calling(job, ThenLeave))
  {
  }

  lemma CopyStep(s: State, t: State, p: nat, job: Job)
    requires p < |s.ph| == |t.ph| && s.ph[p] == Copying(job) && StepOf(s, t, p) && job.Read?
    requires s.nread == s.nwrite <==> Empty(s)
    ensures t.writeopen == s.writeopen
    ensures t.received != s.received ==>
              && |t.received| == |s.received| + 1 && t.received == s.received + [t.received[|s.received|]] && |job.got| < job.n
              && t.ph[p] == Copying(Read(job.n, job.got + [t.received[|s.received|]]))
    ensures t.received == s.received ==>
              t.ph[p] == Calling(job, ThenLeave) && (|job.got| >= job.n || Empty(s)) && t.sent == s.sent
  {
  }

  lemma GotMore(s: State, t: State, got: seq<Byte>, c: Byte)
    requires GotOk(s, got) && t.received == s.received + [c]
    ensures GotOk(t, got + [c])
  {
    assert t.received[|t.received| - |got| - 1..] == s.received[|s.received| - |got|..] + [c];
  }

  lemma LoopCall(s: State, t: State, p: nat, job: Job)
    requires Inv(s) && p < |s.ph| == |t.ph| && s.ph[p] == Looping(job) && StepOf(s, t, p) && CallOk(s, s.ph[p])
    ensures CallOk(t, t.ph[p])
  {
    Tests(s);
    hide Queue, Jobs, Sleepers, Locks;
  }

  /** The steps that move locks and no bytes. */
  predicate Moving(ph: Phase) {
    !ph.Out? && !ph.Copying? && !ph.Looping? && !ph.Leaving?
  }

  lemma MovesNoByte(s: State, t: State, p: nat)
    requires p < |s.ph| == |t.ph| && StepOf(s, t, p) && Moving(s.ph[p])
    ensures t.received == s.received && t.sent == s.sent && t.readopen == s.readopen && t.writeopen == s.writeopen
  {
  }

  /** They bring a call to its end only from the wakeup that it ends with. */
  lemma MovesOn(s: State, t: State, p: nat)
    requires p < |s.ph| == |t.ph| && StepOf(s, t, p) && Moving(s.ph[p])
    ensures !t.ph[p].Out? && !t.ph[p].Copying? && t.ph[p].job == s.ph[p].job && (s.ph[p].Wants? ==> t.ph[p].Looping?)
    ensures t.ph[p].Calling? || t.ph[p].Waking? ==> s.ph[p].Calling? && t.ph[p].after == s.ph[p].after
    ensures t.ph[p].Leaving? ==> s.ph[p].Waking? && s.ph[p].after.ThenLeave? && t.ph[p].ret == Answer(s.ph[p].job)
    ensures Reads(t.ph[p]) || (JobOk(s.ph[p]) && s.ph[p].job.Read? ==> !Reads(s.ph[p]))
  {
  }

  lemma MoveCall(s: State, t: State, p: nat)
    requires p < |s.ph| == |t.ph| && StepOf(s, t, p) && CallOk(s, s.ph[p]) && Moving(s.ph[p])
    requires JobOk(s.ph[p])
    ensures CallOk(t, t.ph[p])
  {
    hide StepOf, JobOk;
    MovesNoByte(s, t, p);
    MovesOn(s, t, p);
  }

  lemma OtherStays(s: State, t: State, p: nat, q: nat)
    requires p < |s.ph| && q < |s.ph| == |t.ph| && p != q && StepOf(s, t, p)
    ensures t.ph[q] == s.ph[q] || (s.ph[q].Asleep? && t.ph[q] == Woken(s.ph[q].job))
    ensures (t.readopen ==> s.readopen) && (t.writeopen ==> s.writeopen)
  {
  }

  /** Bytes move with the lock held. */
  lemma MovesLocked(s: State, t: State, p: nat)
    requires p < |s.ph| && StepOf(s, t, p) && (t.received != s.received || t.sent != s.sent)
    ensures HasLk(s.ph[p])
  {
  }

  lemma OneLock(s: State, p: nat, q: nat)
    requires Locks(s) && p < |s.ph| && q < |s.ph| && p != q
    ensures !(HasLk(s.ph[p]) && HasLk(s.ph[q]))
  {
    assert HasLk(s.ph[p]) <==> s.lk == Some(p);
    assert HasLk(s.ph[q]) <==> s.lk == Some(q);
  }

  lemma OtherCall(s: State, t: State, p: nat, q: nat)
    requires Locks(s) && p < |s.ph| && q < |s.ph| == |t.ph| && p != q && StepOf(s, t, p) && CallOk(s, s.ph[q])
    ensures CallOk(t, t.ph[q])
  {
    OtherStays(s, t, p, q);
    OneLock(s, p, q);
    if t.received != s.received || t.sent != s.sent {
      MovesLocked(s, t, p);
    }
    hide StepOf, Locks, CallOk;
    OthersCall(s, t, s.ph[q], t.ph[q]);
  }

  /** The pipe may change under a call that has not got the lock, and an end may be closed. */
  lemma OthersCall(s: State, t: State, ph: Phase, ph': Phase)
    requires CallOk(s, ph) && (ph' == ph || (ph.Asleep? && ph' == Woken(ph.job)))
    requires (t.readopen ==> s.readopen) && (t.writeopen ==> s.writeopen)
    requires HasLk(ph) ==> t.received == s.received && t.sent == s.sent
    ensures CallOk(t, ph')
  {
    NothingGot(t);
  }

  lemma {:induction false} RunKeepsCalls(run: seq<State>, i: nat)
    requires Run(run) && i < |run|
    ensures Calls(run[i])
  {
    hide Step, Inv, CallOk;
    if i > 0 {
      RunKeepsCalls(run, i - 1);
      RunKeepsInv(run, i - 1);
      assert StepAt(run, i - 1);
      StepKeepsCalls(run[i - 1], run[i]);
    } else {
      StartsOut(run);
    }
  }

  lemma StartsOut(run: seq<State>)
    requires Run(run)
    ensures Calls(run[0])
  {
  }

  // ---- whose bytes they are ---------------------------------------------------------------------

  datatype End = WriteEnd | ReadEnd

  /** The bytes that have gone through an end of the pipe. */
  function Stream(s: State, e: End): seq<Byte> {
    if e == WriteEnd then s.sent else s.received
  }

  /** The bytes that a call in progress has put through an end so far: of pipewrite's buffer
      the first i, of piperead's what it has filled in. */
  function Current(ph: Phase, e: End): seq<Byte> {
    if ph.Out? then []
    else match ph.job
      case Write(src, i) => if e == WriteEnd && i <= |src| then src[..i] else []
      case Read(_, got) => if e == ReadEnd then got else []
      case Close(_) => []
  }

  /** What a call has put through an end according to its return value: a pipewrite that did
      not fail its whole buffer, a piperead the bytes that it returns. */
  function Gave(job: Job, ret: int, e: End): seq<Byte> {
    match job
    case Write(src, i) => if e == ReadEnd then [] else if ret >= 0 then src else Current(Leaving(job, ret), e)
    case Read(_, got) => if e == ReadEnd && 0 <= ret <= |got| then got[..ret] else []
    case Close(_) => []
  }

  /** What the call of p that returns in this step gave. */
  function Returns(s: State, t: State, p: nat, e: End): seq<Byte>
    requires p < |s.ph| && p < |t.ph|
  {
    if s.ph[p].Leaving? && t.ph[p].Out? then Gave(s.ph[p].job, s.ph[p].ret, e) else []
  }

  ghost predicate SameProcs(run: seq<State>) {
    forall i :: 0 <= i < |run| ==> |run[i].ph| == |run[0].ph|
  }

  /** What p's calls that have returned by state i gave, one after the other. */
  ghost function Finished(run: seq<State>, i: nat, p: nat, e: End): seq<Byte>
    requires SameProcs(run) && i < |run| && p < |run[0].ph|
  {
    if i == 0 then [] else Finished(run, i - 1, p, e) + Returns(run[i - 1], run[i], p, e)
  }

  /** Who has the pipe's lock. */
  function Who(s: State): nat {
    if s.lk.Some? then s.lk.value else |s.ph|
  }

  /** For each byte of the stream, the process that had the lock when it went through. */
  ghost function Authors(run: seq<State>, i: nat, e: End): seq<nat>
    requires i < |run|
  {
    if i == 0 then []
    else
      var a := Authors(run, i - 1, e);
      if |Stream(run[i], e)| > |Stream(run[i - 1], e)| then a + [Who(run[i - 1])] else a
  }

  /** The bytes of a stream that are p's, in order. */
  function Part(b: seq<Byte>, who: seq<nat>, p: nat): seq<Byte>
    requires |who| == |b|
  {
    if b == [] then []
    else
      var rest := Part(b[..|b| - 1], who[..|b| - 1], p);
      if who[|b| - 1] == p then rest + [b[|b| - 1]] else rest
  }

  /** The byte that p puts through in this step, if it does. */
  function Passed(s: State, t: State, p: nat, e: End): seq<Byte> {
    if |Stream(t, e)| > |Stream(s, e)| && Who(s) == p then Stream(t, e)[|Stream(s, e)|..] else []
  }

  /** At most one byte goes through in a step. */
  lemma OneByte(s: State, t: State, e: End)
    requires Step(s, t)
    ensures Stream(t, e) == Stream(s, e)
            || (|Stream(t, e)| == |Stream(s, e)| + 1 && Stream(t, e)[..|Stream(s, e)|] == Stream(s, e))
  {
    if !StepElsewhere(s, t) {
      var p: nat :| p < |s.ph| && StepOf(s, t, p);
      OneByteOf(s, t, p, e);
    }
  }

  lemma OneByteOf(s: State, t: State, p: nat, e: End)
    requires p < |s.ph| && StepOf(s, t, p)
    ensures Stream(t, e) == Stream(s, e)
            || (|Stream(t, e)| == |Stream(s, e)| + 1 && Stream(t, e)[..|Stream(s, e)|] == Stream(s, e))
  {
    assert !s.ph[p].Looping? && !s.ph[p].Copying? ==> t.sent == s.sent && t.received == s.received;
  }

  lemma OwnPart(s: State, t: State, p: nat, e: End)
    requires Locks(s) && p < |s.ph| == |t.ph| && StepOf(s, t, p) && CallOk(s, s.ph[p])
    ensures Returns(s, t, p, e) + Current(t.ph[p], e) == Current(s.ph[p], e) + Passed(s, t, p, e)
  {
    assert HasLk(s.ph[p]) <==> s.lk == Some(p);
    hide Locks;
    match s.ph[p] {
      case Looping(job) => LoopPart(s, t, p, job, e);
      case Copying(job) => CopyPart(s, t, p, job, e);
      case Leaving(job, ret) => hide ReadOk; assert Gave(job, ret, e) == Current(s.ph[p], e) by { GaveAll(s, p, e); }
      case _ => MovePart(s, t, p, e);
    }
  }

  /** The return value says what the call has put through. */
  lemma GaveAll(s: State, p: nat, e: End)
    requires p < |s.ph| && s.ph[p].Leaving? && CallOk(s, s.ph[p])
    ensures Gave(s.ph[p].job, s.ph[p].ret, e) == Current(s.ph[p], e)
  {
  }

  lemma LoopPart(s: State, t: State, p: nat, job: Job, e: End)
    requires p < |s.ph| == |t.ph| && s.ph[p] == Looping(job) && StepOf(s, t, p) && CallOk(s, s.ph[p]) && s.lk == Some(p)
    ensures Returns(s, t, p, e) + Current(t.ph[p], e) == Current(s.ph[p], e) + Passed(s, t, p, e)
  {
    if job.Write? && t.sent != s.sent {
      assert job.src[..job.i] + [job.src[job.i]] == job.src[..job.i + 1];
    }
  }

  lemma CopyPart(s: State, t: State, p: nat, job: Job, e: End)
    requires p < |s.ph| == |t.ph| && s.ph[p] == Copying(job) && StepOf(s, t, p) && s.lk == Some(p)
    ensures Returns(s, t, p, e) + Current(t.ph[p], e) == Current(s.ph[p], e) + Passed(s, t, p, e)
  {
  }

  lemma MovePart(s: State, t: State, p: nat, e: End)
    requires p < |s.ph| == |t.ph| && StepOf(s, t, p) && (s.ph[p].Out? || Moving(s.ph[p]))
    ensures Returns(s, t, p, e) + Current(t.ph[p], e) == Current(s.ph[p], e) + Passed(s, t, p, e)
  {
    if s.ph[p].Out? {
      Starting(s, t, p, e);
    } else {
      MovesNoByte(s, t, p);
      MovesOn(s, t, p);
    }
    hide StepOf;
  }

  lemma Starting(s: State, t: State, p: nat, e: End)
    requires p < |s.ph| == |t.ph| && StepOf(s, t, p) && s.ph[p].Out?
    ensures t.sent == s.sent && t.received == s.received && Current(t.ph[p], e) == []
  {
  }

  lemma OtherPart(s: State, t: State, p: nat, q: nat, e: End)
    requires Locks(s) && p < |s.ph| && q < |s.ph| == |t.ph| && p != q && StepOf(s, t, p)
    ensures Returns(s, t, q, e) + Current(t.ph[q], e) == Current(s.ph[q], e) + Passed(s, t, q, e)
  {
    hide StepOf;
    OtherStays(s, t, p, q);
    if Stream(t, e) != Stream(s, e) {
      MovesLocked(s, t, p);
    }
  }

  lemma StepPart(s: State, t: State, q: nat, e: End)
    requires Inv(s) && Calls(s) && Step(s, t) && q < |s.ph| == |t.ph|
    ensures Returns(s, t, q, e) + Current(t.ph[q], e) == Current(s.ph[q], e) + Passed(s, t, q, e)
  {
    if !StepElsewhere(s, t) {
      var p: nat :| p < |s.ph| && StepOf(s, t, p);
      if p == q {
        OwnPart(s, t, p, e);
      } else {
        OtherPart(s, t, p, q, e);
      }
    }
  }

  lemma {:induction false} RunSameProcs(run: seq<State>, i: nat)
    requires Run(run) && i < |run|
    ensures |run[i].ph| == |run[0].ph|
  {
    if i > 0 {
      RunSameProcs(run, i - 1);
      assert StepAt(run, i - 1);
      hide Step;
      StepSameLength(run[i - 1], run[i]);
    }
  }

  lemma RunsSameProcs(run: seq<State>)
    requires Run(run)
    ensures SameProcs(run)
  {
    forall i | 0 <= i < |run| ensures |run[i].ph| == |run[0].ph| {
      RunSameProcs(run, i);
    }
  }

  /** In every state of every run, whatever the interleaving: the bytes that p has put into the
      pipe are, in order, the buffers of its pipewrites that have returned and the first i
      bytes of the one in progress; those it has taken out are what its pipereads returned
      and what the one in progress has. */
  lemma {:induction false} EachItsOwn(run: seq<State>, i: nat, p: nat, e: End)
    requires Run(run) && SameProcs(run) && i < |run| && p < |run[0].ph|
    ensures |Authors(run, i, e)| == |Stream(run[i], e)|
    ensures Part(Stream(run[i], e), Authors(run, i, e), p) == Finished(run, i, p, e) + Current(run[i].ph[p], e)
  {
    if i > 0 {
      EachItsOwn(run, i - 1, p, e);
      RunKeepsInv(run, i - 1);
      RunKeepsCalls(run, i - 1);
      NextStep(run, i);
      hide Run, Inv, Calls, Step, Part, Stream, Current, Returns, Authors, Finished;
      OneByte(run[i - 1], run[i], e);
      StepPart(run[i - 1], run[i], p, e);
      OwnNext(run, i, p, e);
    } else {
      assert Part([], [], p) == [];
    }
  }

  lemma OwnNext(run: seq<State>, i: nat, p: nat, e: End)
    requires SameProcs(run) && 0 < i < |run| && p < |run[0].ph| == |run[i - 1].ph| == |run[i].ph|
    requires |Authors(run, i - 1, e)| == |Stream(run[i - 1], e)|
    requires Part(Stream(run[i - 1], e), Authors(run, i - 1, e), p) == Finished(run, i - 1, p, e) + Current(run[i - 1].ph[p], e)
    requires var s, t := run[i - 1], run[i];
             && (Stream(t, e) == Stream(s, e)
                 || (|Stream(t, e)| == |Stream(s, e)| + 1 && Stream(t, e)[..|Stream(s, e)|] == Stream(s, e)))
             && Returns(s, t, p, e) + Current(t.ph[p], e) == Current(s.ph[p], e) + Passed(s, t, p, e)
    ensures |Authors(run, i, e)| == |Stream(run[i], e)|
    ensures Part(Stream(run[i], e), Authors(run, i, e), p) == Finished(run, i, p, e) + Current(run[i].ph[p], e)
  {
    var s, t := run[i - 1], run[i];
    hide Part, Stream, Current, Returns, Passed;
    PartMore(s, t, Authors(run, i - 1, e), p, e);
    InTurn(Finished(run, i - 1, p, e), Current(s.ph[p], e), Passed(s, t, p, e), Returns(s, t, p, e), Current(t.ph[p], e));
  }

  lemma InTurn(f: seq<Byte>, c: seq<Byte>, passed: seq<Byte>, r: seq<Byte>, c': seq<Byte>)
    requires r + c' == c + passed
    ensures f + c + passed == f + r + c'
  {
    assert f + c + passed == f + (c + passed) && f + r + c' == f + (r + c');
  }

  lemma PartMore(s: State, t: State, who: seq<nat>, p: nat, e: End)
    requires |who| == |Stream(s, e)|
    requires Stream(t, e) == Stream(s, e)
             || (|Stream(t, e)| == |Stream(s, e)| + 1 && Stream(t, e)[..|Stream(s, e)|] == Stream(s, e))
    ensures var w := if |Stream(t, e)| > |Stream(s, e)| then who + [Who(s)] else who;
            |w| == |Stream(t, e)| && Part(Stream(t, e), w, p) == Part(Stream(s, e), who, p) + Passed(s, t, p, e)
  {
    assert (who + [Who(s)])[..|who|] == who;
    assert Part(Stream(s, e), who, p) + [] == Part(Stream(s, e), who, p);
  }

  // ---- the theorems --------------------------------------------------------------------------

  /** First in, first out, whatever the interleaving and however often the counters wrap: what
      the readers got is a prefix of what the writers stored, and the rest, at most PIPESIZE
      bytes, is what the buffer holds. */
  lemma Delivery(run: seq<State>, i: nat)
    requires Run(run) && i < |run|
    ensures var s := run[i];
            && s.received <= s.sent && |s.sent| - |s.received| <= PIPESIZE
            && (s.nwrite - s.nread) % TWO_32 == |s.sent| - |s.received|
            && forall k {:trigger s.sent[k]} :: |s.received| <= k < |s.sent| ==>
                 s.data[(s.nread + (k - |s.received|)) % TWO_32 % PIPESIZE] == s.sent[k]
  {
    RunKeepsInv(run, i);
    var s := run[i];
    var d := |s.sent| - |s.received|;
    Wrap(|s.received|, d);
    forall k {:trigger s.sent[k]} | |s.received| <= k < |s.sent|
      ensures s.data[(s.nread + (k - |s.received|)) % TWO_32 % PIPESIZE] == s.sent[k]
    {
      Wrap(|s.received|, k - |s.received|);
      Slot(k);
    }
  }

  /** No lost wakeup: a reader asleep on nread means that the pipe is empty with its write end
      open, or that the holder of the lock still owes the wakeup. */
  lemma ReaderNotForgotten(run: seq<State>, i: nat, p: nat)
    requires Run(run) && i < |run| && p < |run[i].ph| && run[i].ph[p].Asleep? && run[i].ph[p].job.Read?
    ensures (run[i].nread == run[i].nwrite && run[i].writeopen) || (run[i].lk.Some? && ReadersOwed(run[i]))
  {
    RunKeepsInv(run, i);
    Tests(run[i]);
  }

  /** A writer asleep on nwrite: the pipe is full with its read end open, or a wakeup is owed. */
  lemma WriterNotForgotten(run: seq<State>, i: nat, p: nat)
    requires Run(run) && i < |run| && p < |run[i].ph| && run[i].ph[p].Asleep? && run[i].ph[p].job.Write?
    ensures (run[i].nwrite == (run[i].nread + PIPESIZE) % TWO_32 && run[i].readopen) || (run[i].lk.Some? && WritersOwed(run[i]))
  {
    RunKeepsInv(run, i);
    Tests(run[i]);
  }

  /** The bytes a piperead returns are consecutive bytes of the stream, those last received. */
  lemma ReturnedInOrder(run: seq<State>, i: nat, p: nat)
    requires Run(run) && i < |run| && p < |run[i].ph| && run[i].ph[p].Leaving? && run[i].ph[p].job.Read?
    ensures var s, got := run[i], run[i].ph[p].job.got;
            |got| <= |s.received| <= |s.sent| && got == s.sent[|s.received| - |got|..|s.received|]
  {
    RunKeepsInv(run, i);
    RunKeepsCalls(run, i);
    var s, got := run[i], run[i].ph[p].job.got;
    assert s.sent[..|s.received|][|s.received| - |got|..] == s.sent[|s.received| - |got|..|s.received|];
  }

  /** What piperead answers: the number of bytes it got; fewer than asked for only when the pipe
      is then empty, and none (of some) only at the end of the stream. */
  lemma ReadAnswer(run: seq<State>, i: nat, p: nat)
    requires Run(run) && i < |run| && p < |run[i].ph| && run[i].ph[p].Leaving? && run[i].ph[p].job.Read?
    ensures var s, job, ret := run[i], run[i].ph[p].job, run[i].ph[p].ret;
            && ret == |job.got| <= job.n
            && (ret < job.n ==> s.received == s.sent)
            && (ret == 0 && job.n > 0 ==> !s.writeopen)
  {
    RunKeepsInv(run, i);
    RunKeepsCalls(run, i);
  }

  /** What pipewrite answers: the size of its buffer, all of it stored, or -1 before the end of
      the buffer because the read end is closed. */
  lemma WriteAnswer(run: seq<State>, i: nat, p: nat)
    requires Run(run) && i < |run| && p < |run[i].ph| && run[i].ph[p].Leaving? && run[i].ph[p].job.Write?
    ensures var s, job, ret := run[i], run[i].ph[p].job, run[i].ph[p].ret;
            && (ret == |job.src| || ret == -1)
            && (ret >= 0 ==> job.i == |job.src|)
            && (ret == -1 ==> job.i < |job.src| && !s.readopen)
  {
    RunKeepsCalls(run, i);
  }

  /** pipeclose has closed its end when it returns, and it stays closed. */
  lemma CloseAnswer(run: seq<State>, i: nat, p: nat)
    requires Run(run) && i < |run| && p < |run[i].ph| && run[i].ph[p].Leaving? && run[i].ph[p].job.Close?
    ensures if run[i].ph[p].job.writable then !run[i].writeopen else !run[i].readopen
  {
    RunKeepsCalls(run, i);
  }

  predicate AllAre(who: seq<nat>, p: nat) {
    forall k :: 0 <= k < |who| ==> who[k] == p
  }

  lemma AllAreMore(who: seq<nat>, p: nat)
    requires AllAre(who, p)
    ensures AllAre(who + [p], p)
  {
  }

  lemma {:induction false} AllOnes(b: seq<Byte>, who: seq<nat>, p: nat)
    requires |who| == |b| && AllAre(who, p)
    ensures Part(b, who, p) == b
  {
    if b != [] {
      AllOnes(b[..|b| - 1], who[..|b| - 1], p);
    }
  }

  /** No process but p is ever in a call on that end. */
  ghost predicate OnlyUser(run: seq<State>, p: nat, e: End) {
    forall i, q {:trigger run[i].ph[q]} :: 0 <= i < |run| && 0 <= q < |run[i].ph| && q != p && !run[i].ph[q].Out? ==>
      if e == WriteEnd then !run[i].ph[q].job.Write? else !run[i].ph[q].job.Read?
  }

  lemma {:induction false} OnlyAuthor(run: seq<State>, i: nat, p: nat, e: End)
    requires Run(run) && i < |run| && OnlyUser(run, p, e)
    ensures AllAre(Authors(run, i, e), p)
  {
    if i > 0 {
      hide Run, OnlyUser, Stream, Who, Step, AllAre;
      OnlyAuthor(run, i - 1, p, e);
      AllAreMore(Authors(run, i - 1, e), p);
      if |Stream(run[i], e)| > |Stream(run[i - 1], e)| {
        NextAuthor(run, i, p, e);
      }
    }
  }

  lemma NextAuthor(run: seq<State>, i: nat, p: nat, e: End)
    requires Run(run) && 0 < i < |run| && OnlyUser(run, p, e) && Stream(run[i], e) != Stream(run[i - 1], e)
    ensures Who(run[i - 1]) == p
  {
    RunKeepsInv(run, i - 1);
    NextStep(run, i);
    var q := InvUser(run[i - 1], run[i], e);
    hide *;
    UserIs(run, i - 1, q, p, e);
  }

  lemma NextStep(run: seq<State>, i: nat)
    requires Run(run) && 0 < i < |run|
    ensures Step(run[i - 1], run[i])
  {
    assert StepAt(run, i - 1);
  }

  lemma InvUser(s: State, t: State, e: End) returns (q: nat)
    requires Inv(s) && Step(s, t) && Stream(t, e) != Stream(s, e)
    ensures q < |s.ph| && Who(s) == q && !s.ph[q].Out? && if e == WriteEnd then s.ph[q].job.Write? else s.ph[q].job.Read?
  {
    hide Queue, Jobs, Sleepers, Step, Locks, Who, Stream;
    q := ByUser(s, t, e);
  }

  lemma UserIs(run: seq<State>, i: nat, q: nat, p: nat, e: End)
    requires i < |run| && q < |run[i].ph| && OnlyUser(run, p, e) && !run[i].ph[q].Out?
    requires if e == WriteEnd then run[i].ph[q].job.Write? else run[i].ph[q].job.Read?
    ensures q == p
  {
  }

  lemma UsesEnd(s: State, t: State, q: nat, e: End)
    requires q < |s.ph| && StepOf(s, t, q) && Stream(t, e) != Stream(s, e)
    ensures HasLk(s.ph[q]) && !s.ph[q].Out? && if e == WriteEnd then s.ph[q].job.Write? else s.ph[q].job.Read?
  {
  }

  /** A byte goes through an end in a call on that end. */
  lemma ByUser(s: State, t: State, e: End) returns (q: nat)
    requires Locks(s) && Step(s, t) && Stream(t, e) != Stream(s, e)
    ensures q < |s.ph| && Who(s) == q && !s.ph[q].Out? && if e == WriteEnd then s.ph[q].job.Write? else s.ph[q].job.Read?
  {
    q :| q < |s.ph| && StepOf(s, t, q);
    assert HasLk(s.ph[q]) <==> s.lk == Some(q);
    hide Locks;
    UsesEnd(s, t, q, e);
  }

  /** With a single writer the stream is the concatenation of its buffers; with a single reader
      what was received is the concatenation of what its calls returned.  As the one is a
      prefix of the other, the reader gets the writer's bytes. */
  lemma Alone(run: seq<State>, i: nat, p: nat, e: End)
    requires Run(run) && SameProcs(run) && i < |run| && p < |run[0].ph| && OnlyUser(run, p, e)
    ensures Stream(run[i], e) == Finished(run, i, p, e) + Current(run[i].ph[p], e)
  {
    EachItsOwn(run, i, p, e);
    OnlyAuthor(run, i, p, e);
    AllOnes(Stream(run[i], e), Authors(run, i, e), p);
  }

  /** One writer and one reader: what the reader's calls returned is what the writer's calls
      were given, cut off where the reader has got to. */
  lemma OneToOne(run: seq<State>, i: nat, w: nat, r: nat)
    requires Run(run) && SameProcs(run) && i < |run| && w < |run[0].ph| && r < |run[0].ph|
    requires OnlyUser(run, w, WriteEnd) && OnlyUser(run, r, ReadEnd)
    ensures Finished(run, i, r, ReadEnd) + Current(run[i].ph[r], ReadEnd)
            <= Finished(run, i, w, WriteEnd) + Current(run[i].ph[w], WriteEnd)
  {
    Alone(run, i, w, WriteEnd);
    Alone(run, i, r, ReadEnd);
    RunKeepsInv(run, i);
  }
}
