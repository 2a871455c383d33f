/** The process table of proc.c as a value: states, parents, sleepers in wait, and who runs on
    which CPU, with the invariant that holds whenever ptable.lock is free. */
module ProcTable {
  import opened Wrappers

  datatype Pstate = Unused | Embryo | Sleeping | Runnable | Running | Zombie

  /** What a process sleeps on: a process table entry, as wait does, or anything else. */
  datatype Chan = NoChan | OnProc(p: nat) | OnOther(a: nat)

  datatype Proc = Proc(state: Pstate, pid: nat, parent: Option<nat>, chan: Chan, killed: bool)

  /** exited and collected are the pids of the processes that have exited, and of those whose
      wait has returned; maker says who is forking which embryo. */
  datatype Table = Table(ps: seq<Proc>, cpus: seq<Option<nat>>, nextpid: nat, init: nat,
                         exited: set<nat>, collected: set<nat>, maker: map<nat, nat>)

  /** Past fork and not yet exited. */
  predicate Live(p: Proc) {
    p.state == Sleeping || p.state == Runnable || p.state == Running
  }

  /** p is asleep in wait. */
  predicate InWait(ps: seq<Proc>, p: nat)
    requires p < |ps|
  {
    ps[p].state == Sleeping && ps[p].chan == OnProc(p)
  }

  predicate ChildOf(ps: seq<Proc>, c: nat, p: nat)
    requires c < |ps|
  {
    ps[c].parent == Some(p)
  }

  ghost predicate HasChild(ps: seq<Proc>, p: nat) {
    exists c: nat {:trigger ChildOf(ps, c, p)} :: c < |ps| && ChildOf(ps, c, p)
  }

  ghost predicate HasZombie(ps: seq<Proc>, p: nat) {
    exists c: nat {:trigger ChildOf(ps, c, p)} :: c < |ps| && ChildOf(ps, c, p) && ps[c].state == Zombie
  }

  /** No process waits in vain: it has a child, and none that has exited already. */
  ghost predicate WaitersOk(ps: seq<Proc>) {
    forall p {:trigger InWait(ps, p)} :: 0 <= p < |ps| && InWait(ps, p) ==> HasChild(ps, p) && !HasZombie(ps, p)
  }

  /** Parents are neither unused nor zombies; only wait sleeps on a process. */
  ghost predicate ParentsOk(ps: seq<Proc>, init: nat) {
    && init < |ps| && Live(ps[init]) && ps[init].parent == None
    && (forall c {:trigger ParentOk(ps, init, c)} :: 0 <= c < |ps| ==> ParentOk(ps, init, c))
  }

  predicate ParentOk(ps: seq<Proc>, init: nat, c: nat)
    requires c < |ps|
  {
    && (ps[c].parent.Some? ==>
          ps[c].state != Unused && ps[c].parent.value < |ps| && ps[c].parent.value != c && Live(ps[ps[c].parent.value]))
    && (c != init && ps[c].state != Unused && ps[c].state != Embryo ==> ps[c].parent.Some?)
    && (ps[c].chan.OnProc? ==> ps[c].chan == OnProc(c))
  }

  /** A process is RUNNING exactly when some CPU runs it, and no two CPUs run the same. */
  ghost predicate CpusOk(ps: seq<Proc>, cpus: seq<Option<nat>>) {
    && (forall c {:trigger cpus[c]} :: 0 <= c < |cpus| && cpus[c].Some? ==> cpus[c].value < |ps| && ps[cpus[c].value].state == Running)
    && (forall c, d {:trigger cpus[c], cpus[d]} :: 0 <= c < d < |cpus| && cpus[c].Some? ==> cpus[c] != cpus[d])
    && (forall p {:trigger OnCpu(cpus, p)} :: 0 <= p < |ps| && ps[p].state == Running ==> OnCpu(cpus, p))
  }

  ghost predicate OnCpu(cpus: seq<Option<nat>>, p: nat) {
    exists c :: 0 <= c < |cpus| && cpus[c] == Some(p)
  }

  /** Pids in use differ; the zombies are exactly the exited processes not yet collected. */
  ghost predicate PidsOk(ps: seq<Proc>, nextpid: nat, exited: set<nat>, collected: set<nat>) {
    && collected <= exited && (forall x :: x in exited ==> x < nextpid)
    && (forall p {:trigger PidOk(ps, nextpid, exited, collected, p)} :: 0 <= p < |ps| ==> PidOk(ps, nextpid, exited, collected, p))
    && (forall p, q {:trigger SamePid(ps, p, q)} :: 0 <= p < |ps| && 0 <= q < |ps| && SamePid(ps, p, q) ==> p == q)
    && (forall x {:trigger HasPid(ps, x)} :: x in exited && x !in collected ==> HasPid(ps, x))
  }

  predicate PidOk(ps: seq<Proc>, nextpid: nat, exited: set<nat>, collected: set<nat>, p: nat)
    requires p < |ps|
  {
    ps[p].state != Unused ==>
      0 < ps[p].pid < nextpid && ps[p].pid !in collected && (ps[p].state == Zombie <==> ps[p].pid in exited)
  }

  predicate SamePid(ps: seq<Proc>, p: nat, q: nat)
    requires p < |ps| && q < |ps|
  {
    ps[p].state != Unused && ps[q].state != Unused && ps[p].pid == ps[q].pid
  }

  ghost predicate HasPid(ps: seq<Proc>, x: nat) {
    exists p: nat {:trigger ps[p]} :: p < |ps| && ps[p].state == Zombie && ps[p].pid == x
  }

  ghost predicate MakersOk(ps: seq<Proc>, maker: map<nat, nat>) {
    && (forall c {:trigger c in maker} :: c in maker ==> c < |ps| && ps[c].state == Embryo)
    && (forall c {:trigger c in maker} :: 0 <= c < |ps| && ps[c].state == Embryo ==> c in maker)
    && (forall c {:trigger MakerOk(ps, maker, c)} :: c in maker ==> MakerOk(ps, maker, c))
  }

  predicate MakerOk(ps: seq<Proc>, maker: map<nat, nat>, c: nat)
    requires c < |ps| && c in maker
  {
    && maker[c] < |ps| && maker[c] != c && Live(ps[maker[c]])
    && (ps[c].parent == None || ps[c].parent == Some(maker[c]))
  }

  ghost predicate Ok(t: Table) {
    && ParentsOk(t.ps, t.init) && WaitersOk(t.ps) && CpusOk(t.ps, t.cpus)
    && PidsOk(t.ps, t.nextpid, t.exited, t.collected) && MakersOk(t.ps, t.maker)
  }

  // ---- wakeup1 and exit ------------------------------------------------------------------

  function Roused(p: Proc, ch: Chan): Proc {
    if p.state == Sleeping && p.chan == ch then p.(state := Runnable) else p
  }

  /** wakeup1 on the first n entries. */
  function WokenTo(ps: seq<Proc>, ch: Chan, n: nat): (r: seq<Proc>)
    ensures |r| == |ps| && forall k {:trigger r[k]} :: 0 <= k < |ps| ==> r[k] == if k < n then Roused(ps[k], ch) else ps[k]
  {
    seq(|ps|, k requires 0 <= k < |ps| => if k < n then Roused(ps[k], ch) else ps[k])
  }

  function Woken(ps: seq<Proc>, ch: Chan): seq<Proc> {
    WokenTo(ps, ch, |ps|)
  }

  /** p's children among the first n entries passed to init. */
  function PassedTo(ps: seq<Proc>, p: nat, init: nat, n: nat): (r: seq<Proc>)
    ensures |r| == |ps|
    ensures forall k {:trigger r[k]} :: 0 <= k < |ps| ==>
              r[k] == if k < n && ps[k].parent == Some(p) then ps[k].(parent := Some(init)) else ps[k]
  {
    seq(|ps|, k requires 0 <= k < |ps| => if k < n && ps[k].parent == Some(p) then ps[k].(parent := Some(init)) else ps[k])
  }

  /** The loop of exit, n entries in: init is woken as soon as it gets a zombie. */
  ghost function Abandoned(ps: seq<Proc>, p: nat, init: nat, n: nat): (r: seq<Proc>)
    requires n <= |ps|
    ensures |r| == |ps|
  {
    var g := PassedTo(ps, p, init, n);
    if exists c: nat {:trigger ChildOf(ps, c, p)} :: c < n && ChildOf(ps, c, p) && ps[c].state == Zombie then Woken(g, OnProc(init)) else g
  }

  /** exit's effect on the table. */
  ghost function Exited(ps: seq<Proc>, p: nat, init: nat): (r: seq<Proc>)
    requires p < |ps| && ps[p].parent.Some?
    ensures |r| == |ps|
  {
    var w := Woken(ps, OnProc(ps[p].parent.value));
    var g := Abandoned(w, p, init, |w|);
    g[p := g[p].(state := Zombie)]
  }

  /** Waking anybody harms nothing. */
  lemma WokenKeeps(t: Table, ch: Chan)
    requires Ok(t)
    ensures Ok(t.(ps := Woken(t.ps, ch)))
  {
    var r := Woken(t.ps, ch);
    WokenParents(t.ps, t.init, ch);
    WokenWaiters(t.ps, ch);
    WokenCpus(t.ps, t.cpus, ch);
    WokenPids(t, ch);
    WokenMakers(t.ps, t.maker, ch);
  }

  lemma WokenParents(ps: seq<Proc>, init: nat, ch: Chan)
    requires ParentsOk(ps, init)
    ensures ParentsOk(Woken(ps, ch), init)
  {
    var r := Woken(ps, ch);
    forall c | 0 <= c < |r| ensures ParentOk(r, init, c) {
      assert ParentOk(ps, init, c);
    }
  }

  lemma WokenWaiters(ps: seq<Proc>, ch: Chan)
    requires WaitersOk(ps)
    ensures WaitersOk(Woken(ps, ch))
  {
    var r := Woken(ps, ch);
    forall p {:trigger InWait(r, p)} | 0 <= p < |r| && InWait(r, p) ensures HasChild(r, p) && !HasZombie(r, p) {
      assert InWait(ps, p);
      var c: nat :| c < |ps| && ChildOf(ps, c, p);
      assert ChildOf(r, c, p);
      forall z: nat | z < |r| && ChildOf(r, z, p) ensures r[z].state != Zombie {
        assert ChildOf(ps, z, p);
      }
    }
  }

  lemma WokenCpus(ps: seq<Proc>, cpus: seq<Option<nat>>, ch: Chan)
    requires CpusOk(ps, cpus)
    ensures CpusOk(Woken(ps, ch), cpus)
  {
  }

  lemma WokenPids(t: Table, ch: Chan)
    requires PidsOk(t.ps, t.nextpid, t.exited, t.collected)
    ensures PidsOk(Woken(t.ps, ch), t.nextpid, t.exited, t.collected)
  {
    var r := Woken(t.ps, ch);
    forall p | 0 <= p < |r| ensures PidOk(r, t.nextpid, t.exited, t.collected, p) {
      assert PidOk(t.ps, t.nextpid, t.exited, t.collected, p);
    }
    forall p, q {:trigger SamePid(r, p, q)} | 0 <= p < |r| && 0 <= q < |r| && SamePid(r, p, q) ensures p == q {
      assert SamePid(t.ps, p, q);
    }
    forall x | x in t.exited && x !in t.collected ensures HasPid(r, x) {
      assert HasPid(t.ps, x);
      var p: nat :| p < |t.ps| && t.ps[p].state == Zombie && t.ps[p].pid == x;
      assert r[p] == t.ps[p];
    }
  }

  lemma WokenMakers(ps: seq<Proc>, maker: map<nat, nat>, ch: Chan)
    requires MakersOk(ps, maker)
    ensures MakersOk(Woken(ps, ch), maker)
  {
    var r := Woken(ps, ch);
    forall c {:trigger c in maker} | c in maker ensures c < |r| && MakerOk(r, maker, c) {
      assert MakerOk(ps, maker, c);
    }
  }

  // ---- one process changes ------------------------------------------------------------------

  /** The entry of p replaced, and the CPUs. */
  function Changed(t: Table, p: nat, q: Proc, cpus: seq<Option<nat>>): Table
    requires p < |t.ps|
  {
    t.(ps := t.ps[p := q], cpus := cpus)
  }

  /** A process that stays alive keeps its family and its pid. */
  ghost predicate Calm(t: Table, p: nat, q: Proc) {
    && p < |t.ps| && Live(t.ps[p]) && Live(q)
    && q.parent == t.ps[p].parent && q.pid == t.ps[p].pid && (q.chan.OnProc? ==> q.chan == OnProc(p))
    && (q.state == Sleeping && q.chan == OnProc(p) ==> HasChild(t.ps, p) && !HasZombie(t.ps, p))
  }

  lemma CalmKeeps(t: Table, p: nat, q: Proc, cpus: seq<Option<nat>>)
    requires Ok(t) && Calm(t, p, q) && CpusOk(t.ps[p := q], cpus)
    ensures Ok(Changed(t, p, q, cpus))
  {
    var r := t.ps[p := q];
    forall c | 0 <= c < |r| ensures ParentOk(r, t.init, c) {
      assert ParentOk(t.ps, t.init, c);
    }
    SameFamily(t.ps, r);
    forall w {:trigger InWait(r, w)} | 0 <= w < |r| && InWait(r, w) ensures HasChild(r, w) && !HasZombie(r, w) {
      assert w != p ==> InWait(t.ps, w);
    }
    SamePids(t, r);
    forall c {:trigger c in t.maker} | c in t.maker ensures c < |r| && MakerOk(r, t.maker, c) {
      assert MakerOk(t.ps, t.maker, c);
    }
  }

  lemma SameFamily(ps: seq<Proc>, r: seq<Proc>)
    requires |r| == |ps| && forall c :: 0 <= c < |ps| ==> r[c].parent == ps[c].parent && (r[c].state == Zombie <==> ps[c].state == Zombie)
    ensures forall p {:trigger HasChild(r, p)} :: HasChild(r, p) <==> HasChild(ps, p)
    ensures forall p {:trigger HasZombie(r, p)} :: HasZombie(r, p) <==> HasZombie(ps, p)
  {
    forall c, p: nat {:trigger ChildOf(r, c, p)} {:trigger ChildOf(ps, c, p)} | 0 <= c < |r| ensures ChildOf(r, c, p) == ChildOf(ps, c, p) {
    }
  }

  lemma SamePids(t: Table, r: seq<Proc>)
    requires PidsOk(t.ps, t.nextpid, t.exited, t.collected) && |r| == |t.ps|
    requires forall c :: 0 <= c < |r| ==> r[c].pid == t.ps[c].pid && (r[c].state == Zombie <==> t.ps[c].state == Zombie)
    requires forall c :: 0 <= c < |r| ==> (r[c].state == Unused <==> t.ps[c].state == Unused)
    ensures PidsOk(r, t.nextpid, t.exited, t.collected)
  {
    forall p | 0 <= p < |r| ensures PidOk(r, t.nextpid, t.exited, t.collected, p) {
      assert PidOk(t.ps, t.nextpid, t.exited, t.collected, p);
    }
    forall p, q {:trigger SamePid(r, p, q)} | 0 <= p < |r| && 0 <= q < |r| && SamePid(r, p, q) ensures p == q {
      assert SamePid(t.ps, p, q);
    }
    forall x | x in t.exited && x !in t.collected ensures HasPid(r, x) {
      assert HasPid(t.ps, x);
      var p: nat :| p < |t.ps| && t.ps[p].state == Zombie && t.ps[p].pid == x;
      assert r[p].state == Zombie;
    }
  }

  /** A process before and after kill: it will not sleep on, and everything else stays. */
  predicate MarkedKilled(p: Proc, q: Proc) {
    && q.killed && q.state != Sleeping && (q.state == p.state || (p.state == Sleeping && q.state == Runnable))
    && q.pid == p.pid && q.parent == p.parent && q.chan == p.chan
  }

  function Killed(p: Proc): Proc {
    p.(killed := true, state := if p.state == Sleeping then Runnable else p.state)
  }

  lemma KillKeeps(t: Table, p: nat)
    requires Ok(t) && p < |t.ps|
    ensures Ok(t.(ps := t.ps[p := Killed(t.ps[p])]))
  {
    var q := Killed(t.ps[p]);
    var r := t.ps[p := q];
    NoCpu(t.ps, t.cpus, p, q);
    if Live(t.ps[p]) {
      assert ParentOk(t.ps, t.init, p);
      CalmKeeps(t, p, q, t.cpus);
    } else {
      forall c | 0 <= c < |r| ensures ParentOk(r, t.init, c) {
        assert ParentOk(t.ps, t.init, c);
      }
      SameFamily(t.ps, r);
      forall w {:trigger InWait(r, w)} | 0 <= w < |r| && InWait(r, w) ensures HasChild(r, w) && !HasZombie(r, w) {
        assert InWait(t.ps, w);
      }
      SamePids(t, r);
      forall c {:trigger c in t.maker} | c in t.maker ensures c < |r| && MakerOk(r, t.maker, c) {
        assert MakerOk(t.ps, t.maker, c);
      }
    }
  }

  /** p leaves its CPU. */
  lemma OffCpu(ps: seq<Proc>, cpus: seq<Option<nat>>, c: nat, p: nat, q: Proc)
    requires CpusOk(ps, cpus) && c < |cpus| && cpus[c] == Some(p) && p < |ps| && q.state != Running
    ensures CpusOk(ps[p := q], cpus[c := None])
  {
    var r, d := ps[p := q], cpus[c := None];
    forall x {:trigger OnCpu(d, x)} | 0 <= x < |r| && r[x].state == Running ensures OnCpu(d, x) {
      assert OnCpu(cpus, x);
      var e :| 0 <= e < |cpus| && cpus[e] == Some(x);
      assert d[e] == Some(x);
    }
  }

  /** The scheduler gives p to an idle CPU. */
  lemma ToCpu(ps: seq<Proc>, cpus: seq<Option<nat>>, c: nat, p: nat, q: Proc)
    requires CpusOk(ps, cpus) && c < |cpus| && cpus[c] == None && p < |ps| && ps[p].state != Running && q.state == Running
    ensures CpusOk(ps[p := q], cpus[c := Some(p)])
  {
    var r, d := ps[p := q], cpus[c := Some(p)];
    forall x {:trigger OnCpu(d, x)} | 0 <= x < |r| && r[x].state == Running ensures OnCpu(d, x) {
      if x == p {
        assert d[c] == Some(p);
      } else {
        assert OnCpu(cpus, x);
        var e :| 0 <= e < |cpus| && cpus[e] == Some(x);
        assert d[e] == Some(x);
      }
    }
  }

  /** Neither running before nor after. */
  lemma NoCpu(ps: seq<Proc>, cpus: seq<Option<nat>>, p: nat, q: Proc)
    requires CpusOk(ps, cpus) && p < |ps| && (ps[p].state == Running <==> q.state == Running)
    ensures CpusOk(ps[p := q], cpus)
  {
  }

  // ---- exit ------------------------------------------------------------------------------------

  /** The children of an exiting process go to init, which is woken if one is a zombie. */
  lemma AbandonedKeeps(t: Table, p: nat)
    requires Ok(t) && p < |t.ps| && p != t.init && t.ps[p].state == Running && p !in t.maker.Values
    ensures var r := Abandoned(t.ps, p, t.init, |t.ps|);
            && Ok(t.(ps := r)) && (forall c :: 0 <= c < |r| ==> !ChildOf(r, c, p)) && r[p] == t.ps[p]
            && (forall w :: 0 <= w < |r| && InWait(r, w) ==> InWait(t.ps, w))
  {
    var r := Abandoned(t.ps, p, t.init, |t.ps|);
    AbandonedEntries(t.ps, p, t.init, r);
    assert ParentOk(t.ps, t.init, p);
    assert r[t.init] == Roused(t.ps[t.init], OnProc(t.init)) || r[t.init] == t.ps[t.init];
    forall c | 0 <= c < |r| ensures ParentOk(r, t.init, c) {
      assert ParentOk(t.ps, t.init, c);
    }
    AbandonedWaiters(t, p);
    SamePids(t, r);
    AbandonedMakers(t, p);
  }

  lemma AbandonedEntries(ps: seq<Proc>, p: nat, init: nat, r: seq<Proc>)
    requires r == Abandoned(ps, p, init, |ps|)
    ensures |r| == |ps|
    ensures forall c {:trigger r[c]} :: 0 <= c < |ps| ==>
              && r[c].parent == (if ps[c].parent == Some(p) then Some(init) else ps[c].parent)
              && r[c].pid == ps[c].pid && r[c].chan == ps[c].chan
              && (r[c].state == ps[c].state || (ps[c].state == Sleeping && ps[c].chan == OnProc(init) && r[c].state == Runnable))
  {
  }

  lemma AbandonedWaiters(t: Table, p: nat)
    requires Ok(t) && p < |t.ps| && p != t.init && t.ps[p].state == Running
    ensures WaitersOk(Abandoned(t.ps, p, t.init, |t.ps|))
  {
    var r := Abandoned(t.ps, p, t.init, |t.ps|);
    AbandonedEntries(t.ps, p, t.init, r);
    forall w {:trigger InWait(r, w)} | 0 <= w < |r| && InWait(r, w) ensures HasChild(r, w) && !HasZombie(r, w) {
      assert InWait(t.ps, w);
      var c: nat :| c < |t.ps| && ChildOf(t.ps, c, w);
      assert ChildOf(r, c, w);
      forall z: nat | z < |r| && ChildOf(r, z, w) ensures r[z].state != Zombie {
        NoZombieGiven(t, p, w, z);
      }
    }
  }

  lemma NoZombieGiven(t: Table, p: nat, w: nat, z: nat)
    requires Ok(t) && p < |t.ps| && p != t.init && t.ps[p].state == Running && w < |t.ps| && z < |t.ps|
    requires InWait(t.ps, w)
    ensures var r := Abandoned(t.ps, p, t.init, |t.ps|); InWait(r, w) && ChildOf(r, z, w) ==> r[z].state != Zombie
  {
    var r := Abandoned(t.ps, p, t.init, |t.ps|);
    AbandonedEntries(t.ps, p, t.init, r);
    if ChildOf(t.ps, z, p) {
      if t.ps[z].state == Zombie {
        assert r == Woken(PassedTo(t.ps, p, t.init, |t.ps|), OnProc(t.init));
        assert !InWait(r, t.init);
      }
    } else {
      assert ChildOf(t.ps, z, w) == ChildOf(r, z, w);
      assert !HasZombie(t.ps, w);
    }
  }

  lemma AbandonedMakers(t: Table, p: nat)
    requires Ok(t) && p < |t.ps| && p !in t.maker.Values
    ensures MakersOk(Abandoned(t.ps, p, t.init, |t.ps|), t.maker)
  {
    var r := Abandoned(t.ps, p, t.init, |t.ps|);
    AbandonedEntries(t.ps, p, t.init, r);
    forall c {:trigger c in t.maker} | c in t.maker ensures c < |r| && MakerOk(r, t.maker, c) {
      assert MakerOk(t.ps, t.maker, c) && t.maker[c] in t.maker.Values;
    }
  }

  /** A childless process whose parent is not asleep in wait becomes a zombie. */
  lemma ZombieKeeps(t: Table, c: nat, p: nat)
    requires Ok(t) && c < |t.cpus| && t.cpus[c] == Some(p) && p < |t.ps| && p != t.init && p !in t.maker.Values
    requires t.ps[p].state == Running && t.ps[p].parent.Some?
    requires (forall k :: 0 <= k < |t.ps| ==> !ChildOf(t.ps, k, p))
    requires t.ps[p].parent.value < |t.ps| && !InWait(t.ps, t.ps[p].parent.value)
    ensures t.ps[p].pid !in t.exited
    ensures Ok(t.(ps := t.ps[p := t.ps[p].(state := Zombie)], cpus := t.cpus[c := None], exited := t.exited + {t.ps[p].pid}))
  {
    var z := t.ps[p].(state := Zombie);
    var r := t.ps[p := z];
    OffCpu(t.ps, t.cpus, c, p, z);
    forall k | 0 <= k < |r| ensures ParentOk(r, t.init, k) {
      assert ParentOk(t.ps, t.init, k) && !ChildOf(t.ps, k, p);
    }
    forall w {:trigger InWait(r, w)} | 0 <= w < |r| && InWait(r, w) ensures HasChild(r, w) && !HasZombie(r, w) {
      assert InWait(t.ps, w);
      var k: nat :| k < |t.ps| && ChildOf(t.ps, k, w);
      assert ChildOf(r, k, w);
      forall k: nat | k < |r| && ChildOf(r, k, w) ensures r[k].state != Zombie {
        assert ChildOf(t.ps, k, w);
      }
    }
    ZombiePids(t, p);
    forall k {:trigger k in t.maker} | k in t.maker ensures k < |r| && MakerOk(r, t.maker, k) {
      assert MakerOk(t.ps, t.maker, k) && t.maker[k] in t.maker.Values;
    }
  }

  lemma ZombiePids(t: Table, p: nat)
    requires Ok(t) && p < |t.ps| && t.ps[p].state == Running
    ensures t.ps[p].pid !in t.exited
    ensures PidsOk(t.ps[p := t.ps[p].(state := Zombie)], t.nextpid, t.exited + {t.ps[p].pid}, t.collected)
  {
    var r, ex := t.ps[p := t.ps[p].(state := Zombie)], t.exited + {t.ps[p].pid};
    assert PidOk(t.ps, t.nextpid, t.exited, t.collected, p);
    forall k | 0 <= k < |r| ensures PidOk(r, t.nextpid, ex, t.collected, k) {
      assert PidOk(t.ps, t.nextpid, t.exited, t.collected, k);
      assert SamePid(t.ps, k, p) ==> k == p;
    }
    forall k, l {:trigger SamePid(r, k, l)} | 0 <= k < |r| && 0 <= l < |r| && SamePid(r, k, l) ensures k == l {
      assert SamePid(t.ps, k, l);
    }
    forall x | x in ex && x !in t.collected ensures HasPid(r, x) {
      if x == t.ps[p].pid {
        assert r[p].state == Zombie;
      } else {
        assert HasPid(t.ps, x);
        var k: nat :| k < |t.ps| && t.ps[k].state == Zombie && t.ps[k].pid == x;
        assert r[k] == t.ps[k];
      }
    }
  }

  // ---- wait and fork -----------------------------------------------------------------------------

  const FREED: Proc := Proc(Unused, 0, None, NoChan, false)

  /** wait collects the zombie q. */
  lemma CollectKeeps(t: Table, p: nat, q: nat)
    requires Ok(t) && q < |t.ps| && t.ps[q].state == Zombie && t.ps[q].parent == Some(p) && p < |t.ps| && t.ps[p].state == Running
    ensures t.ps[q].pid in t.exited && t.ps[q].pid !in t.collected
    ensures Ok(t.(ps := t.ps[q := FREED.(chan := t.ps[q].chan)], collected := t.collected + {t.ps[q].pid}))
  {
    var r := t.ps[q := FREED.(chan := t.ps[q].chan)];
    forall k | 0 <= k < |r| ensures ParentOk(r, t.init, k) {
      assert ParentOk(t.ps, t.init, k);
    }
    forall w {:trigger InWait(r, w)} | 0 <= w < |r| && InWait(r, w) ensures HasChild(r, w) && !HasZombie(r, w) {
      assert InWait(t.ps, w);
      var k: nat :| k < |t.ps| && ChildOf(t.ps, k, w);
      assert ChildOf(r, k, w);
      forall k: nat | k < |r| && ChildOf(r, k, w) ensures r[k].state != Zombie {
        assert ChildOf(t.ps, k, w);
      }
    }
    CollectPids(t, q);
    forall k {:trigger k in t.maker} | k in t.maker ensures k < |r| && MakerOk(r, t.maker, k) {
      assert MakerOk(t.ps, t.maker, k);
    }
  }

  lemma CollectPids(t: Table, q: nat)
    requires Ok(t) && q < |t.ps| && t.ps[q].state == Zombie
    ensures t.ps[q].pid in t.exited && t.ps[q].pid !in t.collected
    ensures PidsOk(t.ps[q := FREED.(chan := t.ps[q].chan)], t.nextpid, t.exited, t.collected + {t.ps[q].pid})
  {
    var r, co := t.ps[q := FREED.(chan := t.ps[q].chan)], t.collected + {t.ps[q].pid};
    assert PidOk(t.ps, t.nextpid, t.exited, t.collected, q);
    forall k | 0 <= k < |r| ensures PidOk(r, t.nextpid, t.exited, co, k) {
      assert PidOk(t.ps, t.nextpid, t.exited, t.collected, k);
      assert SamePid(t.ps, k, q) ==> k == q;
    }
    forall k, l {:trigger SamePid(r, k, l)} | 0 <= k < |r| && 0 <= l < |r| && SamePid(r, k, l) ensures k == l {
      assert SamePid(t.ps, k, l);
    }
    forall x | x in t.exited && x !in co ensures HasPid(r, x) {
      assert HasPid(t.ps, x);
      var k: nat :| k < |t.ps| && t.ps[k].state == Zombie && t.ps[k].pid == x;
      assert r[k] == t.ps[k];
    }
  }

  /** A change to an entry that nobody sees yet: unused, or an embryo. */
  ghost predicate Budding(t: Table, p: nat, q: Proc, nextpid: nat) {
    && p < |t.ps| && p != t.init && (t.ps[p].state == Unused || t.ps[p].state == Embryo)
    && q.chan == t.ps[p].chan && q.state in {Unused, Embryo, Runnable} && nextpid >= t.nextpid
    && (if q.state == Unused then q.parent == None
        else 0 < q.pid < nextpid && q.pid == if t.ps[p].state == Unused then t.nextpid else t.ps[p].pid)
    && (q.state == Runnable ==> q.parent.Some?)
    && (t.ps[p].parent.Some? ==> q.parent == t.ps[p].parent)
    && (q.parent.Some? && q.parent != t.ps[p].parent ==>
          q.parent.value < |t.ps| && q.parent.value != p && t.ps[q.parent.value].state == Running)
  }

  lemma BuddingKeeps(t: Table, p: nat, q: Proc, nextpid: nat, maker: map<nat, nat>)
    requires Ok(t) && Budding(t, p, q, nextpid)
    requires q.state == Embryo ==> p in maker && MakerOk(t.ps[p := q], maker, p)
    requires forall k :: k in maker <==> (k in t.maker && k != p) || (k == p && q.state == Embryo)
    requires forall k :: k in maker && k != p ==> maker[k] == t.maker[k]
    ensures Ok(t.(ps := t.ps[p := q], nextpid := nextpid, maker := maker))
  {
    BuddingParents(t, p, q, nextpid);
    BuddingWaiters(t, p, q, nextpid);
    NoCpu(t.ps, t.cpus, p, q);
    BuddingPids(t, p, q, nextpid);
    BuddingMakers(t, p, q, nextpid, maker);
  }

  lemma BuddingParents(t: Table, p: nat, q: Proc, nextpid: nat)
    requires Ok(t) && Budding(t, p, q, nextpid)
    ensures ParentsOk(t.ps[p := q], t.init)
  {
    var r := t.ps[p := q];
    assert ParentOk(t.ps, t.init, p);
    forall k | 0 <= k < |r| ensures ParentOk(r, t.init, k) {
      assert ParentOk(t.ps, t.init, k);
    }
  }

  lemma BuddingWaiters(t: Table, p: nat, q: Proc, nextpid: nat)
    requires Ok(t) && Budding(t, p, q, nextpid)
    ensures WaitersOk(t.ps[p := q])
  {
    var r := t.ps[p := q];
    assert ParentOk(t.ps, t.init, p);
    forall w {:trigger InWait(r, w)} | 0 <= w < |r| && InWait(r, w) ensures HasChild(r, w) && !HasZombie(r, w) {
      assert InWait(t.ps, w);
      var k: nat :| k < |t.ps| && ChildOf(t.ps, k, w);
      assert ChildOf(r, k, w);
      forall k: nat | k < |r| && ChildOf(r, k, w) ensures r[k].state != Zombie {
        assert k != p ==> ChildOf(t.ps, k, w);
      }
    }
  }

  lemma BuddingPids(t: Table, p: nat, q: Proc, nextpid: nat)
    requires Ok(t) && Budding(t, p, q, nextpid)
    ensures PidsOk(t.ps[p := q], nextpid, t.exited, t.collected)
  {
    var r := t.ps[p := q];
    forall k | 0 <= k < |r| ensures PidOk(r, nextpid, t.exited, t.collected, k) {
      assert PidOk(t.ps, t.nextpid, t.exited, t.collected, k);
    }
    forall k, l {:trigger SamePid(r, k, l)} | 0 <= k < |r| && 0 <= l < |r| && SamePid(r, k, l) ensures k == l {
      assert PidOk(t.ps, t.nextpid, t.exited, t.collected, k) && PidOk(t.ps, t.nextpid, t.exited, t.collected, l);
      assert SamePid(t.ps, k, l) ==> k == l;
    }
    forall x | x in t.exited && x !in t.collected ensures HasPid(r, x) {
      assert HasPid(t.ps, x);
      var k: nat :| k < |t.ps| && t.ps[k].state == Zombie && t.ps[k].pid == x;
      assert r[k] == t.ps[k];
    }
  }

  lemma BuddingMakers(t: Table, p: nat, q: Proc, nextpid: nat, maker: map<nat, nat>)
    requires Ok(t) && Budding(t, p, q, nextpid)
    requires q.state == Embryo ==> p in maker && MakerOk(t.ps[p := q], maker, p)
    requires forall k :: k in maker <==> (k in t.maker && k != p) || (k == p && q.state == Embryo)
    requires forall k :: k in maker && k != p ==> maker[k] == t.maker[k]
    ensures MakersOk(t.ps[p := q], maker)
  {
    var r := t.ps[p := q];
    forall k {:trigger k in maker} | 0 <= k < |r| ensures k in maker <==> r[k].state == Embryo {
      assert k in t.maker <==> t.ps[k].state == Embryo;
    }
    forall k {:trigger k in maker} | k in maker ensures k < |r| && MakerOk(r, maker, k) {
      if k != p {
        assert k in t.maker && MakerOk(t.ps, t.maker, k);
      }
    }
  }

  /** Nobody has exited yet and init is the only process. */
  lemma InitOk(t: Table)
    requires t.init < |t.ps| && t.ps[t.init] == Proc(Runnable, 1, None, NoChan, false) && t.nextpid == 2
    requires forall k :: 0 <= k < |t.ps| && k != t.init ==> t.ps[k] == FREED
    requires forall c :: 0 <= c < |t.cpus| ==> t.cpus[c] == None
    requires t.exited == t.collected == {} && t.maker == map[]
    ensures Ok(t)
  {
  }
}
