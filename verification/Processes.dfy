/** The process table of proc.c.  Every method is one stretch of kernel code run with
    ptable.lock held, so the invariant is what holds whenever the lock is free. */
module Processes {
  import opened ProcTable
  import opened Wrappers

  /** One pass of wait's loop: a child collected, -1, or gone to sleep until woken. */
  datatype WaitResult = Collected(pid: nat) | Refused | Slept

  class Ptable {
    const proc: array<Proc>
    const cpu: array<Option<nat>>
    const init: nat
    var nextpid: nat
    ghost var exited: set<nat>
    ghost var collected: set<nat>
    ghost var maker: map<nat, nat>

    ghost function View(): Table
      reads this, proc, cpu
    {
      Table(proc[..], cpu[..], nextpid, init, exited, collected, maker)
    }

    ghost predicate Valid()
      reads this, proc, cpu
    {
      Ok(View())
    }

    /** After userinit. */
    constructor (nproc: nat, ncpu: nat)
      requires 0 < nproc
      ensures Valid() && fresh(proc) && fresh(cpu) && proc.Length == nproc && cpu.Length == ncpu
      ensures init == 0 && proc[..] == seq(nproc, _ => FREED)[0 := Proc(Runnable, 1, None, NoChan, false)]
      ensures forall c :: 0 <= c < ncpu ==> cpu[c] == None
    {
      proc := new Proc[nproc](_ => FREED);
      cpu := new Option<nat>[ncpu](_ => None);
      init, nextpid := 0, 2;
      exited, collected, maker := {}, {}, map[];
      new;
      proc[0] := Proc(Runnable, 1, None, NoChan, false);
      InitOk(View());
    }

    // ---- sleep and wakeup ------------------------------------------------------------

    method Wakeup1(chan: Chan)
      modifies proc
      ensures proc[..] == Woken(old(proc[..]), chan)
    {
      var i := 0;
      while i < proc.Length
        invariant i <= proc.Length && proc[..] == WokenTo(old(proc[..]), chan, i)
      {
        if proc[i].state == Sleeping && proc[i].chan == chan {
          proc[i] := proc[i].(state := Runnable);
        }
        i := i + 1;
      }
    }

    method Wakeup(chan: Chan)
      requires Valid()
      modifies proc
      ensures Valid() && View() == old(View()).(ps := Woken(old(proc[..]), chan))
      ensures forall k :: 0 <= k < proc.Length ==>
                proc[k] == old(proc[k]).(state := if old(proc[k]).state == Sleeping && old(proc[k]).chan == chan
                                                  then Runnable else old(proc[k]).state)
    {
      WokenKeeps(View(), chan);
      Wakeup1(chan);
    }

    /** The entry of p and the CPU c change together. */
    method Set(p: nat, q: Proc, c: nat, who: Option<nat>)
      requires p < proc.Length && c < cpu.Length
      requires Ok(Changed(View(), p, q, cpu[..][c := who]))
      modifies proc, cpu
      ensures Valid() && View() == Changed(old(View()), p, q, old(cpu[..])[c := who])
    {
      proc[p] := q;
      cpu[c] := who;
    }

    /** sleep on something other than a process. */
    method Sleep(c: nat, a: nat)
      requires Valid() && c < cpu.Length && cpu[c].Some?
      modifies proc, cpu
      ensures Valid() && cpu[..] == old(cpu[..])[c := None]
      ensures var p := old(cpu[c]).value;
              p < proc.Length && proc[..] == old(proc[..])[p := old(proc[p]).(chan := OnOther(a), state := Sleeping)]
    {
      var p := cpu[c].value;
      var q := proc[p].(chan := OnOther(a), state := Sleeping);
      OffCpu(proc[..], cpu[..], c, p, q);
      CalmKeeps(View(), p, q, cpu[..][c := None]);
      Set(p, q, c, None);
    }

    method Yield(c: nat)
      requires Valid() && c < cpu.Length && cpu[c].Some?
      modifies proc, cpu
      ensures Valid() && cpu[..] == old(cpu[..])[c := None]
      ensures var p := old(cpu[c]).value;
              p < proc.Length && proc[..] == old(proc[..])[p := old(proc[p]).(state := Runnable)]
    {
      var p := cpu[c].value;
      var q := proc[p].(state := Runnable);
      assert ParentOk(proc[..], init, p);
      OffCpu(proc[..], cpu[..], c, p, q);
      CalmKeeps(View(), p, q, cpu[..][c := None]);
      Set(p, q, c, None);
    }

    /** kill: the flag, and a way out of sleep. */
    method Kill(pid: nat) returns (found: bool)
      requires Valid()
      modifies proc
      ensures Valid()
      ensures found <==> exists p :: 0 <= p < proc.Length && old(proc[p]).pid == pid
      ensures found ==> exists p: nat :: KilledFirst(old(proc[..]), proc[..], p, pid)
      ensures !found ==> View() == old(View())
      ensures found ==> exists p: nat :: p < proc.Length && MarkedKilled(old(proc[p]), proc[p])
                                         && forall k :: 0 <= k < proc.Length && k != p ==> proc[k] == old(proc[k])
    {
      var p := 0;
      while p < proc.Length
        invariant p <= proc.Length && View() == old(View()) && forall k :: 0 <= k < p ==> proc[k].pid != pid
      {
        if proc[p].pid == pid {
          KillKeeps(View(), p);
          proc[p] := Killed(proc[p]);
          assert KilledFirst(old(proc[..]), proc[..], p, pid);
          return true;
        }
        p := p + 1;
      }
      return false;
    }

    /** One choice of the scheduler on an idle CPU; a process that comes back from sleep clears
        its chan before it lets go of the lock. */
    method Schedule(c: nat) returns (r: Option<nat>)
      requires Valid() && c < cpu.Length && cpu[c] == None
      modifies proc, cpu
      ensures Valid() && cpu[c] == r
      ensures r.Some? ==> r.value < proc.Length && old(proc[r.value]).state == Runnable && cpu[..] == old(cpu[..])[c := r]
      ensures r.Some? ==> proc[..] == old(proc[..])[r.value := old(proc[r.value]).(state := Running, chan := NoChan)]
      ensures r.None? ==> View() == old(View()) && forall p :: 0 <= p < proc.Length ==> proc[p].state != Runnable
    {
      var p := 0;
      while p < proc.Length && proc[p].state != Runnable
        invariant p <= proc.Length && forall k :: 0 <= k < p ==> proc[k].state != Runnable
      {
        p := p + 1;
      }
      if p == proc.Length {
        return None;
      }
      var q := proc[p].(state := Running, chan := NoChan);
      ToCpu(proc[..], cpu[..], c, p, q);
      CalmKeeps(View(), p, q, cpu[..][c := Some(p)]);
      Set(p, q, c, Some(p));
      return Some(p);
    }

    // ---- exit ------------------------------------------------------------------------

    /** exit; true is the panic "init exiting". */
    method Exit(c: nat) returns (panic: bool)
      requires Valid() && c < cpu.Length && cpu[c].Some? && cpu[c].value !in maker.Values
      modifies proc, cpu, this`exited
      ensures Valid() && (panic <==> old(cpu[c]).value == init)
      ensures panic ==> View() == old(View())
      ensures !panic ==> var p := old(cpu[c]).value;
                && p < proc.Length && old(proc[p]).parent.Some? && proc[..] == Exited(old(proc[..]), p, init)
                && cpu[..] == old(cpu[..])[c := None]
                && old(proc[p]).pid !in old(exited) && exited == old(exited) + {old(proc[p]).pid}
    {
      var p := cpu[c].value;
      panic := p == init;
      if !panic {
        assert ParentOk(proc[..], init, p);
        ghost var ps := proc[..];
        RousedParent(View(), p);
        Wakeup(OnProc(proc[p].parent.value));
        GiveAway(p);
        Die(c, p);
      }
    }

    method GiveAway(p: nat)
      requires Valid() && p < proc.Length && p != init && proc[p].state == Running && p !in maker.Values
      modifies proc
      ensures Valid() && View() == old(View()).(ps := Abandoned(old(proc[..]), p, init, proc.Length))
      ensures (forall k :: 0 <= k < proc.Length ==> !ChildOf(proc[..], k, p)) && proc[p] == old(proc[p])
      ensures forall w :: 0 <= w < proc.Length && InWait(proc[..], w) ==> InWait(old(proc[..]), w)
    {
      ghost var ps := proc[..];
      AbandonedKeeps(View(), p);
      var i := 0;
      while i < proc.Length
        invariant i <= proc.Length && proc[..] == Abandoned(ps, p, init, i)
      {
        GiveOne(p, i, ps);
        i := i + 1;
      }
      assert proc[p] == proc[..][p];
    }

    method GiveOne(p: nat, i: nat, ghost ps: seq<Proc>)
      requires i < proc.Length == |ps| && p != init && proc[..] == Abandoned(ps, p, init, i)
      modifies proc
      ensures proc[..] == Abandoned(ps, p, init, i + 1)
    {
      GiveStep(ps, p, init, i);
      assert proc[i] == proc[..][i];
      if proc[i].parent == Some(p) {
        proc[i] := proc[i].(parent := Some(init));
        if proc[i].state == Zombie {
          Wakeup1(OnProc(init));
        }
      }
    }

    method Die(c: nat, p: nat)
      requires Valid() && c < cpu.Length && cpu[c] == Some(p) && p < proc.Length && p != init && p !in maker.Values
      requires proc[p].parent.Some? && forall k :: 0 <= k < proc.Length ==> !ChildOf(proc[..], k, p)
      requires proc[p].parent.value < proc.Length && !InWait(proc[..], proc[p].parent.value)
      modifies proc, cpu, this`exited
      ensures Valid() && proc[..] == old(proc[..])[p := old(proc[p]).(state := Zombie)] && cpu[..] == old(cpu[..])[c := None]
      ensures old(proc[p]).pid !in old(exited) && exited == old(exited) + {old(proc[p]).pid}
    {
      ZombieKeeps(View(), c, p);
      exited := exited + {proc[p].pid};
      proc[p] := proc[p].(state := Zombie);
      cpu[c] := None;
    }

    // ---- wait ------------------------------------------------------------------------

    /** One pass of wait: the first zombie child is collected; without children, or killed,
        -1; otherwise sleep.  A pid is collected only after its exit and never again. */
    method Wait(c: nat) returns (r: WaitResult)
      requires Valid() && c < cpu.Length && cpu[c].Some?
      modifies proc, cpu, this`collected
      ensures Valid()
      ensures r.Collected? <==> HasZombie(old(proc[..]), old(cpu[c]).value)
      ensures r.Collected? ==> exists q: nat :: CollectedChild(old(proc[..]), proc[..], old(cpu[c]).value, q, r.pid)
      ensures r.Collected? ==> cpu[..] == old(cpu[..])
      ensures r.Collected? ==> r.pid in exited && r.pid !in old(collected) && collected == old(collected) + {r.pid}
      ensures !r.Collected? ==> collected == old(collected)
      ensures r.Refused? <==> !HasZombie(old(proc[..]), old(cpu[c]).value)
                              && (!HasChild(old(proc[..]), old(cpu[c]).value) || old(proc[cpu[c].value]).killed)
      ensures r.Refused? ==> View() == old(View())
      ensures r.Slept? ==> var p := old(cpu[c]).value;
                && proc[..] == old(proc[..])[p := old(proc[p]).(chan := OnProc(p), state := Sleeping)]
                && cpu[..] == old(cpu[..])[c := None]
    {
      var p := cpu[c].value;
      var q, havekids := Scan(p);
      if q.Some? {
        assert HasZombie(proc[..], p);
        r := Collect(p, q.value);
      } else if !havekids || proc[p].killed {
        r := Refused;
      } else {
        var s := proc[p].(chan := OnProc(p), state := Sleeping);
        OffCpu(proc[..], cpu[..], c, p, s);
        CalmKeeps(View(), p, s, cpu[..][c := None]);
        Set(p, s, c, None);
        r := Slept;
      }
    }

    method Scan(p: nat) returns (q: Option<nat>, havekids: bool)
      ensures q.Some? ==> FirstZombie(proc[..], p, q.value)
      ensures q.None? ==> !HasZombie(proc[..], p) && (havekids <==> HasChild(proc[..], p))
    {
      havekids := false;
      var i := 0;
      while i < proc.Length
        invariant i <= proc.Length
        invariant forall k: nat {:trigger ChildOf(proc[..], k, p)} :: k < i && ChildOf(proc[..], k, p) ==> proc[k].state != Zombie
        invariant havekids <==> exists k: nat {:trigger ChildOf(proc[..], k, p)} :: k < i && ChildOf(proc[..], k, p)
      {
        assert ChildOf(proc[..], i, p) <==> proc[i].parent == Some(p);
        if proc[i].parent == Some(p) {
          havekids := true;
          if proc[i].state == Zombie {
            return Some(i), true;
          }
        }
        i := i + 1;
      }
      return None, havekids;
    }

    method Collect(p: nat, q: nat) returns (r: WaitResult)
      requires Valid() && p < proc.Length && proc[p].state == Running && FirstZombie(proc[..], p, q)
      modifies proc, this`collected
      ensures Valid() && r.Collected? && CollectedChild(old(proc[..]), proc[..], p, q, r.pid)
      ensures r.pid in exited && r.pid !in old(collected) && collected == old(collected) + {r.pid}
    {
      CollectKeeps(View(), p, q);
      r := Collected(proc[q].pid);
      collected := collected + {proc[q].pid};
      proc[q] := FREED.(chan := proc[q].chan);
    }

    // ---- fork ------------------------------------------------------------------------

    /** allocproc, called by the process on CPU c. */
    method Allocproc(c: nat) returns (r: Option<nat>)
      requires Valid() && c < cpu.Length && cpu[c].Some?
      modifies proc, this`nextpid, this`maker
      ensures Valid()
      ensures r.None? ==> View() == old(View()) && forall k :: 0 <= k < proc.Length ==> proc[k].state != Unused
      ensures r.Some? ==> r.value < proc.Length && old(proc[r.value]).state == Unused && maker == old(maker)[r.value := cpu[c].value]
      ensures r.Some? ==> proc[..] == old(proc[..])[r.value := old(proc[r.value]).(state := Embryo, pid := old(nextpid))]
      ensures r.Some? ==> nextpid == old(nextpid) + 1
    {
      var p := 0;
      while p < proc.Length && proc[p].state != Unused
        invariant p <= proc.Length && forall k :: 0 <= k < p ==> proc[k].state != Unused
      {
        p := p + 1;
      }
      if p == proc.Length {
        return None;
      }
      Seedling(View(), p);
      Bud(p, proc[p].(state := Embryo, pid := nextpid), nextpid + 1, maker[p := cpu[c].value]);
      return Some(p);
    }

    /** fork without memory gives the entry back. */
    method ForkFail(np: nat)
      requires Valid() && np < proc.Length && proc[np].state == Embryo && proc[np].parent == None
      modifies proc, this`nextpid, this`maker
      ensures Valid() && proc[..] == old(proc[..])[np := old(proc[np]).(state := Unused)]
              && maker == old(maker) - {np} && nextpid == old(nextpid)
    {
      Seedling(View(), np);
      Bud(np, proc[np].(state := Unused), nextpid, maker - {np});
    }

    /** The embryo gets its parent. */
    method ForkParent(np: nat, c: nat)
      requires Valid() && np < proc.Length && proc[np].state == Embryo && proc[np].parent == None
      requires c < cpu.Length && cpu[c].Some? && np in maker && maker[np] == cpu[c].value
      modifies proc, this`nextpid, this`maker
      ensures Valid() && proc[..] == old(proc[..])[np := old(proc[np]).(parent := cpu[c])] && maker == old(maker) && nextpid == old(nextpid)
    {
      assert MakerOk(proc[..], maker, np);
      Seedling(View(), np);
      Bud(np, proc[np].(parent := cpu[c]), nextpid, maker);
    }

    /** The embryo is ready to run. */
    method ForkDone(np: nat)
      requires Valid() && np < proc.Length && proc[np].state == Embryo && proc[np].parent.Some?
      modifies proc, this`nextpid, this`maker
      ensures Valid() && proc[..] == old(proc[..])[np := old(proc[np]).(state := Runnable)]
              && maker == old(maker) - {np} && nextpid == old(nextpid)
    {
      Seedling(View(), np);
      Bud(np, proc[np].(state := Runnable), nextpid, maker - {np});
    }

    method Bud(p: nat, q: Proc, pid: nat, ghost m: map<nat, nat>)
      requires Valid() && p < proc.Length && Budding(View(), p, q, pid)
      requires q.state == Embryo ==> p in m && MakerOk(proc[..][p := q], m, p)
      requires forall k :: k in m <==> (k in maker && k != p) || (k == p && q.state == Embryo)
      requires forall k :: k in m && k != p ==> m[k] == maker[k]
      modifies proc, this`nextpid, this`maker
      ensures Valid() && proc[..] == old(proc[..])[p := q] && nextpid == pid && maker == m
    {
      BuddingKeeps(View(), p, q, pid, m);
      proc[p] := q;
      nextpid := pid;
      maker := m;
    }
  }

  /** The first entry with that pid is killed; no other entry changes. */
  ghost predicate KilledFirst(ps: seq<Proc>, rs: seq<Proc>, p: nat, pid: nat) {
    p < |ps| && ps[p].pid == pid && rs == ps[p := Killed(ps[p])] && forall k :: 0 <= k < p ==> ps[k].pid != pid
  }

  ghost predicate FirstZombie(ps: seq<Proc>, p: nat, q: nat) {
    && q < |ps| && ChildOf(ps, q, p) && ps[q].state == Zombie
    && forall k: nat {:trigger ChildOf(ps, k, p)} :: k < q && ChildOf(ps, k, p) ==> ps[k].state != Zombie
  }

  /** p's first zombie child q, of that pid, is freed; no other entry changes. */
  ghost predicate CollectedChild(ps: seq<Proc>, rs: seq<Proc>, p: nat, q: nat, pid: nat) {
    FirstZombie(ps, p, q) && ps[q].pid == pid && rs == ps[q := FREED.(chan := ps[q].chan)]
  }

  /** What the invariant says of an entry that is unused or an embryo. */
  lemma Seedling(t: Table, p: nat)
    requires Ok(t) && p < |t.ps| && (t.ps[p].state == Unused || t.ps[p].state == Embryo)
    ensures p != t.init && 0 < t.nextpid
    ensures t.ps[p].state == Unused ==> t.ps[p].parent == None && p !in t.maker
    ensures t.ps[p].state == Embryo ==> 0 < t.ps[p].pid < t.nextpid && p in t.maker && MakerOk(t.ps, t.maker, p)
  {
    assert ParentOk(t.ps, t.init, p);
    assert PidOk(t.ps, t.nextpid, t.exited, t.collected, p) && PidOk(t.ps, t.nextpid, t.exited, t.collected, t.init);
    assert p in t.maker <==> t.ps[p].state == Embryo;
  }

  lemma RousedParent(t: Table, p: nat)
    requires Ok(t) && p < |t.ps| && p != t.init && t.ps[p].state == Running
    ensures t.ps[p].parent.Some? && t.ps[p].parent.value < |t.ps|
    ensures var r := Woken(t.ps, OnProc(t.ps[p].parent.value)); r[p] == t.ps[p] && !InWait(r, t.ps[p].parent.value)
  {
    assert ParentOk(t.ps, t.init, p);
  }

  /** One more entry of exit's loop. */
  lemma GiveStep(ps: seq<Proc>, p: nat, init: nat, i: nat)
    requires i < |ps| && p != init
    ensures var a := Abandoned(ps, p, init, i);
            && a[i].parent == ps[i].parent && (a[i].state == Zombie <==> ps[i].state == Zombie)
            && Abandoned(ps, p, init, i + 1) ==
                 if ps[i].parent != Some(p) then a
                 else if ps[i].state == Zombie then Woken(a[i := a[i].(parent := Some(init))], OnProc(init))
                 else a[i := a[i].(parent := Some(init))]
  {
    var g, h := PassedTo(ps, p, init, i), PassedTo(ps, p, init, i + 1);
    assert ChildOf(ps, i, p) <==> ps[i].parent == Some(p);
    assert h == if ps[i].parent == Some(p) then g[i := g[i].(parent := Some(init))] else g;
    var w := Woken(g, OnProc(init));
    assert Woken(w[i := w[i].(parent := Some(init))], OnProc(init)) == Woken(g[i := g[i].(parent := Some(init))], OnProc(init));
    assert w[i := w[i].(parent := Some(init))] == Woken(g[i := g[i].(parent := Some(init))], OnProc(init));
  }
}
