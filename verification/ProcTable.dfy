/**
 The process table. Every function here is what one section of proc.c does to the table while it holds
 ptable.lock, or one of fork's two unlocked writes to the slot it has allocated; the class runs them as
 the loops of the source. The invariant `TableOk` holds whenever the lock is free.
 */
module ProcTable {
  import opened Options

  datatype RunState = UNUSED | EMBRYO | SLEEPING | RUNNABLE | RUNNING | ZOMBIE

  /** What a process sleeps on: nothing, a process-table slot (in wait, its own), or anything else. */
  datatype Chan = NoChan | Slot(slot: nat) | Other(id: nat)

  datatype Proc = Proc(state: RunState, pid: nat, parent: Option<nat>, chan: Chan, killed: bool)

  type Table = seq<Proc>

  // ----- The invariant -----

  predicate InUse(p: Proc) {
    p.state != UNUSED
  }

  /** A process that can be somebody's parent: in use, past EMBRYO, not yet exited. */
  predicate Alive(p: Proc) {
    p.state == SLEEPING || p.state == RUNNABLE || p.state == RUNNING
  }

  predicate InWait(t: Table, i: nat)
    requires i < |t|
  {
    t[i].state == SLEEPING && t[i].chan == Slot(i)
  }

  predicate ZombieChild(t: Table, i: nat, z: nat)
    requires z < |t|
  {
    t[z].state == ZOMBIE && t[z].parent == Some(i)
  }

  /** Slot `i` has the parent it must have: a living process with a smaller pid, unless it is init or not yet started. */
  ghost predicate ParentOk(t: Table, init: nat, i: nat)
    requires i < |t|
  {
    && (t[i].parent.Some? ==> t[i].parent.value < |t| && Alive(t[t[i].parent.value]) && t[t[i].parent.value].pid < t[i].pid)
    && (t[i].parent.None? ==> i == init || t[i].state == UNUSED || t[i].state == EMBRYO)
    && (t[i].state == UNUSED ==> t[i].parent.None?)
  }

  ghost predicate PidsOk(t: Table, init: nat, nextpid: nat) {
    && init < |t| && Alive(t[init]) && t[init].parent.None?
    && (forall i :: 0 <= i < |t| && InUse(t[i]) ==> 0 < t[i].pid < nextpid)
    && (forall i :: 0 <= i < |t| && InUse(t[i]) && i != init ==> t[init].pid < t[i].pid)
    && (forall i, j :: 0 <= i < j < |t| && InUse(t[i]) && InUse(t[j]) ==> t[i].pid != t[j].pid)
  }

  /** No process sleeps in wait while it has a zombie child. */
  ghost predicate WaitOk(t: Table) {
    forall i: nat, z: nat :: i < |t| && z < |t| && InWait(t, i) ==> !ZombieChild(t, i, z)
  }

  ghost predicate OnCpu(cur: seq<Option<nat>>, i: nat) {
    exists c :: 0 <= c < |cur| && cur[c] == Some(i)
  }

  /** A process is RUNNING exactly when exactly one CPU runs it. */
  ghost predicate CpusOk(t: Table, cur: seq<Option<nat>>) {
    && (forall i: nat :: i < |t| ==> (t[i].state == RUNNING <==> OnCpu(cur, i)))
    && (forall c :: 0 <= c < |cur| && cur[c].Some? ==> cur[c].value < |t|)
    && (forall c, d :: 0 <= c < d < |cur| && cur[c].Some? ==> cur[c] != cur[d])
  }

  ghost predicate TableOk(t: Table, init: nat, nextpid: nat) {
    && PidsOk(t, init, nextpid)
    && (forall i: nat :: i < |t| ==> ParentOk(t, init, i))
    && WaitOk(t)
  }

  // ----- Parents form a tree rooted at init -----

  /** The chain of parents from slot `i` up. */
  ghost function Ancestors(t: Table, init: nat, nextpid: nat, i: nat): (r: seq<nat>)
    requires TableOk(t, init, nextpid) && i < |t|
    decreases t[i].pid
  {
    assert ParentOk(t, init, i);
    if t[i].parent.None? then [i] else [i] + Ancestors(t, init, nextpid, t[i].parent.value)
  }

  /** Every started process descends from init through living processes, with pids falling on the way. */
  lemma {:induction false} DescendsFromInit(t: Table, init: nat, nextpid: nat, i: nat)
    requires TableOk(t, init, nextpid) && i < |t| && (Alive(t[i]) || t[i].state == ZOMBIE)
    ensures var up := Ancestors(t, init, nextpid, i);
            && up[0] == i && up[|up| - 1] == init
            && (forall k :: 0 <= k < |up| ==> up[k] < |t|)
            && (forall k :: 0 < k < |up| ==> Alive(t[up[k]]) && t[up[k - 1]].parent == Some(up[k]) && t[up[k]].pid < t[up[k - 1]].pid)
    decreases t[i].pid
  {
    assert ParentOk(t, init, i);
    if t[i].parent.Some? {
      var q := t[i].parent.value;
      DescendsFromInit(t, init, nextpid, q);
      var up, rest := Ancestors(t, init, nextpid, i), Ancestors(t, init, nextpid, q);
      assert up == [i] + rest;
      forall k | 0 < k < |up|
        ensures Alive(t[up[k]]) && t[up[k - 1]].parent == Some(up[k]) && t[up[k]].pid < t[up[k - 1]].pid
      {
        assert up[k] == rest[k - 1];
        if k > 1 {
          assert up[k - 1] == rest[k - 2];
        }
      }
    }
  }

  // ----- The sections -----

  /** allocproc, in the slot it found. */
  function Alloc(t: Table, i: nat, pid: nat): Table
    requires i < |t|
  {
    t[i := t[i].(state := EMBRYO, pid := pid)]
  }

  /** wakeup1: every process sleeping on `chan` becomes runnable. */
  function Wake(p: Proc, chan: Chan): Proc {
    if p.state == SLEEPING && p.chan == chan then p.(state := RUNNABLE) else p
  }

  function Wakeup1(t: Table, chan: Chan): (r: Table)
    ensures |r| == |t|
    ensures forall i :: 0 <= i < |t| ==> r[i] == Wake(t[i], chan)
  {
    seq(|t|, i requires 0 <= i < |t| => Wake(t[i], chan))
  }

  /** From `t` to `t'` who slept on `chan` is runnable, so that nobody sleeps on it any more, and nothing else changed. */
  ghost predicate Woken(t: Table, t': Table, chan: Chan) {
    && |t'| == |t|
    && forall i :: 0 <= i < |t| ==>
         && !(t'[i].state == SLEEPING && t'[i].chan == chan)
         && t'[i] == if t[i].state == SLEEPING && t[i].chan == chan then t[i].(state := RUNNABLE) else t[i]
  }

  lemma {:induction false} WokenOk(t: Table, cur: seq<Option<nat>>, init: nat, nextpid: nat, chan: Chan)
    requires TableOk(t, init, nextpid) && CpusOk(t, cur)
    ensures var t' := Wakeup1(t, chan); Woken(t, t', chan) && TableOk(t', init, nextpid) && CpusOk(t', cur)
  {
    hide TableOk;
    SameFamilyOk(t, Wakeup1(t, chan), init, nextpid);
    CpusKept(t, Wakeup1(t, chan), cur);
  }

  /** Whether some child of `me` in `t[..n]` is a zombie, which wakes init when it inherits it. */
  ghost predicate LeavesZombie(t: Table, me: nat, n: nat)
    requires n <= |t|
  {
    exists z: nat :: z < n && ZombieChild(t, me, z)
  }

  function Adopt(p: Proc, me: nat, init: nat): Proc {
    if p.parent == Some(me) then p.(parent := Some(init)) else p
  }

  /** What exit does to another process: `q` is the exiting process's parent. */
  function AfterExit(p: Proc, q: nat, me: nat, init: nat, wakeInit: bool): Proc {
    var p1 := Wake(p, Slot(q));
    Adopt(if wakeInit then Wake(p1, Slot(init)) else p1, me, init)
  }

  /** exit's section: wake the parent, give the children to init, waking it for a zombie, become a zombie. */
  ghost function Exited(t: Table, me: nat, init: nat): (r: Table)
    requires me < |t| && t[me].parent.Some?
    ensures |r| == |t|
    ensures forall i :: 0 <= i < |t| && i != me ==> r[i] == AfterExit(t[i], t[me].parent.value, me, init, LeavesZombie(t, me, |t|))
    ensures r[me] == AfterExit(t[me], t[me].parent.value, me, init, LeavesZombie(t, me, |t|)).(state := ZOMBIE)
  {
    var r := seq(|t|, i requires 0 <= i < |t| => AfterExit(t[i], t[me].parent.value, me, init, LeavesZombie(t, me, |t|)));
    r[me := r[me].(state := ZOMBIE)]
  }

  /**
   From `t` to `t'` process `me` exited: it is a zombie, its children are init's, who sleeps on its parent is runnable,
   and so is who sleeps on init if a child was a zombie; nothing else changed.
   */
  ghost predicate HasExited(t: Table, t': Table, me: nat, init: nat) {
    && me < |t| == |t'| && t[me].parent.Some? && t'[me].state == ZOMBIE
    && var orphan := exists z: nat :: z < |t| && ZombieChild(t, me, z);
       forall i :: 0 <= i < |t| ==>
         && t'[i].pid == t[i].pid && t'[i].chan == t[i].chan && t'[i].killed == t[i].killed
         && t'[i].parent == (if t[i].parent == Some(me) then Some(init) else t[i].parent)
         && (i != me ==>
               t'[i].state ==
               if t[i].state == SLEEPING && (t[i].chan == Slot(t[me].parent.value) || (orphan && t[i].chan == Slot(init)))
               then RUNNABLE else t[i].state)
  }

  lemma {:induction false} ExitedIs(t: Table, me: nat, init: nat)
    requires me < |t| && t[me].parent.Some?
    ensures HasExited(t, Exited(t, me, init), me, init)
  {
    hide Exited;
  }

  /** wait's section when it finds the zombie child `z`. */
  function Reaped(t: Table, z: nat): Table
    requires z < |t|
  {
    t[z := t[z].(state := UNUSED, pid := 0, parent := None, killed := false)]
  }

  // ----- Every section keeps the invariant -----

  /** Only living processes changed how they live, and none started to sleep in wait. */
  ghost predicate SameFamily(t: Table, t': Table) {
    && |t| == |t'|
    && (forall i :: 0 <= i < |t| ==> t'[i].pid == t[i].pid && t'[i].parent == t[i].parent)
    && (forall i :: 0 <= i < |t| ==> t'[i].state == t[i].state || (Alive(t[i]) && Alive(t'[i])))
    && (forall i: nat :: i < |t| && InWait(t', i) ==> InWait(t, i))
  }

  lemma {:induction false} SameFamilyOk(t: Table, t': Table, init: nat, nextpid: nat)
    requires TableOk(t, init, nextpid) && SameFamily(t, t')
    ensures TableOk(t', init, nextpid)
  {
    forall i: nat | i < |t| ensures ParentOk(t', init, i) {
      assert ParentOk(t, init, i);
    }
    forall i: nat, z: nat | i < |t| && z < |t| && InWait(t', i) ensures !ZombieChild(t', i, z) {
      assert InWait(t, i) && !ZombieChild(t, i, z);
    }
  }

  lemma {:induction false} AllocOk(t: Table, init: nat, nextpid: nat, i: nat)
    requires TableOk(t, init, nextpid) && i < |t| && t[i].state == UNUSED
    ensures TableOk(Alloc(t, i, nextpid), init, nextpid + 1)
  {
    var t' := Alloc(t, i, nextpid);
    assert ParentOk(t, init, i);
    forall j: nat | j < |t| ensures ParentOk(t', init, j) {
      assert ParentOk(t, init, j);
    }
    forall j: nat, z: nat | j < |t| && z < |t| && InWait(t', j) ensures !ZombieChild(t', j, z) {
      assert InWait(t, j) && !ZombieChild(t, j, z);
    }
  }

  /** fork's last write to a slot it allocated: its parent, and later its state; or the slot is given back. */
  lemma {:induction false} EmbryoOk(t: Table, init: nat, nextpid: nat, np: nat, x: Proc)
    requires TableOk(t, init, nextpid) && np < |t| && np != init && t[np].state == EMBRYO
    requires x.pid == t[np].pid && x.chan == t[np].chan
    requires (x.state == EMBRYO && x.parent.Some? && x.parent.value < |t| && x.parent.value != np
              && Alive(t[x.parent.value]) && t[x.parent.value].pid < x.pid)
          || (x.state == RUNNABLE && x.parent == t[np].parent && x.parent.Some?)
          || (x.state == UNUSED && x.parent == t[np].parent && x.parent.None?)
    ensures TableOk(t[np := x], init, nextpid)
  {
    var t' := t[np := x];
    forall j: nat | j < |t| ensures ParentOk(t', init, j) {
      assert ParentOk(t, init, j);
    }
    forall j: nat, z: nat | j < |t| && z < |t| && InWait(t', j) ensures !ZombieChild(t', j, z) {
      assert InWait(t, j) && !ZombieChild(t, j, z);
    }
  }

  lemma {:induction false} ReapedOk(t: Table, init: nat, nextpid: nat, z: nat)
    requires TableOk(t, init, nextpid) && z < |t| && t[z].state == ZOMBIE
    ensures TableOk(Reaped(t, z), init, nextpid)
  {
    var t' := Reaped(t, z);
    forall j: nat | j < |t| ensures ParentOk(t', init, j) {
      assert ParentOk(t, init, j);
    }
    forall j: nat, y: nat | j < |t| && y < |t| && InWait(t', j) ensures !ZombieChild(t', j, y) {
      assert InWait(t, j) && !ZombieChild(t, j, y);
    }
  }

  /** Falling asleep in wait is safe right after a scan that found no zombie child. */
  lemma {:induction false} WaitSleepOk(t: Table, init: nat, nextpid: nat, me: nat)
    requires TableOk(t, init, nextpid) && me < |t| && Alive(t[me])
    requires forall z: nat :: z < |t| ==> !ZombieChild(t, me, z)
    ensures TableOk(t[me := t[me].(state := SLEEPING, chan := Slot(me))], init, nextpid)
  {
    var t' := t[me := t[me].(state := SLEEPING, chan := Slot(me))];
    forall j: nat | j < |t| ensures ParentOk(t', init, j) {
      assert ParentOk(t, init, j);
    }
    forall j: nat, z: nat | j < |t| && z < |t| && InWait(t', j) ensures !ZombieChild(t', j, z) {
      assert j != me ==> InWait(t, j) && !ZombieChild(t, j, z);
      assert !ZombieChild(t, me, z);
    }
  }

  /** exit keeps every invariant: nobody is left with a dead parent, and nobody who must reap is left asleep. */
  lemma {:induction false} ExitedOk(t: Table, init: nat, nextpid: nat, me: nat)
    requires TableOk(t, init, nextpid) && me < |t| && me != init && Alive(t[me])
    ensures t[me].parent.Some?
    ensures TableOk(Exited(t, me, init), init, nextpid)
  {
    assert ParentOk(t, init, me);
    hide Exited, ParentOk, WaitOk, InWait, ZombieChild;
    var t' := Exited(t, me, init);
    ExitedPids(t, init, nextpid, me);
    forall j: nat | j < |t| ensures ParentOk(t', init, j) {
      ExitedParent(t, init, nextpid, me, j);
    }
    assert WaitOk(t') by {
      ExitedWaits(t, init, nextpid, me);
    }
  }

  lemma {:induction false} ExitedWaits(t: Table, init: nat, nextpid: nat, me: nat)
    requires TableOk(t, init, nextpid) && me < |t| && me != init && Alive(t[me]) && t[me].parent.Some?
    ensures WaitOk(Exited(t, me, init))
  {
    var t' := Exited(t, me, init);
    hide Exited, TableOk;
    forall j: nat, z: nat | j < |t| && z < |t| && InWait(t', j) ensures !ZombieChild(t', j, z) {
      ExitedWait(t, init, nextpid, me, j, z);
    }
  }

  lemma {:induction false} ExitedPids(t: Table, init: nat, nextpid: nat, me: nat)
    requires TableOk(t, init, nextpid) && me < |t| && me != init && Alive(t[me]) && t[me].parent.Some?
    ensures PidsOk(Exited(t, me, init), init, nextpid)
  {
    var t' := Exited(t, me, init);
    assert ParentOk(t, init, init);
    assert forall i :: 0 <= i < |t| ==> t'[i].pid == t[i].pid && (InUse(t'[i]) <==> InUse(t[i]));
    hide Exited, ParentOk, WaitOk;
  }

  /** What exit changes in any slot: the parent of its children, and its own state. */
  lemma {:induction false} ExitedAt(t: Table, init: nat, me: nat, j: nat)
    requires me < |t| && t[me].parent.Some? && j < |t|
    ensures var x := Exited(t, me, init)[j];
            && x.pid == t[j].pid
            && x.parent == (if t[j].parent == Some(me) then Some(init) else t[j].parent)
            && (j != me && Alive(t[j]) ==> Alive(x))
            && (j != me && !Alive(t[j]) ==> x.state == t[j].state)
            && (j == me ==> x.state == ZOMBIE)
  {
  }

  lemma {:induction false} ExitedParent(t: Table, init: nat, nextpid: nat, me: nat, j: nat)
    requires TableOk(t, init, nextpid) && me < |t| && me != init && Alive(t[me]) && t[me].parent.Some?
    requires j < |t|
    ensures ParentOk(Exited(t, me, init), init, j)
  {
    assert ParentOk(t, init, j) && ParentOk(t, init, me);
    assert t[init].pid < t[me].pid && Alive(t[init]) && t[init].parent.None? && init < |t|;
    hide TableOk, Exited;
    ExitedAt(t, init, me, j);
    ExitedAt(t, init, me, init);
    if t[j].parent.Some? {
      ExitedAt(t, init, me, t[j].parent.value);
    }
  }

  lemma {:induction false} ExitedWait(t: Table, init: nat, nextpid: nat, me: nat, j: nat, z: nat)
    requires TableOk(t, init, nextpid) && me < |t| && me != init && Alive(t[me]) && t[me].parent.Some?
    requires j < |t| && z < |t| && InWait(Exited(t, me, init), j)
    ensures !ZombieChild(Exited(t, me, init), j, z)
  {
    assert ParentOk(t, init, me);
    assert InWait(t, j) && !ZombieChild(t, j, z);
    assert j != t[me].parent.value;
    if j == init {
      assert !LeavesZombie(t, me, |t|);
      assert !ZombieChild(t, me, z);
    }
  }

  // ----- The table -----

  /** Slot `i` is the first with this pid; it is marked killed and, if asleep, made runnable. */
  ghost predicate IsKilled(t: Table, t': Table, pid: nat, i: nat) {
    && i < |t| && t[i].pid == pid && (forall j :: 0 <= j < i ==> t[j].pid != pid)
    && t' == t[i := t[i].(killed := true, state := if t[i].state == SLEEPING then RUNNABLE else t[i].state)]
  }

  /** Slot `z` is the first zombie child of `me`; it had this pid and is now unused. */
  ghost predicate IsReaped(t: Table, t': Table, me: nat, pid: nat, z: nat) {
    && z < |t| && ZombieChild(t, me, z) && t[z].pid == pid
    && (forall y: nat :: y < z ==> !ZombieChild(t, me, y))
    && t' == t[z := Proc(UNUSED, 0, None, t[z].chan, false)]
  }

  /** What wait's section ends in. */
  datatype WaitResult = Child(pid: nat) | Nobody | Sleeps

  class Ptable {
    var proc: Table
    var cur: seq<Option<nat>>   // the process each CPU runs
    var nextpid: nat
    var initproc: nat

    ghost predicate Valid()
      reads this
    {
      TableOk(proc, initproc, nextpid) && CpusOk(proc, cur)
    }

    /** The machine after userinit: one runnable process with pid 1, everything else unused, `ncpu` idle CPUs. */
    constructor (nproc: nat, ncpu: nat)
      requires 0 < nproc
      ensures Valid() && |proc| == nproc && |cur| == ncpu
      ensures initproc == 0 && nextpid == 2 && proc[0] == Proc(RUNNABLE, 1, None, NoChan, false)
      ensures forall i :: 0 < i < nproc ==> proc[i] == Proc(UNUSED, 0, None, NoChan, false)
    {
      proc := seq(nproc, i => if i == 0 then Proc(RUNNABLE, 1, None, NoChan, false) else Proc(UNUSED, 0, None, NoChan, false));
      cur := seq(ncpu, _ => None);
      nextpid, initproc := 2, 0;
    }

    /** allocproc: the first unused slot becomes an EMBRYO with a new pid. */
    method AllocProc() returns (r: Option<nat>)
      requires Valid()
      modifies this
      ensures Valid() && cur == old(cur) && initproc == old(initproc)
      ensures r.None? ==> proc == old(proc) && nextpid == old(nextpid) && forall i :: 0 <= i < |proc| ==> InUse(proc[i])
      ensures r.Some? ==>
        && r.value < |old(proc)| && old(proc)[r.value].state == UNUSED
        && (forall i :: 0 <= i < r.value ==> InUse(old(proc)[i]))
        && proc == old(proc)[r.value := old(proc)[r.value].(state := EMBRYO, pid := old(nextpid))] && nextpid == old(nextpid) + 1
    {
      var i := 0;
      while i < |proc|
        invariant 0 <= i <= |proc| && forall j :: 0 <= j < i ==> InUse(proc[j])
      {
        if proc[i].state == UNUSED {
          AllocOk(proc, initproc, nextpid, i);
          CpusKept(proc, Alloc(proc, i, nextpid), cur);
          proc := Alloc(proc, i, nextpid);
          nextpid := nextpid + 1;
          return Some(i);
        }
        i := i + 1;
      }
      return None;
    }

    /** fork, having copied the address space: the child's parent is recorded. */
    method ForkParent(np: nat, me: nat)
      requires Valid() && np < |proc| && me < |proc| && np != initproc && np != me
      requires proc[np].state == EMBRYO && proc[me].state == RUNNING && proc[me].pid < proc[np].pid
      modifies this`proc
      ensures Valid() && proc == old(proc)[np := old(proc)[np].(parent := Some(me))]
    {
      EmbryoOk(proc, initproc, nextpid, np, proc[np].(parent := Some(me)));
      CpusKept(proc, proc[np := proc[np].(parent := Some(me))], cur);
      proc := proc[np := proc[np].(parent := Some(me))];
    }

    /** fork's end: the child may run. */
    method ForkRun(np: nat)
      requires Valid() && np < |proc| && np != initproc && proc[np].state == EMBRYO && proc[np].parent.Some?
      modifies this`proc
      ensures Valid() && proc == old(proc)[np := old(proc)[np].(state := RUNNABLE)]
    {
      EmbryoOk(proc, initproc, nextpid, np, proc[np].(state := RUNNABLE));
      CpusKept(proc, proc[np := proc[np].(state := RUNNABLE)], cur);
      proc := proc[np := proc[np].(state := RUNNABLE)];
    }

    /** allocproc or fork out of memory: the slot is given back. */
    method AllocFail(np: nat)
      requires Valid() && np < |proc| && np != initproc && proc[np].state == EMBRYO && proc[np].parent.None?
      modifies this`proc
      ensures Valid() && proc == old(proc)[np := old(proc)[np].(state := UNUSED)]
    {
      EmbryoOk(proc, initproc, nextpid, np, proc[np].(state := UNUSED));
      CpusKept(proc, proc[np := proc[np].(state := UNUSED)], cur);
      proc := proc[np := proc[np].(state := UNUSED)];
    }

    /** wakeup1's loop. */
    method WakeAll(chan: Chan)
      requires Valid()
      modifies this`proc
      ensures Valid() && proc == Wakeup1(old(proc), chan)
      ensures Woken(old(proc), proc, chan)
    {
      ghost var t := proc;
      WokenOk(t, cur, initproc, nextpid, chan);
      hide TableOk, CpusOk, Woken;
      WakeLoop(chan);
      assert proc == Wakeup1(t, chan);
    }

    method WakeLoop(chan: Chan)
      modifies this`proc
      ensures |proc| == |old(proc)| && forall i :: 0 <= i < |proc| ==> proc[i] == Wake(old(proc)[i], chan)
    {
      var i := 0;
      while i < |proc|
        invariant 0 <= i <= |proc| == |old(proc)|
        invariant forall j :: 0 <= j < i ==> proc[j] == Wake(old(proc)[j], chan)
        invariant forall j :: i <= j < |proc| ==> proc[j] == old(proc)[j]
      {
        if proc[i].state == SLEEPING && proc[i].chan == chan {
          proc := proc[i := proc[i].(state := RUNNABLE)];
        }
        i := i + 1;
      }
    }

    /** kill: the first process with the pid is marked and, if asleep, made runnable. */
    method Kill(pid: nat) returns (found: bool)
      requires Valid()
      modifies this`proc
      ensures Valid()
      ensures !found ==> proc == old(proc) && forall i :: 0 <= i < |proc| ==> proc[i].pid != pid
      ensures found ==> exists i: nat :: IsKilled(old(proc), proc, pid, i)
    {
      var i := 0;
      while i < |proc|
        invariant 0 <= i <= |proc| && proc == old(proc) && forall j :: 0 <= j < i ==> proc[j].pid != pid
      {
        if proc[i].pid == pid {
          var p := proc[i].(killed := true, state := if proc[i].state == SLEEPING then RUNNABLE else proc[i].state);
          SameFamilyOk(proc, proc[i := p], initproc, nextpid);
          CpusKept(proc, proc[i := p], cur);
          proc := proc[i := p];
          assert IsKilled(old(proc), proc, pid, i);
          return true;
        }
        i := i + 1;
      }
      return false;
    }

    /** One pass of the scheduler's loop from slot `from`: the next runnable process runs on this CPU. */
    method Schedule(cpu: nat, from: nat) returns (r: Option<nat>)
      requires Valid() && cpu < |cur| && cur[cpu] == None && from <= |proc|
      modifies this`proc, this`cur
      ensures Valid()
      ensures r.None? ==> proc == old(proc) && cur == old(cur) && forall i :: from <= i < |proc| ==> proc[i].state != RUNNABLE
      ensures r.Some? ==>
        && from <= r.value < |old(proc)| && old(proc)[r.value].state == RUNNABLE
        && (forall i :: from <= i < r.value ==> old(proc)[i].state != RUNNABLE)
        && proc == old(proc)[r.value := old(proc)[r.value].(state := RUNNING)] && cur == old(cur)[cpu := Some(r.value)]
    {
      var i := from;
      while i < |proc|
        invariant from <= i <= |proc| && proc == old(proc) && cur == old(cur)
        invariant forall j :: from <= j < i ==> proc[j].state != RUNNABLE
      {
        if proc[i].state == RUNNABLE {
          var t := proc[i := proc[i].(state := RUNNING)];
          SameFamilyOk(proc, t, initproc, nextpid);
          CpuSwitch(proc, t, cur, i, cpu);
          proc := t;
          cur := cur[cpu := Some(i)];
          return Some(i);
        }
        i := i + 1;
      }
      return None;
    }

    /** yield, up to the switch to the scheduler. */
    method Yield(me: nat, cpu: nat)
      requires Valid() && cpu < |cur| && cur[cpu] == Some(me)
      modifies this`proc, this`cur
      ensures Valid() && me < |proc| && cur == old(cur)[cpu := None]
      ensures proc == old(proc)[me := old(proc)[me].(state := RUNNABLE)]
    {
      assert OnCpu(cur, me);
      var t := proc[me := proc[me].(state := RUNNABLE)];
      SameFamilyOk(proc, t, initproc, nextpid);
      CpuSwitch(proc, t, cur, me, cpu);
      proc := t;
      cur := cur[cpu := None];
    }

    /** sleep on anything but one's own slot, up to the switch to the scheduler. */
    method Sleep(me: nat, chan: Chan, cpu: nat)
      requires Valid() && cpu < |cur| && cur[cpu] == Some(me) && chan != Slot(me)
      modifies this`proc, this`cur
      ensures Valid() && me < |proc| && cur == old(cur)[cpu := None]
      ensures proc == old(proc)[me := old(proc)[me].(state := SLEEPING, chan := chan)]
    {
      assert OnCpu(cur, me);
      var t := proc[me := proc[me].(state := SLEEPING, chan := chan)];
      SameFamilyOk(proc, t, initproc, nextpid);
      CpuSwitch(proc, t, cur, me, cpu);
      proc := t;
      cur := cur[cpu := None];
    }

    /** exit's section, up to the switch to the scheduler. */
    method Exit(me: nat, cpu: nat)
      requires Valid() && cpu < |cur| && cur[cpu] == Some(me) && me != initproc
      modifies this`proc, this`cur
      ensures Valid() && cur == old(cur)[cpu := None]
      ensures me < |old(proc)| && old(proc)[me].parent.Some? && proc == Exited(old(proc), me, initproc)
      ensures HasExited(old(proc), proc, me, initproc)
    {
      assert OnCpu(cur, me) && ParentOk(proc, initproc, me);
      ghost var t := proc;
      ExitedOk(t, initproc, nextpid, me);
      ExitedIs(t, me, initproc);
      hide TableOk, ParentOk, HasExited;
      GiveToInit(me);
      assert proc == Exited(t, me, initproc)[me := proc[me]];
      proc := proc[me := proc[me].(state := ZOMBIE)];
      assert proc == Exited(t, me, initproc);
      CpuSwitch(t, proc, cur, me, cpu);
      cur := cur[cpu := None];
    }

    /** exit: wake the parent, then pass the children to init. */
    method GiveToInit(me: nat)
      requires me < |proc| && proc[me].parent.Some?
      modifies this`proc
      ensures var t := old(proc);
        && |proc| == |t|
        && forall i :: 0 <= i < |t| ==> proc[i] == AfterExit(t[i], t[me].parent.value, me, initproc, LeavesZombie(t, me, |t|))
    {
      ghost var t, q := proc, proc[me].parent.value;
      WakeLoop(Slot(proc[me].parent.value));
      var i := 0;
      while i < |proc|
        invariant 0 <= i <= |proc| == |t|
        invariant forall j :: 0 <= j < i ==> proc[j] == AfterExit(t[j], q, me, initproc, LeavesZombie(t, me, i))
        invariant forall j :: i <= j < |t| ==>
          proc[j] == if LeavesZombie(t, me, i) then Wake(Wake(t[j], Slot(q)), Slot(initproc)) else Wake(t[j], Slot(q))
      {
        LeavesOneMore(t, me, i);
        if proc[i].parent == Some(me) {
          proc := proc[i := proc[i].(parent := Some(initproc))];
          if proc[i].state == ZOMBIE {
            WakeLoop(Slot(initproc));
          }
        }
        i := i + 1;
      }
    }

    /** wait's section: reap the first zombie child, report that there are none, or sleep. */
    method Wait(me: nat, cpu: nat) returns (r: WaitResult)
      requires Valid() && cpu < |cur| && cur[cpu] == Some(me)
      modifies this`proc, this`cur
      ensures Valid() && me < |old(proc)|
      ensures r.Child? ==> cur == old(cur) && exists z: nat :: IsReaped(old(proc), proc, me, r.pid, z)
      ensures !r.Child? ==> forall z: nat :: z < |old(proc)| ==> !ZombieChild(old(proc), me, z)
      ensures r.Nobody? ==> proc == old(proc) && cur == old(cur)
      ensures r.Nobody? <==> !r.Child? && (old(proc)[me].killed || forall z :: 0 <= z < |old(proc)| ==> old(proc)[z].parent != Some(me))
      ensures r.Sleeps? ==> proc == old(proc)[me := old(proc)[me].(state := SLEEPING, chan := Slot(me))] && cur == old(cur)[cpu := None]
    {
      assert OnCpu(cur, me);
      var havekids := false;
      var i := 0;
      while i < |proc|
        invariant 0 <= i <= |proc| && proc == old(proc) && cur == old(cur)
        invariant forall z: nat :: z < i ==> !ZombieChild(proc, me, z)
        invariant havekids <==> exists z :: 0 <= z < i && proc[z].parent == Some(me)
      {
        if proc[i].parent == Some(me) {
          havekids := true;
          if proc[i].state == ZOMBIE {
            ReapedOk(proc, initproc, nextpid, i);
            CpusKept(proc, Reaped(proc, i), cur);
            r := Child(proc[i].pid);
            proc := Reaped(proc, i);
            assert IsReaped(old(proc), proc, me, r.pid, i);
            return;
          }
        }
        i := i + 1;
      }
      if !havekids || proc[me].killed {
        return Nobody;
      }
      var t := proc[me := proc[me].(state := SLEEPING, chan := Slot(me))];
      WaitSleepOk(proc, initproc, nextpid, me);
      CpuSwitch(proc, t, cur, me, cpu);
      proc := t;
      cur := cur[cpu := None];
      return Sleeps;
    }
  }

  lemma {:induction false} LeavesOneMore(t: Table, me: nat, i: nat)
    requires i < |t|
    ensures LeavesZombie(t, me, i + 1) <==> LeavesZombie(t, me, i) || ZombieChild(t, me, i)
  {
    if LeavesZombie(t, me, i) {
      var z: nat :| z < i && ZombieChild(t, me, z);
      assert z < i + 1;
    }
  }

  /** Changes that touch no RUNNING state keep the CPUs consistent. */
  lemma {:induction false} CpusKept(t: Table, t': Table, cur: seq<Option<nat>>)
    requires CpusOk(t, cur) && |t| == |t'|
    requires forall i :: 0 <= i < |t| ==> (t[i].state == RUNNING <==> t'[i].state == RUNNING)
    ensures CpusOk(t', cur)
  {
  }

  /** A switch on CPU `c` between its scheduler and process `p` keeps the CPUs consistent. */
  lemma {:induction false} CpuSwitch(t: Table, t': Table, cur: seq<Option<nat>>, p: nat, c: nat)
    requires CpusOk(t, cur) && |t| == |t'| && c < |cur| && p < |t|
    requires cur[c] == Some(p) || (cur[c] == None && t[p].state != RUNNING)
    requires t'[p].state == RUNNING <==> cur[c] == None
    requires forall i :: 0 <= i < |t| && i != p ==> (t[i].state == RUNNING <==> t'[i].state == RUNNING)
    ensures CpusOk(t', cur[c := if cur[c] == None then Some(p) else None])
  {
    var cur' := cur[c := if cur[c] == None then Some(p) else None];
    forall q: nat | q < |t| ensures t'[q].state == RUNNING <==> OnCpu(cur', q) {
      assert t[q].state == RUNNING <==> OnCpu(cur, q);
      if q != p && OnCpu(cur, q) {
        var d :| 0 <= d < |cur| && cur[d] == Some(q);
        assert cur'[d] == Some(q);
      }
      if q == p && cur[c] == None {
        assert cur'[c] == Some(p);
      }
    }
  }
}
