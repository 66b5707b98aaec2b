/**
 Sleep, wakeup and the scheduler as interleaved steps of any number of processes on any number of
 CPUs, around one client lock `lk` and the process-table lock. Each step is what one process or one
 CPU's scheduler does between two points at which others may run.

 A process that has tested its condition under `lk` and calls sleep starts an episode, which ends when
 it runs again after the sleep. Two history variables record what the no-lost-wakeup property is
 about: `since[w]` holds the processes whose episode was under way when `w` last acquired `lk`, and
 `woken` holds the processes whose episode was under way at that acquisition of some `w` that has
 since completed a wakeup on their channel.
 */
module SleepWakeup {
  import opened Options

  /** Where a process stands. The comment names the locks it holds there. */
  datatype Pc =
    | Out                              // none
    | HasLock                          // lk
    | Tested(chan: nat)                // lk; found its condition false
    | SleepLocking(chan: nat)          // lk and ptable.lock
    | SleepReleased(chan: nat)         // ptable.lock
    | Asleep(chan: nat)                // off the CPU inside sched; ptable.lock once RUNNING again
    | SleepTidy                        // ptable.lock
    | SleepBack                        // none; about to reacquire lk
    | Waking(chan: nat, holdsLk: bool)             // about to call wakeup
    | Scanning(chan: nat, next: nat, holdsLk: bool) // ptable.lock; wakeup1's loop
    | Yielding(back: Resume)           // ptable.lock; state set to RUNNABLE next
    | Yielded(back: Resume)            // off the CPU inside sched; ptable.lock once RUNNING again

  /** Where a process goes on after it was preempted: a point at which it holds no lock. */
  datatype Resume = ToOut | ToBack | ToWaking(chan: nat)

  /** A timer interrupt may preempt a process that holds no lock. */
  predicate Preemptible(pc: Pc) {
    pc == Out || pc == SleepBack || (pc.Waking? && !pc.holdsLk)
  }

  function Preempted(pc: Pc): Resume {
    match pc
    case SleepBack => ToBack
    case Waking(chan, _) => ToWaking(chan)
    case _ => ToOut
  }

  function Resumed(back: Resume): Pc {
    match back
    case ToOut => Out
    case ToBack => SleepBack
    case ToWaking(chan) => Waking(chan, false)
  }

  datatype RunState = RUNNABLE | RUNNING | SLEEPING

  datatype Holder = Free | Process(pid: nat) | Scheduler(cpu: nat)

  datatype Sys = Sys(
    pc: seq<Pc>,
    state: seq<RunState>,
    cur: seq<Option<nat>>,     // the process each CPU runs
    lk: Option<nat>,           // the holder of lk
    pt: Holder,                // the holder of ptable.lock
    since: seq<set<nat>>,
    woken: set<nat>)

  /** In an episode: tested under lk, not yet running again. */
  predicate InEpisode(pc: Pc) {
    pc.Tested? || pc.SleepLocking? || pc.SleepReleased? || pc.Asleep?
  }

  predicate HoldsLk(pc: Pc) {
    match pc
    case HasLock => true
    case Tested(_) => true
    case SleepLocking(_) => true
    case Waking(_, h) => h
    case Scanning(_, _, h) => h
    case _ => false
  }

  /** Holds ptable.lock whenever it is on a CPU. */
  predicate HoldsPt(pc: Pc) {
    pc.SleepLocking? || pc.SleepReleased? || pc.Asleep? || pc.SleepTidy? || pc.Scanning? || pc.Yielding? || pc.Yielded?
  }

  ghost predicate WellFormed(s: Sys) {
    |s.pc| == |s.state| == |s.since|
  }

  predicate Running(s: Sys, p: nat) {
    p < |s.pc| && p < |s.state| && s.state[p] == RUNNING
  }

  /** The processes whose episode is under way. */
  function Episodes(s: Sys): set<nat> {
    set p | 0 <= p < |s.pc| && InEpisode(s.pc[p])
  }

  function Forget(since: seq<set<nat>>, p: nat): (r: seq<set<nat>>)
    ensures |r| == |since|
  {
    seq(|since|, i requires 0 <= i < |since| => since[i] - {p})
  }

  datatype Step =
    | Acquire(p: nat)                       // acquire(lk), from Out or after a sleep
    | Release(p: nat)                       // release(lk)
    | Test(p: nat, chan: nat)               // the condition is false; sleep(chan, lk) follows
    | SleepAcquire(p: nat)                  // sleep: acquire(&ptable.lock)
    | SleepRelease(p: nat)                  // sleep: release(lk)
    | SleepSwitch(p: nat, cpu: nat)         // sleep: chan and state set, sched
    | Tidy(p: nat)                          // sleep: chan cleared
    | SleepDone(p: nat)                     // sleep: release(&ptable.lock)
    | CallWakeup(p: nat, chan: nat)         // decides to wake chan, still holding lk
    | ReleaseFirst(p: nat)                  // releases lk before calling wakeup
    | WakeAcquire(p: nat)                   // wakeup: acquire(&ptable.lock)
    | Scan(p: nat)                          // wakeup1: one slot
    | WakeRelease(p: nat)                   // wakeup: release(&ptable.lock)
    | YieldAcquire(p: nat)                  // yield: acquire(&ptable.lock)
    | YieldSwitch(p: nat, cpu: nat)         // yield: RUNNABLE, sched
    | YieldRelease(p: nat)                  // yield: release(&ptable.lock)
    | SchedAcquire(cpu: nat)
    | SchedRun(cpu: nat, p: nat)
    | SchedRelease(cpu: nat)
    | Kill(p: nat)                          // kill: a sleeper becomes runnable

  ghost predicate Enabled(s: Sys, e: Step) {
    match e
    case Acquire(p) => Running(s, p) && (s.pc[p] == Out || s.pc[p] == SleepBack) && s.lk == None
    case Release(p) => Running(s, p) && s.pc[p] == HasLock
    case Test(p, _) => Running(s, p) && s.pc[p] == HasLock
    case SleepAcquire(p) => Running(s, p) && s.pc[p].Tested? && s.pt == Free
    case SleepRelease(p) => Running(s, p) && s.pc[p].SleepLocking?
    case SleepSwitch(p, c) => Running(s, p) && s.pc[p].SleepReleased? && c < |s.cur| && s.cur[c] == Some(p)
    case Tidy(p) => Running(s, p) && s.pc[p].Asleep?
    case SleepDone(p) => Running(s, p) && s.pc[p] == SleepTidy
    case CallWakeup(p, _) => Running(s, p) && s.pc[p] == HasLock
    case ReleaseFirst(p) => Running(s, p) && s.pc[p].Waking? && s.pc[p].holdsLk
    case WakeAcquire(p) => Running(s, p) && s.pc[p].Waking? && s.pt == Free
    case Scan(p) => Running(s, p) && s.pc[p].Scanning? && s.pc[p].next < |s.pc|
    case WakeRelease(p) => Running(s, p) && s.pc[p].Scanning? && s.pc[p].next == |s.pc|
    case YieldAcquire(p) => Running(s, p) && Preemptible(s.pc[p]) && s.pt == Free
    case YieldSwitch(p, c) => Running(s, p) && s.pc[p].Yielding? && c < |s.cur| && s.cur[c] == Some(p)
    case YieldRelease(p) => Running(s, p) && s.pc[p].Yielded?
    case SchedAcquire(c) => c < |s.cur| && s.cur[c] == None && s.pt == Free
    case SchedRun(c, p) => c < |s.cur| && s.pt == Scheduler(c) && p < |s.state| && s.state[p] == RUNNABLE
    case SchedRelease(c) => s.pt == Scheduler(c)
    case Kill(p) => s.pt == Free && p < |s.state| && s.state[p] == SLEEPING
  }

  ghost function Next(s: Sys, e: Step): Sys
    requires WellFormed(s) && Enabled(s, e)
  {
    match e
    case Acquire(p) => s.(pc := s.pc[p := HasLock], lk := Some(p), since := s.since[p := Episodes(s)])
    case Release(p) => s.(pc := s.pc[p := Out], lk := None)
    case Test(p, chan) => s.(pc := s.pc[p := Tested(chan)])
    case SleepAcquire(p) => s.(pc := s.pc[p := SleepLocking(s.pc[p].chan)], pt := Process(p))
    case SleepRelease(p) => s.(pc := s.pc[p := SleepReleased(s.pc[p].chan)], lk := None)
    case SleepSwitch(p, c) =>
      s.(pc := s.pc[p := Asleep(s.pc[p].chan)], state := s.state[p := SLEEPING], cur := s.cur[c := None], pt := Scheduler(c))
    case Tidy(p) => s.(pc := s.pc[p := SleepTidy], since := Forget(s.since, p), woken := s.woken - {p})
    case SleepDone(p) => s.(pc := s.pc[p := SleepBack], pt := Free)
    case CallWakeup(p, chan) => s.(pc := s.pc[p := Waking(chan, true)])
    case ReleaseFirst(p) => s.(pc := s.pc[p := Waking(s.pc[p].chan, false)], lk := None)
    case WakeAcquire(p) => s.(pc := s.pc[p := Scanning(s.pc[p].chan, 0, s.pc[p].holdsLk)], pt := Process(p))
    case Scan(p) =>
      var q := s.pc[p].next;
      s.(pc := s.pc[p := s.pc[p].(next := q + 1)],
         state := if s.state[q] == SLEEPING && s.pc[q] == Asleep(s.pc[p].chan) then s.state[q := RUNNABLE] else s.state)
    case WakeRelease(p) =>
      s.(pc := s.pc[p := if s.pc[p].holdsLk then HasLock else Out], pt := Free,
         woken := s.woken + (set q | q in s.since[p] && q < |s.pc| && InEpisode(s.pc[q]) && s.pc[q].chan == s.pc[p].chan))
    case YieldAcquire(p) => s.(pc := s.pc[p := Yielding(Preempted(s.pc[p]))], pt := Process(p))
    case YieldSwitch(p, c) =>
      s.(pc := s.pc[p := Yielded(s.pc[p].back)], state := s.state[p := RUNNABLE], cur := s.cur[c := None], pt := Scheduler(c))
    case YieldRelease(p) => s.(pc := s.pc[p := Resumed(s.pc[p].back)], pt := Free)
    case SchedAcquire(c) => s.(pt := Scheduler(c))
    case SchedRun(c, p) => s.(state := s.state[p := RUNNING], cur := s.cur[c := Some(p)], pt := Process(p))
    case SchedRelease(c) => s.(pt := Free)
    case Kill(p) => s.(state := s.state[p := RUNNABLE])
  }

  // ----- The invariant -----

  ghost predicate LkOk(s: Sys) {
    && WellFormed(s)
    && (forall p: nat :: p < |s.pc| ==> (HoldsLk(s.pc[p]) <==> s.lk == Some(p)))
    && (s.lk.Some? ==> s.lk.value < |s.pc|)
  }

  ghost predicate StatesOk(s: Sys) {
    && WellFormed(s)
    && (forall p: nat :: p < |s.pc| && s.state[p] == SLEEPING ==> s.pc[p].Asleep?)
    && (forall p: nat :: p < |s.pc| && s.state[p] == RUNNABLE ==> s.pc[p].Asleep? || s.pc[p].Yielded?)
  }

  ghost predicate PtOk(s: Sys) {
    && WellFormed(s)
    && (forall p: nat :: p < |s.pc| ==> (s.state[p] == RUNNING && HoldsPt(s.pc[p]) <==> s.pt == Process(p)))
    && (s.pt.Process? ==> s.pt.pid < |s.pc|)
    && (s.pt.Scheduler? ==> s.pt.cpu < |s.cur| && s.cur[s.pt.cpu] == None)
  }

  ghost predicate OnCpu(s: Sys, p: nat) {
    exists c :: 0 <= c < |s.cur| && s.cur[c] == Some(p)
  }

  /** A process is RUNNING exactly when some CPU runs it, and then only one does. */
  ghost predicate CpusOk(s: Sys) {
    && WellFormed(s)
    && (forall p: nat :: p < |s.state| ==> (s.state[p] == RUNNING <==> OnCpu(s, p)))
    && (forall c :: 0 <= c < |s.cur| && s.cur[c].Some? ==> s.cur[c].value < |s.state|)
    && (forall c, d :: 0 <= c < d < |s.cur| && s.cur[c].Some? ==> s.cur[c] != s.cur[d])
  }

  /** A process whose episode `w` must answer has released lk, and once `w` has scanned past it, it does not sleep. */
  ghost predicate Owed(s: Sys, w: nat, p: nat)
    requires WellFormed(s) && w < |s.pc|
  {
    && p < |s.pc| && (s.pc[p].SleepReleased? || s.pc[p].Asleep?)
    && (s.pc[w].Scanning? && p < s.pc[w].next && s.pc[p] == Asleep(s.pc[w].chan) ==> s.state[p] != SLEEPING)
  }

  /** No process is asleep past a wakeup it must not miss. */
  ghost predicate NoLostWakeup(s: Sys) {
    WellFormed(s) && forall p :: p in s.woken ==> p < |s.pc| && s.pc[p].Asleep? && s.state[p] != SLEEPING
  }

  ghost predicate HistoryOk(s: Sys) {
    && WellFormed(s)
    && (forall w: nat, p :: w < |s.pc| && p in s.since[w] ==> Owed(s, w, p))
    && NoLostWakeup(s)
  }

  ghost predicate Inv(s: Sys) {
    LkOk(s) && StatesOk(s) && PtOk(s) && CpusOk(s) && HistoryOk(s)
  }

  lemma {:induction false} KeepsLk(s: Sys, e: Step)
    requires LkOk(s) && Enabled(s, e)
    ensures LkOk(Next(s, e))
  {
    hide Forget, Episodes;
    var t := Next(s, e);
    forall p: nat | p < |t.pc| ensures HoldsLk(t.pc[p]) <==> t.lk == Some(p) {
      assert HoldsLk(s.pc[p]) <==> s.lk == Some(p);
    }
  }

  lemma {:induction false} KeepsStates(s: Sys, e: Step)
    requires StatesOk(s) && Enabled(s, e)
    ensures StatesOk(Next(s, e))
  {
  }

  lemma {:induction false} KeepsPt(s: Sys, e: Step)
    requires StatesOk(s) && PtOk(s) && Enabled(s, e)
    ensures PtOk(Next(s, e))
  {
    hide Forget, Episodes, StatesOk;
    forall p: nat | p < |s.pc| ensures Next(s, e).state[p] == RUNNING && HoldsPt(Next(s, e).pc[p]) <==> Next(s, e).pt == Process(p) {
      KeepsHolder(s, e, p);
    }
  }

  lemma {:induction false} KeepsHolder(s: Sys, e: Step, p: nat)
    requires StatesOk(s) && PtOk(s) && Enabled(s, e) && p < |s.pc|
    ensures Next(s, e).state[p] == RUNNING && HoldsPt(Next(s, e).pc[p]) <==> Next(s, e).pt == Process(p)
  {
    hide Forget, Episodes;
    assert s.state[p] == RUNNING && HoldsPt(s.pc[p]) <==> s.pt == Process(p);
  }

  lemma {:induction false} KeepsOwed(s: Sys, e: Step, w: nat, p: nat)
    requires LkOk(s) && StatesOk(s) && PtOk(s) && HistoryOk(s) && Enabled(s, e)
    requires w < |s.pc| && p in Next(s, e).since[w]
    ensures Owed(Next(s, e), w, p)
  {
    assert p in s.since[w] ==> Owed(s, w, p);
  }

  lemma {:induction false} KeepsWoken(s: Sys, e: Step)
    requires LkOk(s) && StatesOk(s) && PtOk(s) && HistoryOk(s) && Enabled(s, e)
    ensures NoLostWakeup(Next(s, e))
  {
    if e.WakeRelease? {
      forall q | q in s.since[e.p] && InEpisode(s.pc[q]) && s.pc[q].chan == s.pc[e.p].chan
        ensures s.pc[q].Asleep? && s.state[q] != SLEEPING
      {
        assert Owed(s, e.p, q);
      }
    }
  }

  lemma {:induction false} KeepsCpus(s: Sys, e: Step)
    requires StatesOk(s) && PtOk(s) && CpusOk(s) && Enabled(s, e)
    ensures CpusOk(Next(s, e))
  {
    var t := Next(s, e);
    if e.SleepSwitch? || e.YieldSwitch? || e.SchedRun? {
      SwitchesCpu(s, t, e.p, e.cpu);
    } else {
      assert t.cur == s.cur;
      forall p: nat | p < |t.state| ensures t.state[p] == RUNNING <==> OnCpu(t, p) {
        assert OnCpu(s, p) <==> OnCpu(t, p);
        assert s.state[p] == RUNNING <==> OnCpu(s, p);
      }
    }
  }

  /** A switch on CPU `c` between its scheduler and process `p` keeps the CPUs consistent. */
  lemma {:induction false} SwitchesCpu(s: Sys, t: Sys, p: nat, c: nat)
    requires CpusOk(s) && WellFormed(t) && c < |s.cur| && p < |s.state| == |t.state|
    requires s.cur[c] == Some(p) || (s.cur[c] == None && s.state[p] != RUNNING)
    requires t.cur == s.cur[c := if s.cur[c] == None then Some(p) else None]
    requires t.state == s.state[p := t.state[p]] && (t.state[p] == RUNNING <==> s.cur[c] == None)
    ensures CpusOk(t)
  {
    forall q: nat | q < |t.state| ensures t.state[q] == RUNNING <==> OnCpu(t, q) {
      assert s.state[q] == RUNNING <==> OnCpu(s, q);
      if q != p && OnCpu(s, q) {
        var d :| 0 <= d < |s.cur| && s.cur[d] == Some(q);
        assert t.cur[d] == Some(q);
      }
      if q == p && s.cur[c] == None {
        assert t.cur[c] == Some(p);
      }
    }
  }

  lemma {:induction false} KeepsInv(s: Sys, e: Step)
    requires Inv(s) && Enabled(s, e)
    ensures Inv(Next(s, e))
  {
    hide Enabled, Next;
    KeepsLk(s, e);
    KeepsStates(s, e);
    KeepsPt(s, e);
    KeepsCpus(s, e);
    KeepsWoken(s, e);
    var t := Next(s, e);
    forall w: nat, p | w < |t.pc| && p in t.since[w] ensures Owed(t, w, p) {
      SameSize(s, e);
      KeepsOwed(s, e, w, p);
    }
  }

  lemma {:induction false} SameSize(s: Sys, e: Step)
    requires WellFormed(s) && Enabled(s, e)
    ensures |Next(s, e).pc| == |s.pc|
  {
  }

  // ----- Runs -----

  /** `n` runnable processes that have not run yet, on `m` idle CPUs. */
  ghost predicate Init(s: Sys) {
    && WellFormed(s)
    && (forall p :: 0 <= p < |s.pc| ==> s.pc[p] == Yielded(ToOut) && s.state[p] == RUNNABLE && s.since[p] == {})
    && (forall c :: 0 <= c < |s.cur| ==> s.cur[c] == None)
    && s.lk == None && s.pt == Free && s.woken == {}
  }

  /** Each state of the run follows from the one before by an enabled step. */
  ghost predicate IsRun(run: seq<Sys>, steps: seq<Step>) {
    && |run| == |steps| + 1
    && Init(run[0])
    && forall i :: 0 <= i < |steps| ==> WellFormed(run[i]) && Enabled(run[i], steps[i]) && run[i + 1] == Next(run[i], steps[i])
  }

  /**
   No lost wakeup, over every run of any length with any number of processes and CPUs: no process
   that tested its condition under lk and went to sleep is still asleep after a wakeup on its
   channel completed by a process that acquired lk after that test. On the way: both locks are
   exclusive, and a process is RUNNING exactly when exactly one CPU runs it.
   */
  lemma {:induction false} EveryReachableState(run: seq<Sys>, steps: seq<Step>, k: nat)
    requires IsRun(run, steps) && k < |run|
    ensures Inv(run[k])
  {
    if k > 0 {
      EveryReachableState(run, steps, k - 1);
      KeepsInv(run[k - 1], steps[k - 1]);
    }
  }

  /**
   The same, said without the history variables: take the test of `p` on `chan` at step `i`, an
   acquisition of lk by `w` at a later step `j` and the end of a wakeup of `w` on `chan` at step `k`,
   with no further acquisition by `w` from `j` to `k`. If `p` has not run on since its test, it is not
   sleeping.
   */
  lemma {:induction false} WakeupIsNotLost(run: seq<Sys>, steps: seq<Step>, p: nat, w: nat, chan: nat, i: nat, j: nat, k: nat)
    requires IsRun(run, steps) && i < j < k < |steps|
    requires steps[i] == Test(p, chan)
    requires steps[j] == Acquire(w) && forall m :: j < m < k ==> steps[m] != Acquire(w)
    requires steps[k] == WakeRelease(w) && run[k].pc[w].Scanning? && run[k].pc[w].chan == chan
    requires forall m :: i <= m < k ==> steps[m] != Tidy(p)
    ensures p < |run[k + 1].state| && run[k + 1].state[p] != SLEEPING
  {
    EpisodeLasts(run, steps, p, chan, i, k);
    EpisodeLasts(run, steps, p, chan, i, j);
    SinceLasts(run, steps, p, w, j, k);
    EveryReachableState(run, steps, k + 1);
    EveryReachableState(run, steps, k);
    assert p in run[k + 1].woken;
  }

  /** An episode lasts until its process runs on. */
  lemma {:induction false} EpisodeLasts(run: seq<Sys>, steps: seq<Step>, p: nat, chan: nat, i: nat, k: nat)
    requires IsRun(run, steps) && i < k < |run|
    requires steps[i] == Test(p, chan)
    requires forall m :: i <= m < k ==> steps[m] != Tidy(p)
    ensures p < |run[k].pc| && InEpisode(run[k].pc[p]) && run[k].pc[p].chan == chan
  {
    if k > i + 1 {
      EpisodeLasts(run, steps, p, chan, i, k - 1);
      EveryReachableState(run, steps, k - 1);
      EpisodeStep(run[k - 1], steps[k - 1], p);
    }
  }

  lemma {:induction false} EpisodeStep(s: Sys, e: Step, p: nat)
    requires Inv(s) && Enabled(s, e) && e != Tidy(p) && p < |s.pc| && InEpisode(s.pc[p])
    ensures var t := Next(s, e); |t.pc| == |s.pc| && InEpisode(t.pc[p]) && t.pc[p].chan == s.pc[p].chan
  {
  }

  /** What `w` found under way when it acquired lk, it remembers until then or until its next acquisition. */
  lemma {:induction false} SinceLasts(run: seq<Sys>, steps: seq<Step>, p: nat, w: nat, j: nat, k: nat)
    requires IsRun(run, steps) && j < k < |run|
    requires steps[j] == Acquire(w) && p < |run[j].pc| && InEpisode(run[j].pc[p])
    requires forall m :: j < m < k ==> steps[m] != Acquire(w)
    requires forall m :: j <= m < k ==> steps[m] != Tidy(p)
    ensures w < |run[k].since| && p in run[k].since[w]
  {
    if k > j + 1 {
      SinceLasts(run, steps, p, w, j, k - 1);
      SinceStep(run[k - 1], steps[k - 1], p, w);
    }
  }

  lemma {:induction false} SinceStep(s: Sys, e: Step, p: nat, w: nat)
    requires WellFormed(s) && Enabled(s, e) && e != Tidy(p) && e != Acquire(w) && w < |s.since| && p in s.since[w]
    ensures w < |Next(s, e).since| && p in Next(s, e).since[w]
  {
  }

  /** Who wakes a sleeper: kill, or a wakeup on its channel that comes past its slot. */
  ghost predicate Wakes(s: Sys, e: Step, p: nat, chan: nat) {
    || e == Kill(p)
    || (e.Scan? && e.p < |s.pc| && s.pc[e.p].Scanning? && s.pc[e.p].chan == chan && s.pc[e.p].next == p)
  }

  lemma {:induction false} SleepStep(s: Sys, e: Step, p: nat)
    requires WellFormed(s) && Enabled(s, e) && p < |s.pc| && s.state[p] == SLEEPING && s.pc[p].Asleep?
    ensures var t := Next(s, e);
            && |t.pc| == |t.state| == |s.pc| && t.pc[p] == s.pc[p]
            && (t.state[p] == if Wakes(s, e, p, s.pc[p].chan) then RUNNABLE else SLEEPING)
  {
  }

  /** No spurious wakeup: over every run, who slept on `chan` and does not any more was woken on `chan` or killed in between. */
  lemma {:induction false} WokenOnItsChannel(run: seq<Sys>, steps: seq<Step>, p: nat, chan: nat, i: nat, k: nat) returns (j: nat)
    requires IsRun(run, steps) && i < k < |run|
    requires p < |run[i].pc| && WellFormed(run[i]) && run[i].pc[p] == Asleep(chan) && run[i].state[p] == SLEEPING
    requires p < |run[k].state| && run[k].state[p] != SLEEPING
    ensures i <= j < k && Wakes(run[j], steps[j], p, chan)
    decreases k - i
  {
    hide Next, Enabled, Init, Wakes;
    SleepStep(run[i], steps[i], p);
    if Wakes(run[i], steps[i], p, chan) {
      j := i;
    } else {
      j := WokenOnItsChannel(run, steps, p, chan, i + 1, k);
    }
  }
}
