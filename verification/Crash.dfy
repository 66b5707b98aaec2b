/**
 Crash atomicity of the write-ahead log: every prefix of the sector writes of any sequence of
 transactions recovers to the home sectors left by a whole number of those transactions.
 */
module Crash {
  import opened Blocks
  import opened Wal

  // ----- Recovery -----

  /** A crash while installing, with the header on disk, replays to the fully installed home sectors. */
  lemma {:induction false} InstallCrash(d: Disk, k: nat)
    requires LogOk(d) && k <= |d.head|
    ensures var e := ApplyAll(d, InstallWrites(d.head, d.slots, k));
            && e == d.(home := e.home)
            && Recovered(e) == Recovered(d)
            && (k == |d.head| ==> e.home == Recovered(d))
  {
    InstallEffect(d, d.head, d.slots, k);
    InstallAt(d.home, d.head, d.slots, k);
    var part := Install(d.home, d.head, d.slots, k);
    forall s | 0 <= s < |d.home| && s !in d.head ensures part[s] == d.home[s] {
      assert s !in d.head[..k];
    }
    InstallAgain(d.home, part, d.head, d.slots);
  }

  /** A crash at any point of recovery changes nothing about what recovery will produce. */
  lemma {:induction false} RecoveryCrash(d: Disk, k: nat)
    requires LogOk(d) && k <= |RecoveryWrites(d)|
    ensures var e := ApplyAll(d, RecoveryWrites(d)[..k]);
            && LogOk(e)
            && |e.home| == |d.home| && |e.slots| == |d.slots|
            && Recovered(e) == Recovered(d)
            && (k == |RecoveryWrites(d)| ==> Quiet(e) && e.home == Recovered(d))
  {
    hide Install, InstallWrites;
    var n := |d.head|;
    var ws, inst := RecoveryWrites(d), InstallWrites(d.head, d.slots, n);
    if k <= n {
      InstallWritesPrefix(d.head, d.slots, n, k);
      assert ws[..k] == inst[..k];
      InstallCrash(d, k);
    } else {
      assert ws[..k] == ws && ws[..n] == inst;
      InstallCrash(d, n);
      QuietRecovered(ApplyAll(d, ws));
    }
  }

  lemma {:induction false} QuietRecovered(d: Disk)
    requires Quiet(d)
    ensures LogOk(d) && Recovered(d) == d.home
  {
  }

  // ----- One transaction -----

  /** A crash at any point of commit_trans: before the header write nothing, after it everything. */
  lemma {:induction false} CommitCrash(d: Disk, lh: seq<nat>, k: nat)
    requires Quiet(d) && HeadFits(lh, |d.home|, |d.slots|)
    requires k <= |CommitWrites(lh, d.slots)|
    ensures var e := ApplyAll(d, CommitWrites(lh, d.slots)[..k]);
            && LogOk(e)
            && Recovered(e) == (if k == 0 then d.home else Install(d.home, lh, d.slots, |lh|))
            && (k == |CommitWrites(lh, d.slots)| ==> Quiet(e))
  {
    hide Install, InstallWrites;
    if k == 0 {
      QuietRecovered(d);
    } else {
      var d1 := d.(head := lh);
      var m := if k - 1 <= |lh| then k - 1 else |lh|;
      InstallCrash(d1, m);
      CommitPrefix(d, lh, m);
      if k == |lh| + 2 {
        var ws := CommitWrites(lh, d.slots);
        assert ws[..k][..k - 1] == ws[..k - 1];
        QuietRecovered(ApplyAll(d, ws[..k]));
      }
    }
  }

  lemma {:induction false} CommitPrefix(d: Disk, lh: seq<nat>, m: nat)
    requires lh != [] && m <= |lh| <= |d.slots|
    ensures |CommitWrites(lh, d.slots)| == |lh| + 2
    ensures ApplyAll(d, CommitWrites(lh, d.slots)[..m + 1])
            == ApplyAll(d.(head := lh), InstallWrites(lh, d.slots, m))
  {
    var inst := InstallWrites(lh, d.slots, |lh|);
    InstallWritesPrefix(lh, d.slots, |lh|, m);
    assert CommitWrites(lh, d.slots)[..m + 1] == [Head(lh)] + inst[..m];
    ApplyAllAppend(d, [Head(lh)], inst[..m]);
    assert ApplyAll(d, [Head(lh)]) == d.(head := lh);
  }

  /** A crash at any point of a transaction: it is wholly applied exactly when its header write happened. */
  lemma {:induction false} TxnCrash(d: Disk, t: Txn, k: nat)
    requires Quiet(d) && Fits(t, |d.home|, |d.slots|)
    requires k <= |TxnWrites(d, t)|
    ensures var e := ApplyAll(d, TxnWrites(d, t)[..k]);
            && LogOk(e)
            && Recovered(e) == (if k <= |t| then d.home else Effect(d.home, t))
            && (k == |TxnWrites(d, t)| ==> Quiet(e) && e.home == Effect(d.home, t))
  {
    var lw, ws, lh := LogWrites(t), TxnWrites(d, t), TxnHead(t);
    if k <= |t| {
      LogWritesPrefix(t, k);
      assert ws[..k] == lw[..k];
      LogWritesOnlySlots(d, t[..k]);
      QuietRecovered(ApplyAll(d, lw[..k]));
      assert t != [] ==> lh != [];
    } else {
      var d1 := ApplyAll(d, lw);
      LoggedIsTxn(d, t);
      LogWritesOnlySlots(d, t);
      CommitCrash(d1, lh, k - |t|);
      var cw := CommitWrites(lh, d1.slots);
      assert ws[..k] == lw + cw[..k - |t|];
      ApplyAllAppend(d, lw, cw[..k - |t|]);
      if k == |ws| {
        QuietRecovered(ApplyAll(d, ws[..k]));
      }
    }
  }

  /** A transaction that runs to its end leaves the log empty and its effect in the home sectors. */
  lemma {:induction false} TxnComplete(d: Disk, t: Txn)
    requires Quiet(d) && Fits(t, |d.home|, |d.slots|)
    ensures var e := ApplyAll(d, TxnWrites(d, t)); Quiet(e) && e.home == Effect(d.home, t)
  {
    var ws := TxnWrites(d, t);
    assert ws[..|ws|] == ws;
    TxnCrash(d, t, |ws|);
  }

  // ----- Runs -----

  ghost predicate AllFit(txns: seq<Txn>, nhome: nat, nslots: nat) {
    forall i :: 0 <= i < |txns| ==> Fits(txns[i], nhome, nslots)
  }

  /** Every sector write of a run of transactions. */
  ghost function RunWrites(d: Disk, txns: seq<Txn>): seq<Write>
    requires AllFit(txns, |d.home|, |d.slots|)
    decreases |txns|
  {
    if txns == [] then []
    else
      var ws := TxnWrites(d, txns[0]);
      ws + RunWrites(ApplyAll(d, ws), txns[1..])
  }

  /** The intended meaning of a run: the home sectors after each transaction's effect, in order. */
  ghost function AfterTxns(home: seq<Block>, txns: seq<Txn>): seq<Block>
    decreases |txns|
  {
    if txns == [] then home else AfterTxns(Effect(home, txns[0]), txns[1..])
  }

  /** How many transactions count as done when a run is cut after `k` sector writes. */
  ghost function Committed(d: Disk, txns: seq<Txn>, k: nat): (c: nat)
    requires AllFit(txns, |d.home|, |d.slots|)
    ensures c <= |txns|
    decreases |txns|
  {
    if txns == [] then 0
    else
      var ws := TxnWrites(d, txns[0]);
      if k >= |ws| then 1 + Committed(ApplyAll(d, ws), txns[1..], k - |ws|)
      else if k > |txns[0]| then 1 else 0
  }

  /** The disk after rebooting once per entry of `ks`, each recovery cut after that many writes. */
  ghost function Reboots(d: Disk, ks: seq<nat>): (e: Disk)
    requires LogOk(d)
    ensures LogOk(e) && Recovered(e) == Recovered(d)
    decreases |ks|
  {
    if ks == [] then d
    else
      var ws := RecoveryWrites(d);
      var k := if ks[0] <= |ws| then ks[0] else |ws|;
      RecoveryCrash(d, k);
      Reboots(ApplyAll(d, ws[..k]), ks[1..])
  }

  lemma {:induction false} RunCrash(d: Disk, txns: seq<Txn>, k: nat)
    requires Quiet(d) && AllFit(txns, |d.home|, |d.slots|)
    requires k <= |RunWrites(d, txns)|
    ensures var e := ApplyAll(d, RunWrites(d, txns)[..k]);
            && LogOk(e)
            && Recovered(e) == AfterTxns(d.home, txns[..Committed(d, txns, k)])
    decreases |txns|
  {
    hide TxnWrites, Fits, Install, LogOk, Apply, Effect;
    if txns == [] {
      QuietRecovered(d);
    } else {
      var ws := TxnWrites(d, txns[0]);
      var d1, rest := ApplyAll(d, ws), txns[1..];
      var run := RunWrites(d, txns);
      var c := Committed(d, txns, k);
      if k >= |ws| {
        TxnComplete(d, txns[0]);
        RunCrash(d1, rest, k - |ws|);
        assert run[..k] == ws + RunWrites(d1, rest)[..k - |ws|];
        ApplyAllAppend(d, ws, RunWrites(d1, rest)[..k - |ws|]);
        assert txns[..c][1..] == rest[..c - 1];
      } else {
        TxnCrash(d, txns[0], k);
        assert run[..k] == ws[..k];
        if c == 1 {
          assert txns[..c][1..] == [];
        }
      }
    }
  }

  /**
   Crash atomicity. Run any transactions from a quiet disk, cut the run after any number `k` of
   sector writes, crash any number of further times during recovery, then recover: the log is
   empty and the home sectors are those after a whole number of the transactions.
   */
  lemma {:induction false} CrashAtomicity(d: Disk, txns: seq<Txn>, k: nat, ks: seq<nat>)
    requires Quiet(d) && AllFit(txns, |d.home|, |d.slots|)
    requires k <= |RunWrites(d, txns)|
    ensures var crashed := ApplyAll(d, RunWrites(d, txns)[..k]);
            && LogOk(crashed)
            && var again := Reboots(crashed, ks);
               var e := ApplyAll(again, RecoveryWrites(again));
               Quiet(e) && e.home == AfterTxns(d.home, txns[..Committed(d, txns, k)])
  {
    RunCrash(d, txns, k);
    var again := Reboots(ApplyAll(d, RunWrites(d, txns)[..k]), ks);
    var ws := RecoveryWrites(again);
    assert ws[..|ws|] == ws;
    RecoveryCrash(again, |ws|);
  }

  /**
   Durability and atomicity of the count: every transaction whose writes all happened is counted,
   and at most the one being written at the crash is counted beyond them.
   */
  lemma {:induction false} CommittedCountsFinished(d: Disk, txns: seq<Txn>, k: nat, m: nat)
    requires AllFit(txns, |d.home|, |d.slots|) && m <= |txns|
    ensures |RunWrites(d, txns[..m])| <= k ==> m <= Committed(d, txns, k)
    ensures k < |RunWrites(d, txns[..m])| ==> Committed(d, txns, k) <= m
    decreases |txns|
  {
    hide TxnWrites, Fits;
    if m > 0 {
      var ws := TxnWrites(d, txns[0]);
      assert txns[..m][1..] == txns[1..][..m - 1];
      if k >= |ws| {
        CommittedCountsFinished(ApplyAll(d, ws), txns[1..], k - |ws|, m - 1);
      }
    }
  }
}
