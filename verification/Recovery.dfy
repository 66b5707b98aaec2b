/**
 Crashes and reboots of the code itself: what the log wrote is cut off anywhere, the machine boots with an
 empty cache from what reached the disk, and recover_from_log runs, to be cut off as well.
 */
module Recovery {
  import opened Blocks
  import opened MruList
  import opened Bcache
  import opened Wal
  import opened LogDisk
  import opened LogLayer
  import opened Crash
  import opened Transactions

  function Least(a: nat, b: nat): nat {
    if a < b then a else b
  }

  /** The disk as a crash leaves it: only the first `k` of the writes made since `image` reached it. */
  function Cut(image: seq<Block>, writes: seq<RawWrite>, k: nat): seq<Block> {
    RawApplyAll(image, writes[..Least(k, |writes|)])
  }

  /** A crash during recovery leaves a disk that will recover to the same home sectors. */
  lemma {:induction false} CutRecovery(image: seq<Block>, start: nat, writes: seq<RawWrite>, k: nat)
    requires start < |image| && LogOk(View(image, start))
    requires ViewWrites(writes, start) == RecoveryWrites(View(image, start))
    ensures |Cut(image, writes, k)| == |image|
    ensures var e := View(Cut(image, writes, k), start); LogOk(e) && Recovered(e) == Recovered(View(image, start))
    ensures forall ks :: Reboots(View(image, start), [k] + ks) == Reboots(View(Cut(image, writes, k), start), ks)
  {
    hide DecodeHead, ViewWrite, RecoveryWrites, ApplyAll, RawApplyAll, Recovered;
    var d, n := View(image, start), Least(k, |writes|);
    RecoveryCrash(d, n);
    ViewApplyAll(image, start, writes[..n]);
    assert ViewWrites(writes[..n], start) == RecoveryWrites(d)[..n];
    forall ks ensures Reboots(d, [k] + ks) == Reboots(View(Cut(image, writes, k), start), ks) {
      assert ([k] + ks)[1..] == ks;
    }
  }

  lemma {:induction false} AllClean(buf: seq<Buf>)
    requires |buf| == NBUF && forall i :: 0 <= i < NBUF ==> !buf[i].busy && !buf[i].dirty
    ensures Idle(buf) && TwoClean(buf) && PinsWithin(buf, [])
  {
    assert !buf[0].dirty && !buf[1].dirty;
  }

  /** Boot from `image`: an empty cache, the log at the end of the disk, and recovery, which always finishes. */
  method Boot(image: seq<Block>, nlog: nat) returns (log: Log)
    requires 1 <= nlog <= |image| && |image| - nlog < UINT_LIMIT && LogOk(View(image, |image| - nlog))
    ensures fresh(log) && fresh(log.bc) && log.start == |image| - nlog && log.size == nlog
    ensures log.Valid() && !log.busy && Idle(log.bc.buf) && log.bc.image == image
    ensures log.bc.disk[..log.start] == log.bc.store[..log.start] == Recovered(View(image, log.start))
    ensures ViewWrites(log.bc.writes, log.start) == RecoveryWrites(View(image, log.start))
  {
    hide DecodeHead, ViewWrites, RecoveryWrites, RawApplyAll, Recovered, TwoClean, PinsWithin, ListOk, ByRelease, Coherent, Idle,
      AllPinned, SafeInSlots;
    var cache := new Cache(image);
    log := new Log(cache, |image|, nlog);
    AllClean(cache.buf);
    var ok;
    ghost var k;
    ok, k := log.RecoverFromLog();
    assert cache.writes[0..] == cache.writes;
    ghost var ws := RecoveryWrites(View(image, log.start));
    assert ws[..|ws|] == ws;
  }

  /**
   Reboots: the machine boots once for each number in `ks`, each time crashing after that many of the writes
   that recovery makes, and then once more from what is left. The home sectors are those that the log on `image`
   stood for.
   */
  method Restart(image: seq<Block>, nlog: nat, ks: seq<nat>) returns (log: Log)
    requires 1 <= nlog <= |image| && |image| - nlog < UINT_LIMIT && LogOk(View(image, |image| - nlog))
    ensures fresh(log) && fresh(log.bc) && log.start == |image| - nlog && log.size == nlog
    ensures log.Valid() && !log.busy && Idle(log.bc.buf)
    ensures |log.bc.image| == |image| && View(log.bc.image, log.start) == Reboots(View(image, log.start), ks)
    ensures log.bc.disk[..log.start] == log.bc.store[..log.start] == Recovered(View(image, log.start))
  {
    hide DecodeHead, ViewWrites, RecoveryWrites, LogOk, RawApplyAll, Recovered, View, Idle, Cut, Reboots;
    ghost var start := |image| - nlog;
    var disk := image;
    var i := 0;
    while i < |ks|
      invariant 0 <= i <= |ks| && |disk| == |image|
      invariant LogOk(View(disk, start)) && Recovered(View(disk, start)) == Recovered(View(image, start))
      invariant Reboots(View(disk, start), ks[i..]) == Reboots(View(image, start), ks)
    {
      log := Boot(disk, nlog);
      CutRecovery(disk, start, log.bc.writes, ks[i]);
      assert ks[i..] == [ks[i]] + ks[i + 1..];
      disk := Cut(disk, log.bc.writes, ks[i]);
      i := i + 1;
    }
    log := Boot(disk, nlog);
    NoReboots(View(disk, start), ks[i..]);
  }

  lemma {:induction false} NoReboots(d: Disk, ks: seq<nat>)
    requires LogOk(d) && ks == []
    ensures Reboots(d, ks) == d
  {
  }

  /**
   Crash atomicity of the code: run the transactions, crash after any `k` of the sector writes that were made,
   reboot through any number of further crashes. The log is valid again and the home sectors are those after a
   whole number of the transactions; `made` of their writes had reached the disk. Small transactions all of
   whose writes reached the disk are there for good.
   */
  method Survive(log: Log, txns: seq<Txn>, k: nat, ks: seq<nat>) returns (after: Log, ghost made: nat)
    requires log.Valid() && !log.busy && AllFit(txns, log.start, log.size - 1)
    modifies log, log.bc
    ensures after.Valid() && !after.busy && Idle(after.bc.buf) && after.start == log.start && after.size == log.size
    ensures var d := View(old(log.bc.disk), log.start);
      && |d.home| == log.start && |d.slots| == log.size - 1
      && after.bc.disk[..log.start] == after.bc.store[..log.start] == AfterTxns(d.home, txns[..Committed(d, txns, made)])
    ensures old(log.bc.writes) <= log.bc.writes && made == Least(k, |log.bc.writes| - |old(log.bc.writes)|)
    ensures var cut := Cut(old(log.bc.disk), log.bc.writes[|old(log.bc.writes)|..], k);
      && log.start < |cut| == |after.bc.image| && LogOk(View(cut, log.start))
      && View(after.bc.image, log.start) == Reboots(View(cut, log.start), ks)
    ensures var d := View(old(log.bc.disk), log.start);
      Idle(old(log.bc.buf)) && EachSmall(txns) ==>
        && |log.bc.writes| - |old(log.bc.writes)| == |RunWrites(d, txns)|
        && (k >= |RunWrites(d, txns)| ==> Committed(d, txns, made) == |txns|)
  {
    hide DecodeHead, ViewWrites, RunWrites, LogOk, RawApplyAll, Recovered, Idle, Committed, AfterTxns, Fits, ListOk, ByRelease, Coherent,
      AllPinned, PinsWithin, SafeInSlots, HeadFits, ApplyAll, RecoveryWrites, EachSmall, Reboots;
    var image, n := log.bc.disk, |log.bc.writes|;
    var ok;
    ghost var m;
    ok, m := Run(log, txns);
    var ws := log.bc.writes[n..];
    made := Least(k, |ws|);
    CutRun(image, log.start, txns, ws, made);
    after := Restart(Cut(image, ws, k), log.size, ks);
    CommittedCountsFinished(View(image, log.start), txns, made, |txns|);
    assert txns[..|txns|] == txns;
  }

  /** What is left of a run on disk recovers to the transactions that had committed. */
  lemma {:induction false} CutRun(raw: seq<Block>, start: nat, txns: seq<Txn>, ws: seq<RawWrite>, k: nat)
    requires start < |raw| && Quiet(View(raw, start)) && AllFit(txns, start, |raw| - start - 1)
    requires ViewWrites(ws, start) <= RunWrites(View(raw, start), txns) && k <= |ws|
    ensures var e := View(RawApplyAll(raw, ws[..k]), start);
            LogOk(e) && Recovered(e) == AfterTxns(raw[..start], txns[..Committed(View(raw, start), txns, k)])
  {
    hide DecodeHead, ViewWrite, RunWrites, Committed, AfterTxns, LogOk, ApplyAll, RawApplyAll, AllFit, Recovered;
    ViewApplyAll(raw, start, ws[..k]);
    RunCrash(View(raw, start), txns, k);
    assert ViewWrites(ws[..k], start) == RunWrites(View(raw, start), txns)[..k];
  }
}
