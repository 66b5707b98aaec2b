/**
 Whole transactions run through the log and the cache: the way system calls use them. The sector
 writes they cause are exactly those of the write-ahead theory, so the crash theorem applies to
 them, and their effect on the store is the transaction's meaning.
 */
module Transactions {
  import opened Blocks
  import opened MruList
  import opened Bcache
  import opened Wal
  import opened LogDisk
  import opened LogLayer
  import opened Crash

  /** Reading or releasing a buffer leaves the pins as they are. */
  lemma {:induction false} SamePins(buf0: seq<Buf>, buf1: seq<Buf>, b: nat, lh: seq<nat>)
    requires |buf0| == |buf1| && b < |buf0| && buf1 == buf0[b := buf1[b]]
    requires buf1[b].dirty == buf0[b].dirty && (buf0[b].dirty ==> buf1[b].sector == buf0[b].sector)
    requires PinsWithin(buf0, lh) && AllPinned(buf0, lh)
    ensures PinsWithin(buf1, lh) && AllPinned(buf1, lh)
  {
    forall i | 0 <= i < |lh| ensures Pinned(buf1, lh[i]) {
      assert Pinned(buf0, lh[i]);
      var j :| 0 <= j < |buf0| && buf0[j].dirty && buf0[j].sector == lh[i];
      assert buf1[j].dirty && buf1[j].sector == lh[i];
    }
  }

  /** The typical use of the log: read a block, change it, log it, release it. */
  method Change(log: Log, s: nat, x: Block) returns (ok: bool)
    requires log.Valid() && log.busy && |log.lh| < LOGSIZE && |log.lh| < log.size - 1 && s < log.start
    modifies log`lh, log.bc
    ensures var i := log.start + 1 + FindSlot(old(log.lh), s);
      if ok then
        && log.Valid() && log.lh == AddSector(old(log.lh), s)
        && log.bc.writes == old(log.bc.writes) + [RawWrite(i, x)]
        && log.bc.disk == old(log.bc.disk)[i := x]
        && log.bc.store == old(log.bc.store)[i := x][s := x]
      else log.bc.writes == old(log.bc.writes)
    ensures Idle(old(log.bc.buf)) && |AddSector(old(log.lh), s)| < NBUF ==> ok && Idle(log.bc.buf)
    ensures ok ==> |log.lh| < NBUF
  {
    hide RawApplyAll, ListOk, ByRelease, Coherent, DecodeHead, Gets, SafeInSlots, HeadFits, AllPinned, PinsWithin, FindSlot, AddSector,
      Cached, Refused, CleanBeside;
    var bc := log.bc;
    ghost var buf0, lh0 := bc.buf, log.lh;
    ghost var room := Idle(buf0) && |AddSector(lh0, s)| < NBUF;
    var r := bc.Bread(s);
    if room {
      HomeToGet(buf0, old(bc.disk), old(bc.store), lh0, bc.stamp, s, r);
    }
    if !r.Got? {
      return false;
    }
    var b := r.b;
    bc.Modify(b, x);
    SamePins(buf0, bc.buf, b, lh0);
    if room {
      OneMorePin(bc.buf, lh0, s);
      RoomBeside(bc.buf, bc.disk, bc.store, AddSector(lh0, s), b);
      SlotToGet(bc.buf, b, log.start + 1 + FindSlot(lh0, s));
    }
    ok := log.LogWrite(b);
    if !ok {
      return false;
    }
    ghost var buf1 := bc.buf;
    bc.Brelse(b);
    SamePins(buf1, bc.buf, b, log.lh);
  }

  lemma {:induction false} OneMorePin(buf: seq<Buf>, lh: seq<nat>, s: nat)
    requires PinsWithin(buf, lh)
    ensures PinsWithin(buf, AddSector(lh, s)) && s in AddSector(lh, s)
  {
  }

  /** Where a transaction stands once the updates `t` have been logged. */
  ghost predicate Progress(disk: seq<Block>, store: seq<Block>, writes: seq<RawWrite>, start: nat,
                           disk0: seq<Block>, store0: seq<Block>, writes0: seq<RawWrite>, t: Txn)
  {
    && start < |disk0| && start < |disk| && start <= |store0| && start <= |store|
    && writes0 <= writes
    && ViewWrites(writes[|writes0|..], start) == LogWrites(t)
    && View(disk, start) == ApplyAll(View(disk0, start), LogWrites(t))
    && store[..start] == Effect(store0[..start], t)
  }

  lemma {:induction false} ProgressStep(disk: seq<Block>, store: seq<Block>, writes: seq<RawWrite>, start: nat,
                                        disk0: seq<Block>, store0: seq<Block>, writes0: seq<RawWrite>, t: Txn)
    requires t != [] && Progress(disk, store, writes, start, disk0, store0, writes0, t[..|t| - 1])
    requires t[|t| - 1].sector < start && |disk| == |store|
    requires start + 1 + FindSlot(TxnHead(t[..|t| - 1]), t[|t| - 1].sector) < |disk|
    ensures var s, x := t[|t| - 1].sector, t[|t| - 1].data;
            var i := start + 1 + FindSlot(TxnHead(t[..|t| - 1]), s);
            Progress(disk[i := x], store[i := x][s := x], writes + [RawWrite(i, x)], start, disk0, store0, writes0, t)
  {
    hide DecodeHead, View, FindSlot, TxnHead, ApplyAll;
    var t0, s, x := t[..|t| - 1], t[|t| - 1].sector, t[|t| - 1].data;
    var i := start + 1 + FindSlot(TxnHead(t0), s);
    var w := RawWrite(i, x);
    ViewApply(disk, start, w);
    LogStep(View(disk0, start), t);
    assert (writes + [w])[|writes0|..] == writes[|writes0|..] + [w];
    ViewWritesAppend(writes[|writes0|..], [w], start);
    assert ViewWrites([w], start) == [Slot(FindSlot(TxnHead(t0), s), x)];
    assert store[i := x][s := x][..start] == store[..start][s := x];
  }

  /** The transaction changes fewer sectors than there are buffers: one is left to be recycled. */
  ghost predicate Small(t: Txn) {
    |TxnHead(t)| < NBUF
  }

  /** In a log of at most ten sectors, header included, every transaction that fits is small. */
  lemma {:induction false} FitsSmall(t: Txn, nhome: nat, nslots: nat)
    requires Fits(t, nhome, nslots) && nslots < NBUF
    ensures Small(t)
  {
    hide TxnHead, Fits, HeadFits;
    TxnHeadFits(t, nhome, nslots);
    HeadFitsSlots(TxnHead(t), nhome, nslots);
  }

  lemma {:induction false} HeadFitsSlots(lh: seq<nat>, nhome: nat, nslots: nat)
    requires HeadFits(lh, nhome, nslots)
    ensures |lh| <= nslots
  {
  }

  /** One update of each of the first `n` sectors. */
  function FirstSectors(n: nat): (t: Txn)
    ensures |t| == n
  {
    if n == 0 then [] else FirstSectors(n - 1) + [Update(n - 1, ZERO_BLOCK)]
  }

  lemma {:induction false} FirstSectorsHead(n: nat, nhome: nat, nslots: nat)
    requires n <= LOGSIZE && n <= nhome && n <= nslots
    ensures Fits(FirstSectors(n), nhome, nslots)
    ensures |TxnHead(FirstSectors(n))| == n && forall i :: 0 <= i < n ==> TxnHead(FirstSectors(n))[i] == i
  {
    if n > 0 {
      FirstSectorsHead(n - 1, nhome, nslots);
      assert FirstSectors(n)[..n - 1] == FirstSectors(n - 1);
    }
  }

  /** In a larger log one that fits need not be: ten sectors fit it and do not finish. */
  lemma {:induction false} TenSectorsFit(nhome: nat, nslots: nat)
    requires NBUF <= nhome && NBUF <= nslots
    ensures Fits(FirstSectors(NBUF), nhome, nslots) && !Small(FirstSectors(NBUF))
  {
    hide Fits, TxnHead, FirstSectors;
    FirstSectorsHead(NBUF, nhome, nslots);
  }

  lemma {:induction false} HeadGrows(t: Txn, k: nat)
    requires k <= |t|
    ensures |TxnHead(t[..k])| <= |TxnHead(t)|
  {
    if k == |t| {
      assert t[..k] == t;
    } else {
      HeadGrows(t[..|t| - 1], k);
      assert t[..|t| - 1][..k] == t[..k];
    }
  }

  /** All the updates of a transaction, logged one after the other. */
  method LogAll(log: Log, t: Txn) returns (ok: bool, ghost j: nat)
    requires log.Valid() && log.busy && log.lh == [] && Fits(t, log.start, log.size - 1)
    modifies log`lh, log.bc
    ensures old(log.bc.writes) <= log.bc.writes
    ensures j <= |t| && (ok ==> j == |t|)
    ensures ViewWrites(log.bc.writes[|old(log.bc.writes)|..], log.start) == LogWrites(t)[..j]
    ensures ok ==>
      && log.Valid() && log.lh == TxnHead(t)
      && Progress(log.bc.disk, log.bc.store, log.bc.writes, log.start, old(log.bc.disk), old(log.bc.store), old(log.bc.writes), t)
    ensures Idle(old(log.bc.buf)) && Small(t) ==> ok && Idle(log.bc.buf)
    ensures ok ==> Small(t)
  {
    hide RawApplyAll, ListOk, ByRelease, Coherent, DecodeHead, SafeInSlots, HeadFits, AllPinned, PinsWithin, FindSlot, ViewWrites, View,
      Fits, TxnHead, LogWrites, Effect, ApplyAll, Progress, AddSector;
    ghost var room := Idle(log.bc.buf) && Small(t);
    ghost var disk0, store0, writes0 := log.bc.disk, log.bc.store, log.bc.writes;
    var i := 0;
    ProgressStart(disk0, store0, writes0, log.start, t);
    while i < |t|
      invariant 0 <= i <= |t| && log.Valid() && log.busy && log.lh == TxnHead(t[..i])
      invariant Progress(log.bc.disk, log.bc.store, log.bc.writes, log.start, disk0, store0, writes0, t[..i])
      invariant (room ==> Idle(log.bc.buf)) && |log.lh| < NBUF
    {
      HeadGrows(t, i + 1);
      ghost var disk1, store1, writes1 := log.bc.disk, log.bc.store, log.bc.writes;
      NextUpdate(t, log.start, log.size - 1, i);
      ok := Change(log, t[i].sector, t[i].data);
      if !ok {
        ProgressWrites(disk1, store1, writes1, log.start, disk0, store0, writes0, t, i);
        return false, i;
      }
      ProgressStep(disk1, store1, writes1, log.start, disk0, store0, writes0, t[..i + 1]);
      i := i + 1;
    }
    assert t[..i] == t;
    ProgressWrites(log.bc.disk, log.bc.store, log.bc.writes, log.start, disk0, store0, writes0, t, i);
    return true, i;
  }

  lemma {:induction false} ProgressStart(disk0: seq<Block>, store0: seq<Block>, writes0: seq<RawWrite>, start: nat, t: Txn)
    requires start < |disk0| && start <= |store0|
    ensures TxnHead(t[..0]) == []
    ensures Progress(disk0, store0, writes0, start, disk0, store0, writes0, t[..0])
  {
  }

  lemma {:induction false} ProgressWrites(disk: seq<Block>, store: seq<Block>, writes: seq<RawWrite>, start: nat,
                                          disk0: seq<Block>, store0: seq<Block>, writes0: seq<RawWrite>, t: Txn, i: nat)
    requires i <= |t| && Progress(disk, store, writes, start, disk0, store0, writes0, t[..i])
    ensures writes0 <= writes && ViewWrites(writes[|writes0|..], start) == LogWrites(t)[..i]
  {
    LogWritesPrefix(t, i);
  }

  lemma {:induction false} NextUpdate(t: Txn, nhome: nat, nslots: nat, i: nat)
    requires Fits(t, nhome, nslots) && i < |t|
    ensures t[..i + 1][..i] == t[..i] && t[..i + 1][i] == t[i]
    ensures t[i].sector < nhome && |TxnHead(t[..i])| < LOGSIZE && |TxnHead(t[..i])| < nslots
    ensures TxnHead(t[..i + 1]) == AddSector(TxnHead(t[..i]), t[i].sector)
  {
    FitsPrefix(t, nhome, nslots, i + 1);
    assert t[..i + 1][..i] == t[..i];
  }

  lemma {:induction false} FitsPrefix(t: Txn, nhome: nat, nslots: nat, k: nat)
    requires Fits(t, nhome, nslots) && k <= |t|
    ensures Fits(t[..k], nhome, nslots)
  {
    if k == |t| {
      assert t[..k] == t;
    } else {
      FitsPrefix(t[..|t| - 1], nhome, nslots, k);
      assert t[..|t| - 1][..k] == t[..k];
    }
  }

  lemma {:induction false} SplitWrites(w0: seq<RawWrite>, w1: seq<RawWrite>, w2: seq<RawWrite>, start: nat)
    requires w0 <= w1 <= w2
    ensures w0 <= w2
    ensures ViewWrites(w2[|w0|..], start) == ViewWrites(w1[|w0|..], start) + ViewWrites(w2[|w1|..], start)
  {
    ViewWritesAppend(w1[|w0|..], w2[|w1|..], start);
    assert w2[|w0|..] == w1[|w0|..] + w2[|w1|..];
  }

  /**
   A whole transaction: begin, log every update, commit. Its first `k` sector writes are the first
   `k` of the transaction's writes; when it finishes, both the store and the home sectors on disk
   have exactly the transaction's effect. It finishes only if it is small, and from an idle
   cache always then; a log of at most ten sectors takes only small ones.
   */
  method RunTxn(log: Log, t: Txn) returns (ok: bool, ghost k: nat)
    requires log.Valid() && !log.busy && Fits(t, log.start, log.size - 1)
    modifies log, log.bc
    ensures old(log.bc.writes) <= log.bc.writes
    ensures var d := View(old(log.bc.disk), log.start);
      && |d.home| == log.start && |d.slots| == log.size - 1
      && k <= |TxnWrites(d, t)| && (ok ==> k == |TxnWrites(d, t)|)
      && ViewWrites(log.bc.writes[|old(log.bc.writes)|..], log.start) == TxnWrites(d, t)[..k]
    ensures ok ==>
      && log.Valid() && !log.busy
      && log.bc.store[..log.start] == log.bc.disk[..log.start] == Effect(old(log.bc.store)[..log.start], t)
    ensures ok ==> Small(t)
    ensures Idle(old(log.bc.buf)) ==> (ok <==> Small(t)) && (ok ==> Idle(log.bc.buf))
    ensures Idle(old(log.bc.buf)) && log.size <= NBUF ==> ok
  {
    hide RawApplyAll, ListOk, ByRelease, Coherent, DecodeHead, SafeInSlots, HeadFits, AllPinned, PinsWithin, FindSlot, ViewWrites,
      CommitWrites, LogWrites;
    ghost var disk0, writes0, d := log.bc.disk, log.bc.writes, View(log.bc.disk, log.start);
    var began := log.BeginTrans();
    ok, k := LogAll(log, t);
    TxnHeadFits(t, log.start, log.size - 1);
    if log.size <= NBUF {
      FitsSmall(t, log.start, log.size - 1);
    }
    if !ok {
      assert TxnWrites(d, t)[..k] == LogWrites(t)[..k];
      return;
    }
    ghost var writes1 := log.bc.writes;
    assert log.bc.disk[log.start + 1..] == ApplyAll(d, LogWrites(t)).slots;
    if Small(t) {
      RoomAtAll(log.bc.buf, log.bc.disk, log.bc.store, log.lh);
    }
    ghost var m;
    ok, m := log.CommitTrans();
    k := |t| + m;
    SplitWrites(writes0, writes1, log.bc.writes, log.start);
    assert TxnWrites(d, t)[..k] == LogWrites(t) + CommitWrites(TxnHead(t), ApplyAll(d, LogWrites(t)).slots)[..m];
  }

  lemma {:induction false} RawApplyAllAppend(d: seq<Block>, a: seq<RawWrite>, b: seq<RawWrite>)
    ensures RawApplyAll(d, a + b) == RawApplyAll(RawApplyAll(d, a), b)
    decreases b
  {
    if b == [] {
      assert a + b == a;
    } else {
      var m := |b| - 1;
      assert (a + b)[..|a + b| - 1] == a + b[..m];
      RawApplyAllAppend(d, a, b[..m]);
    }
  }

  /** The disk is reached from an earlier one by the writes made in between. */
  lemma {:induction false} DiskSince(image: seq<Block>, w0: seq<RawWrite>, w1: seq<RawWrite>, start: nat)
    requires w0 <= w1 && start < |image|
    ensures View(RawApplyAll(image, w1), start) == ApplyAll(View(RawApplyAll(image, w0), start), ViewWrites(w1[|w0|..], start))
  {
    hide View, ViewWrites, RawApplyAll, ApplyAll;
    assert w1 == w0 + w1[|w0|..];
    RawApplyAllAppend(image, w0, w1[|w0|..]);
    ViewApplyAll(RawApplyAll(image, w0), start, w1[|w0|..]);
  }

  ghost predicate EachSmall(txns: seq<Txn>) {
    forall i :: 0 <= i < |txns| ==> Small(txns[i])
  }

  lemma {:induction false} EachSmallSplit(txns: seq<Txn>)
    ensures EachSmall(txns) <==> txns == [] || (Small(txns[0]) && EachSmall(txns[1..]))
  {
    hide Small;
    if txns != [] {
      assert forall i :: 0 < i < |txns| ==> txns[i] == txns[1..][i - 1];
    }
  }

  /**
   A run of transactions: however far it gets, its sector writes are a prefix of the run's writes. From an
   idle cache it gets to its end exactly if all of them are small.
   */
  method Run(log: Log, txns: seq<Txn>) returns (ok: bool, ghost k: nat)
    requires log.Valid() && !log.busy && AllFit(txns, log.start, log.size - 1)
    modifies log, log.bc
    ensures old(log.bc.writes) <= log.bc.writes
    ensures var d := View(old(log.bc.disk), log.start);
      && |d.home| == log.start && |d.slots| == log.size - 1
      && k <= |RunWrites(d, txns)| && (ok ==> k == |RunWrites(d, txns)|)
      && ViewWrites(log.bc.writes[|old(log.bc.writes)|..], log.start) == RunWrites(d, txns)[..k]
    ensures ok ==>
      && log.Valid() && !log.busy
      && log.bc.store[..log.start] == AfterTxns(old(log.bc.store)[..log.start], txns)
    ensures Idle(old(log.bc.buf)) ==> (ok <==> EachSmall(txns)) && (ok ==> Idle(log.bc.buf))
    ensures ok ==> EachSmall(txns)
    ensures Idle(old(log.bc.buf)) && log.size <= NBUF ==> ok
    decreases |txns|
  {
    hide RawApplyAll, ListOk, ByRelease, Coherent, DecodeHead, SafeInSlots, HeadFits, AllPinned, PinsWithin, ViewWrites, TxnWrites, Fits,
      Effect, Small, EachSmall, Idle;
    EachSmallSplit(txns);
    ghost var d, image, writes0 := View(log.bc.disk, log.start), log.bc.image, log.bc.writes;
    if txns == [] {
      assert log.bc.writes[|writes0|..] == [];
      return true, 0;
    }
    ok, k := RunTxn(log, txns[0]);
    if !ok {
      assert RunWrites(d, txns)[..k] == TxnWrites(d, txns[0])[..k];
      return;
    }
    ghost var writes1, m, ws := log.bc.writes, 0, TxnWrites(d, txns[0]);
    assert ws[..k] == ws;
    DiskSince(image, writes0, writes1, log.start);
    ok, m := Run(log, txns[1..]);
    SplitWrites(writes0, writes1, log.bc.writes, log.start);
    assert RunWrites(d, txns)[..k + m] == ws + RunWrites(ApplyAll(d, ws), txns[1..])[..m];
    k := k + m;
  }
}
