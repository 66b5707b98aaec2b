/**
 Crashes during a long file write: the transactions that filewrite cuts the write into run through the
 log, so whenever the machine stops and however often recovery is interrupted, the home sectors end up
 as after a whole number of them, and there the file holds a whole number of chunks.
 */
module FsCrash {
  import opened Blocks
  import opened Options
  import opened FsLayout
  import opened FsState
  import opened FsAlloc
  import opened FsFiles
  import opened FsOps
  import opened FileLayer
  import Wal
  import Crash
  import Bcache
  import LogDisk
  import LogLayer
  import Recovery
  import Transactions

  /** Every sector a transaction logs lies below the log. */
  ghost predicate Below(t: Wal.Txn, start: nat) {
    forall i :: 0 <= i < |t| ==> t[i].sector < start
  }

  ghost predicate AllBelow(txns: seq<Wal.Txn>, start: nat) {
    forall k :: 0 <= k < |txns| ==> Below(txns[k], start)
  }

  /** Transactions of few sectors fit the log. */
  lemma {:induction false} SmallFits(t: Wal.Txn, start: nat, nslots: nat)
    requires Below(t, start) && |Wal.TxnHead(t)| <= MAX_LOGGED < nslots
    ensures Wal.Fits(t, start, nslots)
  {
    if t != [] {
      var t0 := t[..|t| - 1];
      assert |Wal.TxnHead(t0)| <= |Wal.TxnHead(t)|;
      SmallFits(t0, start, nslots);
    }
  }

  /** The home sectors see a transaction that stays below the log as the whole store does. */
  lemma {:induction false} EffectBelow(d: seq<Block>, t: Wal.Txn, start: nat)
    requires Below(t, start) && start <= |d|
    ensures Wal.Effect(d, t)[..start] == Wal.Effect(d[..start], t)
  {
    if t != [] {
      EffectBelow(d, t[..|t| - 1], start);
    }
  }

  lemma {:induction false} AfterBelow(d: seq<Block>, txns: seq<Wal.Txn>, start: nat)
    requires AllBelow(txns, start) && start <= |d|
    ensures |Crash.AfterTxns(d, txns)| == |d|
    ensures Crash.AfterTxns(d, txns)[..start] == Crash.AfterTxns(d[..start], txns)
    decreases |txns|
  {
    if txns != [] {
      EffectBelow(d, txns[0], start);
      AfterBelow(Wal.Effect(d, txns[0]), txns[1..], start);
    }
  }

  /**
   From an idle cache the transactions of a file write always run to their end: neither the size of the
   log nor the number of buffers stops one. The sector writes are those of the run and the store ends up as
   the write left it.
   */
  method RunWrite(log: LogLayer.Log, txns: seq<Wal.Txn>) returns (ok: bool)
    requires log.Valid() && !log.busy && LogLayer.Idle(log.bc.buf)
    requires AllSmall(txns) && AllBelow(txns, log.start) && MAX_LOGGED < log.size - 1
    modifies log, log.bc
    ensures ok && log.Valid() && !log.busy && LogLayer.Idle(log.bc.buf)
    ensures log.bc.store[..log.start] == Crash.AfterTxns(old(log.bc.store)[..log.start], txns)
    ensures old(log.bc.writes) <= log.bc.writes
    ensures var d := LogDisk.View(old(log.bc.disk), log.start);
      && |d.home| == log.start && |d.slots| == log.size - 1 && Crash.AllFit(txns, log.start, log.size - 1)
      && LogDisk.ViewWrites(log.bc.writes[|old(log.bc.writes)|..], log.start) == Crash.RunWrites(d, txns)
  {
    hide Wal.Fits, Wal.TxnHead, Below, Crash.AfterTxns, Crash.RunWrites, Transactions.EachSmall, LogDisk.ViewWrites;
    ghost var d := LogDisk.View(log.bc.disk, log.start);
    SmallFit(txns, log.start, log.size - 1);
    ghost var k;
    ok, k := Transactions.Run(log, txns);
    assert Crash.RunWrites(d, txns)[..k] == Crash.RunWrites(d, txns);
  }

  lemma {:induction false} SmallFit(txns: seq<Wal.Txn>, start: nat, nslots: nat)
    requires AllSmall(txns) && AllBelow(txns, start) && MAX_LOGGED < nslots
    ensures Crash.AllFit(txns, start, nslots) && Transactions.EachSmall(txns)
  {
    hide Wal.Fits, Wal.TxnHead, Below;
    forall i | 0 <= i < |txns| ensures Wal.Fits(txns[i], start, nslots) {
      SmallFits(txns[i], start, nslots);
    }
  }

  /**
   The write of `src` at `off` that starts from file system `s` is cut into `txns`; the raw disk holds `s`
   below the log at `start`. Stop after any `k` of the sector writes that running them causes, crash any
   number of times during recovery, then recover: the home sectors are those of a sound file system in
   which the file holds a whole number of chunks of the write and every other file is as it was.
   */
  lemma {:induction false} CrashDuringFilewrite(s: Snap, txns: seq<Wal.Txn>, off: nat, src: seq<Byte>, total: nat,
                                                raw: seq<Block>, start: nat, ws: seq<Bcache.RawWrite>, k: nat, ks: seq<nat>)
    requires Stages(s, txns, off, src, total) && AllBelow(txns, start)
    requires start <= |s.d| && start < |raw| && raw[..start] == s.d[..start]
    requires Wal.Quiet(LogDisk.View(raw, start)) && Crash.AllFit(txns, start, |raw| - start - 1)
    requires LogDisk.ViewWrites(ws, start) <= Crash.RunWrites(LogDisk.View(raw, start), txns) && k <= |ws|
    ensures var crashed := LogDisk.View(Bcache.RawApplyAll(raw, ws[..k]), start);
            && Wal.LogOk(crashed)
            && var again := Crash.Reboots(crashed, ks);
               var e := Wal.ApplyAll(again, Wal.RecoveryWrites(again));
               var p := Crash.Committed(LogDisk.View(raw, start), txns, k);
               var d := Crash.AfterTxns(s.d, txns[..p]);
               && Wal.Quiet(e) && start <= |d| && e.home == d[..start]
               && Stage(s, d, off, src, Smaller(p * MAX_CHUNK, total)) && OtherBytesKept(s, d) && HeadKept(s.d, d)
  {
    hide Wal.Fits, Wal.TxnHead, Stage, Below, Crash.RunWrites, Crash.Committed, Crash.AfterTxns, Crash.Reboots, Wal.RecoveryWrites,
         Wal.LogOk, Wal.ApplyAll, Bcache.RawApplyAll, LogDisk.ViewWrites, LogDisk.DecodeHead;
    LogDisk.RawCrashAtomicity(raw, start, txns, ws, k, ks);
    var p := Crash.Committed(LogDisk.View(raw, start), txns, k);
    AfterBelow(s.d, txns[..p], start);
    StageBytes(s, Crash.AfterTxns(s.d, txns[..p]), off, src, Smaller(p * MAX_CHUNK, total));
  }

  /** On disk `d` every file but that of `s` has the bytes it has in `s`. */
  ghost predicate OtherBytesKept(s: Snap, d: Disk) {
    SameBytesElsewhere(s, s.(d := d))
  }

  lemma {:induction false} StageBytes(s: Snap, d: Disk, off: nat, src: seq<Byte>, n: nat)
    requires Stage(s, d, off, src, n)
    ensures OtherBytesKept(s, d) && HeadKept(s.d, d)
  {
    hide WroteFile, SameBytesAt, ReadInode;
    var t := Snap(d, s.sb, s.inum, ReadInode(d, s.inum));
    var owner :| WroteFile(s, t, owner, off, src[..n]);
    WroteBytes(s, t, owner, off, src[..n]);
    WroteHead(s, t, owner, off, src[..n]);
    forall j: nat | j < s.sb.ninodes && j != s.inum ensures SameBytesAt(s, s.(d := d), j) {
      SameBytesHere(s, t, d, j);
    }
  }

  lemma {:induction false} SameBytesHere(s: Snap, t: Snap, d: Disk, j: nat)
    requires SnapOk(s) && j < s.sb.ninodes && |t.d| == |s.d| && t.d == d && SameBytesAt(s, t, j)
    ensures SameBytesAt(s, s.(d := d), j)
  {
  }

  lemma {:induction false} WroteHead(s: Snap, t: Snap, owner: Owners, off: nat, src: seq<Byte>)
    requires WroteFile(s, t, owner, off, src)
    ensures HeadKept(s.d, t.d)
  {
  }

  /** Of a disk only the sectors below `start` are known: some whole disk with them is a stage of the write. */
  ghost predicate Staged(s: Snap, home: seq<Block>, off: nat, src: seq<Byte>, n: nat) {
    exists d: Disk :: |home| <= |d| && d[..|home|] == home && Stage(s, d, off, src, n) && OtherBytesKept(s, d)
  }

  // ----- When the transactions of a write stay below the log -----

  lemma {:induction false} BelowSectors(t: Wal.Txn, start: nat)
    ensures Below(t, start) <==> AllUnder(Sectors(t), start)
  {
    if t != [] {
      BelowSectors(t[..|t| - 1], start);
      assert Below(t, start) <==> Below(t[..|t| - 1], start) && t[|t| - 1].sector < start;
    }
  }

  lemma {:induction false} AllBelowSectors(txns: seq<Wal.Txn>, start: nat)
    ensures AllBelow(txns, start) <==> AllUnder(AllSectors(txns), start)
  {
    hide Below, Sectors;
    if txns != [] {
      AllBelowSectors(txns[..|txns| - 1], start);
      BelowSectors(txns[|txns| - 1], start);
      assert AllBelow(txns, start) <==> AllBelow(txns[..|txns| - 1], start) && Below(txns[|txns| - 1], start);
    }
  }

  /** What the transactions logged lies below `start` exactly if the blocks they took do. */
  lemma {:induction false} BelowIfTaken(sb: Super, inum: nat, a: Books, d: Disk, owner: Owners, txns: seq<Wal.Txn>, n: int, start: nat)
    requires Spent(sb, inum, a, d, owner, txns, n) && inum < sb.ninodes && 0 < sb.size
    requires DataStart(sb) <= start && AllUnder(a.owner.Keys, start)
    ensures AllBelow(txns, start) <==> AllUnder(Taken(a, Books(d, owner, AllSectors(txns))), start)
    ensures AllBelow(txns, start) ==> AllUnder(owner.Keys, start)
  {
    hide AllBelow, AllSectors, Takes, BitmapSectors, IBlock, AllUnder;
    var b := Books(d, owner, AllSectors(txns));
    AllBelowSectors(txns, start);
    KeysKept(sb, a, b);
    MetadataUnder(sb, inum, start);
    assert owner.Keys == a.owner.Keys + Taken(a, b);
    UnderParts(b.logged, BitmapSectors(sb) + {IBlock(inum)}, a.owner.Keys, Taken(a, b), start);
  }

  lemma {:induction false} UnderParts(all: set<nat>, meta: set<nat>, held: set<nat>, taken: set<nat>, start: nat)
    requires taken <= all <= meta + (held + taken) && AllUnder(meta, start) && AllUnder(held, start)
    ensures AllUnder(all, start) <==> AllUnder(taken, start)
    ensures AllUnder(all, start) ==> AllUnder(held + taken, start)
  {
  }

  lemma {:induction false} MetadataUnder(sb: Super, inum: nat, start: nat)
    requires inum < sb.ninodes && DataStart(sb) <= start && 0 < sb.size
    ensures AllUnder(BitmapSectors(sb) + {IBlock(inum)}, start)
  {
    forall x | x in BitmapSectors(sb) ensures x < start {
      var c :| 0 <= c < sb.size && x == BBlock(sb, c);
      RegionsApart(sb, inum, c);
    }
    RegionsApart(sb, inum, 0);
  }

  /** They do exactly if that many blocks were free below `start`; marking the sectors from `start` on is enough, too. */
  lemma {:induction false} BelowIfRoom(sb: Super, inum: nat, a: Books, d: Disk, owner: Owners, txns: seq<Wal.Txn>, n: int, start: nat)
    requires Spent(sb, inum, a, d, owner, txns, n) && inum < sb.ninodes && DiskOk(a.d, sb)
    requires DataStart(sb) <= start <= sb.size && AllUnder(a.owner.Keys, start)
    ensures AllBelow(txns, start) <==> n <= |FreeBelow(a.d, sb, start)|
    ensures LogMarked(a.d, sb, start) ==> AllBelow(txns, start)
    ensures AllBelow(txns, start) ==> AllUnder(owner.Keys, start)
  {
    hide AllBelow, AllSectors, Takes, Proper, FreeBelow;
    var b := Books(d, owner, AllSectors(txns));
    BelowIfTaken(sb, inum, a, d, owner, txns, n, start);
    UnderIfEnough(sb, a, b, start);
    if LogMarked(a.d, sb, start) {
      UnderIfMarked(sb, a, b, start);
    }
  }

  /** The bitmap keeps the sectors from `start` on. */
  ghost predicate LogMarked(d: Disk, sb: Super, start: nat)
    requires DiskOk(d, sb)
  {
    forall c: nat :: start <= c < sb.size ==> Marked(d, sb, c)
  }

  /** Enough blocks are free below `start` for what filewrite must allocate. */
  ghost predicate HasRoom(s: Snap, start: nat, off: nat, n: nat)
    requires DiskOk(s.d, s.sb) && start <= s.sb.size
  {
    Asks(s.ip, off, n) <= |FreeBelow(s.d, s.sb, start)|
  }

  /**
   filewrite, from a disk on which no file reaches into the sectors from `start` on: its transactions stay below
   `start` exactly if there is room for what it must allocate, and then it does not panic. They also do if the
   bitmap keeps those sectors.
   */
  method WriteBelow(f: OpenFile, src: seq<Byte>, ghost start: nat) returns (r: Option<int>)
    requires IBlock(f.inum) < |f.fs.disk| && Settled(f.Now(), f.fs.owner) && f.Now().ip.typ != T_DEV
    requires f.off < UINT_LIMIT && f.writable && f.inum < f.fs.sb.ninodes && DiskOk(f.fs.disk, f.fs.sb)
    requires DataStart(f.fs.sb) <= start <= f.fs.sb.size && AllUnder(f.fs.owner.Keys, start)
    modifies f`off, f.fs
    ensures old(HasRoom(f.Now(), start, f.off, |src|)) ==> r.Some?
    ensures r.Some? ==>
      && old(f.fs.done) <= f.fs.done
      && var more := f.fs.done[|old(f.fs.done)|..];
         && (AllBelow(more, start) <==> old(HasRoom(f.Now(), start, f.off, |src|)))
         && (old(LogMarked(f.fs.disk, f.fs.sb, start)) ==> AllBelow(more, start))
         && (AllBelow(more, start) ==> AllUnder(f.fs.owner.Keys, start))
         && (f.fs.sb.size <= BPB ==> AllSmall(more))
         && (old(f.off) <= old(f.Now()).ip.size ==>
               && old(f.off) <= f.off <= old(f.off) + |src| && f.off - old(f.off) <= |more| * MAX_CHUNK
               && Stages(old(f.Now()), more, old(f.off), src, f.off - old(f.off)))
  {
    hide Settled, Spent, AllBelow, AllSmall, Stages, ReadInode, WroteFile, Crash.AfterTxns, Asks, TakesFewer, FreeBelow, Marked, Full;
    ghost var a, ip := f.Unlogged(), f.Now().ip;
    ghost var m, n := |f.fs.done|, Asks(ip, f.off, |src|);
    r := f.Filewrite(src);
    if r.Some? {
      BelowIfRoom(f.fs.sb, f.inum, a, f.fs.disk, f.fs.owner, f.fs.done[m..], n, start);
    } else {
      RoomLasts(f.fs.sb, a, Books(f.fs.disk, f.fs.owner, AllSectors(f.fs.done[m..]) + f.fs.logged), n, start);
    }
  }

  lemma {:induction false} RoomLasts(sb: Super, a: Books, b: Books, n: int, start: nat)
    requires TakesFewer(sb, a, b, n) && DiskOk(a.d, sb) && start <= sb.size && Full(b.d, sb)
    ensures n > |FreeBelow(a.d, sb, start)|
  {
    hide FreeBelow, Takes;
    if |b.owner| - |a.owner| < |FreeBelow(a.d, sb, start)| {
      var c := NotFullYet(sb, a, b, start);
      assert false;
    }
  }

  /**
   The log's sectors are free in the bitmap that mkfs makes, so a disk that is full below them hands them out:
   the next block balloc allocates is the log header.
   */
  method AllocatesLogHeader(sb: Super, start: nat, image: Disk) returns (r: Option<nat>)
    requires DataStart(sb) <= start < sb.size < UINT_LIMIT && image == Filled(sb, start)
    ensures r == Some(start)
  {
    hide Marked, Filled, Wal.Effect, Sectors;
    FilledBlank(sb, start);
    var fs := new FileSys(sb, image, map[]);
    fs.BeginTrans();
    r := fs.Balloc();
    assert !Marked(image, sb, start);
  }

  /** That disk is sound, holds no file, and has no room below the log for a single byte. */
  lemma {:induction false} NoRoomBelowLog(sb: Super, start: nat, inum: nat)
    requires DataStart(sb) <= start < sb.size < UINT_LIMIT && inum < sb.ninodes
    ensures IBlock(inum) < sb.size
    ensures var d := Filled(sb, start);
            var s := Snap(d, sb, inum, ReadInode(d, inum));
            Settled(s, map[]) && DiskOk(d, sb) && !HasRoom(s, start, 0, 1)
  {
    hide Marked, Filled, FsOk, ReadInode;
    var d := Filled(sb, start);
    FilledBlank(sb, start);
    BlankOk(d, sb, start, inum);
    FilledInodes(sb, start, inum);
    ZeroedAt(d, inum);
    assert FreeBelow(d, sb, start) == {};
  }

  /**
   A write to a file and a crash, from the call to the disk: filewrite cuts the write into transactions, the
   log runs them, the machine crashes after any `k` of the sector writes and reboots through any number of
   further crashes. With room below the log, or with the log's sectors kept by the bitmap, the home sectors are
   then those of a sound file system in which `n` bytes of the write are in the file, a whole number of chunks or
   all that the call wrote, and every other file has its bytes. If the crash came after the last sector write,
   all are there.
   */
  method WriteAndCrash(f: OpenFile, log: LogLayer.Log, src: seq<Byte>, k: nat, ks: seq<nat>)
    returns (r: Option<int>, after: Option<LogLayer.Log>, ghost n: nat)
    requires IBlock(f.inum) < |f.fs.disk| && Settled(f.Now(), f.fs.owner) && f.Now().ip.typ != T_DEV
    requires f.off < UINT_LIMIT && f.off <= f.Now().ip.size && f.writable && f.fs.sb.size <= BPB
    requires f.inum < f.fs.sb.ninodes && DiskOk(f.fs.disk, f.fs.sb)
    requires log.Valid() && !log.busy && LogLayer.Idle(log.bc.buf) && MAX_LOGGED < log.size - 1
    requires DataStart(f.fs.sb) <= log.start <= f.fs.sb.size && log.bc.disk[..log.start] == f.fs.disk[..log.start]
    requires AllUnder(f.fs.owner.Keys, log.start)
    requires HasRoom(f.Now(), log.start, f.off, |src|) || LogMarked(f.fs.disk, f.fs.sb, log.start)
    modifies f`off, f.fs, log, log.bc
    ensures after.Some? <==> r.Some?
    ensures old(HasRoom(f.Now(), log.start, f.off, |src|)) ==> r.Some?
    ensures r.Some? ==>
      && after.value.Valid() && after.value.start == log.start && AllUnder(f.fs.owner.Keys, log.start)
      && old(f.off) <= f.off && (n == f.off - old(f.off) || (n % MAX_CHUNK == 0 && n < f.off - old(f.off)))
      && Staged(old(f.Now()), after.value.bc.disk[..log.start], old(f.off), src, n)
      && after.value.bc.disk[..2] == old(f.fs.disk)[..2]
      && old(log.bc.writes) <= log.bc.writes
      && (k >= |log.bc.writes| - |old(log.bc.writes)| ==> n == f.off - old(f.off))
  {
    hide Settled, Stage, Below, AllSmall, Crash.AfterTxns, Crash.AllFit, Crash.RunWrites, Crash.Committed, Wal.TxnHead,
         Transactions.EachSmall, LogLayer.Idle, ReadInode, Staged, Stages, LogDisk.DecodeHead, AllBelow, HasRoom, LogMarked, AllUnder,
         Recovery.Cut, Crash.Reboots, Wal.LogOk;
    ghost var s := f.Now();
    var m := |f.fs.done|;
    after, n := None, 0;
    r := WriteBelow(f, src, log.start);
    if r.None? {
      return;
    }
    var txns := f.fs.done[m..];
    SmallFit(txns, log.start, log.size - 1);
    ghost var d := LogDisk.View(log.bc.disk, log.start);
    var booted;
    ghost var made;
    booted, made := Recovery.Survive(log, txns, k, ks);
    after := Some(booted);
    ghost var p := Crash.Committed(d, txns, made);
    n := WholeChunks(s, txns, p, old(f.off), src, f.off - old(f.off), log.start);
  }

  /** After `p` of the transactions the home sectors hold a stage of the write, a whole number of chunks. */
  lemma {:induction false} WholeChunks(s: Snap, txns: seq<Wal.Txn>, p: nat, off: nat, src: seq<Byte>, total: nat, start: nat)
    returns (n: nat)
    requires Stages(s, txns, off, src, total) && AllBelow(txns, start) && p <= |txns| && start <= |s.d|
    ensures n == total || (n % MAX_CHUNK == 0 && n < total)
    ensures p == |txns| && total <= |txns| * MAX_CHUNK ==> n == total
    ensures Staged(s, Crash.AfterTxns(s.d[..start], txns[..p]), off, src, n)
    ensures 1 < start ==> 1 < |Crash.AfterTxns(s.d[..start], txns[..p])| && Crash.AfterTxns(s.d[..start], txns[..p])[..2] == s.d[..2]
  {
    hide Stage, Below, Crash.AfterTxns, OtherBytesKept, HeadKept;
    n := Smaller(p * MAX_CHUNK, total);
    AfterBelow(s.d, txns[..p], start);
    StageBytes(s, Crash.AfterTxns(s.d, txns[..p]), off, src, n);
    if 1 < start {
      HeadBelow(s.d, Crash.AfterTxns(s.d, txns[..p]), start);
    }
  }
}
