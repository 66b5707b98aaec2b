/**
 The log of log.c, over the buffer cache. Each method's sector writes are exactly those the
 write-ahead theory prescribes, in order; a method that cannot go on (bget panics for want of a
 buffer, or would have to wait for a busy one) stops after a prefix of them.
 */
module LogLayer {
  import opened Blocks
  import opened Seqs
  import opened MruList
  import opened Bcache
  import opened Wal
  import opened LogDisk

  // ----- What the log relies on in the cache -----

  ghost predicate Idle(buf: seq<Buf>) {
    forall i :: 0 <= i < |buf| ==> !buf[i].busy
  }

  /** No buffer but `b` is in use. */
  ghost predicate OnlyBusy(buf: seq<Buf>, b: nat) {
    forall i :: 0 <= i < |buf| && i != b ==> !buf[i].busy
  }

  /** Some buffer besides `b` holds nothing that is still to be written. */
  ghost predicate CleanBeside(buf: seq<Buf>, b: nat) {
    exists i :: 0 <= i < |buf| && i != b && !buf[i].dirty
  }

  /** The cache has no buffer to give for the sector: it is in use, or none can be recycled. */
  ghost predicate Refused(buf: seq<Buf>, stamp: seq<nat>, sector: nat) {
    exists r: GetResult :: !r.Got? && Gets(buf, stamp, ROOTDEV, sector, r, buf)
  }

  /** From `buf0` to `buf1` every buffer in use or pinned, besides `b`, stayed as it was. */
  ghost predicate Spares(buf0: seq<Buf>, buf1: seq<Buf>, b: nat) {
    && |buf0| == |buf1|
    && forall i :: 0 <= i < |buf0| && i != b && (buf0[i].busy || buf0[i].dirty) ==> buf1[i] == buf0[i]
  }

  /** At least two buffers can be recycled once idle. */
  ghost predicate TwoClean(buf: seq<Buf>) {
    exists i, j :: 0 <= i < j < |buf| && !buf[i].dirty && !buf[j].dirty
  }

  ghost predicate OneClean(buf: seq<Buf>) {
    exists i :: 0 <= i < |buf| && !buf[i].dirty
  }

  /** Every pinned buffer holds one of the sectors `lh`. */
  ghost predicate PinsWithin(buf: seq<Buf>, lh: seq<nat>) {
    forall i :: 0 <= i < |buf| && buf[i].dirty ==> buf[i].sector in lh
  }

  /** From `b0` to `b1`, pinned buffers stayed as they were (except those of sector `s`) and none appeared. */
  ghost predicate PinsKept(b0: seq<Buf>, b1: seq<Buf>, s: int) {
    && |b0| == |b1|
    && (forall i :: 0 <= i < |b0| && b0[i].dirty && b0[i].sector != s ==> b1[i] == b0[i])
    && (forall i :: 0 <= i < |b0| && b1[i].dirty ==> b0[i].dirty && b0[i].sector != s && b1[i] == b0[i])
    && (forall i :: 0 <= i < |b0| && b1[i].busy ==> b0[i].busy)
  }

  class Log {
    const bc: Cache
    const start: nat
    const size: nat
    var busy: bool
    var lh: seq<nat>

    ghost predicate Layout()
      reads this, bc
    {
      && bc.Valid()
      && 1 <= size && start + size == |bc.disk| == |bc.store| && start < UINT_LIMIT
    }

    /** The in-memory header is sound and only logged sectors are pinned. */
    ghost predicate HeadOk()
      reads this, bc
    {
      Layout() && HeadFits(lh, start, size - 1) && PinsWithin(bc.buf, lh)
    }

    /** initlog, up to the recovery: the log occupies the last `nlog` sectors of the file system. */
    constructor (cache: Cache, fsSize: nat, nlog: nat)
      requires cache.Valid() && 1 <= nlog <= fsSize == |cache.disk| && fsSize - nlog < UINT_LIMIT
      ensures bc == cache && start == fsSize - nlog && size == nlog && !busy && lh == [] && Layout()
    {
      bc, start, size, busy, lh := cache, fsSize - nlog, nlog, false, [];
    }

    /** write_head: one sector write, of a header block that records the in-memory list. */
    method WriteHead() returns (ok: bool, ghost head: Block)
      requires HeadOk()
      modifies bc
      ensures Layout()
      ensures ok ==>
        && DecodeHead(head) == lh && GetWord(head, 0) == |lh| && (forall i: nat :: i < |lh| ==> GetWord(head, 1 + i) == lh[i])
        && bc.disk == old(bc.disk)[start := head] && bc.store == old(bc.store)[start := head]
        && bc.writes == old(bc.writes) + [RawWrite(start, head)]
        && PinsKept(old(bc.buf), bc.buf, -1)
      ensures !ok ==> bc.writes == old(bc.writes) && bc.disk == old(bc.disk)
      ensures Idle(old(bc.buf)) && OneClean(old(bc.buf)) ==> ok
    {
      hide RawApplyAll, ListOk, ByRelease, Coherent;
      var r := bc.Bread(start);
      if !r.Got? {
        NoneToGet(bc.buf, bc.stamp, start, r);
        return false, ZERO_BLOCK;
      }
      var b := r.b;
      var data := EncodeHead(bc.buf[b].data);
      Flush(b, data);
      return true, data;
    }

    /** The loop of write_head: the count and the sector numbers stored into a header block. */
    method EncodeHead(was: Block) returns (data: Block)
      requires 1 <= size && HeadFits(lh, start, size - 1) && start < UINT_LIMIT
      ensures DecodeHead(data) == lh && GetWord(data, 0) == |lh| && forall i: nat :: i < |lh| ==> GetWord(data, 1 + i) == lh[i]
    {
      hide GetWord, DecodeHead;
      data := SetWord(was, 0, |lh|);
      var i := 0;
      while i < |lh|
        invariant 0 <= i <= |lh|
        invariant data == SetWords(SetWord(was, 0, |lh|), 1, lh, i)
      {
        data := SetWord(data, i + 1, lh[i]);
        i := i + 1;
      }
      HeadRoundTrip(was, lh);
    }

    /** Change a busy buffer's contents, write it to disk and release it. */
    method Flush(b: nat, data: Block)
      requires bc.Valid() && b < NBUF && bc.buf[b].busy && bc.buf[b].valid
      modifies bc
      ensures bc.Valid()
      ensures var s := old(bc.buf[b].sector);
        && bc.disk == old(bc.disk)[s := data] && bc.store == old(bc.store)[s := data]
        && bc.writes == old(bc.writes) + [RawWrite(s, data)]
        && bc.buf == old(bc.buf)[b := old(bc.buf[b]).(dirty := false, busy := false, data := data)]
    {
      hide RawApplyAll, ListOk, ByRelease, KeysUnique;
      assert BufOk(bc.buf[b], bc.store);
      bc.Modify(b, data);
      bc.Bwrite(b);
      bc.Brelse(b);
    }

    /** The reads of one round of install_trans: the log slot and its home sector, both held. */
    method InstallRead(tail: nat) returns (ok: bool, l: nat, d: nat)
      requires HeadOk() && tail < |lh|
      modifies bc
      ensures Layout() && bc.writes == old(bc.writes) && bc.disk == old(bc.disk) && bc.store == old(bc.store)
      ensures ok ==>
        && l < NBUF && d < NBUF && l != d && !old(bc.buf)[l].dirty
        && (old(bc.buf)[d].dirty ==> old(bc.buf)[d].sector == lh[tail])
        && (exists pin :: bc.buf == old(bc.buf)
             [l := Buf(true, true, false, ROOTDEV, start + 1 + tail, bc.disk[start + 1 + tail])]
             [d := Buf(true, true, pin, ROOTDEV, lh[tail], bc.store[lh[tail]])])
      ensures Idle(old(bc.buf)) && (TwoClean(old(bc.buf)) || (OneClean(old(bc.buf)) && Pinned(old(bc.buf), lh[tail]))) ==> ok
    {
      hide RawApplyAll, ListOk, ByRelease, TwoClean, OneClean, Idle, Gets, KeysUnique;
      l, d := 0, 0;
      var ls, ds := start + tail + 1, lh[tail];
      assert bc.store[ls] == bc.disk[ls];
      ghost var buf0 := bc.buf;
      var r := bc.Bread(ls);
      if !r.Got? {
        NoneToGet(bc.buf, bc.stamp, ls, r);
        CleanEnough(buf0);
        return false, 0, 0;
      }
      l := r.b;
      ghost var buf1 := bc.buf;
      r := bc.Bread(ds);
      if !r.Got? {
        NoneToGetBeside(buf0, buf1, bc.store, bc.stamp, l, ds, r);
        return false, 0, 0;
      }
      return true, l, r.b;
    }

    /** One round of install_trans: log slot `tail` copied over its home sector. */
    method InstallOne(tail: nat) returns (ok: bool)
      requires HeadOk() && tail < |lh|
      modifies bc
      ensures Layout()
      ensures var s, x := lh[tail], old(bc.disk)[start + 1 + tail];
        ok ==>
        && bc.disk == old(bc.disk)[s := x] && bc.store == old(bc.store)[s := x]
        && bc.writes == old(bc.writes) + [RawWrite(s, x)]
        && PinsKept(old(bc.buf), bc.buf, s)
        && TwoClean(bc.buf)
      ensures !ok ==> bc.writes == old(bc.writes) && bc.disk == old(bc.disk)
      ensures Idle(old(bc.buf)) && (TwoClean(old(bc.buf)) || (OneClean(old(bc.buf)) && Pinned(old(bc.buf), lh[tail]))) ==> ok
    {
      hide RawApplyAll, ListOk, ByRelease, TwoClean, OneClean, Idle, PinsKept;
      ghost var buf0 := bc.buf;
      var l, d;
      ok, l, d := InstallRead(tail);
      if ok {
        assert bc.store[start + 1 + tail] == bc.disk[start + 1 + tail];
        bc.Modify(d, bc.buf[l].data);
        bc.Bwrite(d);
        bc.Brelse(l);
        bc.Brelse(d);
        InstalledPins(buf0, bc.buf, bc.store, l, d, lh[tail]);
      }
    }

    /** install_trans: after `k` rounds exactly the first `k` logged blocks are in their home sectors. */
    method InstallTrans() returns (ok: bool, ghost k: nat)
      requires HeadOk()
      modifies bc
      ensures Layout() && k <= |lh| && (ok ==> k == |lh|)
      ensures var slots := old(bc.disk)[start + 1..];
        && bc.writes == old(bc.writes) + RawInstall(lh, slots, k)
        && bc.disk == Install(old(bc.disk), lh, slots, k)
        && (ok ==> bc.store == Install(old(bc.store), lh, slots, k))
      ensures ok ==> PinsWithin(bc.buf, []) && (Idle(old(bc.buf)) ==> Idle(bc.buf))
      ensures ok && (lh != [] || TwoClean(old(bc.buf))) ==> TwoClean(bc.buf)
      ensures Idle(old(bc.buf)) && (TwoClean(old(bc.buf)) || (OneClean(old(bc.buf)) && AllPinned(old(bc.buf), lh))) ==> ok
    {
      hide RawApplyAll, ListOk, ByRelease, Coherent, TwoClean, OneClean, Pinned, PinsWithin, PinsKept, Idle;
      ghost var buf0, disk0, store0, writes0 := bc.buf, bc.disk, bc.store, bc.writes;
      ghost var slots := disk0[start + 1..];
      var tail := 0;
      while tail < |lh|
        invariant 0 <= tail <= |lh| && HeadOk()
        invariant bc.writes == writes0 + RawInstall(lh, slots, tail)
        invariant bc.disk == Install(disk0, lh, slots, tail) && bc.store == Install(store0, lh, slots, tail)
        invariant bc.disk[start + 1..] == slots
        invariant PinsWithin(bc.buf, lh[tail..])
        invariant Idle(buf0) ==> Idle(bc.buf)
        invariant if tail == 0 then bc.buf == buf0 else TwoClean(bc.buf)
      {
        ghost var buf1 := bc.buf;
        assert bc.disk[start + 1 + tail] == bc.disk[start + 1..][tail] == slots[tail];
        ok := InstallOne(tail);
        if !ok {
          return false, tail;
        }
        PinsStep(buf1, bc.buf, lh, tail);
        assert bc.disk[start + 1..] == slots;
        tail := tail + 1;
      }
      assert lh[tail..] == [];
      return true, tail;
    }

    /** Between operations: the header on disk is empty, and each logged sector is pinned and safe in its slot. */
    ghost predicate Valid()
      reads this, bc
    {
      && HeadOk()
      && DecodeHead(bc.disk[start]) == []
      && (!busy ==> lh == [])
      && AllPinned(bc.buf, lh)
      && SafeInSlots(bc.store, bc.disk, lh, start)
    }

    /** begin_trans, one pass under the log lock: take the transaction, or find it taken and sleep. */
    method BeginTrans() returns (began: bool)
      requires Valid()
      modifies this`busy
      ensures Valid() && busy && began == !old(busy)
    {
      began := !busy;
      busy := true;
    }

    /** The log block of a log_write: the buffer's contents into slot `i`. */
    method WriteSlot(b: nat, i: nat) returns (ok: bool, ghost l: nat)
      requires HeadOk() && i <= |lh| < size - 1
      requires b < NBUF && bc.buf[b].busy && bc.buf[b].valid && bc.buf[b].sector < start
      modifies bc
      ensures Layout()
      ensures var x := old(bc.buf[b].data);
        if ok then
          && bc.writes == old(bc.writes) + [RawWrite(start + 1 + i, x)]
          && bc.disk == old(bc.disk)[start + 1 + i := x] && bc.store == old(bc.store)[start + 1 + i := x]
          && l < NBUF && l != b && !old(bc.buf)[l].busy && !old(bc.buf)[l].dirty
          && bc.buf == old(bc.buf)[l := Buf(false, true, false, ROOTDEV, start + 1 + i, x)]
        else bc.writes == old(bc.writes) && bc.disk == old(bc.disk) && bc.store == old(bc.store) && bc.buf == old(bc.buf)
      ensures !ok ==> Refused(bc.buf, bc.stamp, start + 1 + i)
    {
      hide RawApplyAll, ListOk, ByRelease, Coherent, Gets, Distinct;
      l := 0;
      ghost var buf0 := bc.buf;
      var r := bc.Bread(start + i + 1);
      if !r.Got? {
        return false, l;
      }
      SlotNotPinned(buf0, r.b, lh, start, i);
      Flush(r.b, bc.buf[b].data);
      return true, r.b;
    }

    /** The search of log_write: the slot of a logged sector, or the next free one. */
    method SlotOf(s: nat) returns (i: nat)
      ensures i == FindSlot(lh, s)
    {
      i := 0;
      while i < |lh| && lh[i] != s
        invariant 0 <= i <= |lh| && forall j :: 0 <= j < i ==> lh[j] != s
      {
        i := i + 1;
      }
    }

    /**
     log_write: one sector write, into the slot of the buffer's sector; the buffer is then pinned.
     The conditions on the header are the negations of its two panics.
     */
    method LogWrite(b: nat) returns (ok: bool)
      requires Valid() && busy && |lh| < LOGSIZE && |lh| < size - 1
      requires b < NBUF && bc.buf[b].busy && bc.buf[b].valid && bc.buf[b].sector < start
      modifies this`lh, bc
      ensures Layout()
      ensures var s, x, i := old(bc.buf[b].sector), old(bc.buf[b].data), FindSlot(old(lh), old(bc.buf[b].sector));
        if ok then
          && Valid() && lh == AddSector(old(lh), s)
          && bc.writes == old(bc.writes) + [RawWrite(start + 1 + i, x)]
          && bc.disk == old(bc.disk)[start + 1 + i := x]
          && bc.store == old(bc.store)[start + 1 + i := x][s := x]
          && bc.buf[b] == old(bc.buf[b]).(dirty := true)
          && Spares(old(bc.buf), bc.buf, b)
        else bc.writes == old(bc.writes) && bc.disk == old(bc.disk) && lh == old(lh) && bc.buf == old(bc.buf)
      ensures !ok ==> Refused(bc.buf, bc.stamp, start + 1 + FindSlot(old(lh), bc.buf[b].sector))
      ensures ok && OnlyBusy(old(bc.buf), b) ==> OnlyBusy(bc.buf, b)
      ensures ok ==> |lh| < NBUF
    {
      hide RawApplyAll, ListOk, ByRelease, DecodeHead, Gets, Coherent, Distinct, PinsWithin, AllPinned, SafeInSlots, HeadFits, Refused,
        OnlyBusy, Spares, FindSlot;
      var s := bc.buf[b].sector;
      ghost var buf0, store0, disk0, lh0 := bc.buf, bc.store, bc.disk, lh;
      var i := SlotOf(s);
      ghost var l;
      ok, l := WriteSlot(b, i);
      if !ok {
        return false;
      }
      if i == |lh| {
        lh := lh + [s];
      }
      bc.Pin(b);
      LoggedSector(buf0, bc.buf, lh0, b, l, s, start, size - 1);
      LoggedSlot(store0, disk0, lh0, start, size, s, bc.buf[b].data);
      return true;
    }

    /**
     commit_trans: header, install, cleared header. Its first `k` sector writes are the first `k`
     of the commit writes; it finishes unless a buffer cannot be had, and then every home sector
     on disk holds its logged contents.
     */
    method CommitTrans() returns (ok: bool, ghost k: nat)
      requires Valid() && busy
      modifies this, bc
      ensures old(bc.writes) <= bc.writes
      ensures var ws := CommitWrites(old(lh), old(bc.disk)[start + 1..]);
        && k <= |ws| && (ok ==> k == |ws|)
        && ViewWrites(bc.writes[|old(bc.writes)|..], start) == ws[..k]
      ensures ok ==> Valid() && !busy && lh == [] && bc.store[..start] == old(bc.store)[..start] == bc.disk[..start]
      ensures ok && Idle(old(bc.buf)) ==> Idle(bc.buf)
      ensures Idle(old(bc.buf)) && OneClean(old(bc.buf)) ==> ok
    {
      ghost var slots := bc.disk[start + 1..];
      if lh != [] {
        ok, k := CommitLogged();
        if !ok {
          return;
        }
      } else {
        ok, k := true, 0;
        assert bc.writes[|old(bc.writes)|..] == [];
      }
      busy := false;
      AllOnDisk(bc.buf, bc.disk, bc.store);
    }

    /** The body of commit_trans for a transaction that logged something. */
    method CommitLogged() returns (ok: bool, ghost k: nat)
      requires Valid() && busy && lh != []
      modifies this`lh, bc
      ensures old(bc.writes) <= bc.writes
      ensures var ws := CommitWrites(old(lh), old(bc.disk)[start + 1..]);
        && k <= |ws| && (ok ==> k == |ws|)
        && ViewWrites(bc.writes[|old(bc.writes)|..], start) == ws[..k]
      ensures ok ==> Valid() && lh == [] && bc.store[..start] == old(bc.store)[..start]
      ensures ok && Idle(old(bc.buf)) ==> Idle(bc.buf)
      ensures Idle(old(bc.buf)) && OneClean(old(bc.buf)) ==> ok
    {
      hide RawApplyAll, ListOk, ByRelease, Coherent, DecodeHead, TwoClean, Pinned, Idle, ViewWrites,
        InstallWrites, Install, RawInstall, GetWord, KeysUnique, PinsKept, OneClean;
      ghost var buf0, store0, writes0, lh0 := bc.buf, bc.store, bc.writes, lh;
      ghost var slots := bc.disk[start + 1..];
      ghost var h1, h2, m := ZERO_BLOCK, ZERO_BLOCK, 0;
      ok, h1 := WriteHead();
      if !ok {
        CommitView(lh0, slots, start, h1, h2, 0);
        assert bc.writes[|writes0|..] == RawCommit(lh0, slots, start, h1, h2, 0);
        return false, 0;
      }
      assert bc.disk[start + 1..] == slots;
      PinsUnchanged(buf0, bc.buf, lh0);
      ok, m := InstallTrans();
      CommitView(lh0, slots, start, h1, h2, m + 1);
      assert bc.writes[|writes0|..] == RawCommit(lh0, slots, start, h1, h2, m + 1);
      if !ok {
        return false, m + 1;
      }
      InstallSame(store0[start := h1], lh0, slots, m);
      lh := [];
      CleanEnough(bc.buf);
      ghost var buf1 := bc.buf;
      ok, h2 := WriteHead();
      if !ok {
        return false, m + 1;
      }
      PinsUnchanged(buf1, bc.buf, []);
      CommitView(lh0, slots, start, h1, h2, m + 2);
      assert bc.writes[|writes0|..] == RawCommit(lh0, slots, start, h1, h2, m + 2);
      return true, |lh0| + 2;
    }

    /** read_head: the in-memory header becomes the list recorded on disk. */
    method ReadHead() returns (ok: bool)
      requires Layout() && PinsWithin(bc.buf, []) && |DecodeHead(bc.disk[start])| <= LOGSIZE
      modifies this`lh, bc
      ensures Layout() && bc.disk == old(bc.disk) && bc.store == old(bc.store) && bc.writes == old(bc.writes)
      ensures ok ==> lh == DecodeHead(bc.disk[start]) && PinsKept(old(bc.buf), bc.buf, -1)
      ensures ok ==> |lh| == GetWord(bc.disk[start], 0) < WORDS && forall i: nat :: i < |lh| ==> lh[i] == GetWord(bc.disk[start], 1 + i)
      ensures ok && TwoClean(old(bc.buf)) ==> TwoClean(bc.buf)
      ensures Idle(old(bc.buf)) && OneClean(old(bc.buf)) ==> ok
    {
      hide RawApplyAll, ListOk, ByRelease, KeysUnique, GetWord;
      AllOnDisk(bc.buf, bc.disk, bc.store);
      var r := bc.Bread(start);
      if !r.Got? {
        NoneToGet(bc.buf, bc.stamp, start, r);
        return false;
      }
      var data := bc.buf[r.b].data;
      var list: seq<nat> := [];
      var i := 0;
      while i < GetWord(data, 0)
        invariant 0 <= i <= GetWord(data, 0) && |list| == i
        invariant forall j :: 0 <= j < i ==> list[j] == GetWord(data, j + 1)
      {
        list := list + [GetWord(data, i + 1)];
        i := i + 1;
      }
      lh := list;
      bc.Brelse(r.b);
      StillTwoClean(old(bc.buf), bc.buf, r.b);
      return true;
    }

    /**
     recover_from_log: read the header, install, clear the header. Its first `k` sector writes are
     the first `k` recovery writes; when it finishes, the home sectors are what the log prescribes.
     */
    method RecoverFromLog() returns (ok: bool, ghost k: nat)
      requires Layout() && !busy && PinsWithin(bc.buf, []) && LogOk(View(bc.disk, start))
      modifies this`lh, bc
      ensures old(bc.writes) <= bc.writes
      ensures var d := View(old(bc.disk), start);
        && k <= |RecoveryWrites(d)| && (ok ==> k == |RecoveryWrites(d)|)
        && ViewWrites(bc.writes[|old(bc.writes)|..], start) == RecoveryWrites(d)[..k]
        && (ok ==> Valid() && bc.disk[..start] == bc.store[..start] == Recovered(d))
      ensures ok && Idle(old(bc.buf)) ==> Idle(bc.buf)
      ensures Idle(old(bc.buf)) && TwoClean(old(bc.buf)) ==> ok
    {
      hide RawApplyAll, ListOk, ByRelease, Coherent, DecodeHead, TwoClean, Pinned, Idle, ViewWrites,
        InstallWrites, Install, RawInstall, GetWord;
      ghost var d, buf0, disk0, writes0, m, h := View(bc.disk, start), bc.buf, bc.disk, bc.writes, 0, ZERO_BLOCK;
      CleanEnough(bc.buf);
      ok := ReadHead();
      if !ok {
        RecoverView(d, start, h, 0);
        assert bc.writes[|writes0|..] == RawRecover(d, start, h, 0);
        return false, 0;
      }
      PinsUnchanged(buf0, bc.buf, []);
      CleanEnough(bc.buf);
      PinsWithinMore(bc.buf, lh);
      ok, m := InstallTrans();
      RecoverView(d, start, h, m);
      assert bc.writes[|writes0|..] == RawRecover(d, start, h, m);
      if !ok {
        return false, m;
      }
      lh := [];
      ghost var disk1, buf1 := bc.disk, bc.buf;
      CleanEnough(bc.buf);
      ok, h := WriteHead();
      if !ok {
        return false, m;
      }
      RecoverView(d, start, h, m + 1);
      assert bc.writes[|writes0|..] == RawRecover(d, start, h, m + 1);
      InstallHome(disk0, start, d.head, d.slots, m);
      assert bc.disk[..start] == disk1[..start];
      AllOnDisk(bc.buf, bc.disk, bc.store);
      PinsUnchanged(buf1, bc.buf, []);
      return true, m + 1;
    }
  }

  ghost predicate AllPinned(buf: seq<Buf>, lh: seq<nat>) {
    forall i :: 0 <= i < |lh| ==> Pinned(buf, lh[i])
  }

  /** Each logged sector's contents are in its log slot on disk. */
  ghost predicate SafeInSlots(store: seq<Block>, disk: seq<Block>, lh: seq<nat>, start: nat)
  {
    && |store| == |disk| && start + |lh| < |disk|
    && (forall i :: 0 <= i < |lh| ==> lh[i] < start)
    && (forall i :: 0 <= i < |lh| ==> store[lh[i]] == disk[start + 1 + i])
  }

  /** Writing a sector's contents into its slot keeps every logged sector safe, that one included. */
  lemma {:induction false} LoggedSlot(store: seq<Block>, disk: seq<Block>, lh: seq<nat>, start: nat, size: nat, s: nat, x: Block)
    requires SafeInSlots(store, disk, lh, start) && s < start && |lh| < size - 1 && start + size == |disk|
    requires HeadFits(lh, start, size - 1)
    ensures var i := start + 1 + FindSlot(lh, s);
            SafeInSlots(store[i := x][s := x], disk[i := x], AddSector(lh, s), start)
  {
  }

  lemma {:induction false} SlotNotPinned(buf: seq<Buf>, l: nat, lh: seq<nat>, start: nat, i: nat)
    requires PinsWithin(buf, lh) && l < |buf|
    requires forall j :: 0 <= j < |lh| ==> lh[j] < start
    ensures buf[l].sector == start + 1 + i ==> !buf[l].dirty
  {
  }

  /** Pinning the logged buffer and reusing a clean one for its slot keeps exactly the logged sectors pinned. */
  lemma {:induction false} LoggedSector(buf0: seq<Buf>, buf1: seq<Buf>, lh: seq<nat>, b: nat, l: nat, s: nat, nhome: nat, nslots: nat)
    requires |buf0| == |buf1| == NBUF && b < NBUF && l < NBUF && b != l
    requires buf1 == buf0[l := buf1[l]][b := buf0[b].(dirty := true)]
    requires !buf0[l].busy && !buf0[l].dirty && !buf1[l].dirty && !buf1[l].busy && buf0[b].sector == s
    requires PinsWithin(buf0, lh) && AllPinned(buf0, lh)
    requires HeadFits(lh, nhome, nslots) && s < nhome && |lh| < LOGSIZE && |lh| < nslots
    ensures PinsWithin(buf1, AddSector(lh, s)) && AllPinned(buf1, AddSector(lh, s))
    ensures HeadFits(AddSector(lh, s), nhome, nslots) && |AddSector(lh, s)| < NBUF
    ensures Spares(buf0, buf1, b) && (OnlyBusy(buf0, b) ==> OnlyBusy(buf1, b))
  {
    var lh' := AddSector(lh, s);
    AddSectorFits(lh, s, nhome, nslots);
    forall i | 0 <= i < |lh'| ensures Pinned(buf1, lh'[i]) {
      if lh'[i] == s {
        assert buf1[b].dirty && buf1[b].sector == s;
      } else {
        assert lh'[i] == lh[i] && Pinned(buf0, lh[i]);
        var j :| 0 <= j < |buf0| && buf0[j].dirty && buf0[j].sector == lh[i];
        assert buf1[j].dirty && buf1[j].sector == lh[i];
      }
    }
    PinnedFewer(buf1, lh', l);
  }

  /** With nothing pinned, the disk holds the store. */
  lemma {:induction false} AllOnDisk(buf: seq<Buf>, disk: seq<Block>, store: seq<Block>)
    requires Coherent(buf, disk, store) && PinsWithin(buf, [])
    ensures disk == store
  {
    forall s: nat | s < |disk| ensures store[s] == disk[s] {
      assert !Pinned(buf, s);
    }
  }

  lemma {:induction false} InstallSame(home: seq<Block>, lh: seq<nat>, slots: seq<Block>, n: nat)
    requires n <= |lh| && n <= |slots|
    requires forall i :: 0 <= i < n ==> lh[i] < |home| && home[lh[i]] == slots[i]
    ensures Install(home, lh, slots, n) == home
  {
    if n > 0 {
      InstallSame(home, lh, slots, n - 1);
    }
  }

  lemma {:induction false} PinsWithinMore(buf: seq<Buf>, lh: seq<nat>)
    requires PinsWithin(buf, [])
    ensures PinsWithin(buf, lh)
  {
  }

  /** Installing on the whole disk is installing on its home sectors. */
  lemma {:induction false} InstallHome(disk: seq<Block>, start: nat, lh: seq<nat>, slots: seq<Block>, n: nat)
    requires n <= |lh| && n <= |slots| && start <= |disk|
    requires forall i :: 0 <= i < |lh| ==> lh[i] < start
    ensures Install(disk, lh, slots, n)[..start] == Install(disk[..start], lh, slots, n)
  {
    if n > 0 {
      InstallHome(disk, start, lh, slots, n - 1);
    }
  }

  /** The first `k` raw writes of a recovery that clears the log with header block `h`. */
  ghost function RawRecover(d: Disk, start: nat, h: Block, k: nat): (ws: seq<RawWrite>)
    requires k <= |d.head| + 1 && |d.head| <= |d.slots|
  {
    if k <= |d.head| then RawInstall(d.head, d.slots, k)
    else RawInstall(d.head, d.slots, |d.head|) + [RawWrite(start, h)]
  }

  /** They are the first `k` recovery writes of the write-ahead theory. */
  lemma {:induction false} RecoverView(d: Disk, start: nat, h: Block, k: nat)
    requires LogOk(d) && |d.home| == start && k <= |d.head| + 1
    requires k == |d.head| + 1 ==> DecodeHead(h) == []
    ensures |RecoveryWrites(d)| == |d.head| + 1
    ensures ViewWrites(RawRecover(d, start, h, k), start) == RecoveryWrites(d)[..k]
  {
    hide DecodeHead, InstallWrites, RawInstall;
    var n := |d.head|;
    var m := if k <= n then k else n;
    RawInstallView(d.head, d.slots, m, start);
    InstallWritesPrefix(d.head, d.slots, n, m);
    assert RecoveryWrites(d)[..m] == InstallWrites(d.head, d.slots, n)[..m];
    if k == n + 1 {
      ViewWritesAppend(RawInstall(d.head, d.slots, n), [RawWrite(start, h)], start);
    }
  }

  /** The first `k` raw writes of a commit with header blocks `h1` and `h2`. */
  ghost function RawCommit(lh: seq<nat>, slots: seq<Block>, start: nat, h1: Block, h2: Block, k: nat): (ws: seq<RawWrite>)
    requires k <= |lh| + 2 && |lh| <= |slots|
    ensures |ws| == k
  {
    if k == 0 then []
    else if k <= |lh| + 1 then [RawWrite(start, h1)] + RawInstall(lh, slots, k - 1)
    else [RawWrite(start, h1)] + RawInstall(lh, slots, |lh|) + [RawWrite(start, h2)]
  }

  lemma {:induction false} HeadView(start: nat, h: Block)
    ensures ViewWrites([], start) == []
    ensures ViewWrites([RawWrite(start, h)], start) == [Head(DecodeHead(h))]
  {
  }

  /** They are the first `k` commit writes of the write-ahead theory. */
  lemma {:induction false} CommitView(lh: seq<nat>, slots: seq<Block>, start: nat, h1: Block, h2: Block, k: nat)
    requires lh != [] && k <= |lh| + 2 && |lh| <= |slots|
    requires forall i :: 0 <= i < |lh| ==> lh[i] < start
    requires k > 0 ==> DecodeHead(h1) == lh
    requires k == |lh| + 2 ==> DecodeHead(h2) == []
    ensures |CommitWrites(lh, slots)| == |lh| + 2
    ensures ViewWrites(RawCommit(lh, slots, start, h1, h2, k), start) == CommitWrites(lh, slots)[..k]
  {
    hide DecodeHead, InstallWrites, RawInstall, ViewWrites;
    HeadView(start, h1);
    HeadView(start, h2);
    if k > 0 {
      var m := if k <= |lh| + 1 then k - 1 else |lh|;
      RawInstallView(lh, slots, m, start);
      InstallWritesPrefix(lh, slots, |lh|, m);
      ViewWritesAppend([RawWrite(start, h1)], RawInstall(lh, slots, m), start);
      assert CommitWrites(lh, slots)[..m + 1] == [Head(lh)] + InstallWrites(lh, slots, m);
      if k == |lh| + 2 {
        ViewWritesAppend([RawWrite(start, h1)] + RawInstall(lh, slots, m), [RawWrite(start, h2)], start);
      }
    }
  }

  lemma {:induction false} PinsUnchanged(buf0: seq<Buf>, buf1: seq<Buf>, lh: seq<nat>)
    requires PinsKept(buf0, buf1, -1)
    ensures PinsWithin(buf0, lh) ==> PinsWithin(buf1, lh)
    ensures AllPinned(buf0, lh) ==> AllPinned(buf1, lh)
    ensures Idle(buf0) ==> Idle(buf1)
    ensures OneClean(buf0) ==> OneClean(buf1)
  {
    if AllPinned(buf0, lh) {
      forall i | 0 <= i < |lh| ensures Pinned(buf1, lh[i]) {
        assert Pinned(buf0, lh[i]);
        var j :| 0 <= j < |buf0| && buf0[j].dirty && buf0[j].sector == lh[i];
        assert buf1[j].dirty && buf1[j].sector == lh[i];
      }
    }
    if OneClean(buf0) {
      var i :| 0 <= i < |buf0| && !buf0[i].dirty;
      assert !buf1[i].dirty;
    }
  }

  /** One installed sector leaves the list of sectors that may be pinned. */
  lemma {:induction false} PinsStep(buf0: seq<Buf>, buf1: seq<Buf>, lh: seq<nat>, tail: nat)
    requires tail < |lh| && PinsKept(buf0, buf1, lh[tail]) && PinsWithin(buf0, lh[tail..])
    ensures PinsWithin(buf1, lh[tail + 1..]) && PinsWithin(buf1, lh)
    ensures Idle(buf0) ==> Idle(buf1)
  {
    forall i | 0 <= i < |buf1| && buf1[i].dirty ensures buf1[i].sector in lh[tail + 1..] && buf1[i].sector in lh {
      assert buf0[i].sector in lh[tail..];
      assert lh[tail..] == [lh[tail]] + lh[tail + 1..];
    }
  }

  /** The raw sector writes of the first `k` rounds of install_trans. */
  ghost function RawInstall(lh: seq<nat>, slots: seq<Block>, k: nat): (ws: seq<RawWrite>)
    requires k <= |lh| && k <= |slots|
    ensures |ws| == k
  {
    if k == 0 then [] else RawInstall(lh, slots, k - 1) + [RawWrite(lh[k - 1], slots[k - 1])]
  }

  /** They are the install writes of the write-ahead theory. */
  lemma {:induction false} RawInstallView(lh: seq<nat>, slots: seq<Block>, k: nat, start: nat)
    requires k <= |lh| && k <= |slots|
    requires forall i :: 0 <= i < |lh| ==> lh[i] < start
    ensures ViewWrites(RawInstall(lh, slots, k), start) == InstallWrites(lh, slots, k)
  {
    if k > 0 {
      RawInstallView(lh, slots, k - 1, start);
      ViewWritesAppend(RawInstall(lh, slots, k - 1), [RawWrite(lh[k - 1], slots[k - 1])], start);
    }
  }

  lemma {:induction false} StillTwoClean(buf0: seq<Buf>, buf1: seq<Buf>, b: nat)
    requires |buf0| == |buf1| && b < |buf0| && buf1 == buf0[b := buf1[b]] && !buf1[b].dirty
    ensures TwoClean(buf0) ==> TwoClean(buf1)
  {
    if TwoClean(buf0) {
      var i, j :| 0 <= i < j < |buf0| && !buf0[i].dirty && !buf0[j].dirty;
      assert !buf1[i].dirty && !buf1[j].dirty;
    }
  }

  lemma {:induction false} CleanEnough(buf: seq<Buf>)
    ensures TwoClean(buf) ==> OneClean(buf)
  {
  }

  /** With one buffer of another sector in hand, a second clean buffer or a pinned hit is enough to go on. */
  lemma {:induction false} NoneToGetBeside(buf0: seq<Buf>, buf1: seq<Buf>, store: seq<Block>, stamp: seq<nat>, l: nat, s: nat, r: GetResult)
    requires |buf1| == |buf0| && l < |buf0| && buf1 == buf0[l := buf1[l]] && buf1[l].sector != s
    requires forall i :: 0 <= i < |buf0| ==> BufOk(buf0[i], store)
    requires Gets(buf1, stamp, ROOTDEV, s, r, buf1) || r.Got?
    requires !buf0[l].dirty
    ensures Idle(buf0) && (TwoClean(buf0) || Pinned(buf0, s)) ==> r.Got?
  {
    if Idle(buf0) && Pinned(buf0, s) {
      var i :| 0 <= i < |buf0| && buf0[i].dirty && buf0[i].sector == s;
      assert BufOk(buf0[i], store);
      assert HasKey(buf1[i], ROOTDEV, s);
    } else if Idle(buf0) && TwoClean(buf0) {
      var i, j :| 0 <= i < j < |buf0| && !buf0[i].dirty && !buf0[j].dirty;
      assert Recyclable(buf1[if i == l then j else i]);
    }
  }

  /** After a round of install_trans the sector is unpinned, every other pin stays, and two buffers are clean. */
  lemma {:induction false} InstalledPins(buf0: seq<Buf>, buf2: seq<Buf>, store: seq<Block>, l: nat, d: nat, s: nat)
    requires |buf0| == |buf2| && l < |buf0| && d < |buf0| && l != d
    requires buf2 == buf0[l := buf2[l]][d := buf2[d]]
    requires !buf2[l].dirty && !buf2[d].dirty && !buf2[l].busy && !buf2[d].busy
    requires !buf0[l].dirty && (buf0[d].dirty ==> buf0[d].sector == s)
    requires HasKey(buf2[d], ROOTDEV, s) && KeysUnique(buf2)
    requires forall i :: 0 <= i < |buf2| ==> BufOk(buf2[i], store)
    ensures PinsKept(buf0, buf2, s) && TwoClean(buf2)
  {
    forall i | 0 <= i < |buf0| && buf0[i].dirty && i != d ensures buf0[i].sector != s {
      assert BufOk(buf2[i], store);
      assert if i < d then !HasKey(buf2[d], buf2[i].dev, buf2[i].sector) else !HasKey(buf2[i], buf2[d].dev, buf2[d].sector);
    }
    var a, b := if l < d then l else d, if l < d then d else l;
    assert a < b && !buf2[a].dirty && !buf2[b].dirty;
  }

  lemma {:induction false} NoneToGet(buf: seq<Buf>, stamp: seq<nat>, sector: nat, r: GetResult)
    requires !r.Got? && Gets(buf, stamp, ROOTDEV, sector, r, buf)
    ensures !(Idle(buf) && OneClean(buf))
  {
  }

  // ----- Nine blocks always find buffers, the tenth never does -----

  lemma {:induction false} SectorsDiffer(buf: seq<Buf>, i: nat, k: nat)
    requires KeysUnique(buf) && i < |buf| && k < |buf| && i != k && buf[i].dev == buf[k].dev == ROOTDEV
    ensures buf[i].sector != buf[k].sector
  {
    assert if i < k then !HasKey(buf[k], buf[i].dev, buf[i].sector) else !HasKey(buf[i], buf[k].dev, buf[k].sector);
  }

  /** Buffers of distinct sectors are no more than the sectors. */
  lemma {:induction false} NoMoreThanSectors(buf: seq<Buf>, held: set<nat>, lh: seq<nat>)
    requires KeysUnique(buf)
    requires forall i :: i in held ==> i < |buf| && buf[i].dev == ROOTDEV && buf[i].sector in lh
    ensures |held| <= |lh|
    decreases |lh|
  {
    hide KeysUnique;
    if held != {} {
      var n := |lh| - 1;
      if i: nat :| i in held && buf[i].sector == lh[n] {
        forall k | k in held - {i} ensures buf[k].sector in lh[..n] {
          SectorsDiffer(buf, i, k);
        }
        NoMoreThanSectors(buf, held - {i}, lh[..n]);
      } else {
        NoMoreThanSectors(buf, held, lh[..n]);
      }
    }
  }

  /** While fewer sectors are pinned than there are buffers, one besides `b` is clean. */
  lemma {:induction false} RoomBeside(buf: seq<Buf>, disk: seq<Block>, store: seq<Block>, lh: seq<nat>, b: nat)
    requires |buf| == NBUF && Coherent(buf, disk, store)
    requires PinsWithin(buf, lh) && |lh| < NBUF && b < NBUF && buf[b].dev == ROOTDEV && buf[b].sector in lh
    ensures CleanBeside(buf, b)
  {
    var all := AllIndices(NBUF);
    var held := set i | i in all && (i == b || buf[i].dirty);
    forall i | i in held ensures buf[i].dev == ROOTDEV && buf[i].sector in lh {
      assert BufOk(buf[i], store);
    }
    NoMoreThanSectors(buf, held, lh);
    assert held <= all;
    assert |all - held| == |all| - |held|;
    assert all - held != {};
    var i :| i in all - held;
  }

  lemma {:induction false} RoomAtAll(buf: seq<Buf>, disk: seq<Block>, store: seq<Block>, lh: seq<nat>)
    requires |buf| == NBUF && Coherent(buf, disk, store)
    requires PinsWithin(buf, lh) && |lh| < NBUF
    ensures OneClean(buf)
  {
    var all := AllIndices(NBUF);
    var held := set i | i in all && buf[i].dirty;
    forall i | i in held ensures buf[i].dev == ROOTDEV && buf[i].sector in lh {
      assert BufOk(buf[i], store);
    }
    NoMoreThanSectors(buf, held, lh);
    assert held <= all;
    assert |all - held| == |all| - |held|;
    assert all - held != {};
    var i :| i in all - held;
  }

  /** With all buffers idle a block is to be had if it is pinned or some buffer is clean. */
  lemma {:induction false} HomeToGet(buf: seq<Buf>, disk: seq<Block>, store: seq<Block>, lh: seq<nat>,
                                     stamp: seq<nat>, s: nat, r: GetResult)
    requires |buf| == NBUF && Coherent(buf, disk, store)
    requires PinsWithin(buf, lh) && AllPinned(buf, lh) && Idle(buf) && |AddSector(lh, s)| < NBUF
    requires !r.Got? ==> Gets(buf, stamp, ROOTDEV, s, r, buf)
    ensures r.Got?
  {
    if FindSlot(lh, s) < |lh| {
      assert Pinned(buf, lh[FindSlot(lh, s)]);
      var i :| 0 <= i < |buf| && buf[i].dirty && buf[i].sector == s;
      assert BufOk(buf[i], store);
      assert HasKey(buf[i], ROOTDEV, s);
    } else {
      RoomAtAll(buf, disk, store, lh);
    }
  }

  /** With only `b` busy, a log block is to be had if some other buffer is clean. */
  lemma {:induction false} SlotToGet(buf: seq<Buf>, b: nat, sector: nat)
    requires b < |buf| && buf[b].sector != sector && OnlyBusy(buf, b) && CleanBeside(buf, b)
    ensures forall stamp :: !Refused(buf, stamp, sector)
  {
    var i :| 0 <= i < |buf| && i != b && !buf[i].dirty;
    assert Recyclable(buf[i]);
  }

  /** Distinct pinned sectors occupy as many buffers. */
  lemma {:induction false} PinnedBuffers(buf: seq<Buf>, lh: seq<nat>, n: nat) returns (held: set<nat>)
    requires AllPinned(buf, lh) && Distinct(lh) && n <= |lh|
    ensures |held| == n
    ensures forall i :: i in held ==> i < |buf| && buf[i].dirty && buf[i].sector in lh[..n]
  {
    held := {};
    if n > 0 {
      var rest := PinnedBuffers(buf, lh, n - 1);
      assert Pinned(buf, lh[n - 1]);
      var i: nat :| i < |buf| && buf[i].dirty && buf[i].sector == lh[n - 1];
      assert lh[n - 1] !in lh[..n - 1];
      held := rest + {i};
    }
  }

  lemma {:induction false} AllIndices(n: nat) returns (all: set<nat>)
    ensures |all| == n && forall i: nat :: i in all <==> i < n
  {
    all := {};
    if n > 0 {
      var rest := AllIndices(n - 1);
      all := rest + {n - 1};
    }
  }

  /** With one buffer clean, fewer distinct sectors are pinned than there are buffers. */
  lemma {:induction false} PinnedFewer(buf: seq<Buf>, lh: seq<nat>, l: nat)
    requires |buf| == NBUF && AllPinned(buf, lh) && Distinct(lh) && l < NBUF && !buf[l].dirty
    ensures |lh| < NBUF
  {
    var held := PinnedBuffers(buf, lh, |lh|);
    var all := AllIndices(NBUF);
    assert held <= all - {l};
    assert |all - {l}| - |held| == |all - {l} - held|;
  }

  /**
   LOGSIZE equals NBUF, so a log of more than ten sectors cannot be filled: once all but one of the buffers
   are pinned, the caller of the next log_write of a new sector holds the last one, and bget panics for the
   log block though neither of log_write's own limits is reached. In a log of ten sectors, header included,
   the second of these limits comes first.
   */
  lemma {:induction false} TenthBlockFindsNoBuffer(buf: seq<Buf>, lh: seq<nat>, b: nat, stamp: seq<nat>, start: nat,
                                                   size: nat, r: GetResult, buf': seq<Buf>)
    requires |buf| == NBUF && |lh| == NBUF - 1 && |lh| < LOGSIZE && |lh| < size - 1
    requires AllPinned(buf, lh) && Distinct(lh) && (forall i :: 0 <= i < |lh| ==> lh[i] < start)
    requires b < NBUF && buf[b].busy && buf[b].sector < start && buf[b].sector !in lh
    requires Gets(buf, stamp, ROOTDEV, start + 1 + FindSlot(lh, buf[b].sector), r, buf')
    ensures r == NoBuffers
  {
    var held := PinnedBuffers(buf, lh, |lh|);
    var all := AllIndices(NBUF);
    assert lh[..|lh|] == lh;
    assert b !in held;
    var taken := held + {b};
    assert taken <= all && |taken| == |all|;
    SubsetOfSameSize(taken, all);
    forall i: nat | i < NBUF ensures buf[i].sector < start && !Recyclable(buf[i]) {
      assert i in taken;
    }
  }

  lemma {:induction false} SubsetOfSameSize(a: set<nat>, b: set<nat>)
    requires a <= b && |a| == |b|
    ensures a == b
  {
    assert b == a + (b - a);
    assert |b| == |a| + |b - a|;
  }
}
