/**
 The write-ahead log as a sequence of atomic sector writes: what a transaction writes, what
 recovery writes, and what the home sectors will hold once the log has been replayed.

 A disk is seen here through its three regions: the home sectors, the sector list recorded in
 the log header, and the log slots that follow the header. Module LogDisk maps raw sectors to
 this view.
 */
module Wal {
  import opened Blocks
  import opened Seqs

  const LOGSIZE := 10

  datatype Disk = Disk(home: seq<Block>, head: seq<nat>, slots: seq<Block>)

  /** One atomic sector write, classified by the region it falls in. */
  datatype Write =
    | Home(sector: nat, data: Block)
    | Head(list: seq<nat>)
    | Slot(index: nat, data: Block)

  function Apply(d: Disk, w: Write): Disk {
    match w
    case Home(s, b) => d.(home := Put(d.home, s, b))
    case Head(lh) => d.(head := lh)
    case Slot(i, b) => d.(slots := Put(d.slots, i, b))
  }

  /** The disk after the writes `ws`, applied in order. */
  function ApplyAll(d: Disk, ws: seq<Write>): (r: Disk)
    ensures |r.home| == |d.home| && |r.slots| == |d.slots|
  {
    if ws == [] then d else Apply(ApplyAll(d, ws[..|ws| - 1]), ws[|ws| - 1])
  }

  /** A list of home sectors that fits a log with `nslots` slots. */
  ghost predicate HeadFits(lh: seq<nat>, nhome: nat, nslots: nat) {
    && |lh| <= LOGSIZE
    && |lh| <= nslots
    && Distinct(lh)
    && forall i :: 0 <= i < |lh| ==> lh[i] < nhome
  }

  ghost predicate LogOk(d: Disk) {
    HeadFits(d.head, |d.home|, |d.slots|)
  }

  /** A well-formed disk whose log is empty. */
  ghost predicate Quiet(d: Disk) {
    d.head == []
  }

  // ----- Recovery -----

  /** The home sectors after copying `slots[i]` over sector `lh[i]` for the first `n` entries, in order. */
  ghost function Install(home: seq<Block>, lh: seq<nat>, slots: seq<Block>, n: nat): (r: seq<Block>)
    requires n <= |lh| && n <= |slots|
    ensures |r| == |home|
  {
    if n == 0 then home else Put(Install(home, lh, slots, n - 1), lh[n - 1], slots[n - 1])
  }

  /** What the home sectors will hold once the log on this disk has been replayed. */
  ghost function Recovered(d: Disk): (home: seq<Block>)
    requires LogOk(d)
    ensures |home| == |d.home|
  {
    Install(d.home, d.head, d.slots, |d.head|)
  }

  /** The first `n` sector writes of install_trans. */
  function InstallWrites(lh: seq<nat>, slots: seq<Block>, n: nat): (ws: seq<Write>)
    requires n <= |lh| && n <= |slots|
    ensures |ws| == n
  {
    if n == 0 then [] else InstallWrites(lh, slots, n - 1) + [Home(lh[n - 1], slots[n - 1])]
  }

  /** Every sector write of recover_from_log on this disk, in order. */
  function RecoveryWrites(d: Disk): seq<Write>
    requires |d.head| <= |d.slots|
  {
    InstallWrites(d.head, d.slots, |d.head|) + [Head([])]
  }

  // ----- Transactions -----

  /** One log_write call: a home sector and its new contents. A transaction is a sequence of them. */
  datatype Update = Update(sector: nat, data: Block)
  type Txn = seq<Update>

  /** The meaning of a transaction on the home sectors. */
  ghost function Effect(home: seq<Block>, t: Txn): (r: seq<Block>)
    ensures |r| == |home|
  {
    if t == [] then home else Put(Effect(home, t[..|t| - 1]), t[|t| - 1].sector, t[|t| - 1].data)
  }

  /** The slot log_write uses for sector `s`: its first occurrence, or the end. */
  function FindSlot(lh: seq<nat>, s: nat): (i: nat)
    ensures i <= |lh|
    ensures i < |lh| ==> lh[i] == s
    ensures forall j :: 0 <= j < i ==> lh[j] != s
  {
    if lh == [] then 0 else if lh[0] == s then 0 else 1 + FindSlot(lh[1..], s)
  }

  function AddSector(lh: seq<nat>, s: nat): seq<nat> {
    if FindSlot(lh, s) == |lh| then lh + [s] else lh
  }

  /** The in-memory header after the log_write calls of `t`. */
  function TxnHead(t: Txn): seq<nat> {
    if t == [] then [] else AddSector(TxnHead(t[..|t| - 1]), t[|t| - 1].sector)
  }

  /** The sector writes of the log_write calls of `t`: one log slot each, with absorption. */
  function LogWrites(t: Txn): (ws: seq<Write>)
    ensures |ws| == |t|
  {
    if t == [] then []
    else
      var t0, u := t[..|t| - 1], t[|t| - 1];
      LogWrites(t0) + [Slot(FindSlot(TxnHead(t0), u.sector), u.data)]
  }

  /** No log_write of `t` panics: each one finds the header below both limits. */
  ghost predicate Fits(t: Txn, nhome: nat, nslots: nat) {
    t == [] ||
    var t0 := t[..|t| - 1];
    && Fits(t0, nhome, nslots)
    && t[|t| - 1].sector < nhome
    && |TxnHead(t0)| < LOGSIZE
    && |TxnHead(t0)| < nslots
  }

  /** Every sector write of commit_trans with in-memory header `lh` and the log slots already on disk. */
  function CommitWrites(lh: seq<nat>, slots: seq<Block>): seq<Write>
    requires |lh| <= |slots|
  {
    if lh == [] then [] else [Head(lh)] + InstallWrites(lh, slots, |lh|) + [Head([])]
  }

  /** Every sector write of one whole transaction. */
  ghost function TxnWrites(d: Disk, t: Txn): seq<Write>
    requires Fits(t, |d.home|, |d.slots|)
  {
    TxnHeadFits(t, |d.home|, |d.slots|);
    LogWrites(t) + CommitWrites(TxnHead(t), ApplyAll(d, LogWrites(t)).slots)
  }

  // ----- Basic facts -----

  lemma {:induction false} ApplyAllAppend(d: Disk, a: seq<Write>, b: seq<Write>)
    ensures ApplyAll(d, a + b) == ApplyAll(ApplyAll(d, a), b)
    decreases b
  {
    if b == [] {
      assert a + b == a;
    } else {
      var m := |b| - 1;
      assert (a + b)[..|a + b| - 1] == a + b[..m];
      ApplyAllAppend(d, a, b[..m]);
    }
  }

  lemma {:induction false} AddSectorFits(lh: seq<nat>, s: nat, nhome: nat, nslots: nat)
    requires HeadFits(lh, nhome, nslots) && s < nhome && |lh| < LOGSIZE && |lh| < nslots
    ensures HeadFits(AddSector(lh, s), nhome, nslots)
  {
  }

  lemma {:induction false} TxnHeadFits(t: Txn, nhome: nat, nslots: nat)
    requires Fits(t, nhome, nslots)
    ensures HeadFits(TxnHead(t), nhome, nslots)
  {
    if t != [] {
      TxnHeadFits(t[..|t| - 1], nhome, nslots);
    }
  }

  /** Installing distinct sectors: each listed sector holds its logged block, the rest is untouched. */
  lemma {:induction false} InstallAt(home: seq<Block>, lh: seq<nat>, slots: seq<Block>, n: nat)
    requires n <= |lh| && n <= |slots| && Distinct(lh)
    requires forall i :: 0 <= i < |lh| ==> lh[i] < |home|
    ensures forall i :: 0 <= i < n ==> Install(home, lh, slots, n)[lh[i]] == slots[i]
    ensures forall s :: 0 <= s < |home| && s !in lh[..n] ==> Install(home, lh, slots, n)[s] == home[s]
  {
    if n > 0 {
      InstallAt(home, lh, slots, n - 1);
      forall s | 0 <= s < |home| && s !in lh[..n] ensures Install(home, lh, slots, n)[s] == home[s] {
        assert lh[n - 1] in lh[..n];
        assert s !in lh[..n - 1];
      }
    }
  }

  /** Replaying a log over home sectors that differ only where the log will write gives the same home sectors. */
  lemma {:induction false} InstallAgain(home: seq<Block>, part: seq<Block>, lh: seq<nat>, slots: seq<Block>)
    requires |part| == |home| && HeadFits(lh, |home|, |slots|)
    requires forall s :: 0 <= s < |home| && s !in lh ==> part[s] == home[s]
    ensures Install(part, lh, slots, |lh|) == Install(home, lh, slots, |lh|)
  {
    var n := |lh|;
    assert lh[..n] == lh;
    InstallAt(home, lh, slots, n);
    InstallAt(part, lh, slots, n);
    hide Install, Distinct;
    forall s | 0 <= s < |home| ensures Install(part, lh, slots, n)[s] == Install(home, lh, slots, n)[s] {
      if s in lh {
        var i :| 0 <= i < n && lh[i] == s;
        assert Install(part, lh, slots, n)[lh[i]] == slots[i];
        assert Install(home, lh, slots, n)[lh[i]] == slots[i];
      }
    }
  }

  /** The install writes perform the installation and leave the log alone. */
  lemma {:induction false} InstallEffect(d: Disk, lh: seq<nat>, slots: seq<Block>, n: nat)
    requires n <= |lh| && n <= |slots|
    ensures ApplyAll(d, InstallWrites(lh, slots, n)) == d.(home := Install(d.home, lh, slots, n))
  {
    if n > 0 {
      InstallEffect(d, lh, slots, n - 1);
      var ws := InstallWrites(lh, slots, n);
      assert ws[..n - 1] == InstallWrites(lh, slots, n - 1);
    }
  }

  lemma {:induction false} InstallWritesPrefix(lh: seq<nat>, slots: seq<Block>, n: nat, k: nat)
    requires k <= n <= |lh| && n <= |slots|
    ensures InstallWrites(lh, slots, n)[..k] == InstallWrites(lh, slots, k)
  {
    if k < n {
      InstallWritesPrefix(lh, slots, n - 1, k);
      assert InstallWrites(lh, slots, n)[..k] == InstallWrites(lh, slots, n - 1)[..k];
    }
  }

  lemma {:induction false} LogWritesPrefix(t: Txn, k: nat)
    requires k <= |t|
    ensures LogWrites(t)[..k] == LogWrites(t[..k])
  {
    if k == |t| {
      assert t[..k] == t;
    } else {
      var t0 := t[..|t| - 1];
      LogWritesPrefix(t0, k);
      assert t0[..k] == t[..k];
      assert LogWrites(t)[..k] == LogWrites(t0)[..k];
    }
  }

  lemma {:induction false} LogStep(d: Disk, t: Txn)
    requires t != []
    ensures var t0, u := t[..|t| - 1], t[|t| - 1];
            ApplyAll(d, LogWrites(t)) == Apply(ApplyAll(d, LogWrites(t0)), Slot(FindSlot(TxnHead(t0), u.sector), u.data))
  {
    var ws := LogWrites(t);
    assert ws[..|ws| - 1] == LogWrites(t[..|t| - 1]);
  }

  /** log_write changes neither the header nor a home sector on disk. */
  lemma {:induction false} LogWritesOnlySlots(d: Disk, t: Txn)
    ensures ApplyAll(d, LogWrites(t)) == d.(slots := ApplyAll(d, LogWrites(t)).slots)
  {
    if t != [] {
      LogWritesOnlySlots(d, t[..|t| - 1]);
      LogStep(d, t);
    }
  }

  /** Recording one more block in its slot adds exactly that block to what will be installed. */
  lemma {:induction false} InstallOneMore(home: seq<Block>, lh: seq<nat>, slots: seq<Block>, u: Update)
    requires HeadFits(lh, |home|, |slots|) && u.sector < |home| && |lh| < |slots|
    ensures var lh' := AddSector(lh, u.sector);
            var slots' := Put(slots, FindSlot(lh, u.sector), u.data);
            Install(home, lh', slots', |lh'|) == Put(Install(home, lh, slots, |lh|), u.sector, u.data)
  {
    var i := FindSlot(lh, u.sector);
    var lh', slots' := AddSector(lh, u.sector), Put(slots, i, u.data);
    if i == |lh| {
      InstallFrame(home, lh, slots, lh', slots', |lh|);
    } else {
      InstallAt(home, lh, slots, |lh|);
      InstallAt(home, lh, slots', |lh|);
      assert lh[..|lh|] == lh;
      forall s | 0 <= s < |home|
        ensures Install(home, lh, slots', |lh|)[s] == Put(Install(home, lh, slots, |lh|), u.sector, u.data)[s]
      {
        if s in lh {
          var j :| 0 <= j < |lh| && lh[j] == s;
          assert Install(home, lh, slots', |lh|)[lh[j]] == slots'[j];
          assert Install(home, lh, slots, |lh|)[lh[j]] == slots[j];
        }
      }
    }
  }

  lemma {:induction false} InstallFrame(home: seq<Block>, lh: seq<nat>, slots: seq<Block>, lh': seq<nat>, slots': seq<Block>, n: nat)
    requires n <= |lh| && n <= |slots| && n <= |lh'| && n <= |slots'|
    requires forall i :: 0 <= i < n ==> lh[i] == lh'[i] && slots[i] == slots'[i]
    ensures Install(home, lh, slots, n) == Install(home, lh', slots', n)
  {
    if n > 0 {
      InstallFrame(home, lh, slots, lh', slots', n - 1);
    }
  }

  /** The log slots of a transaction, installed, are the transaction's effect: absorption loses nothing. */
  lemma {:induction false} LoggedIsTxn(d: Disk, t: Txn)
    requires Fits(t, |d.home|, |d.slots|)
    ensures HeadFits(TxnHead(t), |d.home|, |d.slots|)
    ensures Install(d.home, TxnHead(t), ApplyAll(d, LogWrites(t)).slots, |TxnHead(t)|) == Effect(d.home, t)
  {
    TxnHeadFits(t, |d.home|, |d.slots|);
    if t != [] {
      var t0, u := t[..|t| - 1], t[|t| - 1];
      LoggedIsTxn(d, t0);
      LogStep(d, t);
      InstallOneMore(d.home, TxnHead(t0), ApplyAll(d, LogWrites(t0)).slots, u);
    }
  }
}
