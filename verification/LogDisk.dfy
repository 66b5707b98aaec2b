/**
 The raw sectors of a disk seen as home sectors, log header and log slots. Sectors below `start`
 are home sectors, sector `start` holds the log header, the rest are log slots. Sector writes
 translate one by one, so the crash theorem carries over to raw disks.
 */
module LogDisk {
  import opened Blocks
  import opened Bcache
  import opened Wal
  import opened Crash

  /** How many sector numbers a header block records: its count, or all it can hold. */
  function HeadCount(b: Block): (n: nat)
    ensures n < WORDS && (n <= LOGSIZE ==> n == GetWord(b, 0)) && (GetWord(b, 0) <= LOGSIZE ==> n == GetWord(b, 0))
  {
    if GetWord(b, 0) < WORDS then GetWord(b, 0) else WORDS - 1
  }

  /** The sector numbers recorded in a header block; too many for the log if its count is. */
  function DecodeHead(b: Block): (lh: seq<nat>)
    ensures |lh| <= LOGSIZE ==> |lh| == GetWord(b, 0)
  {
    GetWords(b, 1, HeadCount(b))
  }

  /** A header block records the list it was given: the count and each sector number read back. */
  lemma {:induction false} HeadRoundTrip(b: Block, lh: seq<nat>)
    requires |lh| <= LOGSIZE
    requires forall i :: 0 <= i < |lh| ==> lh[i] < UINT_LIMIT
    ensures var r := SetWords(SetWord(b, 0, |lh|), 1, lh, |lh|);
            DecodeHead(r) == lh && GetWord(r, 0) == |lh| && forall i: nat :: i < |lh| ==> GetWord(r, 1 + i) == lh[i]
  {
    hide GetWord, SetWord, GetWords, SetWords;
    var r := SetWords(SetWord(b, 0, |lh|), 1, lh, |lh|);
    assert GetWord(r, 0) == |lh|;
    assert forall k: nat :: k < |lh| ==> GetWords(r, 1, |lh|)[k] == GetWord(r, 1 + k);
  }

  function View(raw: seq<Block>, start: nat): Disk
    requires start < |raw|
  {
    Disk(raw[..start], DecodeHead(raw[start]), raw[start + 1..])
  }

  function ViewWrite(w: RawWrite, start: nat): Write {
    if w.sector < start then Home(w.sector, w.data)
    else if w.sector == start then Head(DecodeHead(w.data))
    else Slot(w.sector - start - 1, w.data)
  }

  function ViewWrites(ws: seq<RawWrite>, start: nat): (r: seq<Write>)
    ensures |r| == |ws|
    ensures forall i :: 0 <= i < |ws| ==> r[i] == ViewWrite(ws[i], start)
  {
    seq(|ws|, i requires 0 <= i < |ws| => ViewWrite(ws[i], start))
  }

  lemma {:induction false} ViewApply(raw: seq<Block>, start: nat, w: RawWrite)
    requires start < |raw|
    ensures View(RawApply(raw, w), start) == Apply(View(raw, start), ViewWrite(w, start))
  {
    hide DecodeHead;
    var r := RawApply(raw, w);
    var d := Apply(View(raw, start), ViewWrite(w, start));
    assert r[..start] == d.home;
    assert r[start + 1..] == d.slots;
  }

  /** The view commutes with any sequence of sector writes. */
  lemma {:induction false} ViewApplyAll(raw: seq<Block>, start: nat, ws: seq<RawWrite>)
    requires start < |raw|
    ensures View(RawApplyAll(raw, ws), start) == ApplyAll(View(raw, start), ViewWrites(ws, start))
  {
    hide DecodeHead, View, ViewWrite, Apply;
    if ws != [] {
      var ws0 := ws[..|ws| - 1];
      ViewApplyAll(raw, start, ws0);
      ViewApply(RawApplyAll(raw, ws0), start, ws[|ws| - 1]);
      assert ViewWrites(ws, start)[..|ws| - 1] == ViewWrites(ws0, start);
    }
  }

  lemma {:induction false} ViewWritesAppend(a: seq<RawWrite>, b: seq<RawWrite>, start: nat)
    ensures ViewWrites(a + b, start) == ViewWrites(a, start) + ViewWrites(b, start)
  {
    hide ViewWrite;
  }

  /**
   Crash atomicity on raw sectors: if the sector writes `ws` of a run are those of the
   transactions `txns`, as far as it got, then the disk cut after any `k` of them will be replayed
   to the home sectors after a whole number of transactions.
   */
  lemma {:induction false} RawCrashAtomicity(raw: seq<Block>, start: nat, txns: seq<Txn>, ws: seq<RawWrite>, k: nat, ks: seq<nat>)
    requires start < |raw| && Quiet(View(raw, start))
    requires AllFit(txns, start, |raw| - start - 1)
    requires ViewWrites(ws, start) <= RunWrites(View(raw, start), txns) && k <= |ws|
    ensures var crashed := View(RawApplyAll(raw, ws[..k]), start);
            && LogOk(crashed)
            && var again := Reboots(crashed, ks);
               var e := ApplyAll(again, RecoveryWrites(again));
               && Quiet(e)
               && e.home == AfterTxns(raw[..start], txns[..Committed(View(raw, start), txns, k)])
  {
    hide DecodeHead, ViewWrite, RunWrites, Committed, AfterTxns, Reboots, RecoveryWrites, LogOk, ApplyAll, RawApplyAll, AllFit;
    var d := View(raw, start);
    CrashAtomicity(d, txns, k, ks);
    ViewApplyAll(raw, start, ws[..k]);
    assert ViewWrites(ws[..k], start) == RunWrites(d, txns)[..k];
  }
}
