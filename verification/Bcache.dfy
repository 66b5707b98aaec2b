/**
 The buffer cache. It refines a plain store: `store` holds, for every sector of the disk, the
 contents last logged or written, and reading a sector through the cache returns exactly that,
 whatever was recycled in between.
 */
module Bcache {
  import opened Blocks
  import opened MruList
  import opened Seqs

  const ROOTDEV: nat := 1
  const NODEV: nat := 0xffff_ffff

  datatype Buf = Buf(busy: bool, valid: bool, dirty: bool, dev: nat, sector: nat, data: Block)

  /** One atomic sector write on the disk. */
  datatype RawWrite = RawWrite(sector: nat, data: Block)

  function RawApply(raw: seq<Block>, w: RawWrite): seq<Block> {
    Put(raw, w.sector, w.data)
  }

  /** The raw disk after the writes `ws`, applied in order. */
  function RawApplyAll(raw: seq<Block>, ws: seq<RawWrite>): (r: seq<Block>)
    ensures |r| == |raw|
  {
    if ws == [] then raw else RawApply(RawApplyAll(raw, ws[..|ws| - 1]), ws[|ws| - 1])
  }

  lemma {:induction false} OneMoreWrite(raw: seq<Block>, ws: seq<RawWrite>, w: RawWrite)
    ensures RawApplyAll(raw, ws + [w]) == RawApply(RawApplyAll(raw, ws), w)
  {
    assert (ws + [w])[..|ws|] == ws;
  }

  /** What one pass of bget through the table, under the cache lock, ends in. */
  datatype GetResult = Got(b: nat) | Sleep(b: nat) | NoBuffers

  predicate HasKey(b: Buf, dev: nat, sector: nat) {
    b.dev == dev && b.sector == sector
  }

  predicate Recyclable(b: Buf) {
    !b.busy && !b.dirty
  }

  /** A cached sector that holds logged contents which must not be evicted. */
  ghost predicate Pinned(buf: seq<Buf>, s: nat) {
    exists i :: 0 <= i < |buf| && buf[i].dirty && buf[i].sector == s
  }

  ghost predicate KeysUnique(buf: seq<Buf>) {
    forall i, j :: 0 <= i < j < |buf| && buf[i].dev != NODEV ==> !HasKey(buf[j], buf[i].dev, buf[i].sector)
  }

  ghost predicate BufOk(b: Buf, store: seq<Block>) {
    && (b.dirty ==> b.valid)
    && (b.valid ==> b.dev == ROOTDEV && b.sector < |store|)
    && (b.valid && !b.busy ==> b.data == store[b.sector])
  }

  /** Idle cached contents are the store's, and the disk may differ from the store only under a pinned buffer. */
  ghost predicate Coherent(buf: seq<Buf>, disk: seq<Block>, store: seq<Block>) {
    && |disk| == |store|
    && KeysUnique(buf)
    && (forall i :: 0 <= i < |buf| ==> BufOk(buf[i], store))
    && (forall s: nat :: s < |disk| && store[s] != disk[s] ==> Pinned(buf, s))
  }

  /** `order` lists every buffer once, most recently released first. */
  ghost predicate ByRelease(order: seq<nat>, stamp: seq<nat>, clock: nat) {
    && |order| == NBUF == |stamp|
    && (forall i :: 0 <= i < |order| ==> order[i] < NBUF)
    && (forall b: nat :: b < NBUF ==> b in order && stamp[b] < clock)
    && (forall i, j :: 0 <= i < j < |order| ==> Newer(order, stamp, i, j))
  }

  /** The buffer at position `i` of the list was released after the one at position `j`. */
  ghost predicate Newer(order: seq<nat>, stamp: seq<nat>, i: nat, j: nat)
    requires i < |order| && j < |order| && order[i] < |stamp| && order[j] < |stamp|
  {
    stamp[order[i]] > stamp[order[j]]
  }

  /** The buffer that must be recycled: idle, clean, and released longest ago among those. */
  ghost predicate LeastRecent(buf: seq<Buf>, stamp: seq<nat>, b: nat) {
    && b < |buf| == |stamp|
    && Recyclable(buf[b])
    && forall i :: 0 <= i < |buf| && i != b && Recyclable(buf[i]) ==> stamp[i] > stamp[b]
  }

  ghost predicate Cached(buf: seq<Buf>, dev: nat, sector: nat) {
    exists i :: 0 <= i < |buf| && HasKey(buf[i], dev, sector)
  }

  // ----- How single-buffer updates keep the cache coherent -----

  /** Replacing a clean or still-dirty buffer in place keeps the coherence of all the others. */
  lemma {:induction false} UpdateOk(buf: seq<Buf>, disk: seq<Block>, store: seq<Block>, b: nat, x: Buf)
    requires Coherent(buf, disk, store) && b < |buf|
    requires BufOk(x, store)
    requires HasKey(x, buf[b].dev, buf[b].sector) || !Cached(buf, x.dev, x.sector)
    requires buf[b].dirty ==> x.dirty && x.sector == buf[b].sector
    ensures Coherent(buf[b := x], disk, store)
  {
    var buf' := buf[b := x];
    forall s: nat | s < |disk| && store[s] != disk[s] ensures Pinned(buf', s) {
      var i :| 0 <= i < |buf| && buf[i].dirty && buf[i].sector == s;
      assert buf'[i].dirty && buf'[i].sector == s;
    }
  }

  /** Giving a busy buffer's sector new contents, in the store and under a pin or on the disk, keeps coherence. */
  lemma {:induction false} StoreOk(buf: seq<Buf>, disk: seq<Block>, store: seq<Block>, b: nat, toDisk: bool)
    requires Coherent(buf, disk, store) && b < |buf|
    requires buf[b].busy && buf[b].dev == ROOTDEV && buf[b].sector < |disk|
    ensures var x := buf[b].(valid := true, dirty := !toDisk);
            var s := buf[b].sector;
            Coherent(buf[b := x], if toDisk then disk[s := x.data] else disk, store[s := x.data])
  {
    var s := buf[b].sector;
    var x := buf[b].(valid := true, dirty := !toDisk);
    var buf', disk', store' := buf[b := x], if toDisk then disk[s := x.data] else disk, store[s := x.data];
    forall i | 0 <= i < |buf'| ensures BufOk(buf'[i], store') {
      if i != b && buf[i].sector == s {
        assert !HasKey(buf[i], ROOTDEV, s);
      }
    }
    forall r: nat | r < |disk'| && store'[r] != disk'[r] ensures Pinned(buf', r) {
      if r == s {
        assert buf'[b].dirty && buf'[b].sector == r;
      } else {
        var i :| 0 <= i < |buf| && buf[i].dirty && buf[i].sector == r;
        assert buf'[i].dirty && buf'[i].sector == r;
      }
    }
  }

  /** Moving the released buffer to the front keeps the list in order of last release. */
  lemma {:induction false} ReleaseOrder(order: seq<nat>, stamp: seq<nat>, clock: nat, k: nat)
    requires ByRelease(order, stamp, clock) && k < NBUF
    ensures ByRelease([order[k]] + RemoveAt(order, k), stamp[order[k] := clock], clock + 1)
  {
    var b := order[k];
    var order', stamp' := [b] + RemoveAt(order, k), stamp[b := clock];
    ReleaseKeepsAll(order, k);
    assert forall i :: 0 < i < NBUF ==> order'[i] == order[if i <= k then i - 1 else i];
    forall i, j | 0 <= i < j < |order'| ensures Newer(order', stamp', i, j) {
      var i0, j0 := if i <= k then i - 1 else i, if j <= k then j - 1 else j;
      assert if j0 < k then Newer(order, stamp, j0, k) else Newer(order, stamp, k, j0);
      if i > 0 {
        assert if i0 < k then Newer(order, stamp, i0, k) else Newer(order, stamp, k, i0);
        assert Newer(order, stamp, i0, j0);
      }
    }
    forall c: nat | c < NBUF ensures c in order' && stamp'[c] < clock + 1 {
      assert c in order;
    }
  }

  lemma {:induction false} ReleaseKeepsAll(order: seq<nat>, k: nat)
    requires k < |order|
    ensures forall c :: c in order ==> c in [order[k]] + RemoveAt(order, k)
  {
    var order' := [order[k]] + RemoveAt(order, k);
    forall c | c in order ensures c in order' {
      var i :| 0 <= i < |order| && order[i] == c;
      assert c == order'[if i < k then i + 1 else if i == k then 0 else i];
    }
  }

  // ----- The cache -----

  /** What one pass of bget leaves: a hit, a wait for a busy hit, the recycled least recent buffer, or none free. */
  ghost predicate Gets(buf: seq<Buf>, stamp: seq<nat>, dev: nat, sector: nat, r: GetResult, buf': seq<Buf>) {
    match r
    case Got(b) =>
      && b < |buf| && !buf[b].busy
      && if Cached(buf, dev, sector)
         then HasKey(buf[b], dev, sector) && buf' == buf[b := buf[b].(busy := true)]
         else LeastRecent(buf, stamp, b) && buf' == buf[b := Buf(true, false, false, dev, sector, buf[b].data)]
    case Sleep(b) => b < |buf| && HasKey(buf[b], dev, sector) && buf[b].busy && buf' == buf
    case NoBuffers =>
      !Cached(buf, dev, sector) && buf' == buf && forall i :: 0 <= i < |buf| ==> !Recyclable(buf[i])
  }

  class Cache {
    var disk: seq<Block>
    var buf: seq<Buf>
    var links: seq<Links>
    ghost var store: seq<Block>      // contents last logged or written, per sector
    ghost const image: seq<Block>    // the disk at boot
    var writes: seq<RawWrite>        // every sector write since
    ghost var order: seq<nat>        // the buffers in list order
    ghost var stamp: seq<nat>        // when each buffer was last released
    ghost var clock: nat

    ghost predicate Valid()
      reads this
    {
      && |buf| == NBUF
      && disk == RawApplyAll(image, writes)
      && Coherent(buf, disk, store)
      && ByRelease(order, stamp, clock)
      && ListOk(links, order)
    }

    /** binit: an empty cache over a disk image. */
    constructor (image: seq<Block>)
      ensures Valid() && this.image == image && disk == image && store == image && writes == []
      ensures buf == seq(NBUF, _ => Buf(false, false, false, NODEV, 0, ZERO_BLOCK))
    {
      this.image, disk, store, writes := image, image, image, [];
      buf := seq(NBUF, _ => Buf(false, false, false, NODEV, 0, ZERO_BLOCK));
      var ln := seq(NBUF + 1, _ => Links(HEAD, HEAD));
      ghost var ord: seq<nat> := [];
      ghost var st: seq<nat> := [];
      assert ListOk(ln, ord);
      var b := 0;
      while b < NBUF
        invariant 0 <= b <= NBUF
        invariant ListOk(ln, ord)
        invariant |ord| == b == |st|
        invariant forall i :: 0 <= i < b ==> ord[i] == b - 1 - i
        invariant forall i :: 0 <= i < b ==> st[i] == i
      {
        InsertFrontOk(ln, ord, b);
        ln := InsertFront(ln, b);
        ord := [b] + ord;
        st := st + [b];
        b := b + 1;
      }
      links, order, stamp, clock := ln, ord, st, NBUF;
      forall c: nat | c < NBUF ensures c in ord && st[c] < NBUF {
        assert ord[NBUF - 1 - c] == c;
      }
    }

    /** One pass of bget under the cache lock. */
    method Bget(dev: nat, sector: nat) returns (r: GetResult)
      requires Valid() && dev != NODEV
      modifies this`buf
      ensures Valid()
      ensures Gets(old(buf), stamp, dev, sector, r, buf)
    {
      hide RawApplyAll;
      assert Linked(links, order, 0);
      var b := links[HEAD].next;
      ghost var k := 1;
      while b != HEAD
        invariant 1 <= k <= NBUF + 1 && b == Ring(order, k)
        invariant forall j :: 0 <= j < k - 1 ==> !HasKey(buf[order[j]], dev, sector)
        invariant buf == old(buf)
        decreases NBUF + 1 - k
      {
        if HasKey(buf[b], dev, sector) {
          if !buf[b].busy {
            UpdateOk(buf, disk, store, b, buf[b].(busy := true));
            buf := buf[b := buf[b].(busy := true)];
            return Got(b);
          }
          return Sleep(b);
        }
        assert Linked(links, order, k);
        b := links[b].next;
        k := k + 1;
      }
      assert !Cached(buf, dev, sector) by { NotCached(buf, order, dev, sector); }
      r := Recycle(dev, sector);
    }

    /** The second loop of bget: recycle from the least recently released end. */
    method Recycle(dev: nat, sector: nat) returns (r: GetResult)
      requires Valid() && dev != NODEV && !Cached(buf, dev, sector)
      modifies this`buf
      ensures Valid()
      ensures !r.Sleep? && Gets(old(buf), stamp, dev, sector, r, buf)
    {
      hide RawApplyAll;
      assert Linked(links, order, NBUF);
      var b := links[HEAD].prev;
      ghost var k := NBUF;
      while b != HEAD
        invariant 0 <= k <= NBUF && b == Ring(order, k)
        invariant forall j :: k <= j < NBUF ==> !Recyclable(buf[order[j]])
        invariant buf == old(buf)
        decreases k
      {
        if !buf[b].busy && !buf[b].dirty {
          LastIsLeastRecent(buf, order, stamp, clock, k - 1);
          var x := Buf(true, false, false, dev, sector, buf[b].data);
          UpdateOk(buf, disk, store, b, x);
          buf := buf[b := x];
          return Got(b);
        }
        assert Linked(links, order, k - 1);
        b := links[b].prev;
        k := k - 1;
      }
      forall i | 0 <= i < NBUF ensures !Recyclable(buf[i]) {
        assert i in order;
      }
      return NoBuffers;
    }

    /** memide's iderw: write a dirty buffer's contents to disk, or read an invalid one's from it. */
    method Iderw(b: nat)
      requires b < |buf| && buf[b].busy && !(buf[b].valid && !buf[b].dirty)
      requires buf[b].dev == ROOTDEV && buf[b].sector < |disk|
      modifies this`buf, this`disk, this`writes
      ensures old(buf[b].dirty) ==>
        && disk == old(disk)[old(buf[b].sector) := old(buf[b].data)]
        && writes == old(writes) + [RawWrite(old(buf[b].sector), old(buf[b].data))]
        && buf == old(buf)[b := old(buf[b]).(valid := true, dirty := false)]
      ensures !old(buf[b].dirty) ==>
        && disk == old(disk) && writes == old(writes)
        && buf == old(buf)[b := old(buf[b]).(valid := true, data := disk[old(buf[b].sector)])]
    {
      var s := buf[b].sector;
      if buf[b].dirty {
        buf := buf[b := buf[b].(dirty := false)];
        disk := disk[s := buf[b].data];
        writes := writes + [RawWrite(s, buf[b].data)];
      } else {
        buf := buf[b := buf[b].(data := disk[s])];
      }
      buf := buf[b := buf[b].(valid := true)];
    }

    /** bread: a busy, valid buffer holding what was last logged or written for the sector. */
    method Bread(sector: nat) returns (r: GetResult)
      requires Valid() && sector < |disk|
      modifies this`buf, this`disk, this`writes
      ensures Valid() && disk == old(disk) && writes == old(writes)
      ensures r.Got? ==>
        && r.b < NBUF && !old(buf)[r.b].busy
        && (if Cached(old(buf), ROOTDEV, sector) then HasKey(old(buf)[r.b], ROOTDEV, sector)
            else LeastRecent(old(buf), stamp, r.b))
        && buf == old(buf)[r.b := Buf(true, true, HasKey(old(buf)[r.b], ROOTDEV, sector) && old(buf)[r.b].dirty,
                                      ROOTDEV, sector, store[sector])]
      ensures !r.Got? ==> buf == old(buf) && Gets(buf, stamp, ROOTDEV, sector, r, buf)
    {
      hide RawApplyAll, ListOk, ByRelease;
      r := Bget(ROOTDEV, sector);
      if r.Got? {
        var b := r.b;
        if !buf[b].valid {
          ghost var x := buf[b].(valid := true, data := disk[sector]);
          assert store[sector] == disk[sector] by { UnpinnedIsOnDisk(buf, disk, store, b); }
          UpdateOk(buf, disk, store, b, x);
          Iderw(b);
        }
      }
    }

    /** The holder of a busy buffer changes its contents in memory. */
    method Modify(b: nat, data: Block)
      requires Valid() && b < NBUF && buf[b].busy && buf[b].valid
      modifies this`buf
      ensures Valid() && buf == old(buf)[b := old(buf[b]).(data := data)]
    {
      hide RawApplyAll, ListOk, ByRelease;
      UpdateOk(buf, disk, store, b, buf[b].(data := data));
      buf := buf[b := buf[b].(data := data)];
    }

    /** bwrite: the buffer's contents reach the disk in one atomic sector write. */
    method Bwrite(b: nat)
      requires Valid() && b < NBUF && buf[b].busy && buf[b].dev == ROOTDEV && buf[b].sector < |disk|
      modifies this`buf, this`disk, this`writes, this`store
      ensures Valid()
      ensures var s, x := old(buf[b].sector), old(buf[b].data);
        && disk == old(disk)[s := x] && store == old(store)[s := x]
        && writes == old(writes) + [RawWrite(s, x)]
        && buf == old(buf)[b := old(buf[b]).(valid := true, dirty := false)]
    {
      assert |disk| == |store|;
      hide ListOk, ByRelease, Coherent, RawApplyAll;
      StoreOk(buf, disk, store, b, true);
      OneMoreWrite(image, writes, RawWrite(buf[b].sector, buf[b].data));
      store := store[buf[b].sector := buf[b].data];
      buf := buf[b := buf[b].(dirty := true)];
      Iderw(b);
      assert buf == old(buf)[b := old(buf[b]).(valid := true, dirty := false)];
    }

    /** The end of log_write: pin the buffer, whose contents are now the sector's logged contents. */
    method Pin(b: nat)
      requires Valid() && b < NBUF && buf[b].busy && buf[b].valid
      modifies this`buf, this`store
      ensures Valid()
      ensures store == old(store)[old(buf[b].sector) := old(buf[b].data)]
      ensures buf == old(buf)[b := old(buf[b]).(dirty := true)]
    {
      hide RawApplyAll, ListOk, ByRelease;
      StoreOk(buf, disk, store, b, false);
      store := store[buf[b].sector := buf[b].data];
      buf := buf[b := buf[b].(dirty := true)];
    }

    /** brelse, by a holder that has logged or written whatever it changed. */
    method Brelse(b: nat)
      requires Valid() && b < NBUF && buf[b].busy && buf[b].valid
      requires buf[b].data == store[buf[b].sector]
      modifies this`buf, this`links, this`order, this`stamp, this`clock
      ensures Valid() && buf == old(buf)[b := old(buf[b]).(busy := false)]
      ensures clock == old(clock) + 1 && stamp == old(stamp)[b := old(clock)]
      ensures order[0] == b
    {
      assert b in order;
      ghost var k :| 0 <= k < NBUF && order[k] == b;
      UnlinkOk(links, order, k);
      links := Unlink(links, b);
      InsertFrontOk(links, RemoveAt(order, k), b);
      links := InsertFront(links, b);
      ReleaseOrder(order, stamp, clock, k);
      hide RawApplyAll, Linked, Unlink, InsertFront, Newer;
      order := [b] + RemoveAt(order, k);
      stamp, clock := stamp[b := clock], clock + 1;
      UpdateOk(buf, disk, store, b, buf[b].(busy := false));
      buf := buf[b := buf[b].(busy := false)];
    }
  }

  lemma {:induction false} NotCached(buf: seq<Buf>, order: seq<nat>, dev: nat, sector: nat)
    requires |buf| == NBUF == |order|
    requires forall i :: 0 <= i < |order| ==> order[i] < NBUF
    requires forall b: nat :: b < NBUF ==> b in order
    requires forall j :: 0 <= j < |order| ==> !HasKey(buf[order[j]], dev, sector)
    ensures !Cached(buf, dev, sector)
  {
    forall i | 0 <= i < NBUF ensures !HasKey(buf[i], dev, sector) {
      assert i in order;
    }
  }

  lemma {:induction false} LastIsLeastRecent(buf: seq<Buf>, order: seq<nat>, stamp: seq<nat>, clock: nat, k: nat)
    requires |buf| == NBUF && ByRelease(order, stamp, clock) && k < NBUF
    requires Recyclable(buf[order[k]])
    requires forall j :: k < j < NBUF ==> !Recyclable(buf[order[j]])
    ensures LeastRecent(buf, stamp, order[k])
  {
    forall i | 0 <= i < NBUF && i != order[k] && Recyclable(buf[i]) ensures stamp[i] > stamp[order[k]] {
      assert i in order;
      var j :| 0 <= j < NBUF && order[j] == i;
      assert Newer(order, stamp, j, k);
    }
  }

  /** A sector whose only cached copy is not dirty has its stored contents on disk. */
  lemma {:induction false} UnpinnedIsOnDisk(buf: seq<Buf>, disk: seq<Block>, store: seq<Block>, b: nat)
    requires Coherent(buf, disk, store) && b < |buf|
    requires buf[b].dev == ROOTDEV && buf[b].sector < |disk| && !buf[b].dirty
    ensures store[buf[b].sector] == disk[buf[b].sector]
  {
    var s := buf[b].sector;
    forall i | 0 <= i < |buf| && buf[i].dirty ensures buf[i].sector != s {
      assert BufOk(buf[i], store);
      assert if i < b then !HasKey(buf[b], ROOTDEV, buf[i].sector) else !HasKey(buf[i], ROOTDEV, s);
    }
    assert !Pinned(buf, s);
  }
}
