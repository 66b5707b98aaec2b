/**
 Writing through an open file (file.c): a long write is cut into transactions that fit the log, and
 together they are one flat write at the file offset.
 */
module FileLayer {
  import opened Options
  import opened Blocks
  import opened FsLayout
  import opened FsState
  import opened FsAlloc
  import opened FsFiles
  import opened FsOps
  import Wal
  import Crash

  const MAX_CHUNK := (Wal.LOGSIZE - 1 - 1 - 2) / 2 * 512
  const MAX_LOGGED := 7   // data blocks, indirect block, bitmap block and inode block of one chunk

  class OpenFile {
    const fs: FileSys
    const inum: nat
    const writable: bool
    var off: nat

    constructor (fs: FileSys, inum: nat, writable: bool)
      ensures this.fs == fs && this.inum == inum && this.writable == writable && off == 0
    {
      this.fs, this.inum, this.writable, off := fs, inum, writable, 0;
    }

    /** The file as it is on the disk. */
    ghost function Now(): Snap
      requires IBlock(inum) < |fs.disk|
      reads this, fs
    {
      Snap(fs.disk, fs.sb, inum, ReadInode(fs.disk, inum))
    }

    /** Disk and owners, with nothing logged yet. */
    ghost function Unlogged(): Books
      reads this, fs
    {
      Books(fs.disk, fs.owner, {})
    }

    /** One round of filewrite's loop: a transaction around writei. */
    method WriteTxn(src: seq<Byte>) returns (r: Option<int>)
      requires IBlock(inum) < |fs.disk| && Settled(Now(), fs.owner) && Now().ip.typ != T_DEV
      requires 0 < |src| <= MAX_CHUNK && off < UINT_LIMIT
      modifies this`off, fs`disk, fs`owner, fs`logged, fs`began, fs`cur, fs`done
      ensures r.None? ==>
        && Full(fs.disk, fs.sb) && !Refuses(old(Now()).ip, old(off), |src|) && fs.done == old(fs.done)
        && TakesFewer(fs.sb, old(Unlogged()), fs.Ledger(), Needs(old(Now()).ip.size, old(off) + |src|))
      ensures r.Some? ==>
        Logs(fs.sb, inum, old(Unlogged()), fs.disk, fs.owner, fs.cur,
             if r.value == -1 then 0 else Needs(old(Now()).ip.size, old(off) + |src|))
      ensures r == Some(-1) <==> Refuses(old(Now()).ip, old(off), |src|)
      ensures r == Some(-1) ==> off == old(off) && fs.disk == old(fs.disk) && fs.owner == old(fs.owner)
      ensures r.Some? && r.value != -1 ==>
        && r.value == |src| && off == old(off) + |src|
        && IBlock(inum) < |fs.disk| && WroteFile(old(Now()), Now(), fs.owner, old(off), src)
      ensures r.Some? ==>
        && fs.done == old(fs.done) + [fs.cur] && fs.disk == Wal.Effect(old(fs.disk), fs.cur)
        && (fs.sb.size <= BPB ==> |Wal.TxnHead(fs.cur)| <= MAX_LOGGED)
    {
      hide Settled, WroteFile, Full, IndSet, BitmapSectors, Touched, ReadInode, TakesN, TakesFewer, Needs, Wal.Effect, Sectors, Logs;
      fs.BeginTrans();
      SettledDisk(Now(), fs.owner);
      TakesNothing(fs.sb, fs.Ledger());
      var ip := ReadInode(fs.disk, inum);
      ghost var data;
      var ip';
      r, ip', data := fs.Writei(inum, ip, src, off);
      if r.None? {
        return;
      }
      HeadSectors(fs.cur);
      LoggedHere(fs.sb, inum, old(Unlogged()), fs.Ledger(), data, ip', r.value, Needs(ip.size, off + |src|), fs.cur);
      if r.value > 0 {
        WrittenBack(Snap(old(fs.disk), fs.sb, inum, ip), fs.At(inum, ip'), fs.owner, off, src);
        off := off + r.value;
        if fs.sb.size <= BPB {
          FitsLog(fs.sb, old(off), |src|, data, ip', IBlock(inum), fs.logged);
        }
      }
      fs.CommitTrans();
    }

    /**
     filewrite on a file: -1 exactly if the file is not open for writing or some byte of a nonempty
     write would lie beyond the largest file or the offset lies beyond the end. Success is one flat
     write at the offset; failure has written the whole chunks before the one that did not fit. After
     each transaction on the way the file holds a whole number of chunks and the file system is sound.
     */
    method Filewrite(src: seq<Byte>) returns (r: Option<int>)
      requires IBlock(inum) < |fs.disk| && Settled(Now(), fs.owner) && Now().ip.typ != T_DEV
      requires off < UINT_LIMIT
      modifies this`off, fs`disk, fs`owner, fs`logged, fs`began, fs`cur, fs`done
      ensures old(fs.done) <= fs.done && HeadSpared(old(fs.disk), fs.disk, fs.done[|old(fs.done)|..])
      ensures r.None? ==>
        && Full(fs.disk, fs.sb)
        && TakesFewer(fs.sb, old(Unlogged()), Books(fs.disk, fs.owner, AllSectors(fs.done[|old(fs.done)|..]) + fs.logged),
                      Asks(old(Now()).ip, old(off), |src|))
      ensures r.Some? ==>
        && Spent(fs.sb, inum, old(Unlogged()), fs.disk, fs.owner, fs.done[|old(fs.done)|..],
                 if writable then Asks(old(Now()).ip, old(off), |src|) else 0)
      ensures r == Some(-1) || r == Some(|src|) || r.None?
      ensures r.Some? ==>
        (r.value == -1 <==>
         !writable || (0 < |src| && (old(off) > old(Now()).ip.size || old(off) + |src| > (NDIRECT + NINDIRECT) * BSIZE)))
      ensures r == Some(-1) && (!writable || old(off) > old(Now()).ip.size) ==> fs.disk == old(fs.disk) && off == old(off)
      ensures |src| == 0 ==> fs.disk == old(fs.disk) && off == old(off)
      ensures r == Some(-1) && writable && old(off) <= old(Now()).ip.size ==>
        && old(off) <= off < old(off) + |src| && (off - old(off)) % MAX_CHUNK == 0
        && off + MAX_CHUNK > MAXFILE * BSIZE
        && IBlock(inum) < |fs.disk| && WroteFile(old(Now()), Now(), fs.owner, old(off), src[..off - old(off)])
      ensures r == Some(|src|) && 0 < |src| ==>
        && off == old(off) + |src|
        && IBlock(inum) < |fs.disk| && WroteFile(old(Now()), Now(), fs.owner, old(off), src)
      ensures r.Some? ==>
        && var more := fs.done[|old(fs.done)|..];
           && fs.disk == Crash.AfterTxns(old(fs.disk), more)
           && (fs.sb.size <= BPB ==> AllSmall(more))
           && (writable && old(off) <= old(Now()).ip.size ==>
                 && old(off) <= off <= old(off) + |src| && off - old(off) <= |more| * MAX_CHUNK
                 && Stages(old(Now()), more, old(off), src, off - old(off)))
    {
      hide Settled, WroteFile, Full, ReadInode, Crash.AfterTxns, Wal.TxnHead, Stages, AllSmall, TakesN, TakesFewer, Needs, Asks, Spent,
        Logs, Wal.Effect, Sectors, Underway, HeadSpared;
      ghost var s, a, done0, more := Now(), Unlogged(), fs.done, [];
      NotBegun(s, fs.owner, off, src);
      if !writable {
        assert fs.done[|fs.done|..] == [];
        return Some(-1);
      }
      assert fs.done == done0 + more;
      var i := 0;
      while i < |src|
        invariant i <= |src| && off == old(off) + i && off < UINT_LIMIT
        invariant IBlock(inum) < |fs.disk| && fs.done == done0 + more
        invariant Underway(s, a, Now(), fs.owner, old(off), src, i, more)
      {
        var n1 := if |src| - i > MAX_CHUNK then MAX_CHUNK else |src| - i;
        ghost var t, owner1, a1 := Now(), fs.owner, Unlogged();
        UnderwaySettled(s, a, t, owner1, old(off), src, i, more);
        r := WriteTxn(src[i..i + n1]);
        if r.None? {
          UnderwayStops(s, a, t, owner1, old(off), src, i, more, n1, fs.Ledger());
          return;
        }
        more := more + [fs.cur];
        if r.value < 0 {
          UnderwayEnds(s, a, t, owner1, old(off), src, i, more, n1);
          break;
        }
        UnderwayNext(s, a, t, owner1, old(off), src, i, more, n1, Now(), fs.owner);
        i := i + r.value;
      }
      if i == |src| {
        UnderwayDone(s, a, Now(), fs.owner, old(off), src, more);
      }
      assert fs.done[|done0|..] == more;
      return Some(if i == |src| then |src| else -1);
    }
  }

  // ----- Where filewrite's loop stands -----

  /**
   The loop has written the first `i` bytes of `src` at `off`, from file system `s` to `t`, in the transactions
   `more`: after each the file held a whole number of chunks, and what they took and logged is accounted for.
   */
  ghost predicate Underway(s: Snap, a: Books, t: Snap, owner: Owners, off: nat, src: seq<Byte>, i: nat, more: seq<Wal.Txn>) {
    && s.ip.size <= MAXFILE * BSIZE && i <= |src| && i == Smaller(|more| * MAX_CHUNK, |src|) && a.logged == {} && (i == 0 ==> t == s)
    && t.sb == s.sb && t.inum == s.inum && t.d == Crash.AfterTxns(s.d, more) && Settled(t, owner) && t.ip.typ == s.ip.typ
    && (s.sb.size <= BPB ==> AllSmall(more))
    && Spent(s.sb, s.inum, a, t.d, owner, more, NeedsFrom(s.ip.size, off, i))
    && if off <= s.ip.size then WrittenSoFar(s, t, owner, off, src, i, more) else i == 0
  }

  ghost predicate WrittenSoFar(s: Snap, t: Snap, owner: Owners, off: nat, src: seq<Byte>, i: nat, more: seq<Wal.Txn>) {
    && i <= |src| && off + i <= MAXFILE * BSIZE && t.ip.size == Larger(s.ip.size, off + i)
    && WroteFile(s, t, owner, off, src[..i]) && Stages(s, more, off, src, |src|)
  }

  lemma {:induction false} NotBegun(s: Snap, owner: Owners, off: nat, src: seq<Byte>)
    requires Settled(s, owner)
    ensures Underway(s, Books(s.d, owner, {}), s, owner, off, src, 0, [])
    ensures Spent(s.sb, s.inum, Books(s.d, owner, {}), s.d, owner, [], 0) && HeadSpared(s.d, s.d, [])
    ensures Crash.AfterTxns(s.d, []) == s.d && AllSmall([])
  {
    hide Settled, WroteFile, Stages, Spent, ReadInode;
    SettledDisk(s, owner);
    SettledSize(s, owner);
    NothingSpent(s.sb, s.inum, Books(s.d, owner, {}));
    SpentSpares(s.sb, s.inum, Books(s.d, owner, {}), s.d, owner, [], 0);
    NoTxns(s.d);
    if off <= s.ip.size {
      NothingWritten(s, owner, off);
      FirstStage(s, owner, off, src);
      assert src[..0] == [];
    }
  }

  lemma {:induction false} UnderwaySettled(s: Snap, a: Books, t: Snap, owner: Owners, off: nat, src: seq<Byte>, i: nat, more: seq<Wal.Txn>)
    requires Underway(s, a, t, owner, off, src, i, more)
    ensures Settled(t, owner) && t.ip.typ == s.ip.typ
  {
  }

  /** A chunk is refused exactly if the write begins beyond the end or the chunk would end beyond the largest file. */
  lemma {:induction false} ChunkRefused(s: Snap, a: Books, t: Snap, owner: Owners, off: nat, src: seq<Byte>, i: nat, more: seq<Wal.Txn>,
                                        m: nat)
    requires Underway(s, a, t, owner, off, src, i, more)
    ensures Refuses(t.ip, off + i, m) <==> off > s.ip.size || off + i + m > MAXFILE * BSIZE
    ensures i < |src| ==> i % MAX_CHUNK == 0
  {
    hide Settled, WroteFile, Stages, Spent;
    Multiple(|more|);
  }

  lemma {:induction false} Multiple(k: nat)
    ensures k * MAX_CHUNK % MAX_CHUNK == 0
  {
  }

  lemma {:induction false} UnderwayNext(s: Snap, a: Books, t: Snap, owner1: Owners, off: nat, src: seq<Byte>, i: nat, more: seq<Wal.Txn>,
                                        m: nat, u: Snap, owner2: Owners)
    requires more != [] && Underway(s, a, t, owner1, off, src, i, more[..|more| - 1]) && i < |src| && m == Smaller(MAX_CHUNK, |src| - i)
    requires !Refuses(t.ip, off + i, m) && WroteFile(t, u, owner2, off + i, src[i..i + m])
    requires var c := more[|more| - 1];
             && u.d == Wal.Effect(t.d, c) && (s.sb.size <= BPB ==> |Wal.TxnHead(c)| <= MAX_LOGGED)
             && Logs(s.sb, s.inum, Books(t.d, owner1, {}), u.d, owner2, c, Needs(t.ip.size, off + i + m))
    requires u.sb == s.sb && u.inum == s.inum && IBlock(s.inum) < |u.d| && u.ip == ReadInode(u.d, s.inum)
    ensures Underway(s, a, u, owner2, off, src, i + m, more)
  {
    hide Settled, WroteFile, Stages, Spent, Logs, AllSmall, Needs, ReadInode, Crash.AfterTxns, Wal.Effect, Wal.TxnHead;
    var c, txns := more[|more| - 1], more[..|more| - 1];
    assert more == txns + [c];
    ChunkRefused(s, a, t, owner1, off, src, i, txns, m);
    SpentMore(s.sb, s.inum, a, Books(t.d, owner1, {}), txns, u.d, owner2, c, s.ip.size, off, i, m);
    OneMoreTxn(s.d, txns, c);
    AddSmall(txns, c);
    WroteFileTrans(s, t, owner1, u, owner2, off, src, i, m);
    WroteSettled(s, u, owner2, off, src[..i + m]);
    NextStage(s, txns, c, u, owner2, off, src, i + m);
  }

  lemma {:induction false} UnderwayStops(s: Snap, a: Books, t: Snap, owner: Owners, off: nat, src: seq<Byte>, i: nat, more: seq<Wal.Txn>,
                                         m: nat, c: Books)
    requires Underway(s, a, t, owner, off, src, i, more) && i < |src| && m == Smaller(MAX_CHUNK, |src| - i)
    requires !Refuses(t.ip, off + i, m) && TakesFewer(s.sb, Books(t.d, owner, {}), c, Needs(t.ip.size, off + i + m))
    ensures TakesFewer(s.sb, a, c.(logged := AllSectors(more) + c.logged), Asks(s.ip, off, |src|)) && HeadSpared(a.d, c.d, more)
  {
    hide Settled, WroteFile, Stages, Spent, AllSmall, Needs, Asks, Crash.AfterTxns, TakesFewer;
    ChunkRefused(s, a, t, owner, off, src, i, more, m);
    SpentFewer(s.sb, s.inum, a, Books(t.d, owner, {}), more, c, s.ip, off, |src|, i, m);
    TookSpares(s.sb, a, c.(logged := AllSectors(more) + c.logged), Asks(s.ip, off, |src|));
  }

  /** The last transaction was refused and did nothing. */
  lemma {:induction false} UnderwayEnds(s: Snap, a: Books, t: Snap, owner: Owners, off: nat, src: seq<Byte>, i: nat, more: seq<Wal.Txn>,
                                        m: nat)
    requires more != [] && Underway(s, a, t, owner, off, src, i, more[..|more| - 1]) && i < |src| && m == Smaller(MAX_CHUNK, |src| - i)
    requires Refuses(t.ip, off + i, m)
    requires var c := more[|more| - 1];
             && t.d == Wal.Effect(t.d, c) && (s.sb.size <= BPB ==> |Wal.TxnHead(c)| <= MAX_LOGGED)
             && Logs(s.sb, s.inum, Books(t.d, owner, {}), t.d, owner, c, 0)
    ensures Refuses(s.ip, off, |src|) && (off > s.ip.size ==> i == 0) && (i == 0 ==> t == s)
    ensures Spent(s.sb, s.inum, a, t.d, owner, more, Asks(s.ip, off, |src|)) && HeadSpared(a.d, t.d, more)
    ensures t.d == Crash.AfterTxns(s.d, more) && (s.sb.size <= BPB ==> AllSmall(more))
    ensures off <= s.ip.size ==>
      && i % MAX_CHUNK == 0 && off + i + MAX_CHUNK > MAXFILE * BSIZE && i <= |more| * MAX_CHUNK
      && WroteFile(s, t, owner, off, src[..i]) && Stages(s, more, off, src, i)
  {
    hide Settled, WroteFile, Stages, Spent, Logs, AllSmall, Needs, Asks, Crash.AfterTxns, Wal.Effect, Wal.TxnHead;
    var c, txns := more[|more| - 1], more[..|more| - 1];
    assert more == txns + [c];
    ChunkRefused(s, a, t, owner, off, src, i, txns, m);
    SpentMore(s.sb, s.inum, a, Books(t.d, owner, {}), txns, t.d, owner, c, s.ip.size, off, i, 0);
    AsksIs(s.ip, off, |src|, i);
    SpentSpares(s.sb, s.inum, a, t.d, owner, more, Asks(s.ip, off, |src|));
    OneMoreTxn(s.d, txns, c);
    AddSmall(txns, c);
    if off <= s.ip.size {
      LastStage(s, txns, c, off, src, i);
    }
  }

  lemma {:induction false} UnderwayDone(s: Snap, a: Books, t: Snap, owner: Owners, off: nat, src: seq<Byte>, more: seq<Wal.Txn>)
    requires Underway(s, a, t, owner, off, src, |src|, more)
    ensures 0 < |src| ==> !Refuses(s.ip, off, |src|)
    ensures |src| == 0 ==> t == s
    ensures Spent(s.sb, s.inum, a, t.d, owner, more, Asks(s.ip, off, |src|)) && HeadSpared(a.d, t.d, more)
    ensures t.d == Crash.AfterTxns(s.d, more) && (s.sb.size <= BPB ==> AllSmall(more)) && |src| <= |more| * MAX_CHUNK
    ensures off <= s.ip.size ==> WroteFile(s, t, owner, off, src) && Stages(s, more, off, src, |src|)
  {
    hide Settled, WroteFile, Stages, Spent, AllSmall, Needs, Asks, Crash.AfterTxns;
    AsksIs(s.ip, off, |src|, |src|);
    SpentSpares(s.sb, s.inum, a, t.d, owner, more, Asks(s.ip, off, |src|));
    assert src[..|src|] == src;
  }

  // ----- What the call allocates and logs -----

  /** How many of `n` bytes a write at `off` gets in: all, or the whole chunks before the one that does not fit. */
  function Accepted(off: nat, n: nat): int {
    if off + n <= MAXFILE * BSIZE then n else (MAXFILE * BSIZE - off) / MAX_CHUNK * MAX_CHUNK
  }

  function NeedsFrom(size: nat, off: nat, i: nat): int {
    if off > size then 0 else Needs(size, off + i)
  }

  /** The blocks that filewrite of `n` bytes must allocate. */
  function Asks(ip: Inode, off: nat, n: nat): int {
    if off > ip.size || off > MAXFILE * BSIZE then 0 else Needs(ip.size, off + Accepted(off, n))
  }

  /** The sectors that the transactions log. */
  ghost function AllSectors(txns: seq<Wal.Txn>): set<nat> {
    if txns == [] then {} else AllSectors(txns[..|txns| - 1]) + Sectors(txns[|txns| - 1])
  }

  /** Nothing but bitmap sectors, owned blocks and the inode's sector. */
  ghost predicate Proper(sb: Super, inum: nat, owner: Owners, sectors: set<nat>) {
    sectors <= BitmapSectors(sb) + owner.Keys + {IBlock(inum)}
  }

  /** Transaction `t` took `n` blocks and logged only proper sectors. */
  ghost predicate Logs(sb: Super, inum: nat, a: Books, d: Disk, owner: Owners, t: Wal.Txn, n: int) {
    TakesN(sb, a, Books(d, owner, Sectors(t)), n) && Proper(sb, inum, owner, Sectors(t))
  }

  /** So did all of `txns` together. */
  ghost predicate Spent(sb: Super, inum: nat, a: Books, d: Disk, owner: Owners, txns: seq<Wal.Txn>, n: int) {
    TakesN(sb, a, Books(d, owner, AllSectors(txns)), n) && Proper(sb, inum, owner, AllSectors(txns))
  }

  /** The transactions log neither the boot sector nor the super block, and leave both as they were. */
  ghost predicate HeadSpared(d: Disk, e: Disk, txns: seq<Wal.Txn>) {
    HeadKept(d, e) && forall x :: x in AllSectors(txns) ==> 1 < x
  }

  lemma {:induction false} SpentSpares(sb: Super, inum: nat, a: Books, d: Disk, owner: Owners, txns: seq<Wal.Txn>, n: int)
    requires Spent(sb, inum, a, d, owner, txns, n) && a.logged == {}
    ensures HeadSpared(a.d, d, txns)
  {
    hide AllSectors, Marked, BitmapSectors;
  }

  lemma {:induction false} SettledDisk(s: Snap, owner: Owners)
    requires Settled(s, owner)
    ensures DiskOk(s.d, s.sb)
  {
    SnapDisk(s, owner, NBlocks(s.ip.size), NBlocks(s.ip.size) > NDIRECT);
  }

  lemma {:induction false} SettledSize(s: Snap, owner: Owners)
    requires Settled(s, owner)
    ensures s.ip.size <= MAXFILE * BSIZE
  {
    FsParts(s, owner, NBlocks(s.ip.size), NBlocks(s.ip.size) > NDIRECT);
    assert NBlocks(s.ip.size) <= MAXFILE;
  }

  lemma {:induction false} LoggedHere(sb: Super, inum: nat, a: Books, b: Books, data: set<nat>, ip: Inode, r: int, n: int, t: Wal.Txn)
    requires b.logged == Sectors(t)
    requires if r == -1 then b == a && a.logged == {} && TakesN(sb, a, a, 0)
             else TakesN(sb, a, b, n) && data + IndSet(ip) <= b.owner.Keys
                  && b.logged <= a.logged + BitmapSectors(sb) + data + IndSet(ip) + {IBlock(inum)} && a.logged == {}
    ensures Logs(sb, inum, a, b.d, b.owner, t, if r == -1 then 0 else n)
  {
    hide TakesN, BitmapSectors, IndSet, Sectors;
  }

  lemma {:induction false} NothingSpent(sb: Super, inum: nat, a: Books)
    requires DiskOk(a.d, sb) && a.logged == {}
    ensures Spent(sb, inum, a, a.d, a.owner, [], 0)
    ensures forall size: nat, off: nat {:trigger NeedsFrom(size, off, 0)} :: NeedsFrom(size, off, 0) == 0
  {
    TakesNothing(sb, a);
  }

  lemma {:induction false} SpentMore(sb: Super, inum: nat, a: Books, b: Books, txns: seq<Wal.Txn>, d: Disk, owner: Owners, t: Wal.Txn,
                                     size: nat, off: nat, i: nat, m: nat)
    requires Spent(sb, inum, a, b.d, b.owner, txns, NeedsFrom(size, off, i)) && b.logged == {}
    requires off > size ==> m == 0
    requires Logs(sb, inum, b, d, owner, t, if m == 0 then 0 else Needs(Larger(size, off + i), off + i + m))
    ensures Spent(sb, inum, a, d, owner, txns + [t], NeedsFrom(size, off, i + m))
  {
    hide Takes, Held, NBlocks, BitmapSectors, Sectors;
    var l := AllSectors(txns);
    assert (txns + [t])[..|txns|] == txns;
    TakesThen(sb, a, Books(b.d, b.owner, l), {}, Books(d, owner, Sectors(t)));
    KeysKept(sb, b, Books(d, owner, Sectors(t)));
  }

  lemma {:induction false} SpentFewer(sb: Super, inum: nat, a: Books, b: Books, txns: seq<Wal.Txn>, c: Books, ip: Inode, off: nat, n: nat,
                                      i: nat, m: nat)
    requires Spent(sb, inum, a, b.d, b.owner, txns, NeedsFrom(ip.size, off, i)) && b.logged == {}
    requires i % MAX_CHUNK == 0 && i < n && m == Smaller(MAX_CHUNK, n - i)
    requires off <= ip.size <= MAXFILE * BSIZE && off + i + m <= MAXFILE * BSIZE
    requires TakesFewer(sb, b, c, Needs(Larger(ip.size, off + i), off + i + m))
    ensures TakesFewer(sb, a, c.(logged := AllSectors(txns) + c.logged), Asks(ip, off, n))
  {
    hide Takes, Held, NBlocks, BitmapSectors, Sectors, Proper, AllSectors, Accepted;
    TakesThen(sb, a, Books(b.d, b.owner, AllSectors(txns)), {}, c);
    AcceptsChunk(off, n, i, m);
    NeedsGrow(ip.size, off + i + m, off + Accepted(off, n));
  }

  lemma {:induction false} AsksIs(ip: Inode, off: nat, n: nat, i: nat)
    requires i == n || (i < n && i % MAX_CHUNK == 0)
    requires off <= ip.size ==> ip.size <= MAXFILE * BSIZE && off + i <= MAXFILE * BSIZE
    requires off <= ip.size && i < n ==> off + i + Smaller(MAX_CHUNK, n - i) > MAXFILE * BSIZE
    ensures Asks(ip, off, n) == NeedsFrom(ip.size, off, i)
  {
    hide Needs;
    if off <= ip.size && i < n {
      WholeChunksIn(MAXFILE * BSIZE - off, i);
    }
  }

  lemma {:induction false} ChunkQuotient(x: nat, q: nat, rest: nat)
    requires x == MAX_CHUNK * q + rest && rest < MAX_CHUNK
    ensures x / MAX_CHUNK == q
  {
  }

  lemma {:induction false} WholeChunksIn(room: nat, i: nat)
    requires i % MAX_CHUNK == 0 && i <= room < i + MAX_CHUNK
    ensures room / MAX_CHUNK * MAX_CHUNK == i
  {
    var q := i / MAX_CHUNK;
    assert room == MAX_CHUNK * q + (room - i);
    ChunkQuotient(room, q, room - i);
  }

  /** A chunk that fits is among the bytes the write gets in. */
  lemma {:induction false} AcceptsChunk(off: nat, n: nat, i: nat, m: nat)
    requires i % MAX_CHUNK == 0 && i < n && m == Smaller(MAX_CHUNK, n - i) && off + i + m <= MAXFILE * BSIZE
    ensures i + m <= Accepted(off, n)
  {
    if off + n > MAXFILE * BSIZE {
      var room := MAXFILE * BSIZE - off;
      assert m == MAX_CHUNK && (i + m) / MAX_CHUNK <= room / MAX_CHUNK;
      assert (i + m) % MAX_CHUNK == 0;
    }
  }

  function Smaller(a: nat, b: nat): nat {
    if a < b then a else b
  }

  /** Every transaction fits the log with room to spare. */
  ghost predicate AllSmall(txns: seq<Wal.Txn>) {
    forall k :: 0 <= k < |txns| ==> |Wal.TxnHead(txns[k])| <= MAX_LOGGED
  }

  lemma {:induction false} AddSmall(txns: seq<Wal.Txn>, t: Wal.Txn)
    ensures AllSmall(txns) && |Wal.TxnHead(t)| <= MAX_LOGGED ==> AllSmall(txns + [t])
  {
  }

  /** On disk `d` the file is as after writing the first `n` bytes, and the file system is sound. */
  ghost predicate Stage(s: Snap, d: Disk, off: nat, src: seq<Byte>, n: nat) {
    n <= |src| && IBlock(s.inum) < |d| && exists owner :: WroteFile(s, Snap(d, s.sb, s.inum, ReadInode(d, s.inum)), owner, off, src[..n])
  }

  /** After each of the transactions the file holds a whole number of chunks, up to `total` bytes. */
  ghost predicate Stages(s: Snap, txns: seq<Wal.Txn>, off: nat, src: seq<Byte>, total: nat) {
    forall p: nat :: p <= |txns| ==> Stage(s, Crash.AfterTxns(s.d, txns[..p]), off, src, Smaller(p * MAX_CHUNK, total))
  }

  lemma {:induction false} NoTxns(d: Disk)
    ensures Crash.AfterTxns(d, []) == d && AllSmall([])
  {
  }

  lemma {:induction false} FirstStage(s: Snap, owner: Owners, off: nat, src: seq<Byte>)
    requires WroteFile(s, s, owner, off, [])
    ensures Stages(s, [], off, src, |src|)
  {
    hide WroteFile, ReadInode;
    NoTxns(s.d);
    WrittenBack(s, s, owner, off, []);
    assert src[..0] == [];
    assert s == Snap(s.d, s.sb, s.inum, ReadInode(s.d, s.inum));
    var none: seq<Wal.Txn> := [];
    assert none[..0] == none;
  }

  /** One transaction more, one effect more. */
  lemma {:induction false} OneMoreTxn(d: Disk, txns: seq<Wal.Txn>, t: Wal.Txn)
    ensures Crash.AfterTxns(d, txns + [t]) == Wal.Effect(Crash.AfterTxns(d, txns), t)
    decreases |txns|
  {
    if txns == [] {
      assert ([] + [t])[1..] == [];
    } else {
      OneMoreTxn(Wal.Effect(d, txns[0]), txns[1..], t);
      assert (txns + [t])[1..] == txns[1..] + [t];
    }
  }

  lemma {:induction false} NextStage(s: Snap, txns: seq<Wal.Txn>, t: Wal.Txn, now: Snap, owner: Owners, off: nat, src: seq<Byte>, n: nat)
    requires Stages(s, txns, off, src, |src|) && n == Smaller((|txns| + 1) * MAX_CHUNK, |src|)
    requires now.sb == s.sb && now.inum == s.inum && now.d == Crash.AfterTxns(s.d, txns + [t])
    requires IBlock(s.inum) < |now.d| && now.ip == ReadInode(now.d, s.inum) && WroteFile(s, now, owner, off, src[..n])
    ensures Stages(s, txns + [t], off, src, |src|)
  {
    hide WroteFile, Crash.AfterTxns, ReadInode;
    forall p: nat | p <= |txns| + 1 ensures Stage(s, Crash.AfterTxns(s.d, (txns + [t])[..p]), off, src, Smaller(p * MAX_CHUNK, |src|)) {
      if p <= |txns| {
        assert (txns + [t])[..p] == txns[..p];
      } else {
        assert (txns + [t])[..p] == txns + [t];
        assert now == Snap(now.d, s.sb, s.inum, ReadInode(now.d, s.inum));
      }
    }
  }

  /** A chunk that does not fit adds a transaction without effect. */
  lemma {:induction false} LastStage(s: Snap, txns: seq<Wal.Txn>, t: Wal.Txn, off: nat, src: seq<Byte>, n: nat)
    requires Stages(s, txns, off, src, |src|) && n == Smaller(|txns| * MAX_CHUNK, |src|) && n < |src|
    requires Crash.AfterTxns(s.d, txns + [t]) == Crash.AfterTxns(s.d, txns)
    ensures Stages(s, txns + [t], off, src, n)
  {
    hide Stage, Crash.AfterTxns;
    forall p: nat | p <= |txns| + 1 ensures Stage(s, Crash.AfterTxns(s.d, (txns + [t])[..p]), off, src, Smaller(p * MAX_CHUNK, n)) {
      if p <= |txns| {
        assert (txns + [t])[..p] == txns[..p];
        assert Smaller(p * MAX_CHUNK, n) == Smaller(p * MAX_CHUNK, |src|);
      } else {
        assert (txns + [t])[..p] == txns + [t] && txns[..|txns|] == txns;
        assert Stage(s, Crash.AfterTxns(s.d, txns[..|txns|]), off, src, Smaller(|txns| * MAX_CHUNK, |src|));
      }
    }
  }

  /** The header a transaction leaves lists each of its sectors once. */
  lemma {:induction false} HeadSectors(t: Wal.Txn)
    ensures forall x :: x in Wal.TxnHead(t) <==> x in Sectors(t)
    ensures |Wal.TxnHead(t)| == |Sectors(t)|
  {
    if t != [] {
      HeadSectors(t[..|t| - 1]);
    }
  }

  lemma {:induction false} WrittenBack(s: Snap, t: Snap, owner: Owners, off: nat, src: seq<Byte>)
    requires WroteFile(s, t, owner, off, src)
    ensures IBlock(t.inum) < |t.d| && ReadInode(t.d, t.inum) == t.ip
  {
  }

  lemma {:induction false} WroteSettled(s: Snap, t: Snap, owner: Owners, off: nat, src: seq<Byte>)
    requires WroteFile(s, t, owner, off, src)
    ensures Settled(t, owner) && t.ip.typ == s.ip.typ && t.ip.size == Larger(s.ip.size, off + |src|)
  {
  }

  lemma {:induction false} NothingWritten(s: Snap, owner: Owners, off: nat)
    requires Settled(s, owner) && off <= s.ip.size
    ensures WroteFile(s, s, owner, off, [])
  {
    FsSnapOk(s, owner, NBlocks(s.ip.size), NBlocks(s.ip.size) > NDIRECT);
    hide FsOk, ReadInode, Content, FilesKept;
    assert WriteAt(Content(s.d, s.ip), off, []) == Content(s.d, s.ip);
    assert FilesKept(s, s) by { KeptSame(s); }
  }

  lemma {:induction false} KeptSame(s: Snap)
    requires SnapOk(s)
    ensures FilesKept(s, s)
  {
    SameSnap(s);
  }

  /** Writes that follow one another are one write. */
  lemma {:induction false} WroteFileTrans(s: Snap, t: Snap, owner1: Owners, u: Snap, owner2: Owners, off: nat,
                                          src: seq<Byte>, i: nat, n: nat)
    requires i + n <= |src|
    requires WroteFile(s, t, owner1, off, src[..i]) && WroteFile(t, u, owner2, off + i, src[i..i + n])
    ensures WroteFile(s, u, owner2, off, src[..i + n])
  {
    hide Settled, Content, FilesKept, WriteAt;
    FilesKeptTrans(s, t, u);
    WriteAtTwice(Content(s.d, s.ip), off, src[..i], src[i..i + n]);
    assert src[..i] + src[i..i + n] == src[..i + n];
  }

  /**
   A chunk is as many blocks as the log takes if each comes with an allocation block, besides the inode, the indirect
   block and two blocks of slop for a write that is not aligned.
   */
  lemma {:induction false} ChunkLargest(k: nat)
    ensures BSIZE * k <= MAX_CHUNK <==> 2 * k + 1 + 1 + 2 <= Wal.LOGSIZE
  {
  }

  /** A chunk logs at most four data blocks, one bitmap block, one indirect block and one inode block. */
  lemma {:induction false} FitsLog(sb: Super, off: nat, n: nat, data: set<nat>, ip: Inode, ib: nat, logged: set<nat>)
    requires sb.size <= BPB && 0 < n <= MAX_CHUNK && |data| <= Touched(off, n)
    requires logged <= BitmapSectors(sb) + data + IndSet(ip) + {ib}
    ensures |logged| <= MAX_LOGGED
  {
    TouchedFew(off, n);
    var b := sb.ninodes / IPB + 3;
    forall x | x in BitmapSectors(sb) ensures x == b {
    }
    var all := data + {b} + IndSet(ip) + {ib};
    assert logged <= all;
    Fewer(logged, all);
  }

  lemma {:induction false} TouchedFew(off: nat, n: nat)
    requires 0 < n <= MAX_CHUNK
    ensures Touched(off, n) <= 4
  {
    assert (off + n - 1) / BSIZE <= (off + 1535) / BSIZE <= off / BSIZE + 3;
  }

  lemma {:induction false} Fewer(a: set<nat>, b: set<nat>)
    requires a <= b
    ensures |a| <= |b|
  {
    assert b == a + (b - a);
  }
}
