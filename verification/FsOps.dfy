/**
 The block and inode operations of fs.c, on the store that the buffer cache and the log present. Each
 method states what it does to the file at hand, that every other file is kept, and which sectors it
 logs in the current transaction. A panic for want of a free block ends a method with `None`.
 */
module FsOps {
  import opened Options
  import opened Blocks
  import opened Bits
  import opened FsLayout
  import opened FsState
  import opened FsAlloc
  import opened FsFiles
  import opened FsTrunc
  import Wal

  /** The sectors a transaction logs. */
  ghost function Sectors(t: Wal.Txn): set<nat> {
    if t == [] then {} else Sectors(t[..|t| - 1]) + {t[|t| - 1].sector}
  }

  lemma {:induction false} OneMoreUpdate(d: Disk, t: Wal.Txn, u: Wal.Update)
    requires u.sector < |d|
    ensures Wal.Effect(d, t + [u]) == Wal.Effect(d, t)[u.sector := u.data]
    ensures Sectors(t + [u]) == Sectors(t) + {u.sector}
  {
    assert (t + [u])[..|t|] == t;
  }

  /** The bitmap sectors. */
  ghost function BitmapSectors(sb: Super): set<nat> {
    set b | 0 <= b < sb.size :: BBlock(sb, b)
  }

  lemma {:induction false} InBitmap(sb: Super, b: nat)
    requires b < sb.size
    ensures BBlock(sb, b) in BitmapSectors(sb)
  {
  }

  /** No block is free: balloc panics. */
  ghost predicate Full(d: Disk, sb: Super) {
    DiskOk(d, sb) && forall b: nat :: b < sb.size ==> Marked(d, sb, b)
  }

  /** The inodes differ at most in their addresses. */
  predicate OnlyAddrs(ip: Inode, ip': Inode) {
    && ip'.typ == ip.typ && ip'.major == ip.major && ip'.minor == ip.minor && ip'.nlink == ip.nlink && ip'.size == ip.size
  }

  /** The inode's indirect block, if it has one. */
  ghost function IndSet(ip: Inode): set<nat> {
    if |ip.addrs| == NDIRECT + 1 && ip.addrs[NDIRECT] != 0 then {ip.addrs[NDIRECT]} else {}
  }

  /** From `s` to `t` the file grew from `nb` to `nb'` blocks: what it had and every other file is kept. */
  ghost predicate Grew(s: Snap, nb: nat, t: Snap, owner: Owners, nb': nat, ind: bool) {
    && FsOk(t, owner, nb', ind)
    && t.sb == s.sb && t.inum == s.inum && OnlyAddrs(s.ip, t.ip)
    && IndSet(s.ip) <= IndSet(t.ip)
    && SameFile(s.d, s.ip, t.d, t.ip, nb)
    && OthersKept(s, t)
  }

  lemma {:induction false} GrewOk(s: Snap, nb: nat, t: Snap, owner: Owners, nb': nat, ind: bool)
    requires Grew(s, nb, t, owner, nb', ind)
    ensures FsOk(t, owner, nb', ind)
  {
  }

  lemma {:induction false} GrewTrans(s: Snap, nb: nat, t: Snap, owner: Owners, nb1: nat, ind1: bool, u: Snap,
                                     owner2: Owners, nb2: nat, ind2: bool)
    requires Grew(s, nb, t, owner, nb1, ind1) && Grew(t, nb1, u, owner2, nb2, ind2) && nb <= nb1
    ensures Grew(s, nb, u, owner2, nb2, ind2)
  {
    hide FsOk, FileKept;
    OthersKeptTrans(s, t, u);
  }

  class FileSys {
    const sb: Super
    var disk: Disk
    ghost var owner: Owners
    ghost var logged: set<nat>     // sectors logged so far in this transaction
    ghost var began: Disk          // the store when it began
    var cur: Wal.Txn               // its log_write calls
    var done: seq<Wal.Txn>         // the transactions committed before it

    constructor (sb: Super, image: Disk, ghost owner: Owners)
      ensures this.sb == sb && disk == image && this.owner == owner && done == [] && Tracks()
    {
      this.sb, disk, this.owner := sb, image, owner;
      logged, began, cur, done := {}, image, [], [];
    }

    /** The store is what the transaction's log_write calls make of the one it began with. */
    ghost predicate Tracks()
      reads this`disk, this`logged, this`began, this`cur
    {
      disk == Wal.Effect(began, cur) && logged == Sectors(cur)
    }

    ghost function At(inum: nat, ip: Inode): Snap
      reads this
    {
      Snap(disk, sb, inum, ip)
    }

    ghost function Ledger(): Books
      reads this
    {
      Books(disk, owner, logged)
    }

    method BeginTrans()
      modifies this`logged, this`began, this`cur
      ensures Tracks() && logged == {} && began == disk && cur == []
    {
      logged, began, cur := {}, disk, [];
    }

    method CommitTrans()
      modifies this`done
      ensures done == old(done) + [cur]
    {
      done := done + [cur];
    }

    /** Change a sector through the log. */
    method LogWrite(s: nat, blk: Block)
      requires s < |disk| && Tracks()
      modifies this`disk, this`logged, this`cur
      ensures disk == old(disk)[s := blk] && logged == old(logged) + {s} && Tracks()
    {
      hide Wal.Effect, Sectors;
      OneMoreUpdate(began, cur, Wal.Update(s, blk));
      disk := disk[s := blk];
      logged := logged + {s};
      cur := cur + [Wal.Update(s, blk)];
    }

    /** balloc: the first free block, marked and zeroed; one clear bit is set and no other changes. */
    method Balloc() returns (r: Option<nat>)
      requires Tracks()
      requires DiskOk(disk, sb)
      modifies this`disk, this`logged, this`cur
      ensures Tracks()
      ensures r.None? ==> Full(disk, sb) && disk == old(disk) && logged == old(logged)
      ensures r.Some? ==>
        && r.value < sb.size && !Marked(old(disk), sb, r.value)
        && (forall c: nat :: c < r.value ==> Marked(old(disk), sb, c))
        && disk == SetMark(old(disk), sb, r.value, true)[r.value := ZERO_BLOCK]
        && logged == old(logged) + {BBlock(sb, r.value), r.value}
      ensures old(Marked(disk, sb, 0) && Marked(disk, sb, 1)) ==> SparesHead(old(Ledger()), Ledger())
    {
      hide Bit, ByteWith, Marked, SetMark, Wal.Effect, Sectors;
      var b := 0;
      while b < sb.size
        invariant b % BPB == 0 && disk == old(disk) && logged == old(logged) && Tracks()
        invariant forall c: nat :: c < b && c < sb.size ==> Marked(disk, sb, c)
      {
        var bp := disk[BBlock(sb, b)];
        var bi := 0;
        while bi < BPB && b + bi < sb.size
          invariant 0 <= bi <= BPB && disk == old(disk) && logged == old(logged) && Tracks()
          invariant forall c: nat :: c < b + bi && c < sb.size ==> Marked(disk, sb, c)
        {
          MarkPlace(disk, sb, b, bi);
          if !Bit(bp[bi / 8], bi % 8) {
            LogWrite(BBlock(sb, b), WithByte(bp, bi / 8, ByteWith(bp[bi / 8], bi % 8, true)));
            LogWrite(b + bi, ZERO_BLOCK);
            return Some(b + bi);
          }
          bi := bi + 1;
        }
        b := b + BPB;
      }
      return None;
    }

    /** bfree, of a block that is marked in use. */
    method Bfree(b: nat)
      requires Tracks()
      requires DiskOk(disk, sb) && b < sb.size && Marked(disk, sb, b)
      modifies this`disk, this`logged, this`cur
      ensures Tracks()
      ensures disk == SetMark(old(disk), sb, b, false) && logged == old(logged) + {BBlock(sb, b)} && SparesHead(old(Ledger()), Ledger())
    {
      hide Bit, ByteWith;
      var bp := disk[BBlock(sb, b)];
      var bi := b % BPB;
      LogWrite(BBlock(sb, b), WithByte(bp, bi / 8, ByteWith(bp[bi / 8], bi % 8, false)));
    }

    /** balloc, in a sound file system: the new block is nobody's and every file is kept. */
    method AllocSpare(inum: nat, ip: Inode, ghost nb: nat, ghost ind: bool) returns (r: Option<nat>)
      requires Tracks()
      requires FsOk(At(inum, ip), owner, nb, ind)
      modifies this`disk, this`logged, this`cur
      ensures Tracks()
      ensures r.None? ==> Full(disk, sb) && disk == old(disk) && logged == old(logged)
      ensures r.Some? ==>
        && Grew(old(At(inum, ip)), nb, At(inum, ip), owner, nb, ind)
        && Spare(At(inum, ip), owner, r.value) && disk[r.value] == ZERO_BLOCK
        && FirstFree(old(disk), sb, r.value) && MarksOne(old(disk), disk, sb, r.value)
        && SparesHead(old(Ledger()), Ledger())
        && old(logged) <= logged <= old(logged) + BitmapSectors(sb) + {r.value} && r.value in logged
    {
      assert DiskOk(disk, sb);
      ghost var s := At(inum, ip);
      hide Full, FsOk, Marked, OthersKept, SameFile;
      r := Balloc();
      if r.Some? {
        AllocKeepsFiles(s, owner, nb, ind, r.value);
        AllocMarks(s.d, sb, r.value);
        assert BBlock(sb, r.value) in BitmapSectors(sb);
      }
    }

    /** bmap for a direct block. */
    method BmapDirect(inum: nat, ip: Inode, bn: nat, ghost nb: nat) returns (r: Option<nat>, ip': Inode)
      requires Tracks()
      requires FsOk(At(inum, ip), owner, nb, nb > NDIRECT) && bn <= nb && bn < NDIRECT
      modifies this`disk, this`owner, this`logged, this`cur
      ensures Tracks()
      ensures r.None? ==> Full(disk, sb) && Ledger() == old(Ledger())
      ensures bn < nb ==> r == Some(BlockAt(disk, ip, bn)) && ip' == ip && Ledger() == old(Ledger())
      ensures bn == nb && r.Some? ==>
        && Grew(old(At(inum, ip)), nb, At(inum, ip'), owner, nb + 1, false)
        && r.value == BlockAt(disk, ip', bn) && FileBlock(disk, ip', bn) == ZERO_BLOCK
        && logged <= old(logged) + BitmapSectors(sb) + {r.value}
        && TakesN(sb, old(Ledger()), Ledger(), 1)
    {
      hide Full, FsOk, OthersKept, SameFile, Grew, FirstFree, MarksOne, TakesN, SparesHead, Wal.Effect, Sectors, BitmapSectors;
      Present(At(inum, ip), owner, nb, nb > NDIRECT, bn);
      ip' := ip;
      if ip.addrs[bn] != 0 {
        return Some(ip.addrs[bn]), ip;
      }
      ghost var s := At(inum, ip);
      r := AllocSpare(inum, ip, nb, false);
      if r.Some? {
        ip' := SetAddr(ip, bn, r.value);
        ghost var t := At(inum, ip);
        GrewOk(s, nb, t, owner, nb, false);
        DirectStep(t, owner, bn, r.value);
        owner := owner[r.value := Owner(inum, bn)];
        SparesSame(old(Ledger()), Ledger().(owner := old(owner)), Ledger());
        TakesOne(sb, old(Ledger()), Ledger(), r.value, Owner(inum, bn));
        GrewTrans(s, nb, t, old(owner), nb, false, At(inum, ip'), owner, nb + 1, false);
      }
    }

    /** bmap: load the indirect block, allocating it if necessary. */
    method IndirectBlock(inum: nat, ip: Inode, ghost nb: nat) returns (r: Option<nat>, ip': Inode)
      requires Tracks()
      requires FsOk(At(inum, ip), owner, nb, nb > NDIRECT) && nb >= NDIRECT
      modifies this`disk, this`owner, this`logged, this`cur
      ensures Tracks()
      ensures r.None? ==> Full(disk, sb) && Ledger() == old(Ledger())
      ensures nb > NDIRECT ==> r == Some(ip.addrs[NDIRECT]) && ip' == ip && Ledger() == old(Ledger())
      ensures r.Some? ==>
        && Grew(old(At(inum, ip)), nb, At(inum, ip'), owner, nb, true)
        && r.value == ip'.addrs[NDIRECT]
        && logged <= old(logged) + BitmapSectors(sb) + IndSet(ip')
      ensures nb == NDIRECT && r.Some? ==> TakesN(sb, old(Ledger()), Ledger(), 1)
    {
      assert ip.addrs[NDIRECT] != 0 <==> nb > NDIRECT;
      assert OthersKept(At(inum, ip), At(inum, ip)) by { SameSnap(At(inum, ip)); }
      hide Full, FsOk, OthersKept, FirstFree, MarksOne, TakesN, SparesHead, Wal.Effect, Sectors, BitmapSectors;
      ip' := ip;
      if ip.addrs[NDIRECT] != 0 {
        return Some(ip.addrs[NDIRECT]), ip;
      }
      ghost var s := At(inum, ip);
      r := AllocSpare(inum, ip, nb, false);
      if r.Some? {
        ip' := SetAddr(ip, NDIRECT, r.value);
        ghost var t := At(inum, ip);
        LinkIndirect(t, owner, r.value);
        LinkKeepsFiles(t, owner, NDIRECT, NDIRECT, r.value);
        owner := owner[r.value := Owner(inum, NDIRECT)];
        SparesSame(old(Ledger()), Ledger().(owner := old(owner)), Ledger());
        TakesOne(sb, old(Ledger()), Ledger(), r.value, Owner(inum, NDIRECT));
        GrewTrans(s, nb, t, old(owner), nb, false, At(inum, ip'), owner, nb, true);
      }
    }

    /** bmap: an entry of the indirect block, allocated if it is the next one. */
    method BmapEntry(inum: nat, ip: Inode, bn: nat, ghost nb: nat) returns (r: Option<nat>)
      requires Tracks()
      requires FsOk(At(inum, ip), owner, nb, true) && NDIRECT <= bn <= nb && bn < MAXFILE
      modifies this`disk, this`owner, this`logged, this`cur
      ensures Tracks()
      ensures r.None? ==> Full(disk, sb) && Ledger() == old(Ledger())
      ensures bn < nb ==> r == Some(BlockAt(disk, ip, bn)) && Ledger() == old(Ledger())
      ensures bn == nb && r.Some? ==>
        && Grew(old(At(inum, ip)), nb, At(inum, ip), owner, nb + 1, true)
        && r.value == BlockAt(disk, ip, bn) && FileBlock(disk, ip, bn) == ZERO_BLOCK
        && logged <= old(logged) + BitmapSectors(sb) + {r.value} + IndSet(ip)
        && TakesN(sb, old(Ledger()), Ledger(), 1)
    {
      hide Full, FsOk, OthersKept, SameFile, Grew, GetWord, SetWord, FirstFree, MarksOne, TakesN, SparesHead, Wal.Effect, Sectors,
        BitmapSectors;
      Present(At(inum, ip), owner, nb, true, bn);
      IndirectInRange(At(inum, ip), owner, nb);
      var ib := ip.addrs[NDIRECT];
      var addr := GetWord(disk[ib], bn - NDIRECT);
      if addr != 0 {
        return Some(addr);
      }
      ghost var s := At(inum, ip);
      r := AllocSpare(inum, ip, nb, true);
      if r.Some? {
        ghost var t := At(inum, ip);
        GrewOk(s, nb, t, owner, nb, true);
        EntryStep(t, owner, bn, r.value);
        ghost var b := Ledger();
        LogWrite(ib, SetWord(disk[ib], bn - NDIRECT, r.value));
        owner := owner[r.value := Owner(inum, bn + 1)];
        SparesWrite(old(Ledger()), b, ib, disk[ib], Ledger());
        MarksThen(s.d, t.d, sb, r.value, ib, disk[ib]);
        TakesOne(sb, old(Ledger()), Ledger(), r.value, Owner(inum, bn + 1));
        GrewTrans(s, nb, t, old(owner), nb, true, At(inum, ip), owner, nb + 1, true);
      }
    }

    /** bmap: the address of data block `bn`, which the file has or which is the next one to allocate. */
    method Bmap(inum: nat, ip: Inode, bn: nat, ghost nb: nat) returns (r: Option<nat>, ip': Inode)
      requires Tracks()
      requires FsOk(At(inum, ip), owner, nb, nb > NDIRECT) && bn <= nb && bn < MAXFILE
      modifies this`disk, this`owner, this`logged, this`cur
      ensures Tracks()
      ensures r.None? ==> bn == nb && Full(disk, sb) && TakesFewer(sb, old(Ledger()), Ledger(), Held(nb + 1) - Held(nb))
      ensures bn < nb ==> r == Some(BlockAt(disk, ip, bn)) && ip' == ip && Ledger() == old(Ledger())
      ensures bn == nb && r.Some? ==>
        && TakesN(sb, old(Ledger()), Ledger(), Held(nb + 1) - Held(nb))
        && Grew(old(At(inum, ip)), nb, At(inum, ip'), owner, nb + 1, nb + 1 > NDIRECT)
        && r.value == BlockAt(disk, ip', bn) && FileBlock(disk, ip', bn) == ZERO_BLOCK
        && logged <= old(logged) + BitmapSectors(sb) + {r.value} + IndSet(ip')
      ensures r.Some? ==> |ip'.addrs| == NDIRECT + 1 && (bn >= NDIRECT ==> ip'.addrs[NDIRECT] < |disk|)
      ensures r.Some? ==> r.value == if bn < NDIRECT then ip'.addrs[bn] else GetWord(disk[ip'.addrs[NDIRECT]], bn - NDIRECT)
    {
      hide Full, FsOk, Grew, BlockAt, FileBlock, Takes, Wal.Effect, Sectors, BitmapSectors, IndSet;
      SnapDisk(At(inum, ip), owner, nb, nb > NDIRECT);
      ghost var a := Ledger();
      TakesNothing(sb, a);
      if bn < NDIRECT {
        r, ip' := BmapDirect(inum, ip, bn, nb);
        if r.Some? {
          GrewWhere(old(At(inum, ip)), nb, At(inum, ip'), owner, bn);
        }
        return;
      }
      ghost var s := At(inum, ip);
      var ib;
      ib, ip' := IndirectBlock(inum, ip, nb);
      if ib.None? {
        return None, ip';
      }
      ghost var t, owner1, b := At(inum, ip'), owner, Ledger();
      ghost var m := if nb > NDIRECT then 0 else 1;
      assert TakesN(sb, a, b, m);
      GrewOk(s, nb, t, owner, nb, true);
      r := BmapEntry(inum, ip', bn, nb);
      if r.Some? && bn == nb {
        GrewTrans(s, nb, t, owner1, nb, true, At(inum, ip'), owner, nb + 1, true);
        GrewInd(t, nb, At(inum, ip'), owner, nb + 1, true);
      }
      TakesMore(sb, a, b, Ledger(), m, 1);
      if r.Some? {
        GrewWhere(old(At(inum, ip)), nb, At(inum, ip'), owner, bn);
      }
    }

    /** One round of writei's loop: bytes within one block. */
    method WriteChunk(inum: nat, ip: Inode, src: seq<Byte>, off: nat, ghost sz: nat, ghost nb: nat) returns (r: Option<nat>, ip': Inode)
      requires Tracks()
      requires FsOk(At(inum, ip), owner, nb, nb > NDIRECT) && off <= sz <= nb * BSIZE
      requires 0 < |src| && off % BSIZE + |src| <= BSIZE && off / BSIZE < MAXFILE
      modifies this`disk, this`owner, this`logged, this`cur
      ensures Tracks()
      ensures r.None? ==> Full(disk, sb) && TakesFewer(sb, old(Ledger()), Ledger(), Held(Larger(nb, off / BSIZE + 1)) - Held(nb))
      ensures r.Some? ==>
        && TakesN(sb, old(Ledger()), Ledger(), Held(Larger(nb, off / BSIZE + 1)) - Held(nb)) && r.value in owner
        && Wrote(old(At(inum, ip)), sz, At(inum, ip'), owner, Larger(nb, off / BSIZE + 1), off, src)
        && logged <= old(logged) + BitmapSectors(sb) + {r.value} + IndSet(ip')
        && (off / BSIZE < nb ==> ip' == ip)
    {
      hide Full, FsOk, FileBlock, Overlay, OthersKept, SameFile, TakesN, TakesFewer, Wal.Effect, Sectors, BitmapSectors;
      ghost var s, bn, a := At(inum, ip), off / BSIZE, Ledger();
      SnapDisk(s, owner, nb, nb > NDIRECT);
      TakesNothing(sb, a);
      SameSnapOk(s, owner, nb, nb > NDIRECT);
      r, ip' := Bmap(inum, ip, off / BSIZE, nb);
      if r.Some? {
        ghost var t := At(inum, ip');
        ghost var nb' := Larger(nb, bn + 1);
        assert Grew(s, nb, t, owner, nb', nb' > NDIRECT);
        DataBlock(t, owner, nb', nb' > NDIRECT, bn);
        var blk := Overlay(disk[r.value], off % BSIZE, src);
        PatchStep(s, sz, t, owner, nb, off, src);
        ghost var b := Ledger();
        LogWrite(r.value, blk);
        PatchTakes(sb, a, b, Held(nb') - Held(nb), r.value, blk, Ledger());
      }
    }

    /** iupdate. */
    method Iupdate(inum: nat, ip: Inode, ghost nb: nat, ghost ind: bool)
      requires Tracks()
      requires FsOk(At(inum, ip), owner, nb, ind)
      modifies this`disk, this`logged, this`cur
      ensures Tracks()
      ensures FsOk(At(inum, ip), owner, nb, ind) && IBlock(inum) < |disk| && ReadInode(disk, inum) == ip
      ensures SameFile(old(disk), ip, disk, ip, nb) && FilesKept(old(At(inum, ip)), At(inum, ip))
      ensures forall b: nat :: b < sb.size ==> (Marked(disk, sb, b) <==> old(Marked(disk, sb, b)))
      ensures logged == old(logged) + {IBlock(inum)} && TakesN(sb, old(Ledger()), Ledger(), 0) && SparesHead(old(Ledger()), Ledger())
    {
      assert |ip.addrs| == NDIRECT + 1;
      hide FsOk, FilesKept, SameFile, ReadInode, Marked, SameView, SameInode, NoHoles, OwnersOk, PutInode, Wal.Effect, Sectors;
      ghost var s := At(inum, ip);
      FsParts(s, owner, nb, ind);
      InodeWrite(s, owner);
      SameViewKeeps(s, owner, nb, ind, s.(d := WriteInode(disk, inum, ip)));
      SnapDisk(s, owner, nb, ind);
      LogWrite(IBlock(inum), PutInode(disk[IBlock(inum)], inum % IPB, ip));
      TakesNone(sb, old(Ledger()), Ledger());
    }

    /** The loop of writei. */
    method WriteBlocks(inum: nat, ip: Inode, src: seq<Byte>, off: nat) returns (ok: bool, ip': Inode, ghost data: set<nat>)
      requires Tracks()
      requires Settled(At(inum, ip), owner) && !Refuses(ip, off, |src|)
      modifies this`disk, this`owner, this`logged, this`cur
      ensures Tracks()
      ensures !ok ==> Full(disk, sb) && TakesFewer(sb, old(Ledger()), Ledger(), Needs(ip.size, off + |src|))
      ensures ok ==>
        && TakesN(sb, old(Ledger()), Ledger(), Needs(ip.size, off + |src|)) && data <= owner.Keys
        && Wrote(old(At(inum, ip)), ip.size, At(inum, ip'), owner, NBlocks(Larger(ip.size, off + |src|)), off, src)
        && (off + |src| <= ip.size ==> ip' == ip)
        && logged <= old(logged) + BitmapSectors(sb) + data + IndSet(ip')
        && |data| <= Touched(off, |src|)
    {
      hide Full, FsOk, Wrote, Touched, NBlocks, IndSet, BitmapSectors, Settled, Wal.Effect, Sectors, TakesN, TakesFewer, Needs, Held,
        LogsOnly, Larger;
      ip', data := ip, {};
      ghost var s, a := At(inum, ip), Ledger();
      StartWriting(s, owner, off, src);
      StartTaking(s, owner, a, off);
      LogsNothing(logged, sb, ip);
      var tot := 0;
      while tot < |src|
        invariant tot <= |src| && Tracks()
        invariant Wrote(s, ip.size, At(inum, ip'), owner, NBlocks(Larger(ip.size, off + tot)), off, src[..tot])
        invariant TakesN(sb, a, Ledger(), Needs(ip.size, off + tot)) && data <= owner.Keys
        invariant off + tot <= ip.size ==> ip' == ip
        invariant LogsOnly(logged, old(logged), sb, data, ip')
        invariant |data| <= Touched(off, tot) && (tot < |src| ==> tot == 0 || (off + tot) % BSIZE == 0)
      {
        var m := if |src| - tot < BSIZE - (off + tot) % BSIZE then |src| - tot else BSIZE - (off + tot) % BSIZE;
        ChunkEnds(off + tot, m, |src| - tot);
        ghost var t, owner1, sz := At(inum, ip'), owner, Larger(ip.size, off + tot);
        WroteOk(s, ip.size, t, owner, NBlocks(sz), off, src[..tot]);
        NextBlocks(ip.size, off + tot, m);
        ghost var l := Ledger();
        var b;
        b, ip' := WriteChunk(inum, ip', src[tot..tot + m], off + tot, sz, NBlocks(sz));
        MoreNeeds(sb, a, l, Ledger(), ip.size, off + tot, m, off + |src|);
        if b.None? {
          return false, ip', data;
        }
        WroteTrans(s, ip.size, t, owner1, NBlocks(sz), off, src, tot, m, At(inum, ip'), owner, NBlocks(Larger(ip.size, off + tot + m)));
        MoreTouched(off, tot, m);
        LogsMore(l.logged, logged, old(logged), sb, data, b.value, t.ip, ip');
        data := data + {b.value};
        tot := tot + m;
      }
      assert src[..tot] == src;
      LogsWithin(logged, old(logged), sb, data, ip');
      ok := true;
    }

    /**
     writei on a file: -1 exactly for an offset beyond the end or a range that wraps or exceeds the
     largest file, and then nothing changes; otherwise the flat write of `src` at `off`.
     */
    method Writei(inum: nat, ip: Inode, src: seq<Byte>, off: nat) returns (r: Option<int>, ip': Inode, ghost data: set<nat>)
      requires Tracks()
      requires Settled(At(inum, ip), owner) && ip.typ != T_DEV
      requires off < UINT_LIMIT && |src| < UINT_LIMIT
      modifies this`disk, this`owner, this`logged, this`cur
      ensures Tracks()
      ensures r.None? ==> Full(disk, sb) && TakesFewer(sb, old(Ledger()), Ledger(), Needs(ip.size, off + |src|))
      ensures r == Some(-1) <==> off > ip.size || off + |src| > (NDIRECT + NINDIRECT) * BSIZE
      ensures r == Some(-1) ==> ip' == ip && Ledger() == old(Ledger())
      ensures SparesHead(old(Ledger()), Ledger())
      ensures r.Some? && r.value != -1 ==>
        && r.value == |src|
        && TakesN(sb, old(Ledger()), Ledger(), Needs(ip.size, off + |src|)) && data + IndSet(ip') <= owner.Keys
        && WroteFile(old(At(inum, ip)), At(inum, ip'), owner, off, src)
        && SameBytesElsewhere(old(At(inum, ip)), At(inum, ip'))
        && logged <= old(logged) + BitmapSectors(sb) + data + IndSet(ip') + {IBlock(inum)}
        && |data| <= Touched(off, |src|)
    {
      hide Full, FsOk, Wrote, WroteFile, Touched, NBlocks, IndSet, BitmapSectors, Settled, FilesKept, SameFile, SameBytesElsewhere,
        TakesN, TakesFewer, Needs, SparesHead, Wal.Effect, Sectors;
      SettledSpares(At(inum, ip), owner, Ledger());
      if off > ip.size || (off + |src|) % UINT_LIMIT < off {
        return Some(-1), ip, {};
      }
      if (off + |src|) % UINT_LIMIT > MAXFILE * BSIZE {
        return Some(-1), ip, {};
      }
      ghost var s, a := At(inum, ip), Ledger();
      var ok;
      ok, ip', data := WriteBlocks(inum, ip, src, off);
      if !ok {
        TookSpares(sb, a, Ledger(), Needs(ip.size, off + |src|));
        return None, ip', data;
      }
      ghost var t, b := At(inum, ip'), Ledger();
      WroteOk(s, ip.size, t, owner, NBlocks(Larger(ip.size, off + |src|)), off, src);
      SnapDisk(t, owner, NBlocks(Larger(ip.size, off + |src|)), NBlocks(Larger(ip.size, off + |src|)) > NDIRECT);
      TakesNothing(sb, b);
      if |src| > 0 && off + |src| > ip.size {
        ip' := ip'.(size := off + |src|);
        ghost var nb := NBlocks(ip'.size);
        Resized(t, owner, nb, nb > NDIRECT, ip'.size);
        ghost var u := At(inum, ip');
        Iupdate(inum, ip', nb, nb > NDIRECT);
        GrownFile(s, t, u, At(inum, ip'), owner, off, src);
      } else {
        SameSizeFile(s, old(owner), t, owner, off, src);
      }
      TakesMore(sb, a, b, Ledger(), Needs(ip.size, off + |src|), 0);
      TookSpares(sb, a, Ledger(), Needs(ip.size, off + |src|));
      IndOwned(At(inum, ip'), s, owner, off, src);
      WroteBytes(s, At(inum, ip'), owner, off, src);
      return Some(|src|), ip', data;
    }

    /** readi on a file: the bytes of the range that the file has. It allocates nothing. */
    method Readi(inum: nat, ip: Inode, off: nat, n: nat) returns (r: Option<seq<Byte>>, ip': Inode)
      requires Tracks()
      requires FsOk(At(inum, ip), owner, NBlocks(ip.size), NBlocks(ip.size) > NDIRECT) && ip.typ != T_DEV
      requires off < UINT_LIMIT && n < UINT_LIMIT
      modifies this`disk, this`owner, this`logged, this`cur
      ensures Tracks()
      ensures disk == old(disk) && owner == old(owner) && logged == old(logged) && ip' == ip
      ensures r.None? <==> off > ip.size || off + n >= UINT_LIMIT
      ensures r.Some? ==> r.value == Content(disk, ip)[off..if off + n > ip.size then ip.size else off + n]
    {
      hide FsOk, Full, Grew, Content, NBlocks, FileBlock, BlockAt, IndSet, BitmapSectors, GetWord, TakesN, TakesFewer, Wal.Effect, Sectors;
      ip' := ip;
      if off > ip.size || (off + n) % UINT_LIMIT < off {
        return None, ip;
      }
      var n' := if off + n > ip.size then ip.size - off else n;
      ghost var c := Content(disk, ip);
      var dst: seq<Byte>, tot := [], 0;
      while tot < n'
        invariant tot <= n' && Tracks() && ip' == ip && disk == old(disk) && owner == old(owner) && logged == old(logged)
        invariant dst == c[off..off + tot]
      {
        var o := (off + tot) % BSIZE;
        var m := if n' - tot < BSIZE - o then n' - tot else BSIZE - o;
        ReadStep(At(inum, ip), owner, off + tot, m);
        var b;
        b, ip' := Bmap(inum, ip', (off + tot) / BSIZE, NBlocks(ip.size));
        Joined(c, off, off + tot, off + tot + m);
        dst := dst + disk[b.value][o..o + m];
        tot := tot + m;
      }
      return Some(dst), ip';
    }

    /** What writei wrote, a following readi returns. */
    method WriteThenRead(inum: nat, ip: Inode, src: seq<Byte>, off: nat) returns (r: Option<int>, ip': Inode, back: Option<seq<Byte>>)
      requires Tracks()
      requires Settled(At(inum, ip), owner) && ip.typ != T_DEV
      requires off < UINT_LIMIT && |src| < UINT_LIMIT
      modifies this`disk, this`owner, this`logged, this`cur
      ensures r.Some? && r.value != -1 ==> back == Some(src)
    {
      hide FsOk, FilesKept, Content, Full, Wal.Effect, Sectors, ReadInode;
      back := None;
      ghost var data;
      r, ip', data := Writei(inum, ip, src, off);
      if r.Some? && r.value != -1 {
        ReadBack(Content(old(disk), ip), off, src);
        back, ip' := Readi(inum, ip', off, |src|);
      }
    }

    /** itrunc: the direct blocks. */
    method FreeDirect(inum: nat, ip: Inode) returns (ip': Inode)
      requires Tracks()
      requires OwnersOk(At(inum, ip), owner)
      modifies this`disk, this`logged, this`cur
      ensures Tracks()
      ensures Cleared(old(disk), disk, sb, OwnedBy(owner, inum, 0, NDIRECT))
      ensures |ip'.addrs| == NDIRECT + 1 && ip' == ip.(addrs := ip'.addrs) && ip'.addrs[NDIRECT] == ip.addrs[NDIRECT]
      ensures forall k :: 0 <= k < NDIRECT ==> ip'.addrs[k] == 0
      ensures logged <= old(logged) + BitmapSectors(sb)
    {
      hide OwnersOk, Cleared, Marked, BitmapSectors, SetMark, OwnedBy, Ptr, Wal.Effect, Sectors;
      ghost var s := At(inum, ip);
      NothingFreed(s, owner);
      ip' := ip;
      var i := 0;
      while i < NDIRECT
        invariant i <= NDIRECT && Tracks()
        invariant Cleared(s.d, disk, sb, {} + OwnedBy(owner, inum, 0, i))
        invariant |ip'.addrs| == NDIRECT + 1 && ip' == ip.(addrs := ip'.addrs)
        invariant forall k :: 0 <= k <= NDIRECT ==> ip'.addrs[k] == if k < i then 0 else ip.addrs[k]
        invariant logged <= old(logged) + BitmapSectors(sb)
      {
        FreeNext(s, owner, disk, {}, 0, i);
        DirectPtr(s, i);
        if ip'.addrs[i] != 0 {
          InBitmap(sb, ip'.addrs[i]);
          Bfree(ip'.addrs[i]);
          ip' := SetAddr(ip', i, 0);
        }
        i := i + 1;
      }
      assert {} + OwnedBy(owner, inum, 0, NDIRECT) == OwnedBy(owner, inum, 0, NDIRECT);
    }

    /** itrunc: the blocks that the indirect block `ib` lists. */
    method FreeEntries(ib: nat, ghost s: Snap)
      requires Tracks()
      requires OwnersOk(s, owner) && s.sb == sb && ib == s.ip.addrs[NDIRECT] && ib != 0
      requires Cleared(s.d, disk, sb, OwnedBy(owner, s.inum, 0, NDIRECT))
      modifies this`disk, this`logged, this`cur
      ensures Tracks()
      ensures Cleared(s.d, disk, sb, OwnedBy(owner, s.inum, 0, NDIRECT) + OwnedBy(owner, s.inum, NDIRECT + 1, NPTR))
      ensures logged <= old(logged) + BitmapSectors(sb)
    {
      hide OwnersOk, OwnedBy, Cleared, Marked, GetWord, Ptr, BitmapSectors, SetMark;
      ghost var done := OwnedBy(owner, s.inum, 0, NDIRECT);
      EntriesLeft(s, owner, disk);
      var a := disk[ib];
      var j := 0;
      while j < NINDIRECT
        invariant j <= NINDIRECT && Tracks()
        invariant Cleared(s.d, disk, sb, done + OwnedBy(owner, s.inum, NDIRECT + 1, NDIRECT + 1 + j))
        invariant logged <= old(logged) + BitmapSectors(sb)
      {
        FreeNext(s, owner, disk, done, NDIRECT + 1, NDIRECT + 1 + j);
        if GetWord(a, j) != 0 {
          InBitmap(sb, GetWord(a, j));
          Bfree(GetWord(a, j));
        }
        j := j + 1;
      }
    }

    /** itrunc: what the indirect block lists, then the indirect block itself. */
    method FreeIndirect(ib: nat, ghost s: Snap)
      requires Tracks()
      requires OwnersOk(s, owner) && s.sb == sb && ib == s.ip.addrs[NDIRECT] && ib != 0
      requires Cleared(s.d, disk, sb, OwnedBy(owner, s.inum, 0, NDIRECT))
      modifies this`disk, this`logged, this`cur
      ensures Tracks()
      ensures Cleared(s.d, disk, sb, OwnedBy(owner, s.inum, 0, NPTR))
      ensures logged <= old(logged) + BitmapSectors(sb)
    {
      assert ib == Ptr(s.d, s.ip, NDIRECT);
      AllOwned(s, owner);
      hide OwnersOk, Cleared, Marked, Ptr, BitmapSectors, SetMark;
      FreeEntries(ib, s);
      ghost var done := OwnedBy(owner, s.inum, 0, NDIRECT) + OwnedBy(owner, s.inum, NDIRECT + 1, NPTR);
      assert done + OwnedBy(owner, s.inum, NDIRECT, NDIRECT) == done;
      FreeNext(s, owner, disk, done, NDIRECT, NDIRECT);
      InBitmap(sb, ib);
      Bfree(ib);
    }

    /**
     itrunc: exactly the marks of the blocks the inode owned are cleared, so no free block is freed; the
     file is empty on disk and in memory and every other file is kept.
     */
    method Itrunc(inum: nat, ip: Inode, ghost nb: nat, ghost ind: bool) returns (ip': Inode)
      requires Tracks()
      requires FsOk(At(inum, ip), owner, nb, ind)
      modifies this`disk, this`owner, this`logged, this`cur
      ensures Tracks()
      ensures ip' == ip.(addrs := ip'.addrs, size := 0)
      ensures Settled(At(inum, ip'), owner) && FilesKept(old(At(inum, ip)), At(inum, ip'))
      ensures forall b :: b in owner <==> b in old(owner) && old(owner)[b].inum != inum
      ensures forall b: nat :: b < sb.size ==>
        (Marked(disk, sb, b) <==> old(Marked(disk, sb, b)) && !(b in old(owner) && old(owner)[b].inum == inum))
      ensures logged <= old(logged) + BitmapSectors(sb) + {IBlock(inum)} && SparesHead(old(Ledger()), Ledger())
    {
      hide FsOk, OwnersOk, Cleared, Marked, FilesKept, ReadInode, OwnedBy, Wal.Effect, Sectors;
      ghost var s, owner0 := At(inum, ip), owner;
      FsParts(s, owner, nb, ind);
      AllOwned(s, owner);
      ip' := FreeDirect(inum, ip);
      if ip'.addrs[NDIRECT] != 0 {
        FreeIndirect(ip'.addrs[NDIRECT], s);
        ip' := SetAddr(ip', NDIRECT, 0);
      }
      ip' := ip'.(size := 0);
      assert ip' == Emptied(ip);
      ghost var t := At(inum, ip');
      DetachedOk(s, owner, nb, ind, t);
      owner := owner - OwnedBy(owner, inum, 0, NPTR);
      Iupdate(inum, ip', 0, false);
      FilesKeptTrans(s, t, At(inum, ip'));
      FsParts(At(inum, ip'), owner, 0, false);
      forall b: nat | b < sb.size
        ensures Marked(disk, sb, b) <==> Marked(s.d, sb, b) && !(b in owner0 && owner0[b].inum == inum)
      {
        FreedMarks(s, owner0, t.d, disk, b);
      }
      TruncSpares(s, old(Ledger()), At(inum, ip'), Ledger());
    }
  }

  lemma {:induction false} TruncSpares(s: Snap, a: Books, t: Snap, b: Books)
    requires FilesKept(s, t) && a.d == s.d && b.d == t.d && b.logged <= a.logged + BitmapSectors(s.sb) + {IBlock(s.inum)}
    ensures SparesHead(a, b)
  {
    hide FileKept;
  }

  const T_DEV := 3

  /** The inode is not being changed: its copies agree and it has the blocks its size needs. */
  ghost predicate Settled(s: Snap, owner: Owners) {
    && FsOk(s, owner, NBlocks(s.ip.size), NBlocks(s.ip.size) > NDIRECT)
    && IBlock(s.inum) < |s.d| && ReadInode(s.d, s.inum) == s.ip
  }

  lemma {:induction false} SettledSpares(s: Snap, owner: Owners, a: Books)
    requires Settled(s, owner) && a.d == s.d
    ensures SparesHead(a, a)
  {
    hide FsOk;
    SnapDisk(s, owner, NBlocks(s.ip.size), NBlocks(s.ip.size) > NDIRECT);
  }

  /** When writei returns -1. */
  predicate Refuses(ip: Inode, off: nat, n: nat) {
    off > ip.size || off + n > MAXFILE * BSIZE
  }

  /** The number of blocks that `n` bytes from `off` on lie in. */
  function Touched(off: nat, n: nat): nat {
    if n == 0 then 0 else (off + n - 1) / BSIZE - off / BSIZE + 1
  }

  /** From `s` to `t` the file was written as a flat sequence of bytes; it is settled again and no other file changed. */
  ghost predicate WroteFile(s: Snap, t: Snap, owner: Owners, off: nat, src: seq<Byte>) {
    && Settled(t, owner)
    && t.sb == s.sb && t.inum == s.inum
    && t.ip == s.ip.(size := Larger(s.ip.size, off + |src|), addrs := t.ip.addrs)
    && off <= s.ip.size && Content(t.d, t.ip) == WriteAt(Content(s.d, s.ip), off, src)
    && FilesKept(s, t)
  }

  lemma {:induction false} WroteBytes(s: Snap, t: Snap, owner: Owners, off: nat, src: seq<Byte>)
    requires WroteFile(s, t, owner, off, src)
    ensures SameBytesElsewhere(s, t)
  {
    hide FilesKept, Settled, Content, SameBytesElsewhere;
    KeptBytes(s, t);
  }

  lemma {:induction false} StartWriting(s: Snap, owner: Owners, off: nat, src: seq<Byte>)
    requires Settled(s, owner) && off <= s.ip.size
    ensures Wrote(s, s.ip.size, s, owner, NBlocks(Larger(s.ip.size, off)), off, src[..0])
  {
    hide FsOk, OthersKept, ByteAt;
    assert SnapOk(s) by { FsSnapOk(s, owner, NBlocks(s.ip.size), NBlocks(s.ip.size) > NDIRECT); }
    SameSnap(s);
  }

  lemma {:induction false} FsSnapOk(s: Snap, owner: Owners, nb: nat, ind: bool)
    requires FsOk(s, owner, nb, ind)
    ensures SnapOk(s)
  {
  }

  lemma {:induction false} WroteOk(s: Snap, sz: nat, t: Snap, owner: Owners, nb: nat, off: nat, src: seq<Byte>)
    requires Wrote(s, sz, t, owner, nb, off, src)
    ensures FsOk(t, owner, nb, nb > NDIRECT) && OnlyAddrs(s.ip, t.ip)
  {
  }

  lemma {:induction false} WroteTrans(s: Snap, sz: nat, t: Snap, owner1: Owners, nb1: nat, off: nat, src: seq<Byte>,
                                      tot: nat, m: nat, u: Snap, owner2: Owners, nb2: nat)
    requires tot + m <= |src|
    requires Wrote(s, sz, t, owner1, nb1, off, src[..tot])
    requires Wrote(t, Larger(sz, off + tot), u, owner2, nb2, off + tot, src[tot..tot + m])
    ensures Wrote(s, sz, u, owner2, nb2, off, src[..tot + m]) && IndSet(t.ip) <= IndSet(u.ip)
  {
    hide FsOk, OthersKept, Spliced, IndSet;
    OthersKeptTrans(s, t, u);
    SplicedTrans(s.d, s.ip, sz, t.d, t.ip, u.d, u.ip, off, src, tot, m);
  }

  /** A chunk within one block makes the file as long, in blocks, as its new end asks. */
  lemma {:induction false} ChunkBlocks(sz: nat, off: nat, m: nat)
    requires off <= sz && 0 < m && off % BSIZE + m <= BSIZE
    ensures sz <= NBlocks(sz) * BSIZE
    ensures Larger(NBlocks(sz), off / BSIZE + 1) == NBlocks(Larger(sz, off + m))
    ensures off < sz ==> off / BSIZE < NBlocks(sz)
  {
    assert (off + m + BSIZE - 1) / BSIZE == off / BSIZE + 1;
  }

  lemma {:induction false} NextBlocks(size: nat, end: nat, m: nat)
    requires 0 < m && end % BSIZE + m <= BSIZE
    ensures var sz := Larger(size, end);
            && end <= sz <= NBlocks(sz) * BSIZE && Larger(sz, end + m) == Larger(size, end + m)
            && Larger(NBlocks(sz), end / BSIZE + 1) == NBlocks(Larger(size, end + m))
            && (end + m <= size ==> end / BSIZE < NBlocks(sz))
  {
    ChunkBlocks(Larger(size, end), end, m);
  }

  /** A chunk stays within a block and ends with the block or with the write. */
  lemma {:induction false} ChunkEnds(off: nat, m: nat, n: nat)
    requires 0 < n && off + n <= MAXFILE * BSIZE && m == if n < BSIZE - off % BSIZE then n else BSIZE - off % BSIZE
    ensures 0 < m <= n && off % BSIZE + m <= BSIZE && off / BSIZE < MAXFILE
    ensures m < n ==> (off + m) % BSIZE == 0
  {
  }

  /** The blocks a file needs to grow from `size` to `end` bytes, the indirect block included. */
  function Needs(size: nat, end: nat): int {
    Held(NBlocks(Larger(size, end))) - Held(NBlocks(size))
  }

  lemma {:induction false} StartTaking(s: Snap, owner: Owners, a: Books, off: nat)
    requires Settled(s, owner) && a.d == s.d && off <= s.ip.size
    ensures TakesN(s.sb, a, a, Needs(s.ip.size, off))
  {
    hide FsOk, TakesN;
    SnapDisk(s, owner, NBlocks(s.ip.size), NBlocks(s.ip.size) > NDIRECT);
    TakesNothing(s.sb, a);
  }

  /** What the chunks need adds up to what the write needs. */
  lemma {:induction false} MoreNeeds(sb: Super, a: Books, b: Books, c: Books, size: nat, end: nat, m: nat, last: nat)
    requires TakesN(sb, a, b, Needs(size, end)) && end + m <= last
    ensures var nb, nb' := NBlocks(Larger(size, end)), NBlocks(Larger(size, end + m));
            && (TakesN(sb, b, c, Held(nb') - Held(nb)) ==> TakesN(sb, a, c, Needs(size, end + m)) && b.owner.Keys <= c.owner.Keys)
            && (TakesFewer(sb, b, c, Held(nb') - Held(nb)) ==> TakesFewer(sb, a, c, Needs(size, last)))
  {
    hide Takes;
    var nb, nb' := NBlocks(Larger(size, end)), NBlocks(Larger(size, end + m));
    TakesMore(sb, a, b, c, Needs(size, end), Held(nb') - Held(nb));
    NeedsGrow(size, end + m, last);
    if Takes(sb, b, c) {
      KeysKept(sb, b, c);
    }
  }

  lemma {:induction false} KeysKept(sb: Super, a: Books, b: Books)
    requires Takes(sb, a, b)
    ensures a.owner.Keys <= b.owner.Keys && Taken(a, b) <= b.logged
  {
  }

  lemma {:induction false} NeedsGrow(size: nat, end: nat, last: nat)
    requires end <= last
    ensures 0 <= Needs(size, end) <= Needs(size, last)
  {
  }

  /** Since `from`, only bitmap sectors, the data blocks and the indirect block were logged. */
  ghost predicate LogsOnly(logged: set<nat>, from: set<nat>, sb: Super, data: set<nat>, ip: Inode) {
    logged <= from + BitmapSectors(sb) + data + IndSet(ip)
  }

  lemma {:induction false} LogsNothing(logged: set<nat>, sb: Super, ip: Inode)
    ensures LogsOnly(logged, logged, sb, {}, ip)
  {
  }

  lemma {:induction false} LogsMore(l1: set<nat>, l2: set<nat>, from: set<nat>, sb: Super, data: set<nat>, b: nat, ip: Inode, ip': Inode)
    requires LogsOnly(l1, from, sb, data, ip) && l2 <= l1 + BitmapSectors(sb) + {b} + IndSet(ip') && IndSet(ip) <= IndSet(ip')
    ensures LogsOnly(l2, from, sb, data + {b}, ip')
  {
    hide BitmapSectors, IndSet;
  }

  lemma {:induction false} LogsWithin(logged: set<nat>, from: set<nat>, sb: Super, data: set<nat>, ip: Inode)
    requires LogsOnly(logged, from, sb, data, ip)
    ensures logged <= from + BitmapSectors(sb) + data + IndSet(ip)
  {
  }

  lemma {:induction false} MoreTouched(off: nat, tot: nat, m: nat)
    requires 0 < m && (off + tot) % BSIZE + m <= BSIZE && (tot == 0 || (off + tot) % BSIZE == 0)
    ensures Touched(off, tot + m) == Touched(off, tot) + 1
  {
    assert (off + tot + m - 1) / BSIZE == (off + tot) / BSIZE;
  }

  /** The bytes of a chunk within one block. */
  lemma {:induction false} ReadChunk(d: Disk, ip: Inode, off: nat, m: nat)
    requires off + m <= ip.size && 0 < m && off % BSIZE + m <= BSIZE
    ensures FileBlock(d, ip, off / BSIZE)[off % BSIZE..off % BSIZE + m] == Content(d, ip)[off..off + m]
  {
    hide FileBlock;
    var c, blk := Content(d, ip), FileBlock(d, ip, off / BSIZE);
    forall i | off <= i < off + m ensures c[i] == blk[off % BSIZE..][i - off] {
      SameBlock(off, i, m);
    }
  }

  lemma {:induction false} Joined(c: seq<Byte>, i: nat, j: nat, k: nat)
    requires i <= j <= k <= |c|
    ensures c[i..j] + c[j..k] == c[i..k]
  {
  }

  lemma {:induction false} ReadStep(s: Snap, owner: Owners, off: nat, m: nat)
    requires FsOk(s, owner, NBlocks(s.ip.size), NBlocks(s.ip.size) > NDIRECT)
    requires off + m <= s.ip.size && 0 < m && off % BSIZE + m <= BSIZE
    ensures |s.ip.addrs| == NDIRECT + 1 && off / BSIZE < NBlocks(s.ip.size) && off / BSIZE < MAXFILE
    ensures var b := BlockAt(s.d, s.ip, off / BSIZE);
            b < |s.d| && s.d[b][off % BSIZE..off % BSIZE + m] == Content(s.d, s.ip)[off..off + m]
  {
    hide FsOk, Content, NBlocks, BlockAt;
    ChunkBlocks(s.ip.size, off, m);
    DataBlock(s, owner, NBlocks(s.ip.size), NBlocks(s.ip.size) > NDIRECT, off / BSIZE);
    ReadChunk(s.d, s.ip, off, m);
  }

  /** After the loop a longer file is resized and written back. */
  lemma {:induction false} GrownFile(s: Snap, t: Snap, u: Snap, v: Snap, owner: Owners, off: nat, src: seq<Byte>)
    requires off <= s.ip.size < off + |src|
    requires Wrote(s, s.ip.size, t, owner, NBlocks(off + |src|), off, src)
    requires u == t.(ip := t.ip.(size := off + |src|)) && v == u.(d := v.d) && FilesKept(u, v)
    requires FsOk(v, owner, NBlocks(off + |src|), NBlocks(off + |src|) > NDIRECT)
    requires IBlock(s.inum) < |v.d| && ReadInode(v.d, s.inum) == u.ip
    requires SameFile(u.d, u.ip, v.d, u.ip, NBlocks(off + |src|))
    ensures WroteFile(s, v, owner, off, src) && IndSet(v.ip) == IndSet(t.ip)
  {
    hide FsOk, OwnersOk, NoHoles, FilesKept, ReadInode, FileBlock, Spliced, NBlocks;
    var n := off + |src|;
    FsParts(t, owner, NBlocks(n), NBlocks(n) > NDIRECT);
    ResizedHoles(t.d, t.ip, NBlocks(n), NBlocks(n) > NDIRECT, n);
    FilesKeptTrans2(s, t, u, v);
    SameBytes(t.d, t.ip, v.d, v.ip, n);
    SplicedContent(s.d, s.ip, s.ip.size, t.d, t.ip, off, src);
  }

  lemma {:induction false} FilesKeptTrans2(s: Snap, t: Snap, u: Snap, v: Snap)
    requires FilesKept(s, t) && t.sb == s.sb && t.inum == s.inum && u == t.(ip := u.ip) && FilesKept(u, v)
    ensures FilesKept(s, v)
  {
    forall j: nat | j < s.sb.ninodes && j != s.inum ensures FileKept(s, v, j) {
      assert FileKept(s, t, j) && FileKept(u, v, j);
    }
  }

  lemma {:induction false} SameBytes(d: Disk, ip: Inode, e: Disk, ip': Inode, n: nat)
    requires SameFile(d, ip, e, ip', NBlocks(n))
    ensures Bytes(e, ip', n) == Bytes(d, ip, n)
  {
    hide FileBlock;
    forall i | 0 <= i < n ensures ByteAt(e, ip', i) == ByteAt(d, ip, i) {
      assert i / BSIZE < NBlocks(n);
    }
  }

  /** After the loop a file that did not grow is as its inode says. */
  lemma {:induction false} SameSizeFile(s: Snap, owner0: Owners, t: Snap, owner: Owners, off: nat, src: seq<Byte>)
    requires Settled(s, owner0) && off + |src| <= s.ip.size && t.ip == s.ip
    requires Wrote(s, s.ip.size, t, owner, NBlocks(s.ip.size), off, src)
    ensures WroteFile(s, t, owner, off, src)
  {
    hide FsOk, FileKept, ReadInode, Spliced;
    SplicedContent(s.d, s.ip, s.ip.size, t.d, t.ip, off, src);
  }

  /** From `s` to `t` the bytes `src` were spliced into the file at `off`, and nothing else changed. */
  ghost predicate Wrote(s: Snap, sz: nat, t: Snap, owner: Owners, nb: nat, off: nat, src: seq<Byte>) {
    && FsOk(t, owner, nb, nb > NDIRECT)
    && t.sb == s.sb && t.inum == s.inum && OnlyAddrs(s.ip, t.ip)
    && IndSet(s.ip) <= IndSet(t.ip)
    && OthersKept(s, t)
    && Spliced(s.d, s.ip, sz, t.d, t.ip, off, src)
  }

  lemma {:induction false} SameSnapOk(s: Snap, owner: Owners, nb: nat, ind: bool)
    requires FsOk(s, owner, nb, ind)
    ensures Grew(s, nb, s, owner, nb, ind)
  {
    SameSnap(s);
  }

  /** Writing the patched block, once the file has it, splices the bytes in. */
  lemma {:induction false} PatchStep(s: Snap, sz: nat, t: Snap, owner: Owners, nb: nat, off: nat, src: seq<Byte>)
    requires off <= sz <= nb * BSIZE && off % BSIZE + |src| <= BSIZE && off / BSIZE < MAXFILE && |t.ip.addrs| == NDIRECT + 1
    requires var nb' := Larger(nb, off / BSIZE + 1); Grew(s, nb, t, owner, nb', nb' > NDIRECT)
    ensures BlockAt(t.d, t.ip, off / BSIZE) < |t.d|
    ensures var x := BlockAt(t.d, t.ip, off / BSIZE);
            Wrote(s, sz, t.(d := t.d[x := Overlay(t.d[x], off % BSIZE, src)]), owner, Larger(nb, off / BSIZE + 1), off, src)
  {
    hide FsOk, OthersKept, Overlay, SameFile, BlockAt, Spliced;
    var bn, nb' := off / BSIZE, Larger(nb, off / BSIZE + 1);
    DataBlock(t, owner, nb', nb' > NDIRECT, bn);
    var x := BlockAt(t.d, t.ip, bn);
    assert FileBlock(t.d, t.ip, bn) == t.d[x];
    var blk := Overlay(t.d[x], off % BSIZE, src);
    WriteKeepsFiles(t, owner, nb', nb' > NDIRECT, bn, blk);
    var u := t.(d := t.d[x := blk]);
    PatchSplices(s.d, s.ip, sz, t.d, t.ip, u.d, u.ip, nb, off, src);
    OthersKeptTrans(s, t, u);
  }

  lemma {:induction false} GrewInd(s: Snap, nb: nat, t: Snap, owner: Owners, nb': nat, ind: bool)
    requires Grew(s, nb, t, owner, nb', ind)
    ensures IndSet(s.ip) <= IndSet(t.ip)
  {
  }

  /** Where the address of block `bn` is kept, once the file has that block. */
  lemma {:induction false} GrewWhere(s: Snap, nb: nat, t: Snap, owner: Owners, bn: nat)
    requires bn <= nb && bn < MAXFILE
    requires if bn < nb then t == s && FsOk(s, owner, nb, nb > NDIRECT) else Grew(s, nb, t, owner, nb + 1, nb + 1 > NDIRECT)
    ensures |t.ip.addrs| == NDIRECT + 1 && (bn >= NDIRECT ==> t.ip.addrs[NDIRECT] < |t.d|)
    ensures BlockAt(t.d, t.ip, bn) == if bn < NDIRECT then t.ip.addrs[bn] else GetWord(t.d[t.ip.addrs[NDIRECT]], bn - NDIRECT)
  {
    if bn >= NDIRECT {
      IndirectInRange(t, owner, if bn < nb then nb else nb + 1);
    }
  }

  /** Bmap finds a block exactly where the file has one. */
  lemma {:induction false} Present(s: Snap, owner: Owners, nb: nat, ind: bool, bn: nat)
    requires FsOk(s, owner, nb, ind) && bn < MAXFILE
    ensures |s.ip.addrs| == NDIRECT + 1 && (BlockAt(s.d, s.ip, bn) != 0 <==> bn < nb)
  {
  }

  /** Storing a spare zeroed block in the next direct address. */
  lemma {:induction false} DirectStep(s: Snap, owner: Owners, bn: nat, b: nat)
    requires FsOk(s, owner, bn, false) && bn < NDIRECT && Spare(s, owner, b) && s.d[b] == ZERO_BLOCK
    ensures |s.ip.addrs| == NDIRECT + 1
    ensures var t := s.(ip := SetAddr(s.ip, bn, b));
            && Grew(s, bn, t, owner[b := Owner(s.inum, bn)], bn + 1, false)
            && BlockAt(t.d, t.ip, bn) == b && FileBlock(t.d, t.ip, bn) == ZERO_BLOCK
  {
    hide FsOk, OthersKept, SameFile;
    Present(s, owner, bn, false, bn);
    LinkDirect(s, owner, bn, b);
    LinkKeepsFiles(s, owner, bn, bn, b);
  }

  /** Storing a spare zeroed block in the next entry of the indirect block. */
  lemma {:induction false} EntryStep(s: Snap, owner: Owners, bn: nat, b: nat)
    requires FsOk(s, owner, bn, true)
    requires NDIRECT <= bn < MAXFILE && Spare(s, owner, b) && s.d[b] == ZERO_BLOCK
    ensures |s.ip.addrs| == NDIRECT + 1 && s.ip.addrs[NDIRECT] < |s.d|
    ensures var ib := s.ip.addrs[NDIRECT];
            var t := s.(d := s.d[ib := SetWord(s.d[ib], bn - NDIRECT, b)]);
            && Grew(s, bn, t, owner[b := Owner(s.inum, bn + 1)], bn + 1, true)
            && BlockAt(t.d, t.ip, bn) == b && FileBlock(t.d, t.ip, bn) == ZERO_BLOCK
  {
    hide FsOk, OthersKept, SameFile, Ptr, GetWord;
    IndirectInRange(s, owner, bn);
    LinkEntry(s, owner, bn, b);
    EntryKeepsFiles(s, owner, bn, b);
    EntryPtrs(s.d, s.ip, bn, b);
    var ib := s.ip.addrs[NDIRECT];
    var e := s.d[ib := SetWord(s.d[ib], bn - NDIRECT, b)];
    assert Pos(bn) == bn + 1;
    assert Ptr(e, s.ip, bn + 1) == b;
    assert e[b] == s.d[b];
  }

  lemma {:induction false} PatchTakes(sb: Super, a: Books, b: Books, n: int, x: nat, blk: Block, c: Books)
    requires TakesN(sb, a, b, n) && DataStart(sb) <= x < sb.size && |b.d| == sb.size
    requires c == Books(b.d[x := blk], b.owner, b.logged + {x})
    ensures TakesN(sb, a, c, n)
  {
    hide Marked;
    DataMarks(b.d, sb, x, blk);
    TakesNone(sb, b, c);
    TakesMore(sb, a, b, c, n, 0);
  }

  lemma {:induction false} IndOwned(t: Snap, s: Snap, owner: Owners, off: nat, src: seq<Byte>)
    requires WroteFile(s, t, owner, off, src)
    ensures IndSet(t.ip) <= owner.Keys
  {
    hide FilesKept, Content, ReadInode;
    var nb := NBlocks(t.ip.size);
    if nb > NDIRECT {
      IndirectInRange(t, owner, nb);
    }
  }

  lemma {:induction false} SnapDisk(s: Snap, owner: Owners, nb: nat, ind: bool)
    requires FsOk(s, owner, nb, ind)
    ensures DiskOk(s.d, s.sb)
  {
  }

  lemma {:induction false} SameSnap(s: Snap)
    requires SnapOk(s)
    ensures OthersKept(s, s)
  {
    InodeSectors(s, s.inum);
    forall j: nat | j < s.sb.ninodes && j != s.inum ensures FileKept(s, s, j) {
      InodeSectors(s, j);
    }
  }

  lemma {:induction false} DirectPtr(s: Snap, i: nat)
    requires i <= NDIRECT && |s.ip.addrs| == NDIRECT + 1
    ensures Ptr(s.d, s.ip, i) == s.ip.addrs[i]
  {
  }

  /** Where the mark of block `b + bi` is, `b` being the first that its bitmap sector covers. */
  lemma {:induction false} MarkPlace(d: Disk, sb: Super, b: nat, bi: nat)
    requires DiskOk(d, sb) && b % BPB == 0 && bi < BPB && b + bi < sb.size
    ensures BBlock(sb, b) == BBlock(sb, b + bi) < |d|
    ensures Marked(d, sb, b + bi) <==> Bit(d[BBlock(sb, b)][bi / 8], bi % 8)
    ensures SetMark(d, sb, b + bi, true) ==
      d[BBlock(sb, b) := WithByte(d[BBlock(sb, b)], bi / 8, ByteWith(d[BBlock(sb, b)][bi / 8], bi % 8, true))]
  {
    hide Bit, ByteWith;
    assert (b + bi) / BPB == b / BPB && (b + bi) % BPB == bi;
  }
}
