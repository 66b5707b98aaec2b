/**
 The file system as a whole: which blocks each inode points to, who owns each block, and what every
 operation keeps. The disk is the store that the buffer cache presents; one inode may be held in
 memory with changes not yet written back.
 */
module FsState {
  import opened Blocks
  import opened Bits
  import opened FsLayout

  const NPTR := NDIRECT + 1 + NINDIRECT

  /** A disk and the inode `inum` as it stands in memory. */
  datatype Snap = Snap(d: Disk, sb: Super, inum: nat, ip: Inode)

  /** The owner of a block: an inode and the position of the pointer to the block in it. */
  datatype Owner = Owner(inum: nat, k: nat)
  type Owners = map<nat, Owner>

  /** Pointer `k` of an inode: the direct ones, the indirect block, then the entries of the indirect block. */
  function Ptr(d: Disk, ip: Inode, k: nat): nat
    requires k < NPTR && |ip.addrs| == NDIRECT + 1
  {
    if k <= NDIRECT then ip.addrs[k]
    else if ip.addrs[NDIRECT] == 0 || ip.addrs[NDIRECT] >= |d| then 0
    else GetWord(d[ip.addrs[NDIRECT]], k - NDIRECT - 1)
  }

  /** The position of the pointer to data block `bn`. */
  function Pos(bn: nat): nat {
    if bn < NDIRECT then bn else bn + 1
  }

  function BlockAt(d: Disk, ip: Inode, bn: nat): nat
    requires bn < MAXFILE && |ip.addrs| == NDIRECT + 1
  {
    Ptr(d, ip, Pos(bn))
  }

  /** Inode `j` as the kernel sees it: the in-memory copy for `inum`, the disk for the others. */
  function Ino(s: Snap, j: nat): Inode
    requires IBlock(j) < |s.d|
  {
    if j == s.inum then s.ip else ReadInode(s.d, j)
  }

  // ----- The invariant -----

  ghost predicate SnapOk(s: Snap) {
    && DiskOk(s.d, s.sb) && s.inum < s.sb.ninodes && |s.ip.addrs| == NDIRECT + 1
  }

  /** A pointer that is not null is owned by exactly this position of this inode. */
  ghost predicate PtrOk(s: Snap, owner: Owners, j: nat, k: nat)
    requires SnapOk(s) && j < s.sb.ninodes && k < NPTR
  {
    var b := Ptr(s.d, Ino(s, j), k);
    b != 0 ==> b in owner && owner[b] == Owner(j, k)
  }

  /** An owned block is a marked data block and its owner points to it. */
  ghost predicate BackOk(s: Snap, owner: Owners, b: nat)
    requires SnapOk(s) && b in owner
  {
    && DataStart(s.sb) <= b < s.sb.size && Marked(s.d, s.sb, b)
    && owner[b].inum < s.sb.ninodes && owner[b].k < NPTR
    && Ptr(s.d, Ino(s, owner[b].inum), owner[b].k) == b
  }

  /** The inode has exactly its first `nb` data blocks, and an indirect block exactly if `ind`. */
  ghost predicate NoHoles(d: Disk, ip: Inode, nb: nat, ind: bool) {
    && |ip.addrs| == NDIRECT + 1 && nb <= MAXFILE
    && (nb > NDIRECT ==> ind)
    && (ip.addrs[NDIRECT] != 0 <==> ind)
    && forall bn: nat :: bn < MAXFILE ==> (BlockAt(d, ip, bn) != 0 <==> bn < nb)
  }

  function NBlocks(size: nat): nat {
    (size + BSIZE - 1) / BSIZE
  }

  /** An inode at rest: as many blocks as its size needs. */
  ghost predicate AtRest(d: Disk, ip: Inode) {
    NoHoles(d, ip, NBlocks(ip.size), NBlocks(ip.size) > NDIRECT)
  }

  ghost predicate OwnersOk(s: Snap, owner: Owners) {
    && SnapOk(s)
    && (forall j: nat, k: nat :: j < s.sb.ninodes && k < NPTR ==> PtrOk(s, owner, j, k))
    && (forall b :: b in owner ==> BackOk(s, owner, b))
    && (forall b: nat :: b < DataStart(s.sb) ==> Marked(s.d, s.sb, b))
  }

  /** Sound, with `inum` having `nb` blocks (and an indirect block if `ind`) and every other inode at rest. */
  ghost predicate FsOk(s: Snap, owner: Owners, nb: nat, ind: bool) {
    && OwnersOk(s, owner)
    && InodeFits(s.ip)
    && NoHoles(s.d, s.ip, nb, ind)
    && forall j: nat :: j < s.sb.ninodes && j != s.inum ==> AtRest(s.d, ReadInode(s.d, j))
  }

  // ----- What a change of the disk leaves alone -----

  lemma {:induction false} InodeSectors(s: Snap, j: nat)
    requires DiskOk(s.d, s.sb) && j < s.sb.ninodes
    ensures 1 < IBlock(j) < DataStart(s.sb) <= |s.d|
    ensures |ReadInode(s.d, j).addrs| == NDIRECT + 1
  {
    RegionsApart(s.sb, j, 0);
  }

  /** A pointer leads to a block of the data region that is its own. */
  lemma {:induction false} OwnBlock(s: Snap, owner: Owners, j: nat, k: nat)
    requires OwnersOk(s, owner) && j < s.sb.ninodes && k < NPTR
    ensures var b := Ptr(s.d, Ino(s, j), k);
            b != 0 ==> DataStart(s.sb) <= b < s.sb.size && b in owner && owner[b] == Owner(j, k) && Marked(s.d, s.sb, b)
  {
    assert PtrOk(s, owner, j, k);
    var b := Ptr(s.d, Ino(s, j), k);
    assert b != 0 ==> BackOk(s, owner, b);
  }

  /** The inode's pointers are the same on both disks. */
  ghost predicate SamePtrs(d: Disk, e: Disk, ip: Inode)
    requires |ip.addrs| == NDIRECT + 1
  {
    forall k: nat :: k < NPTR ==> Ptr(e, ip, k) == Ptr(d, ip, k)
  }

  /** From `s` to `t` inode `j` and its pointers did not change. */
  ghost predicate SameInode(s: Snap, t: Snap, j: nat)
    requires SnapOk(s) && j < s.sb.ninodes
  {
    && IBlock(j) < |t.d|
    && ReadInode(t.d, j) == ReadInode(s.d, j)
    && SamePtrs(s.d, t.d, Ino(s, j))
  }

  /** From `s` to `t` no inode and no pointer changed, and no mark was lost. */
  ghost predicate SameMeta(s: Snap, t: Snap)
    requires SnapOk(s)
  {
    && t.sb == s.sb && t.inum == s.inum && t.ip == s.ip && |t.d| == |s.d|
    && (forall j: nat :: j < s.sb.ninodes ==> SameInode(s, t, j))
    && (forall b: nat :: b < s.sb.size && Marked(s.d, s.sb, b) ==> Marked(t.d, s.sb, b))
  }

  /** From `s` to `t` the kernel sees the same inodes and pointers, and no mark was lost. */
  ghost predicate SameView(s: Snap, t: Snap)
    requires SnapOk(s)
  {
    && t.sb == s.sb && t.inum == s.inum && t.ip == s.ip && |t.d| == |s.d|
    && (forall j: nat :: j < s.sb.ninodes ==> IBlock(j) < |t.d| && Ino(t, j) == Ino(s, j) && SamePtrs(s.d, t.d, Ino(s, j)))
    && (forall b: nat :: b < s.sb.size && Marked(s.d, s.sb, b) ==> Marked(t.d, s.sb, b))
  }

  lemma {:induction false} SameViewOwners(s: Snap, t: Snap, owner: Owners)
    requires OwnersOk(s, owner) && SameView(s, t)
    ensures OwnersOk(t, owner)
  {
    forall j: nat, k: nat | j < s.sb.ninodes && k < NPTR ensures PtrOk(t, owner, j, k) {
      assert PtrOk(s, owner, j, k);
      assert Ino(t, j) == Ino(s, j);
      assert Ptr(t.d, Ino(s, j), k) == Ptr(s.d, Ino(s, j), k);
    }
    forall b | b in owner ensures BackOk(t, owner, b) {
      assert BackOk(s, owner, b);
      var j, k := owner[b].inum, owner[b].k;
      assert Ino(t, j) == Ino(s, j);
      assert Ptr(t.d, Ino(s, j), k) == Ptr(s.d, Ino(s, j), k);
    }
  }

  lemma {:induction false} SameViewOk(s: Snap, t: Snap, owner: Owners, nb: nat, ind: bool)
    requires FsOk(s, owner, nb, ind) && SameView(s, t)
    ensures FsOk(t, owner, nb, ind)
  {
    SameViewOwners(s, t, owner);
    hide OwnersOk, NoHoles, SamePtrs;
    assert Ino(t, s.inum) == Ino(s, s.inum);
    SameHoles(s.d, t.d, s.ip, nb, ind);
    forall j: nat | j < s.sb.ninodes && j != s.inum ensures AtRest(t.d, ReadInode(t.d, j)) {
      assert Ino(t, j) == Ino(s, j) && AtRest(s.d, ReadInode(s.d, j));
      var ip := ReadInode(s.d, j);
      SameHoles(s.d, t.d, ip, NBlocks(ip.size), NBlocks(ip.size) > NDIRECT);
    }
  }

  lemma {:induction false} SameMetaOwners(s: Snap, t: Snap, owner: Owners)
    requires OwnersOk(s, owner) && SameMeta(s, t)
    ensures OwnersOk(t, owner)
  {
    MetaView(s, t);
    SameViewOwners(s, t, owner);
  }

  lemma {:induction false} MetaView(s: Snap, t: Snap)
    requires SnapOk(s) && SameMeta(s, t)
    ensures SameView(s, t)
  {
    forall j: nat | j < s.sb.ninodes ensures IBlock(j) < |t.d| && Ino(t, j) == Ino(s, j) && SamePtrs(s.d, t.d, Ino(s, j)) {
      assert SameInode(s, t, j);
    }
  }

  lemma {:induction false} SameHoles(d: Disk, e: Disk, ip: Inode, nb: nat, ind: bool)
    requires NoHoles(d, ip, nb, ind) && SamePtrs(d, e, ip)
    ensures NoHoles(e, ip, nb, ind)
  {
    forall bn: nat | bn < MAXFILE ensures BlockAt(e, ip, bn) != 0 <==> bn < nb {
      assert BlockAt(d, ip, bn) != 0 <==> bn < nb;
      assert Ptr(e, ip, Pos(bn)) == Ptr(d, ip, Pos(bn));
    }
  }

  lemma {:induction false} SameMetaOk(s: Snap, t: Snap, owner: Owners, nb: nat, ind: bool)
    requires FsOk(s, owner, nb, ind) && SameMeta(s, t)
    ensures FsOk(t, owner, nb, ind)
  {
    MetaView(s, t);
    SameViewOk(s, t, owner, nb, ind);
  }

  /** Writing a data block that is nobody's indirect block changes no inode, pointer or mark. */
  lemma {:induction false} DataWrite(s: Snap, owner: Owners, x: nat, blk: Block)
    requires OwnersOk(s, owner) && DataStart(s.sb) <= x < s.sb.size
    requires x in owner ==> owner[x].k != NDIRECT
    ensures SameMeta(s, s.(d := s.d[x := blk]))
    ensures forall b: nat :: b < s.sb.size ==> (Marked(s.d[x := blk], s.sb, b) <==> Marked(s.d, s.sb, b))
  {
    var t := s.(d := s.d[x := blk]);
    forall j: nat | j < s.sb.ninodes ensures SameInode(s, t, j) {
      InodeSectors(s, j);
      OwnBlock(s, owner, j, NDIRECT);
    }
  }

  /** balloc: marking a free block and zeroing it changes no inode, no pointer and no other mark. */
  lemma {:induction false} AllocWrite(s: Snap, owner: Owners, b: nat)
    requires OwnersOk(s, owner) && b < s.sb.size && !Marked(s.d, s.sb, b)
    ensures b !in owner && DataStart(s.sb) <= b
    ensures var t := s.(d := SetMark(s.d, s.sb, b, true)[b := ZERO_BLOCK]);
            SameMeta(s, t) && Marked(t.d, s.sb, b)
            && forall c: nat :: c < s.sb.size && c != b ==> (Marked(t.d, s.sb, c) <==> Marked(s.d, s.sb, c))
  {
    assert b in owner ==> BackOk(s, owner, b);
    var m := s.(d := SetMark(s.d, s.sb, b, true));
    MarkWrite(s, owner, b, true);
    assert OwnersOk(m, owner) by {
      SameMetaOwners(s, m, owner);
    }
    hide OwnersOk;
    DataWrite(m, owner, b, ZERO_BLOCK);
    var t := s.(d := SetMark(s.d, s.sb, b, true)[b := ZERO_BLOCK]);
    forall j: nat | j < s.sb.ninodes ensures SameInode(s, t, j) {
      assert SameInode(s, m, j) && SameInode(m, t, j);
      InodeSectors(s, j);
      assert Ino(m, j) == Ino(s, j);
    }
  }

  /** Setting or clearing a mark changes no inode and no pointer, and just that mark. */
  lemma {:induction false} MarkWrite(s: Snap, owner: Owners, b: nat, mark: bool)
    requires OwnersOk(s, owner) && b < s.sb.size
    ensures var t := s.(d := SetMark(s.d, s.sb, b, mark));
            && (forall j: nat :: j < s.sb.ninodes ==> SameInode(s, t, j))
            && (forall c: nat :: c < s.sb.size ==> (Marked(t.d, s.sb, c) <==> if c == b then mark else Marked(s.d, s.sb, c)))
            && (mark ==> SameMeta(s, t))
  {
    var t := s.(d := SetMark(s.d, s.sb, b, mark));
    forall j: nat | j < s.sb.ninodes ensures SameInode(s, t, j) {
      RegionsApart(s.sb, j, b);
      InodeSectors(s, j);
      OwnBlock(s, owner, j, NDIRECT);
    }
    forall c: nat | c < s.sb.size ensures Marked(t.d, s.sb, c) <==> if c == b then mark else Marked(s.d, s.sb, c) {
      SetMarkBits(s.d, s.sb, b, mark, c);
    }
  }

  // ----- Giving the inode in memory one more block -----

  /** From `s` to `t` only pointer `k0` of the inode in memory changed, from null to the free but marked block `b`. */
  ghost predicate Links(s: Snap, t: Snap, owner: Owners, k0: nat, b: nat) {
    && OwnersOk(s, owner) && SnapOk(t)
    && t.sb == s.sb && t.inum == s.inum
    && k0 < NPTR && b !in owner && b != 0 && DataStart(s.sb) <= b < s.sb.size && Marked(t.d, s.sb, b)
    && (forall j: nat :: j < s.sb.ninodes && j != s.inum ==> SameInode(s, t, j))
    && (forall c: nat :: c < s.sb.size && Marked(s.d, s.sb, c) ==> Marked(t.d, s.sb, c))
    && Ptr(s.d, s.ip, k0) == 0
    && (forall k: nat :: k < NPTR ==> Ptr(t.d, t.ip, k) == if k == k0 then b else Ptr(s.d, s.ip, k))
  }

  lemma {:induction false} LinkOwners(s: Snap, t: Snap, owner: Owners, k0: nat, b: nat)
    requires Links(s, t, owner, k0, b)
    ensures OwnersOk(t, owner[b := Owner(s.inum, k0)])
  {
    var owner' := owner[b := Owner(s.inum, k0)];
    forall j: nat, k: nat | j < s.sb.ninodes && k < NPTR ensures PtrOk(t, owner', j, k) {
      assert PtrOk(s, owner, j, k);
      if j == s.inum {
        assert Ptr(t.d, t.ip, k) == if k == k0 then b else Ptr(s.d, s.ip, k);
      } else {
        assert SameInode(s, t, j);
        assert Ptr(t.d, Ino(s, j), k) == Ptr(s.d, Ino(s, j), k);
      }
    }
    forall c | c in owner' ensures BackOk(t, owner', c) {
      if c != b {
        assert BackOk(s, owner, c);
        var j, k := owner[c].inum, owner[c].k;
        if j == s.inum {
          assert Ptr(t.d, t.ip, k) == if k == k0 then b else Ptr(s.d, s.ip, k);
        } else {
          assert SameInode(s, t, j);
          assert Ptr(t.d, Ino(s, j), k) == Ptr(s.d, Ino(s, j), k);
        }
      }
    }
  }

  lemma {:induction false} LinkOk(s: Snap, t: Snap, owner: Owners, k0: nat, b: nat, nb: nat, ind: bool, nb': nat, ind': bool)
    requires Links(s, t, owner, k0, b) && FsOk(s, owner, nb, ind)
    requires InodeFits(t.ip) && NoHoles(t.d, t.ip, nb', ind')
    ensures FsOk(t, owner[b := Owner(s.inum, k0)], nb', ind')
  {
    LinkOwners(s, t, owner, k0, b);
    hide OwnersOk, NoHoles, SamePtrs;
    forall j: nat | j < s.sb.ninodes && j != s.inum ensures AtRest(t.d, ReadInode(t.d, j)) {
      assert SameInode(s, t, j) && AtRest(s.d, ReadInode(s.d, j));
      var ip := ReadInode(s.d, j);
      SameHoles(s.d, t.d, ip, NBlocks(ip.size), NBlocks(ip.size) > NDIRECT);
    }
  }

  /** The inode in memory with address `k` set. */
  function SetAddr(ip: Inode, k: nat, b: nat): (r: Inode)
    requires k < |ip.addrs|
    ensures |r.addrs| == |ip.addrs|
  {
    ip.(addrs := ip.addrs[k := b])
  }

  /** A block that may be linked in: marked, in the data region, owned by nobody. */
  ghost predicate Spare(s: Snap, owner: Owners, b: nat) {
    && SnapOk(s) && b !in owner && 0 < DataStart(s.sb) <= b < s.sb.size && Marked(s.d, s.sb, b)
  }

  lemma {:induction false} LinkDirect(s: Snap, owner: Owners, bn: nat, b: nat)
    requires FsOk(s, owner, bn, false) && bn < NDIRECT && Spare(s, owner, b)
    ensures FsOk(s.(ip := SetAddr(s.ip, bn, b)), owner[b := Owner(s.inum, bn)], bn + 1, false)
  {
    var t := s.(ip := SetAddr(s.ip, bn, b));
    assert BlockAt(s.d, s.ip, bn) == 0;
    forall k: nat | k < NPTR ensures Ptr(t.d, t.ip, k) == if k == bn then b else Ptr(s.d, s.ip, k) {
    }
    SameElsewhere(s, t);
    forall i: nat | i < MAXFILE ensures BlockAt(t.d, t.ip, i) != 0 <==> i < bn + 1 {
      assert BlockAt(s.d, s.ip, i) != 0 <==> i < bn;
    }
    hide OwnersOk, Ptr;
    assert Links(s, t, owner, bn, b);
    LinkOk(s, t, owner, bn, b, bn, false, bn + 1, false);
  }

  lemma {:induction false} SameElsewhere(s: Snap, t: Snap)
    requires SnapOk(s) && t == s.(ip := t.ip)
    ensures forall j: nat :: j < s.sb.ninodes && j != s.inum ==> SameInode(s, t, j)
  {
    forall j: nat | j < s.sb.ninodes && j != s.inum ensures SameInode(s, t, j) {
      InodeSectors(s, j);
    }
  }

  lemma {:induction false} LinkIndirect(s: Snap, owner: Owners, ib: nat)
    requires FsOk(s, owner, NDIRECT, false) && Spare(s, owner, ib) && s.d[ib] == ZERO_BLOCK
    ensures FsOk(s.(ip := SetAddr(s.ip, NDIRECT, ib)), owner[ib := Owner(s.inum, NDIRECT)], NDIRECT, true)
  {
    var t := s.(ip := SetAddr(s.ip, NDIRECT, ib));
    ZeroWords();
    forall k: nat | k < NPTR ensures Ptr(t.d, t.ip, k) == if k == NDIRECT then ib else Ptr(s.d, s.ip, k) {
    }
    SameElsewhere(s, t);
    forall i: nat | i < MAXFILE ensures BlockAt(t.d, t.ip, i) != 0 <==> i < NDIRECT {
      assert BlockAt(s.d, s.ip, i) != 0 <==> i < NDIRECT;
    }
    hide OwnersOk, Ptr;
    assert Links(s, t, owner, NDIRECT, ib);
    LinkOk(s, t, owner, NDIRECT, ib, NDIRECT, false, NDIRECT, true);
  }

  lemma {:induction false} LinkEntry(s: Snap, owner: Owners, bn: nat, b: nat)
    requires FsOk(s, owner, bn, true) && NDIRECT <= bn < MAXFILE && Spare(s, owner, b)
    ensures var ib := s.ip.addrs[NDIRECT];
            && DataStart(s.sb) <= ib < |s.d|
            && FsOk(s.(d := s.d[ib := SetWord(s.d[ib], bn - NDIRECT, b)]), owner[b := Owner(s.inum, bn + 1)], bn + 1, true)
  {
    var ib := s.ip.addrs[NDIRECT];
    IndirectWrite(s, owner, ZERO_BLOCK);
    var blk := SetWord(s.d[ib], bn - NDIRECT, b);
    IndirectWrite(s, owner, blk);
    EntryPtrs(s.d, s.ip, bn, b);
    EntryHoles(s.d, s.ip, bn, b);
    assert BlockAt(s.d, s.ip, bn) == 0;
    hide OwnersOk, Ptr, SetWord, NoHoles, SameInode;
    var t := s.(d := s.d[ib := blk]);
    assert Links(s, t, owner, bn + 1, b);
    LinkOk(s, t, owner, bn + 1, b, bn, true, bn + 1, true);
  }

  lemma {:induction false} EntryHoles(d: Disk, ip: Inode, bn: nat, b: nat)
    requires NoHoles(d, ip, bn, true) && ip.addrs[NDIRECT] < |d| && NDIRECT <= bn < MAXFILE && 0 < b < UINT_LIMIT
    ensures var ib := ip.addrs[NDIRECT]; NoHoles(d[ib := SetWord(d[ib], bn - NDIRECT, b)], ip, bn + 1, true)
  {
    EntryPtrs(d, ip, bn, b);
    var ib := ip.addrs[NDIRECT];
    var e := d[ib := SetWord(d[ib], bn - NDIRECT, b)];
    hide Ptr, SetWord;
    forall i: nat | i < MAXFILE ensures BlockAt(e, ip, i) != 0 <==> i < bn + 1 {
      assert BlockAt(d, ip, i) != 0 <==> i < bn;
      assert Ptr(e, ip, Pos(i)) == if Pos(i) == bn + 1 then b else Ptr(d, ip, Pos(i));
    }
  }

  lemma {:induction false} EntryPtrs(d: Disk, ip: Inode, bn: nat, b: nat)
    requires |ip.addrs| == NDIRECT + 1 && 0 < ip.addrs[NDIRECT] < |d| && NDIRECT <= bn < MAXFILE && b < UINT_LIMIT
    ensures var ib := ip.addrs[NDIRECT];
            forall k: nat :: k < NPTR ==>
              Ptr(d[ib := SetWord(d[ib], bn - NDIRECT, b)], ip, k) == if k == bn + 1 then b else Ptr(d, ip, k)
    ensures var ib := ip.addrs[NDIRECT]; Ptr(d[ib := SetWord(d[ib], bn - NDIRECT, b)], ip, bn + 1) == b
  {
    hide GetWord, SetWord;
    var ib := ip.addrs[NDIRECT];
    var blk := SetWord(d[ib], bn - NDIRECT, b);
    assert GetWord(blk, bn - NDIRECT) == b;
    assert forall i: nat :: i < WORDS && i != bn - NDIRECT ==> GetWord(blk, i) == GetWord(d[ib], i);
    forall k: nat | k < NPTR ensures Ptr(d[ib := blk], ip, k) == if k == bn + 1 then b else Ptr(d, ip, k) {
    }
  }

  /** Writing the inode's indirect block changes no other inode and no mark. */
  lemma {:induction false} IndirectWrite(s: Snap, owner: Owners, blk: Block)
    requires OwnersOk(s, owner) && s.ip.addrs[NDIRECT] != 0
    ensures DataStart(s.sb) <= s.ip.addrs[NDIRECT] < |s.d|
    ensures var t := s.(d := s.d[s.ip.addrs[NDIRECT] := blk]);
            && (forall j: nat :: j < s.sb.ninodes && j != s.inum ==> SameInode(s, t, j))
            && (forall b: nat :: b < s.sb.size ==> (Marked(t.d, s.sb, b) <==> Marked(s.d, s.sb, b)))
  {
    var ib := s.ip.addrs[NDIRECT];
    OwnBlock(s, owner, s.inum, NDIRECT);
    assert ib == Ptr(s.d, Ino(s, s.inum), NDIRECT);
    var t := s.(d := s.d[ib := blk]);
    forall j: nat | j < s.sb.ninodes && j != s.inum ensures SameInode(s, t, j) {
      InodeSectors(s, j);
      OwnBlock(s, owner, j, NDIRECT);
    }
  }

  /** iupdate: the in-memory inode reaches the disk, and the kernel's view stays as it was. */
  lemma {:induction false} InodeWrite(s: Snap, owner: Owners)
    requires OwnersOk(s, owner) && InodeFits(s.ip)
    ensures IBlock(s.inum) < DataStart(s.sb) <= |s.d|
    ensures var t := s.(d := WriteInode(s.d, s.inum, s.ip));
            && SameView(s, t) && ReadInode(t.d, s.inum) == s.ip
            && (forall j: nat :: j < s.sb.ninodes && j != s.inum ==> SameInode(s, t, j))
            && (forall b: nat :: b < s.sb.size ==> (Marked(t.d, s.sb, b) <==> Marked(s.d, s.sb, b)))
  {
    InodeSectors(s, s.inum);
    var t := s.(d := WriteInode(s.d, s.inum, s.ip));
    hide OwnersOk, InodeFits, ReadInode, WriteInode, SamePtrs, Marked;
    forall j: nat | j < s.sb.ninodes
      ensures IBlock(j) < |t.d| && Ino(t, j) == Ino(s, j) && SamePtrs(s.d, t.d, Ino(s, j)) && (j != s.inum ==> SameInode(s, t, j))
    {
      InodeWriteView(s, owner, j);
    }
    InodeWriteView(s, owner, s.inum);
    forall b: nat | b < s.sb.size ensures Marked(t.d, s.sb, b) <==> Marked(s.d, s.sb, b) {
      InodeWriteMarks(s, b);
    }
  }

  lemma {:induction false} InodeWriteView(s: Snap, owner: Owners, j: nat)
    requires OwnersOk(s, owner) && InodeFits(s.ip) && j < s.sb.ninodes && IBlock(s.inum) < DataStart(s.sb) <= |s.d|
    ensures var t := s.(d := WriteInode(s.d, s.inum, s.ip));
            && IBlock(j) < |t.d| && |Ino(s, j).addrs| == NDIRECT + 1 && SamePtrs(s.d, t.d, Ino(s, j))
            && ReadInode(t.d, j) == if j == s.inum then s.ip else ReadInode(s.d, j)
  {
    InodeSectors(s, j);
    OwnBlock(s, owner, j, NDIRECT);
    WriteInodeReads(s.d, s.inum, s.ip, j);
    hide OwnersOk, PutInode, GetInode;
  }

  lemma {:induction false} InodeWriteMarks(s: Snap, b: nat)
    requires SnapOk(s) && b < s.sb.size && IBlock(s.inum) < |s.d|
    ensures Marked(WriteInode(s.d, s.inum, s.ip), s.sb, b) <==> Marked(s.d, s.sb, b)
  {
    hide PutInode;
    RegionsApart(s.sb, s.inum, b);
  }

  // ----- The first file system -----

  /** Inode blocks all zero, and marks for the first `n` sectors, the metadata among them. */
  ghost predicate Blank(d: Disk, sb: Super, n: nat) {
    && DiskOk(d, sb) && DataStart(sb) <= n <= sb.size
    && (forall j: nat :: j < sb.ninodes ==> IBlock(j) < |d| && d[IBlock(j)] == ZERO_BLOCK)
    && (forall b: nat :: b < sb.size ==> (Marked(d, sb, b) <==> b < n))
  }

  function ZeroDisk(n: nat): (d: Disk)
    ensures |d| == n && forall i :: 0 <= i < n ==> d[i] == ZERO_BLOCK
  {
    if n == 0 then [] else ZeroDisk(n - 1) + [ZERO_BLOCK]
  }

  /** A zeroed disk with the first `n` sectors marked. */
  ghost function Filled(sb: Super, n: nat): (d: Disk)
    requires DataStart(sb) <= sb.size && n <= sb.size
    ensures |d| == sb.size
  {
    if n == 0 then ZeroDisk(sb.size) else SetMark(Filled(sb, n - 1), sb, n - 1, true)
  }

  lemma {:induction false} ZeroUnmarked(sb: Super, b: nat)
    requires DataStart(sb) <= sb.size && b < sb.size
    ensures !Marked(ZeroDisk(sb.size), sb, b)
  {
    hide Bit, ZeroDisk;
    NoBits(b % BPB % 8);
  }

  lemma {:induction false} FilledMarks(sb: Super, n: nat, b: nat)
    requires DataStart(sb) <= sb.size && n <= sb.size && b < sb.size
    ensures Marked(Filled(sb, n), sb, b) <==> b < n
  {
    hide Marked, SetMark;
    if n > 0 {
      FilledMarks(sb, n - 1, b);
      SetMarkBits(Filled(sb, n - 1), sb, n - 1, true, b);
    } else {
      ZeroUnmarked(sb, b);
    }
  }

  lemma {:induction false} FilledInodes(sb: Super, n: nat, j: nat)
    requires DataStart(sb) <= sb.size && n <= sb.size && j < sb.ninodes
    ensures IBlock(j) < sb.size && Filled(sb, n)[IBlock(j)] == ZERO_BLOCK
  {
    RegionsApart(sb, j, 0);
    if n > 0 {
      FilledInodes(sb, n - 1, j);
      RegionsApart(sb, j, n - 1);
    }
  }

  lemma {:induction false} FilledBlank(sb: Super, n: nat)
    requires DataStart(sb) <= n <= sb.size < UINT_LIMIT
    ensures Blank(Filled(sb, n), sb, n)
  {
    hide Marked, Filled;
    forall j: nat | j < sb.ninodes ensures IBlock(j) < sb.size && Filled(sb, n)[IBlock(j)] == ZERO_BLOCK {
      FilledInodes(sb, n, j);
    }
    forall b: nat | b < sb.size ensures Marked(Filled(sb, n), sb, b) <==> b < n {
      FilledMarks(sb, n, b);
    }
  }

  /** An inode that is all zero. */
  ghost predicate Zeroed(ip: Inode) {
    InodeFits(ip) && ip.size == 0 && forall k :: 0 <= k <= NDIRECT ==> ip.addrs[k] == 0
  }

  lemma {:induction false} ZeroedAt(d: Disk, j: nat)
    requires IBlock(j) < |d| && d[IBlock(j)] == ZERO_BLOCK
    ensures Zeroed(ReadInode(d, j))
  {
    ZeroWords();
    hide GetWord;
  }

  lemma {:induction false} ZeroedRest(d: Disk, ip: Inode)
    requires Zeroed(ip)
    ensures NoHoles(d, ip, 0, false) && AtRest(d, ip) && forall k: nat :: k < NPTR ==> Ptr(d, ip, k) == 0
  {
    assert ip.addrs[NDIRECT] == 0;
  }

  /** It is sound, with every inode free and no block owned. */
  lemma {:induction false} BlankOk(d: Disk, sb: Super, n: nat, inum: nat)
    requires Blank(d, sb, n) && inum < sb.ninodes
    ensures FsOk(Snap(d, sb, inum, ReadInode(d, inum)), map[], 0, false)
  {
    hide ReadInode, Marked, Ptr, NoHoles, AtRest;
    var s := Snap(d, sb, inum, ReadInode(d, inum));
    forall j: nat | j < sb.ninodes
      ensures Zeroed(ReadInode(d, j)) && AtRest(d, ReadInode(d, j)) && NoHoles(d, ReadInode(d, j), 0, false)
      ensures forall k: nat :: k < NPTR ==> Ptr(d, ReadInode(d, j), k) == 0
    {
      ZeroedAt(d, j);
      ZeroedRest(d, ReadInode(d, j));
    }
    assert SnapOk(s);
    forall j: nat, k: nat | j < sb.ninodes && k < NPTR ensures PtrOk(s, map[], j, k) {
      assert Ptr(d, ReadInode(d, j), k) == 0;
    }
  }
}
