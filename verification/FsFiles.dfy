/**
 Files as flat byte sequences over the block layer: what allocation, linking and block writes do to the
 contents of the file at hand and of every other file.
 */
module FsFiles {
  import opened Blocks
  import opened FsLayout
  import opened FsState

  /** Data block `bn` of a file, as stored. */
  function FileBlock(d: Disk, ip: Inode, bn: nat): Block {
    if bn < MAXFILE && |ip.addrs| == NDIRECT + 1 && BlockAt(d, ip, bn) < |d| then d[BlockAt(d, ip, bn)] else ZERO_BLOCK
  }

  function ByteAt(d: Disk, ip: Inode, i: nat): Byte {
    FileBlock(d, ip, i / BSIZE)[i % BSIZE]
  }

  /** The first `n` bytes of a file. */
  function Bytes(d: Disk, ip: Inode, n: nat): (r: seq<Byte>)
    ensures |r| == n && forall i :: 0 <= i < n ==> r[i] == ByteAt(d, ip, i)
  {
    seq(n, i requires 0 <= i < n => ByteAt(d, ip, i))
  }

  /** A file's contents. */
  function Content(d: Disk, ip: Inode): (r: seq<Byte>)
    ensures |r| == ip.size
  {
    Bytes(d, ip, ip.size)
  }

  /** Where byte `i` of a file is: in one of the twelve blocks that the inode lists, or of those that the indirect block lists. */
  lemma {:induction false} ByteIsAt(s: Snap, owner: Owners, i: nat)
    requires FsOk(s, owner, NBlocks(s.ip.size), NBlocks(s.ip.size) > NDIRECT) && i < s.ip.size
    ensures |s.ip.addrs| == NDIRECT + 1 && (i >= NDIRECT * BSIZE ==> s.ip.addrs[NDIRECT] < |s.d|) && i / BSIZE < MAXFILE
    ensures var b := if i / BSIZE < NDIRECT then s.ip.addrs[i / BSIZE] else GetWord(s.d[s.ip.addrs[NDIRECT]], i / BSIZE - NDIRECT);
            b < |s.d| && Content(s.d, s.ip)[i] == s.d[b][i % BSIZE]
  {
    hide FsOk, GetWord;
    var nb, bn := NBlocks(s.ip.size), i / BSIZE;
    DataBlock(s, owner, nb, nb > NDIRECT, bn);
    if bn >= NDIRECT {
      IndirectInRange(s, owner, nb);
    }
  }

  /** The first `nb` blocks of the file are the same on both disks, through both copies of the inode. */
  ghost predicate SameFile(d: Disk, ip: Inode, e: Disk, ip': Inode, nb: nat) {
    forall bn: nat :: bn < nb ==> FileBlock(e, ip', bn) == FileBlock(d, ip, bn)
  }

  /** Inode `j` and its contents did not change. */
  ghost predicate FileKept(s: Snap, t: Snap, j: nat)
    requires SnapOk(s) && j < s.sb.ninodes
  {
    && IBlock(j) < |t.d|
    && ReadInode(t.d, j) == ReadInode(s.d, j)
    && SameFile(s.d, ReadInode(s.d, j), t.d, ReadInode(t.d, j), NBlocks(ReadInode(s.d, j).size))
  }

  /** No file but `inum` changed, nor the sectors before the inodes. */
  ghost predicate FilesKept(s: Snap, t: Snap) {
    && SnapOk(s) && |t.d| == |s.d| && HeadKept(s.d, t.d)
    && forall j: nat :: j < s.sb.ninodes && j != s.inum ==> FileKept(s, t, j)
  }

  /** No file but `inum` changed, nor the copy of `inum` on the disk. */
  ghost predicate OthersKept(s: Snap, t: Snap) {
    && FilesKept(s, t)
    && IBlock(s.inum) < |s.d| && ReadInode(t.d, s.inum) == ReadInode(s.d, s.inum)
  }

  lemma {:induction false} OthersKeptTrans(s: Snap, t: Snap, u: Snap)
    requires OthersKept(s, t) && OthersKept(t, u) && t.sb == s.sb && t.inum == s.inum
    ensures OthersKept(s, u)
  {
    FilesKeptTrans(s, t, u);
  }

  lemma {:induction false} FilesKeptTrans(s: Snap, t: Snap, u: Snap)
    requires FilesKept(s, t) && FilesKept(t, u) && t.sb == s.sb && t.inum == s.inum
    ensures FilesKept(s, u)
  {
    forall j: nat | j < s.sb.ninodes && j != s.inum ensures FileKept(s, u, j) {
      assert FileKept(s, t, j) && FileKept(t, u, j);
    }
  }

  /** Unchanged contents are unchanged bytes. */
  lemma {:induction false} KeptContent(s: Snap, t: Snap, j: nat)
    requires SnapOk(s) && j < s.sb.ninodes && FileKept(s, t, j)
    ensures Content(t.d, ReadInode(t.d, j)) == Content(s.d, ReadInode(s.d, j))
  {
    var ip := ReadInode(s.d, j);
    forall i | 0 <= i < ip.size ensures ByteAt(t.d, ip, i) == ByteAt(s.d, ip, i) {
      assert i / BSIZE < NBlocks(ip.size);
    }
  }

  /** From `s` to `t` every file but `inum` has the same bytes. */
  ghost predicate SameBytesElsewhere(s: Snap, t: Snap) {
    && SnapOk(s) && |t.d| == |s.d|
    && forall j: nat :: j < s.sb.ninodes && j != s.inum ==> SameBytesAt(s, t, j)
  }

  ghost predicate SameBytesAt(s: Snap, t: Snap, j: nat)
    requires SnapOk(s) && j < s.sb.ninodes && |t.d| == |s.d|
  {
    IBlock(j) < |t.d| && Content(t.d, ReadInode(t.d, j)) == Content(s.d, ReadInode(s.d, j))
  }

  lemma {:induction false} KeptBytes(s: Snap, t: Snap)
    requires FilesKept(s, t)
    ensures SameBytesElsewhere(s, t)
  {
    hide Content, ReadInode;
    forall j: nat | j < s.sb.ninodes && j != s.inum ensures SameBytesAt(s, t, j) {
      assert FileKept(s, t, j);
      KeptContent(s, t, j);
    }
  }

  /** A disk change that spares a file's own data blocks keeps the file. */
  lemma {:induction false} SparedFile(s: Snap, t: Snap, owner: Owners, j: nat, nb: nat)
    requires OwnersOk(s, owner) && |t.d| == |s.d| && j < s.sb.ninodes && IBlock(j) < |s.d|
    requires |Ino(s, j).addrs| == NDIRECT + 1 && SamePtrs(s.d, t.d, Ino(s, j))
    requires NoHoles(s.d, Ino(s, j), nb, Ino(s, j).addrs[NDIRECT] != 0)
    requires forall b :: b in owner && owner[b].inum == j && owner[b].k != NDIRECT ==> t.d[b] == s.d[b]
    ensures SameFile(s.d, Ino(s, j), t.d, Ino(s, j), nb)
  {
    var ip := Ino(s, j);
    forall bn: nat | bn < nb ensures FileBlock(t.d, ip, bn) == FileBlock(s.d, ip, bn) {
      OwnBlock(s, owner, j, Pos(bn));
      assert BlockAt(s.d, ip, bn) != 0;
      assert Ptr(t.d, ip, Pos(bn)) == Ptr(s.d, ip, Pos(bn));
    }
  }

  /** A disk change that spares every other file's data blocks keeps every other file. */
  lemma {:induction false} SparedOthers(s: Snap, t: Snap, owner: Owners, nb: nat, ind: bool)
    requires FsOk(s, owner, nb, ind) && HeadKept(s.d, t.d)
    requires forall j: nat :: j < s.sb.ninodes && j != s.inum ==> SameInode(s, t, j)
    requires IBlock(s.inum) < |s.d| && t.d[IBlock(s.inum)] == s.d[IBlock(s.inum)]
    requires forall b :: b in owner && owner[b].inum != s.inum && owner[b].k != NDIRECT ==> t.d[b] == s.d[b]
    ensures OthersKept(s, t)
  {
    hide FsOk, FilesKept;
    SparedFiles(s, t, owner, nb, ind);
  }

  lemma {:induction false} SparedFiles(s: Snap, t: Snap, owner: Owners, nb: nat, ind: bool)
    requires FsOk(s, owner, nb, ind) && HeadKept(s.d, t.d)
    requires forall j: nat :: j < s.sb.ninodes && j != s.inum ==> SameInode(s, t, j)
    requires forall b :: b in owner && owner[b].inum != s.inum && owner[b].k != NDIRECT ==> t.d[b] == s.d[b]
    ensures FilesKept(s, t)
  {
    forall j: nat | j < s.sb.ninodes && j != s.inum ensures FileKept(s, t, j) {
      assert SameInode(s, t, j);
      var ip := ReadInode(s.d, j);
      assert AtRest(s.d, ip);
      hide OwnersOk;
      SparedFile(s, t, owner, j, NBlocks(ip.size));
    }
  }

  /** balloc keeps every file, the one at hand included. */
  lemma {:induction false} AllocKeepsFiles(s: Snap, owner: Owners, nb: nat, ind: bool, b: nat)
    requires FsOk(s, owner, nb, ind) && b < s.sb.size && !Marked(s.d, s.sb, b)
    ensures var t := s.(d := SetMark(s.d, s.sb, b, true)[b := ZERO_BLOCK]);
            && FsOk(t, owner, nb, ind) && Spare(t, owner, b) && t.d[b] == ZERO_BLOCK
            && SameFile(s.d, s.ip, t.d, t.ip, nb) && OthersKept(s, t)
  {
    assert NoHoles(s.d, s.ip, nb, s.ip.addrs[NDIRECT] != 0);
    hide OwnersOk, NoHoles, AtRest, Marked, SetMark, OthersKept;
    OwnedInRange(s, owner);
    var t := s.(d := SetMark(s.d, s.sb, b, true)[b := ZERO_BLOCK]);
    AllocWrite(s, owner, b);
    SameMetaOk(s, t, owner, nb, ind);
    AllocSpares(s, owner, b);
    assert SameInode(s, t, s.inum);
    SparedFile(s, t, owner, s.inum, nb);
    SparedOthers(s, t, owner, nb, ind);
  }

  lemma {:induction false} AllocSpares(s: Snap, owner: Owners, b: nat)
    requires OwnersOk(s, owner) && b < s.sb.size && b !in owner && DataStart(s.sb) <= b
    ensures IBlock(s.inum) < |s.d|
    ensures var d := SetMark(s.d, s.sb, b, true)[b := ZERO_BLOCK];
            && d[IBlock(s.inum)] == s.d[IBlock(s.inum)] && HeadKept(s.d, d)
            && forall c :: c in owner ==> c < |s.d| && d[c] == s.d[c]
  {
    RegionsApart(s.sb, s.inum, b);
    OwnedInRange(s, owner);
  }

  lemma {:induction false} OwnedInRange(s: Snap, owner: Owners)
    requires OwnersOk(s, owner)
    ensures SnapOk(s) && forall b :: b in owner ==> DataStart(s.sb) <= b < |s.d|
  {
    forall b | b in owner ensures DataStart(s.sb) <= b < |s.d| {
      assert BackOk(s, owner, b);
    }
  }

  /** Each of the file's data blocks is its own. */
  lemma {:induction false} DataBlock(s: Snap, owner: Owners, nb: nat, ind: bool, i: nat)
    requires FsOk(s, owner, nb, ind) && i < nb
    ensures i < MAXFILE && |s.ip.addrs| == NDIRECT + 1
    ensures var c := BlockAt(s.d, s.ip, i);
            0 < DataStart(s.sb) <= c < |s.d| && c in owner && owner[c] == Owner(s.inum, Pos(i))
  {
    OwnBlock(s, owner, s.inum, Pos(i));
    assert BlockAt(s.d, s.ip, i) != 0;
  }

  lemma {:induction false} IndirectInRange(s: Snap, owner: Owners, nb: nat)
    requires FsOk(s, owner, nb, true)
    ensures |s.ip.addrs| == NDIRECT + 1
    ensures var ib := s.ip.addrs[NDIRECT]; 0 < DataStart(s.sb) <= ib < |s.d| && ib in owner && owner[ib] == Owner(s.inum, NDIRECT)
  {
    assert s.ip.addrs[NDIRECT] == Ptr(s.d, Ino(s, s.inum), NDIRECT);
    OwnBlock(s, owner, s.inum, NDIRECT);
  }

  /** Linking a block in by address keeps the blocks the file had and every other file. */
  lemma {:induction false} LinkKeepsFiles(s: Snap, owner: Owners, nb: nat, k: nat, b: nat)
    requires SnapOk(s) && k <= NDIRECT && nb <= k
    ensures var t := s.(ip := SetAddr(s.ip, k, b));
            SameFile(s.d, s.ip, t.d, t.ip, nb) && OthersKept(s, t)
  {
    var t := s.(ip := SetAddr(s.ip, k, b));
    InodeSectors(s, s.inum);
    forall bn: nat | bn < nb ensures FileBlock(t.d, t.ip, bn) == FileBlock(s.d, s.ip, bn) {
    }
    forall j: nat | j < s.sb.ninodes && j != s.inum ensures FileKept(s, t, j) {
      InodeSectors(s, j);
    }
  }

  /** Linking a block in through the indirect block keeps the blocks the file had and every other file. */
  lemma {:induction false} EntryKeepsFiles(s: Snap, owner: Owners, bn: nat, b: nat)
    requires FsOk(s, owner, bn, true) && NDIRECT <= bn < MAXFILE && b < UINT_LIMIT
    ensures DataStart(s.sb) <= s.ip.addrs[NDIRECT] < |s.d|
    ensures var ib := s.ip.addrs[NDIRECT];
            var t := s.(d := s.d[ib := SetWord(s.d[ib], bn - NDIRECT, b)]);
            SameFile(s.d, s.ip, t.d, t.ip, bn) && OthersKept(s, t)
  {
    hide OwnersOk, NoHoles, AtRest, Ptr, SetWord, SameInode;
    var ib := s.ip.addrs[NDIRECT];
    IndirectInRange(s, owner, bn);
    var blk := SetWord(s.d[ib], bn - NDIRECT, b);
    IndirectWrite(s, owner, blk);
    EntryPtrs(s.d, s.ip, bn, b);
    var t := s.(d := s.d[ib := blk]);
    OwnedInRange(s, owner);
    forall i: nat | i < bn ensures FileBlock(t.d, t.ip, i) == FileBlock(s.d, s.ip, i) {
      DataBlock(s, owner, bn, true, i);
      assert Ptr(t.d, t.ip, Pos(i)) == if Pos(i) == bn + 1 then b else Ptr(s.d, s.ip, Pos(i));
    }
    InodeSectors(s, s.inum);
    SparedOthers(s, t, owner, bn, true);
  }

  /** Writing one of the file's data blocks changes just that block of just that file. */
  lemma {:induction false} WriteKeepsFiles(s: Snap, owner: Owners, nb: nat, ind: bool, bn: nat, blk: Block)
    requires FsOk(s, owner, nb, ind) && bn < nb
    ensures var x := BlockAt(s.d, s.ip, bn);
            && DataStart(s.sb) <= x < |s.d|
            && var t := s.(d := s.d[x := blk]);
               && FsOk(t, owner, nb, ind) && OthersKept(s, t)
               && BlockAt(t.d, t.ip, bn) == x
               && forall i: nat :: i < nb ==> FileBlock(t.d, t.ip, i) == if i == bn then blk else FileBlock(s.d, s.ip, i)
  {
    hide FsOk, OthersKept, Ptr;
    DataBlock(s, owner, nb, ind, bn);
    WriteKeepsOthers(s, owner, nb, ind, bn, blk);
    var x := BlockAt(s.d, s.ip, bn);
    var t := s.(d := s.d[x := blk]);
    forall i: nat | i < nb
      ensures FileBlock(t.d, t.ip, i) == if i == bn then blk else FileBlock(s.d, s.ip, i)
    {
      DataBlock(s, owner, nb, ind, i);
      assert Ptr(t.d, s.ip, Pos(i)) == Ptr(s.d, s.ip, Pos(i));
    }
    assert Ptr(t.d, s.ip, Pos(bn)) == Ptr(s.d, s.ip, Pos(bn));
  }

  lemma {:induction false} WriteKeepsOthers(s: Snap, owner: Owners, nb: nat, ind: bool, bn: nat, blk: Block)
    requires FsOk(s, owner, nb, ind) && bn < nb && BlockAt(s.d, s.ip, bn) < |s.d|
    ensures var t := s.(d := s.d[BlockAt(s.d, s.ip, bn) := blk]);
            FsOk(t, owner, nb, ind) && OthersKept(s, t) && SamePtrs(s.d, t.d, s.ip)
  {
    hide OwnersOk, NoHoles, AtRest, Ptr, SamePtrs, Marked, BlockAt, OthersKept;
    DataBlock(s, owner, nb, ind, bn);
    var x := BlockAt(s.d, s.ip, bn);
    assert owner[x].k != NDIRECT;
    var t := s.(d := s.d[x := blk]);
    OwnedInRange(s, owner);
    DataWrite(s, owner, x, blk);
    SameMetaOk(s, t, owner, nb, ind);
    assert SameInode(s, t, s.inum);
    InodeSectors(s, s.inum);
    SparedOthers(s, t, owner, nb, ind);
  }

  // ----- Splicing bytes into a file -----

  /** From a file of `sz` bytes to one of at least that: `src` is spliced in at `off`, the other bytes are kept. */
  ghost predicate Spliced(d0: Disk, ip0: Inode, sz: nat, d1: Disk, ip1: Inode, off: nat, src: seq<Byte>) {
    && off <= sz
    && (forall i: nat :: off <= i < off + |src| ==> ByteAt(d1, ip1, i) == src[i - off])
    && (forall i: nat :: i < sz && !(off <= i < off + |src|) ==> ByteAt(d1, ip1, i) == ByteAt(d0, ip0, i))
  }

  function Larger(a: nat, b: nat): nat {
    if a < b then b else a
  }

  lemma {:induction false} SplicedTrans(d0: Disk, ip0: Inode, sz: nat, d1: Disk, ip1: Inode, d2: Disk, ip2: Inode,
                                        off: nat, src: seq<Byte>, tot: nat, m: nat)
    requires tot + m <= |src|
    requires Spliced(d0, ip0, sz, d1, ip1, off, src[..tot])
    requires Spliced(d1, ip1, Larger(sz, off + tot), d2, ip2, off + tot, src[tot..tot + m])
    ensures Spliced(d0, ip0, sz, d2, ip2, off, src[..tot + m])
  {
    hide ByteAt;
    forall i: nat | off <= i < off + tot + m ensures ByteAt(d2, ip2, i) == src[..tot + m][i - off] {
      if i < off + tot {
        assert ByteAt(d1, ip1, i) == src[..tot][i - off];
        assert ByteAt(d2, ip2, i) == ByteAt(d1, ip1, i);
      } else {
        assert ByteAt(d2, ip2, i) == src[tot..tot + m][i - (off + tot)];
      }
    }
  }

  /** Patching one block splices the bytes in, whether the block was there before or has just been added. */
  lemma {:induction false} PatchSplices(d0: Disk, ip0: Inode, sz: nat, d1: Disk, ip1: Inode, d2: Disk, ip2: Inode,
                                        nb: nat, off: nat, src: seq<Byte>)
    requires off <= sz <= nb * BSIZE && off % BSIZE + |src| <= BSIZE
    requires SameFile(d0, ip0, d1, ip1, nb)
    requires forall i: nat :: i < Larger(nb, off / BSIZE + 1) ==>
      FileBlock(d2, ip2, i) == if i == off / BSIZE then Overlay(FileBlock(d1, ip1, i), off % BSIZE, src) else FileBlock(d1, ip1, i)
    ensures Spliced(d0, ip0, sz, d2, ip2, off, src)
  {
    hide FileBlock;
    forall i: nat | off <= i < off + |src| ensures ByteAt(d2, ip2, i) == src[i - off] {
      SameBlock(off, i, |src|);
    }
    forall i: nat | i < sz && !(off <= i < off + |src|) ensures ByteAt(d2, ip2, i) == ByteAt(d0, ip0, i) {
      assert i / BSIZE < nb;
      assert FileBlock(d1, ip1, i / BSIZE) == FileBlock(d0, ip0, i / BSIZE);
    }
  }

  lemma {:induction false} SameBlock(off: nat, i: nat, n: nat)
    requires off <= i < off + n && off % BSIZE + n <= BSIZE
    ensures i / BSIZE == off / BSIZE && i % BSIZE == off % BSIZE + (i - off)
  {
  }

  /** The flat-file meaning of a write: bytes replaced from `off` on, the file extended if need be. */
  function WriteAt(was: seq<Byte>, off: nat, src: seq<Byte>): (r: seq<Byte>)
    requires off <= |was|
    ensures |r| == Larger(|was|, off + |src|)
    ensures forall i :: 0 <= i < |r| ==> r[i] == if off <= i < off + |src| then src[i - off] else was[i]
  {
    was[..off] + src + (if off + |src| < |was| then was[off + |src|..] else [])
  }

  lemma {:induction false} SplicedContent(d0: Disk, ip0: Inode, sz: nat, d1: Disk, ip1: Inode, off: nat, src: seq<Byte>)
    requires Spliced(d0, ip0, sz, d1, ip1, off, src)
    ensures Bytes(d1, ip1, Larger(sz, off + |src|)) == WriteAt(Bytes(d0, ip0, sz), off, src)
  {
    hide ByteAt;
  }

  /** Two writes in a row are one. */
  lemma {:induction false} WriteAtTwice(was: seq<Byte>, off: nat, a: seq<Byte>, b: seq<Byte>)
    requires off <= |was|
    ensures WriteAt(WriteAt(was, off, a), off + |a|, b) == WriteAt(was, off, a + b)
  {
  }

  /** What was written reads back. */
  lemma {:induction false} ReadBack(was: seq<Byte>, off: nat, src: seq<Byte>)
    requires off <= |was|
    ensures WriteAt(was, off, src)[off..off + |src|] == src
  {
  }

  // ----- Writing the inode back -----

  /** The size alone decides no pointer. */
  lemma {:induction false} Resized(s: Snap, owner: Owners, nb: nat, ind: bool, size: nat)
    requires FsOk(s, owner, nb, ind) && size < UINT_LIMIT
    ensures FsOk(s.(ip := s.ip.(size := size)), owner, nb, ind)
  {
    var t := s.(ip := s.ip.(size := size));
    forall j: nat, k: nat | j < s.sb.ninodes && k < NPTR ensures PtrOk(t, owner, j, k) {
      assert PtrOk(s, owner, j, k);
    }
    forall b | b in owner ensures BackOk(t, owner, b) {
      assert BackOk(s, owner, b);
    }
    ResizedHoles(s.d, s.ip, nb, ind, size);
  }

  lemma {:induction false} ResizedHoles(d: Disk, ip: Inode, nb: nat, ind: bool, size: nat)
    requires NoHoles(d, ip, nb, ind)
    ensures NoHoles(d, ip.(size := size), nb, ind) && SameFile(d, ip, d, ip.(size := size), nb)
  {
    forall bn: nat | bn < MAXFILE ensures BlockAt(d, ip.(size := size), bn) != 0 <==> bn < nb {
      assert BlockAt(d, ip, bn) != 0 <==> bn < nb;
    }
  }

  lemma {:induction false} FsParts(s: Snap, owner: Owners, nb: nat, ind: bool)
    requires FsOk(s, owner, nb, ind)
    ensures OwnersOk(s, owner) && SnapOk(s) && InodeFits(s.ip) && NoHoles(s.d, s.ip, nb, ind)
    ensures NoHoles(s.d, s.ip, nb, s.ip.addrs[NDIRECT] != 0) && |Ino(s, s.inum).addrs| == NDIRECT + 1
  {
    InodeSectors(s, s.inum);
  }

  /** A disk on which no inode but `inum` reads differently, nor any pointer or data block: every file is kept. */
  lemma {:induction false} SameViewKeeps(s: Snap, owner: Owners, nb: nat, ind: bool, t: Snap)
    requires FsOk(s, owner, nb, ind) && SameView(s, t) && t == s.(d := t.d) && HeadKept(s.d, t.d)
    requires forall j: nat :: j < s.sb.ninodes && j != s.inum ==> SameInode(s, t, j)
    requires forall b: nat :: DataStart(s.sb) <= b < |s.d| ==> t.d[b] == s.d[b]
    ensures FsOk(t, owner, nb, ind) && SameFile(s.d, s.ip, t.d, s.ip, nb) && FilesKept(s, t)
  {
    hide FsOk, OwnersOk, NoHoles, SameInode, SamePtrs, InodeFits, FilesKept, SameFile, ReadInode;
    FsParts(s, owner, nb, ind);
    SameViewOk(s, t, owner, nb, ind);
    OwnedInRange(s, owner);
    assert Ino(t, s.inum) == Ino(s, s.inum);
    SparedFile(s, t, owner, s.inum, nb);
    SparedFiles(s, t, owner, nb, ind);
  }
}
