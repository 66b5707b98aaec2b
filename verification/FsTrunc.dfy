/**
 Truncation: itrunc clears the marks of the blocks an inode owns one after the other and only then
 drops the last pointers to them. The state in between is described by the marks cleared so far.
 */
module FsTrunc {
  import opened Blocks
  import opened FsLayout
  import opened FsState
  import opened FsFiles

  /** The blocks that pointers `lo..hi` of inode `inum` lead to. */
  ghost function OwnedBy(owner: Owners, inum: nat, lo: nat, hi: nat): set<nat> {
    set b | b in owner && owner[b].inum == inum && lo <= owner[b].k < hi
  }

  /** Sectors outside the bitmap are as before and exactly the marks of `freed` are gone. */
  ghost predicate Cleared(d0: Disk, d: Disk, sb: Super, freed: set<nat>) {
    && DiskOk(d0, sb) && |d| == |d0|
    && (forall x: nat :: x < |d0| && !(BBlock(sb, 0) <= x < DataStart(sb)) ==> d[x] == d0[x])
    && (forall b: nat :: b < sb.size ==> (Marked(d, sb, b) <==> Marked(d0, sb, b) && b !in freed))
  }

  lemma {:induction false} ClearStep(d0: Disk, d: Disk, sb: Super, freed: set<nat>, b: nat)
    requires Cleared(d0, d, sb, freed) && b < sb.size
    ensures Cleared(d0, SetMark(d, sb, b, false), sb, freed + {b})
  {
    hide Marked;
    var e := SetMark(d, sb, b, false);
    forall c: nat | c < sb.size ensures Marked(e, sb, c) <==> Marked(d0, sb, c) && c !in freed + {b} {
      SetMarkBits(d, sb, b, false, c);
    }
  }

  /** Pointer `k` adds its block, if any, to those of the pointers before it. */
  lemma {:induction false} OwnedNext(s: Snap, owner: Owners, lo: nat, k: nat)
    requires OwnersOk(s, owner) && lo <= k < NPTR
    ensures var b := Ptr(s.d, s.ip, k);
            && OwnedBy(owner, s.inum, lo, k + 1) == OwnedBy(owner, s.inum, lo, k) + (if b == 0 then {} else {b})
            && (b != 0 ==> b < s.sb.size && Marked(s.d, s.sb, b) && b !in OwnedBy(owner, s.inum, lo, k))
  {
    var b := Ptr(s.d, s.ip, k);
    assert s.ip == Ino(s, s.inum);
    OwnBlock(s, owner, s.inum, k);
    hide OwnersOk, Marked, Ptr;
    forall c | c in owner && owner[c].inum == s.inum && owner[c].k == k ensures b != 0 && c == b {
      OwnerPoints(s, owner, c);
    }
  }

  lemma {:induction false} OwnerPoints(s: Snap, owner: Owners, c: nat)
    requires OwnersOk(s, owner) && c in owner && owner[c].inum == s.inum
    ensures owner[c].k < NPTR && Ptr(s.d, s.ip, owner[c].k) == c && c != 0
  {
    assert BackOk(s, owner, c);
  }

  /** The inode that itrunc leaves. */
  function Emptied(ip: Inode): (r: Inode)
    ensures |r.addrs| == NDIRECT + 1
  {
    ip.(addrs := [0, 0, 0, 0, 0, 0, 0, 0, 0, 0, 0, 0, 0], size := 0)
  }

  /** Pointers of the other inodes lead where they led. */
  lemma {:induction false} ClearedSame(s: Snap, owner: Owners, t: Snap, freed: set<nat>, j: nat)
    requires OwnersOk(s, owner) && Cleared(s.d, t.d, s.sb, freed) && j < s.sb.ninodes
    ensures SameInode(s, t, j)
  {
    RegionsApart(s.sb, j, 0);
    InodeSectors(s, j);
    OwnBlock(s, owner, j, NDIRECT);
  }

  lemma {:induction false} DetachedBack(s: Snap, owner: Owners, t: Snap, b: nat)
    requires OwnersOk(s, owner) && Cleared(s.d, t.d, s.sb, OwnedBy(owner, s.inum, 0, NPTR))
    requires t == s.(d := t.d, ip := Emptied(s.ip)) && b in owner - OwnedBy(owner, s.inum, 0, NPTR)
    ensures BackOk(t, owner - OwnedBy(owner, s.inum, 0, NPTR), b)
  {
    hide Marked, Cleared;
    var freed, j, k := OwnedBy(owner, s.inum, 0, NPTR), owner[b].inum, owner[b].k;
    assert BackOk(s, owner, b);
    ClearedSame(s, owner, t, freed, j);
    assert Ptr(t.d, Ino(s, j), k) == Ptr(s.d, Ino(s, j), k);
    ClearedMark(s.d, t.d, s.sb, freed, b);
  }

  lemma {:induction false} DetachedOwners(s: Snap, owner: Owners, t: Snap)
    requires OwnersOk(s, owner) && Cleared(s.d, t.d, s.sb, OwnedBy(owner, s.inum, 0, NPTR))
    requires t == s.(d := t.d, ip := Emptied(s.ip))
    ensures OwnersOk(t, owner - OwnedBy(owner, s.inum, 0, NPTR))
  {
    var freed := OwnedBy(owner, s.inum, 0, NPTR);
    var owner' := owner - freed;
    hide Marked, Cleared;
    assert SnapOk(t) by { ClearedSize(s.d, t.d, s.sb, freed); }
    forall j: nat, k: nat | j < s.sb.ninodes && k < NPTR ensures PtrOk(t, owner', j, k) {
      if j != s.inum {
        ClearedSame(s, owner, t, freed, j);
        assert PtrOk(s, owner, j, k);
        assert Ptr(t.d, Ino(s, j), k) == Ptr(s.d, Ino(s, j), k);
      }
    }
    forall b | b in owner' ensures BackOk(t, owner', b) {
      DetachedBack(s, owner, t, b);
    }
    forall b: nat | b < DataStart(s.sb) ensures Marked(t.d, s.sb, b) {
      assert b in freed ==> BackOk(s, owner, b);
      ClearedMark(s.d, t.d, s.sb, freed, b);
    }
  }

  lemma {:induction false} ClearedSize(d0: Disk, d: Disk, sb: Super, freed: set<nat>)
    requires Cleared(d0, d, sb, freed)
    ensures DiskOk(d, sb)
  {
  }

  lemma {:induction false} ClearedMark(d0: Disk, d: Disk, sb: Super, freed: set<nat>, b: nat)
    requires Cleared(d0, d, sb, freed) && b < sb.size
    ensures DiskOk(d0, sb) && DiskOk(d, sb) && (Marked(d, sb, b) <==> Marked(d0, sb, b) && b !in freed)
  {
  }

  /** With the marks of all its blocks cleared and its pointers dropped, the inode is sound and empty. */
  lemma {:induction false} DetachedOk(s: Snap, owner: Owners, nb: nat, ind: bool, t: Snap)
    requires FsOk(s, owner, nb, ind) && Cleared(s.d, t.d, s.sb, OwnedBy(owner, s.inum, 0, NPTR))
    requires t == s.(d := t.d, ip := Emptied(s.ip))
    ensures FsOk(t, owner - OwnedBy(owner, s.inum, 0, NPTR), 0, false) && FilesKept(s, t)
  {
    var freed := OwnedBy(owner, s.inum, 0, NPTR);
    DetachedOwners(s, owner, t);
    forall j: nat | j < s.sb.ninodes && j != s.inum ensures SameInode(s, t, j) {
      ClearedSame(s, owner, t, freed, j);
    }
    assert NoHoles(t.d, t.ip, 0, false);
    OwnedInRange(s, owner);
    hide OwnersOk, NoHoles, SamePtrs;
    SparedFiles(s, t, owner, nb, ind);
    forall j: nat | j < s.sb.ninodes && j != s.inum ensures AtRest(t.d, ReadInode(t.d, j)) {
      assert SameInode(s, t, j) && AtRest(s.d, ReadInode(s.d, j));
      var ip := ReadInode(s.d, j);
      SameHoles(s.d, t.d, ip, NBlocks(ip.size), NBlocks(ip.size) > NDIRECT);
    }
  }

  /** Freeing one more pointer's block, once those of `done` and of the pointers `lo..k` are freed. */
  lemma {:induction false} FreeNext(s: Snap, owner: Owners, d: Disk, done: set<nat>, lo: nat, k: nat)
    requires OwnersOk(s, owner) && lo <= k < NPTR
    requires Cleared(s.d, d, s.sb, done + OwnedBy(owner, s.inum, lo, k))
    requires forall b :: b in done ==> b in owner && owner[b].inum == s.inum && owner[b].k != k
    ensures var b := Ptr(s.d, s.ip, k);
            && (b == 0 ==> Cleared(s.d, d, s.sb, done + OwnedBy(owner, s.inum, lo, k + 1)))
            && (b != 0 ==> b < s.sb.size && DiskOk(d, s.sb) && Marked(d, s.sb, b))
            && (b != 0 ==> Cleared(s.d, SetMark(d, s.sb, b, false), s.sb, done + OwnedBy(owner, s.inum, lo, k + 1)))
  {
    var b := Ptr(s.d, s.ip, k);
    assert s.ip == Ino(s, s.inum);
    OwnBlock(s, owner, s.inum, k);
    OwnedNext(s, owner, lo, k);
    hide Cleared, Marked, OwnersOk, Ptr;
    var freed := done + OwnedBy(owner, s.inum, lo, k);
    if b == 0 {
      assert freed == done + OwnedBy(owner, s.inum, lo, k + 1);
    } else {
      ClearedMark(s.d, d, s.sb, freed, b);
      ClearStep(s.d, d, s.sb, freed, b);
      assert freed + {b} == done + OwnedBy(owner, s.inum, lo, k + 1);
    }
  }

  lemma {:induction false} AllOwned(s: Snap, owner: Owners)
    requires OwnersOk(s, owner)
    ensures OwnedBy(owner, s.inum, 0, NDIRECT) + OwnedBy(owner, s.inum, NDIRECT + 1, NPTR) + OwnedBy(owner, s.inum, NDIRECT, NDIRECT + 1)
      == OwnedBy(owner, s.inum, 0, NPTR)
    ensures forall b :: b in OwnedBy(owner, s.inum, 0, NPTR) <==> b in owner && owner[b].inum == s.inum
    ensures s.ip.addrs[NDIRECT] == 0 ==> OwnedBy(owner, s.inum, 0, NDIRECT) == OwnedBy(owner, s.inum, 0, NPTR)
  {
    assert |s.ip.addrs| == NDIRECT + 1;
    hide OwnersOk;
    forall b | b in owner && owner[b].inum == s.inum
      ensures owner[b].k < NPTR && (s.ip.addrs[NDIRECT] == 0 ==> owner[b].k < NDIRECT)
    {
      OwnedPlace(s, owner, b);
    }
  }

  lemma {:induction false} OwnedPlace(s: Snap, owner: Owners, b: nat)
    requires OwnersOk(s, owner) && b in owner && owner[b].inum == s.inum
    ensures owner[b].k < NPTR && (s.ip.addrs[NDIRECT] == 0 ==> owner[b].k < NDIRECT)
  {
    assert BackOk(s, owner, b);
  }

  /** Before the entries of the indirect block are freed: the block is intact and they are not among those freed. */
  lemma {:induction false} EntriesLeft(s: Snap, owner: Owners, d: Disk)
    requires OwnersOk(s, owner) && s.ip.addrs[NDIRECT] != 0
    requires Cleared(s.d, d, s.sb, OwnedBy(owner, s.inum, 0, NDIRECT))
    ensures var ib, done := s.ip.addrs[NDIRECT], OwnedBy(owner, s.inum, 0, NDIRECT);
            && ib < |d|
            && (forall j: nat :: j < NINDIRECT ==> GetWord(d[ib], j) == Ptr(s.d, s.ip, NDIRECT + 1 + j))
            && (forall b :: b in done ==> b in owner && owner[b].inum == s.inum && owner[b].k < NDIRECT)
            && Cleared(s.d, d, s.sb, done + OwnedBy(owner, s.inum, NDIRECT + 1, NDIRECT + 1))
  {
    var ib, done := s.ip.addrs[NDIRECT], OwnedBy(owner, s.inum, 0, NDIRECT);
    assert ib == Ptr(s.d, Ino(s, s.inum), NDIRECT);
    OwnBlock(s, owner, s.inum, NDIRECT);
    assert done + OwnedBy(owner, s.inum, NDIRECT + 1, NDIRECT + 1) == done;
  }

  lemma {:induction false} NothingFreed(s: Snap, owner: Owners)
    requires OwnersOk(s, owner)
    ensures |s.ip.addrs| == NDIRECT + 1 && Cleared(s.d, s.d, s.sb, {} + OwnedBy(owner, s.inum, 0, 0))
  {
  }

  /** Truncation has cleared the marks of the inode's blocks and no others. */
  lemma {:induction false} FreedMarks(s: Snap, owner: Owners, d: Disk, e: Disk, b: nat)
    requires OwnersOk(s, owner) && Cleared(s.d, d, s.sb, OwnedBy(owner, s.inum, 0, NPTR)) && DiskOk(e, s.sb)
    requires b < s.sb.size && (Marked(e, s.sb, b) <==> Marked(d, s.sb, b))
    ensures Marked(e, s.sb, b) <==> Marked(s.d, s.sb, b) && !(b in owner && owner[b].inum == s.inum)
  {
    hide OwnersOk, Marked;
    AllOwned(s, owner);
  }
}
