/**
 Names on the disk: a directory is a file of 16-byte records, and the inodes and directories of the disk are the
 ones that the link counts speak of. The disk writes of link, unlink and create change exactly what those calls
 change, and a crash leaves all of it or nothing.
 */
module DiskNames {
  import opened Options
  import opened Blocks
  import opened Paths
  import opened FsLayout
  import opened FsState
  import opened FsAlloc
  import opened FsFiles
  import opened FsOps
  import opened FileLayer
  import opened FsCrash
  import Namespace
  import Dirs
  import Links
  import Wal
  import Crash
  import LogDisk
  import LogLayer
  import Transactions
  import Recovery

  const DIRENT := 16   // bytes of a directory entry: the inode number and DIRSIZ characters

  // ----- Directory entries as bytes -----

  /** The entry fits its record: a short inode number and a name of bytes that are not NUL. */
  predicate EntryFits(e: Namespace.Dirent) {
    e.inum < SHORT && |e.name| <= DIRSIZ && forall i :: 0 <= i < |e.name| ==> 0 < e.name[i] as int < 256
  }

  /** The name's characters, filled up with NULs. */
  function NameBytes(name: string, n: nat): (r: seq<Byte>)
    requires forall i :: 0 <= i < |name| ==> 0 < name[i] as int < 256
    ensures |r| == n && forall i :: 0 <= i < n ==> r[i] == if i < |name| then name[i] as int else 0
  {
    if n == 0 then [] else NameBytes(name, n - 1) + [if n - 1 < |name| then name[n - 1] as int else 0]
  }

  function EncodeEntry(e: Namespace.Dirent): (r: seq<Byte>)
    requires EntryFits(e)
    ensures |r| == DIRENT && LittleEndian(r[..2]) == e.inum
    ensures forall i :: 0 <= i < DIRSIZ ==> r[2 + i] == if i < |e.name| then e.name[i] as int else 0
  {
    var r := [e.inum % 256, e.inum / 256] + NameBytes(e.name, DIRSIZ);
    assert r[..2][1..][1..] == [] && LittleEndian(r[..2][1..]) == r[1];
    r
  }

  /** The characters up to the first NUL. */
  function DecodeName(b: seq<Byte>): string {
    if b == [] || b[0] == 0 then "" else [b[0] as char] + DecodeName(b[1..])
  }

  function DecodeEntry(b: seq<Byte>): Namespace.Dirent
    requires |b| == DIRENT
  {
    Namespace.Dirent(b[0] as int + 256 * (b[1] as int), DecodeName(b[2..]))
  }

  lemma {:induction false} NameRoundTrip(name: string, b: seq<Byte>)
    requires |name| <= |b| && forall i :: 0 <= i < |name| ==> 0 < name[i] as int < 256
    requires forall i :: 0 <= i < |b| ==> b[i] == if i < |name| then name[i] as int else 0
    ensures DecodeName(b) == name
  {
    if name != "" {
      NameRoundTrip(name[1..], b[1..]);
    }
  }

  /** An entry reads back as it was stored. */
  lemma {:induction false} EntryRoundTrip(e: Namespace.Dirent)
    requires EntryFits(e)
    ensures DecodeEntry(EncodeEntry(e)) == e
  {
    NameRoundTrip(e.name, EncodeEntry(e)[2..]);
  }

  /** The entries of a directory file. */
  function DecodeDir(c: seq<Byte>): (es: seq<Namespace.Dirent>)
    ensures |es| == |c| / DIRENT
    ensures forall i :: 0 <= i < |es| ==> es[i] == DecodeEntry(c[DIRENT * i..DIRENT * i + DIRENT])
  {
    seq(|c| / DIRENT, i requires 0 <= i < |c| / DIRENT => DecodeEntry(c[DIRENT * i..DIRENT * i + DIRENT]))
  }

  /** Writing one record changes that entry, or adds it at the end. */
  lemma {:induction false} EntryWritten(c: seq<Byte>, k: nat, e: Namespace.Dirent)
    requires |c| % DIRENT == 0 && k <= |c| / DIRENT && EntryFits(e)
    ensures DecodeDir(WriteAt(c, DIRENT * k, EncodeEntry(e))) == Namespace.PutEntry(DecodeDir(c), k, e)
  {
    hide EncodeEntry, DecodeEntry;
    var w := WriteAt(c, DIRENT * k, EncodeEntry(e));
    EntryRoundTrip(e);
    forall i | 0 <= i < |DecodeDir(w)| ensures DecodeDir(w)[i] == Namespace.PutEntry(DecodeDir(c), k, e)[i] {
      if i == k {
        assert w[DIRENT * i..DIRENT * i + DIRENT] == EncodeEntry(e);
      } else {
        assert w[DIRENT * i..DIRENT * i + DIRENT] == c[DIRENT * i..DIRENT * i + DIRENT];
      }
    }
  }

  /** A directory has as many entries as the largest file has room for. */
  lemma {:induction false} LargestDir(k: nat)
    ensures k < Dirs.MAXENTRIES <==> DIRENT * k + DIRENT <= MAXFILE * BSIZE
  {
  }

  // ----- The inodes of a disk -----

  function NodeOn(d: Disk, ip: Inode): Namespace.Node {
    Namespace.Node(ip.typ, ip.nlink, if ip.typ == Namespace.T_DIR then DecodeDir(Content(d, ip)) else [])
  }

  /** The inodes and directories that the disk holds. */
  function NodesOn(d: Disk, sb: Super): (s: Namespace.Nodes)
    requires |d| == sb.size && DataStart(sb) <= sb.size
    ensures |s| == sb.ninodes
    ensures forall j :: 0 <= j < sb.ninodes ==> IBlock(j) < |d| && s[j] == NodeOn(d, ReadInode(d, j))
  {
    assert forall j :: 0 <= j < sb.ninodes ==> j / IPB <= sb.ninodes / IPB;
    seq(sb.ninodes, j requires 0 <= j < sb.ninodes => NodeOn(d, ReadInode(d, j)))
  }

  /** Where only one file changed, only its node did. */
  lemma {:induction false} OneNode(s: Snap, t: Snap)
    requires FilesKept(s, t)
    ensures IBlock(s.inum) < |t.d|
    ensures NodesOn(t.d, s.sb) == NodesOn(s.d, s.sb)[s.inum := NodeOn(t.d, ReadInode(t.d, s.inum))]
  {
    hide ReadInode, Content, NodeOn;
    InodeSectors(s, s.inum);
    var a, b := NodesOn(s.d, s.sb), NodesOn(t.d, s.sb);
    forall j: nat | j < s.sb.ninodes && j != s.inum ensures b[j] == a[j] {
      assert FileKept(s, t, j);
      SameNode(s, t, j);
    }
  }

  lemma {:induction false} SameNode(s: Snap, t: Snap, j: nat)
    requires SnapOk(s) && j < s.sb.ninodes && FileKept(s, t, j)
    ensures NodeOn(t.d, ReadInode(t.d, j)) == NodeOn(s.d, ReadInode(s.d, j))
  {
    hide ReadInode, Content;
    KeptContent(s, t, j);
  }

  // ----- From one inode to another -----

  lemma {:induction false} ReadFits(d: Disk, j: nat)
    requires IBlock(j) < |d|
    ensures InodeFits(ReadInode(d, j))
  {
    hide GetWord;
    var ws := GetWords(d[IBlock(j)], INODE_WORDS * (j % IPB), INODE_WORDS);
    assert forall k :: 0 <= k < INODE_WORDS ==> ws[k] < UINT_LIMIT;
  }

  /** A sound file system at rest is sound whichever inode is looked at. */
  lemma {:induction false} Refocus(s: Snap, owner: Owners, j: nat)
    requires Settled(s, owner) && j < s.sb.ninodes
    ensures IBlock(j) < |s.d| && Settled(Snap(s.d, s.sb, j, ReadInode(s.d, j)), owner)
  {
    hide ReadInode, Ptr, NoHoles, Marked, InodeFits;
    InodeSectors(s, j);
    InodeSectors(s, s.inum);
    ReadFits(s.d, j);
    var t := Snap(s.d, s.sb, j, ReadInode(s.d, j));
    forall i: nat, k: nat | i < s.sb.ninodes && k < NPTR ensures PtrOk(t, owner, i, k) {
      InodeSectors(s, i);
      assert PtrOk(s, owner, i, k) && Ino(t, i) == Ino(s, i);
    }
    forall b | b in owner ensures BackOk(t, owner, b) {
      assert BackOk(s, owner, b);
      InodeSectors(s, owner[b].inum);
      assert Ino(t, owner[b].inum) == Ino(s, owner[b].inum);
    }
    forall i: nat | i < s.sb.ninodes ensures AtRest(s.d, ReadInode(s.d, i)) {
      assert i != s.inum ==> AtRest(s.d, ReadInode(s.d, i));
    }
  }

  /** Type and link count have no bearing on the blocks. */
  lemma {:induction false} Restamped(s: Snap, owner: Owners, nb: nat, ind: bool, typ: nat, nlink: nat)
    requires FsOk(s, owner, nb, ind) && typ < SHORT && nlink < SHORT
    ensures FsOk(s.(ip := s.ip.(typ := typ, nlink := nlink)), owner, nb, ind)
  {
    var t := s.(ip := s.ip.(typ := typ, nlink := nlink));
    hide Marked, GetWord;
    forall j: nat, k: nat | j < s.sb.ninodes && k < NPTR ensures PtrOk(t, owner, j, k) {
      assert PtrOk(s, owner, j, k);
    }
    forall b | b in owner ensures BackOk(t, owner, b) {
      assert BackOk(s, owner, b);
    }
    assert forall bn: nat :: bn < MAXFILE ==> BlockAt(s.d, t.ip, bn) == BlockAt(s.d, s.ip, bn);
  }

  /** The file system at rest, seen from its first inode. */
  ghost predicate AtEase(fs: FileSys)
    reads fs`disk, fs`owner
  {
    && 0 < fs.sb.ninodes && DiskOk(fs.disk, fs.sb) && IBlock(0) < |fs.disk|
    && Settled(Snap(fs.disk, fs.sb, 0, ReadInode(fs.disk, 0)), fs.owner)
  }

  ghost predicate SameInodeOn(d: Disk, e: Disk, i: nat) {
    IBlock(i) < |d| && IBlock(i) < |e| && ReadInode(e, i) == ReadInode(d, i)
  }

  /** iupdate of an inode whose type or link count changed. */
  method SetInode(fs: FileSys, j: nat, typ: nat, nlink: nat)
    requires fs.Tracks() && AtEase(fs) && j < fs.sb.ninodes && typ < SHORT && nlink < SHORT
    requires typ != Namespace.T_DIR && NodesOn(fs.disk, fs.sb)[j].typ != Namespace.T_DIR
    modifies fs`disk, fs`logged, fs`cur
    ensures fs.Tracks() && AtEase(fs)
    ensures NodesOn(fs.disk, fs.sb) == old(NodesOn(fs.disk, fs.sb))[j := Namespace.Node(typ, nlink, [])]
    ensures forall i: nat :: i < fs.sb.ninodes && i != j ==> SameInodeOn(old(fs.disk), fs.disk, i)
    ensures fs.logged == old(fs.logged) + {IBlock(j)} && TakesN(fs.sb, old(fs.Ledger()), fs.Ledger(), 0)
  {
    hide FsOk, ReadInode, Content, TakesN, FilesKept, SameFile, Wal.Effect, Sectors, Marked;
    ghost var d0 := fs.disk;
    Refocus(Snap(fs.disk, fs.sb, 0, ReadInode(fs.disk, 0)), fs.owner, j);
    var ip := ReadInode(fs.disk, j);
    ReadFits(fs.disk, j);
    ghost var s, nb := Snap(fs.disk, fs.sb, j, ip), NBlocks(ip.size);
    Restamped(s, fs.owner, nb, nb > NDIRECT, typ, nlink);
    ip := ip.(typ := typ, nlink := nlink);
    fs.Iupdate(j, ip, nb, nb > NDIRECT);
    ghost var t := Snap(fs.disk, fs.sb, j, ip);
    KeptFrom(s, Snap(d0, fs.sb, j, ip), t);
    OneNode(s, t);
    Refocus(t, fs.owner, 0);
    OthersRead(s, t);
  }

  lemma {:induction false} KeptFrom(s: Snap, s': Snap, t: Snap)
    requires FilesKept(s', t) && s' == s.(ip := s'.ip) && |s.ip.addrs| == NDIRECT + 1
    ensures FilesKept(s, t)
  {
    hide ReadInode, SameFile;
    forall j: nat | j < s.sb.ninodes && j != s.inum ensures FileKept(s, t, j) {
      assert FileKept(s', t, j);
    }
  }

  lemma {:induction false} OthersRead(s: Snap, t: Snap)
    requires FilesKept(s, t)
    ensures forall i: nat :: i < s.sb.ninodes && i != s.inum ==> SameInodeOn(s.d, t.d, i)
  {
    hide ReadInode;
    forall i: nat | i < s.sb.ninodes && i != s.inum ensures SameInodeOn(s.d, t.d, i) {
      InodeSectors(s, i);
      assert FileKept(s, t, i);
    }
  }

  /** A record lies in one block. */
  lemma {:induction false} OneBlock(k: nat, data: set<nat>, ip: Inode)
    requires |data| <= Touched(DIRENT * k, DIRENT)
    ensures |data + IndSet(ip)| <= 2
  {
    assert (DIRENT * k + DIRENT - 1) / BSIZE == DIRENT * k / BSIZE;
    assert |data + IndSet(ip)| <= |data| + |IndSet(ip)|;
  }

  /** writei of one directory entry, as dirlink and sys_unlink do it. */
  method PutRecord(fs: FileSys, d: nat, k: nat, e: Namespace.Dirent) returns (ok: bool, ghost data: set<nat>)
    requires fs.Tracks() && AtEase(fs) && d < fs.sb.ninodes && EntryFits(e)
    requires IBlock(d) < |fs.disk| && ReadInode(fs.disk, d).typ == Namespace.T_DIR
    requires ReadInode(fs.disk, d).size % DIRENT == 0 && k <= ReadInode(fs.disk, d).size / DIRENT
    requires DIRENT * k + DIRENT <= MAXFILE * BSIZE
    modifies fs`disk, fs`owner, fs`logged, fs`cur
    ensures fs.Tracks()
    ensures var size := old(ReadInode(fs.disk, d)).size;
      && (!ok ==> Full(fs.disk, fs.sb) && TakesFewer(fs.sb, old(fs.Ledger()), fs.Ledger(), Needs(size, DIRENT * k + DIRENT)))
      && (ok ==> TakesN(fs.sb, old(fs.Ledger()), fs.Ledger(), Needs(size, DIRENT * k + DIRENT)))
    ensures ok ==>
      && AtEase(fs) && |data| <= 2 && data <= fs.owner.Keys
      && fs.logged <= old(fs.logged) + BitmapSectors(fs.sb) + data + {IBlock(d)}
      && k <= |old(NodesOn(fs.disk, fs.sb))[d].entries|
      && NodesOn(fs.disk, fs.sb) == old(NodesOn(fs.disk, fs.sb))[d := Namespace.WithEntry(old(NodesOn(fs.disk, fs.sb))[d], k, e)]
  {
    hide FsOk, ReadInode, Content, TakesN, TakesFewer, Needs, FilesKept, SameFile, Wal.Effect, Sectors, Marked, Full, BitmapSectors,
      NBlocks, WriteAt;
    ghost var d0 := fs.disk;
    Refocus(Snap(fs.disk, fs.sb, 0, ReadInode(fs.disk, 0)), fs.owner, d);
    var dp := ReadInode(fs.disk, d);
    ghost var s := Snap(fs.disk, fs.sb, d, dp);
    var src := EncodeEntry(e);
    var r, dp';
    r, dp', data := fs.Writei(d, dp, src, DIRENT * k);
    ok := r.Some?;
    if ok {
      ghost var t := Snap(fs.disk, fs.sb, d, dp');
      OneBlock(k, data, dp');
      data := data + IndSet(dp');
      OneNode(s, t);
      EntryWritten(Content(d0, dp), k, e);
      Refocus(t, fs.owner, 0);
    }
  }

  // ----- The calls -----

  /** Inode `j`, not a directory, gets this type and link count, and entry `k` of directory `d` becomes `e`. */
  function Relinked(s: Namespace.Nodes, j: nat, typ: nat, nlink: nat, d: nat, k: nat, e: Namespace.Dirent): Namespace.Nodes
    requires j < |s| && d < |s| && k <= |s[d].entries|
  {
    s[j := Namespace.Node(typ, nlink, [])][d := Namespace.WithEntry(s[d], k, e)]
  }

  /** A successful link changes the inodes so, */
  lemma {:induction false} LinkRelinks(s: Namespace.Nodes, t: Namespace.Nodes, j: nat, d: nat, name: string) returns (k: nat)
    requires Links.GainedLink(s, t, Some(j), Some(d), name) && s[j].entries == [] && j != d
    ensures k <= |s[d].entries| && t == Relinked(s, j, s[j].typ, s[j].nlink + 1, d, k, Namespace.Dirent(j, name))
  {
    k :| Dirs.Entered(Links.Raise(s, j), t, d, k, Namespace.Dirent(j, name));
  }

  /** so does a successful create of a file, */
  lemma {:induction false} CreateRelinks(s: Namespace.Nodes, t: Namespace.Nodes, d: nat, name: string, j: nat, typ: nat) returns (k: nat)
    requires Links.NewNode(s, t, d, name, j, typ) && typ != Namespace.T_DIR
    ensures k <= |s[d].entries| && t == Relinked(s, j, typ, 1, d, k, Namespace.Dirent(j, name))
  {
    k :| 0 <= k <= |s[d].entries| && t == Links.Placed(s, d, k, name, j, typ);
  }

  /** and a successful unlink of a file that is not freed. */
  lemma {:induction false} UnlinkRelinks(s: Namespace.Nodes, t: Namespace.Nodes, c: Dirs.Slots, d: nat, k: nat)
    requires Links.LostLink(s, t, c, d, k)
    requires var j := s[d].entries[k].inum; s[j].typ != Namespace.T_DIR && s[j].entries == [] && (s[j].nlink > 1 || Dirs.Refs(c, j) > 0)
    ensures var j := s[d].entries[k].inum; t == Relinked(s, j, s[j].typ, s[j].nlink - 1, d, k, Namespace.EMPTY)
  {
    hide Dirs.Refs;
  }

  /** What the calls below ask of the disk: a file or free inode `j`, and a place `k` in directory `d`. */
  ghost predicate Linkable(d0: Disk, sb: Super, j: nat, d: nat, k: nat) {
    && DiskOk(d0, sb) && j < sb.ninodes && d < sb.ninodes && j != d
    && NodesOn(d0, sb)[j].typ != Namespace.T_DIR && NodesOn(d0, sb)[d].typ == Namespace.T_DIR
    && ReadInode(d0, d).size % DIRENT == 0 && k <= ReadInode(d0, d).size / DIRENT && DIRENT * k + DIRENT <= MAXFILE * BSIZE
  }

  /**
   The disk writes of the calls that change names, in one transaction: of link, with one link more and the new
   name; of create, for a file, with a free inode, its type and one link; of unlink, with one link less and an
   empty entry, which it writes before the inode. The inodes on the disk change as the calls say.
   */
  method Relink(fs: FileSys, j: nat, typ: nat, nlink: nat, d: nat, k: nat, e: Namespace.Dirent, entryFirst: bool)
    returns (ok: bool, ghost data: set<nat>)
    requires fs.Tracks() && AtEase(fs) && Linkable(fs.disk, fs.sb, j, d, k)
    requires typ < SHORT && nlink < SHORT && typ != Namespace.T_DIR && EntryFits(e)
    modifies fs`disk, fs`owner, fs`logged, fs`cur
    ensures fs.Tracks()
    ensures var n := Needs(old(ReadInode(fs.disk, d)).size, DIRENT * k + DIRENT);
      && (!ok ==> Full(fs.disk, fs.sb) && TakesFewer(fs.sb, old(fs.Ledger()), fs.Ledger(), n))
      && (ok ==> TakesN(fs.sb, old(fs.Ledger()), fs.Ledger(), n))
    ensures SparesHead(old(fs.Ledger()), fs.Ledger())
    ensures ok ==>
      && AtEase(fs) && |data| <= 2 && data <= fs.owner.Keys
      && fs.logged <= old(fs.logged) + BitmapSectors(fs.sb) + data + {IBlock(j), IBlock(d)}
      && k <= |old(NodesOn(fs.disk, fs.sb))[d].entries|
      && NodesOn(fs.disk, fs.sb) == Relinked(old(NodesOn(fs.disk, fs.sb)), j, typ, nlink, d, k, e)
  {
    hide Settled, ReadInode, Content, TakesN, TakesFewer, Needs, Wal.Effect, Sectors, Marked, Full, BitmapSectors, AtEase, DecodeDir,
      SparesHead;
    ghost var a, size := fs.Ledger(), ReadInode(fs.disk, d).size;
    ghost var n := Needs(size, DIRENT * k + DIRENT);
    if entryFirst {
      ok, data := PutRecord(fs, d, k, e);
      if ok {
        ghost var b := fs.Ledger();
        SetInode(fs, j, typ, nlink);
        TakesMore(fs.sb, a, b, fs.Ledger(), n, 0);
      }
    } else {
      SetInode(fs, j, typ, nlink);
      assert SameInodeOn(a.d, fs.disk, d);
      ghost var b := fs.Ledger();
      ok, data := PutRecord(fs, d, k, e);
      TakesMore(fs.sb, a, b, fs.Ledger(), 0, n);
    }
    TookSpares(fs.sb, a, fs.Ledger(), n);
  }

  lemma {:induction false} LinkableParts(d0: Disk, sb: Super, j: nat, d: nat, k: nat)
    requires Linkable(d0, sb, j, d, k)
    ensures DiskOk(d0, sb) && j < sb.ninodes && d < sb.ninodes && IBlock(d) < |d0|
  {
    hide ReadInode, NodeOn;
    assert |NodesOn(d0, sb)| == sb.ninodes;
  }

  /** The home sectors are those of a disk that holds the inodes `s`. */
  ghost predicate Holding(home: seq<Block>, sb: Super, s: Namespace.Nodes) {
    exists d: Disk :: |home| <= |d| == sb.size && DataStart(sb) <= sb.size && d[..|home|] == home && NodesOn(d, sb) == s
  }

  /**
   A call that changes names and a crash: after any number of crashes and reboots the disk holds the names of
   before the call or those of after it, and the latter if all sector writes were made.
   */
  method RelinkAndCrash(fs: FileSys, log: LogLayer.Log, j: nat, typ: nat, nlink: nat, d: nat, k: nat, e: Namespace.Dirent,
                        entryFirst: bool, cut: nat, ks: seq<nat>)
    returns (after: LogLayer.Log)
    requires AtEase(fs) && Linkable(fs.disk, fs.sb, j, d, k) && fs.sb.size <= BPB
    requires typ < SHORT && nlink < SHORT && typ != Namespace.T_DIR && EntryFits(e)
    requires log.Valid() && !log.busy && LogLayer.Idle(log.bc.buf) && MAX_LOGGED < log.size - 1
    requires DataStart(fs.sb) <= log.start <= fs.sb.size && log.bc.disk[..log.start] == fs.disk[..log.start]
    requires AllUnder(fs.owner.Keys, log.start)
    requires Needs(ReadInode(fs.disk, d).size, DIRENT * k + DIRENT) <= |FreeBelow(fs.disk, fs.sb, log.start)|
    modifies fs, log, log.bc
    ensures after.Valid() && after.start == log.start && AllUnder(fs.owner.Keys, log.start)
    ensures after.bc.disk[..2] == old(fs.disk)[..2] && fs.done == old(fs.done) + [fs.cur]
    ensures var s := old(NodesOn(fs.disk, fs.sb));
      && k <= |s[d].entries| && old(log.bc.writes) <= log.bc.writes
      && (Holding(after.bc.disk[..log.start], fs.sb, s)
          || Holding(after.bc.disk[..log.start], fs.sb, Relinked(s, j, typ, nlink, d, k, e)))
      && (cut >= |log.bc.writes| - |old(log.bc.writes)| ==>
            Holding(after.bc.disk[..log.start], fs.sb, Relinked(s, j, typ, nlink, d, k, e)))
  {
    hide Settled, ReadInode, TakesN, TakesFewer, Needs, Wal.Effect, Sectors, Marked, Full, BitmapSectors, AtEase, NodeOn, FreeBelow,
         AllUnder, Crash.AfterTxns, Crash.AllFit, Crash.RunWrites, Crash.Committed, Wal.TxnHead, Transactions.EachSmall,
         LogLayer.Idle, Below, LogDisk.DecodeHead, Relinked, Holding, AllSmall, Linkable, NodesOn, EntryFits, AllBelow, SparesHead,
         HeadKept, Recovery.Cut, Crash.Reboots, Wal.LogOk;
    LinkableParts(fs.disk, fs.sb, j, d, k);
    ghost var d0, owner0, a := fs.disk, fs.owner, Books(fs.disk, fs.owner, {});
    ghost var n, s := Needs(ReadInode(fs.disk, d).size, DIRENT * k + DIRENT), NodesOn(fs.disk, fs.sb);
    fs.BeginTrans();
    var ok;
    ghost var data;
    ok, data := Relink(fs, j, typ, nlink, d, k, e, entryFirst);
    if !ok {
      RoomLasts(fs.sb, a, fs.Ledger(), n, log.start);
      assert false;
    }
    RelinkBelow(fs.sb, j, d, a, fs.Ledger(), data, n, log.start, fs.cur);
    var t := fs.cur;
    fs.CommitTrans();
    SmallFit([t], log.start, log.size - 1);
    ghost var view := LogDisk.View(log.bc.disk, log.start);
    ghost var made;
    after, made := Recovery.Survive(log, [t], cut, ks);
    ghost var p := Crash.Committed(view, [t], made);
    SparedHead(a, Books(fs.disk, fs.owner, fs.logged));
    EitherDisk(d0, fs.disk, t, p, log.start, fs.sb);
  }

  /** With room below the log, the transaction stays below it and is small. */
  lemma {:induction false} RelinkBelow(sb: Super, j: nat, d: nat, a: Books, b: Books, data: set<nat>, n: int, start: nat, t: Wal.Txn)
    requires TakesN(sb, a, b, n) && a.logged == {} && b.logged == Sectors(t) && DiskOk(a.d, sb) && sb.size <= BPB
    requires b.logged <= BitmapSectors(sb) + data + {IBlock(j), IBlock(d)} && |data| <= 2 && data <= b.owner.Keys
    requires j < sb.ninodes && d < sb.ninodes && DataStart(sb) <= start <= sb.size && AllUnder(a.owner.Keys, start)
    requires n <= |FreeBelow(a.d, sb, start)|
    ensures AllSmall([t]) && AllBelow([t], start) && AllUnder(b.owner.Keys, start)
  {
    hide Takes, BitmapSectors, IBlock, AllUnder, FreeBelow, Sectors, Wal.TxnHead, Below;
    KeysKept(sb, a, b);
    UnderIfEnough(sb, a, b, start);
    RelinkUnder(sb, j, d, a, b, data, start);
    BelowSectors(t, start);
    HeadSectors(t);
    FewSectors(sb, data, IBlock(j), IBlock(d), b.logged);
  }

  lemma {:induction false} RelinkUnder(sb: Super, j: nat, d: nat, a: Books, b: Books, data: set<nat>, start: nat)
    requires a.owner.Keys <= b.owner.Keys && Taken(a, b) <= b.logged && AllUnder(Taken(a, b), start) && AllUnder(a.owner.Keys, start)
    requires b.logged <= BitmapSectors(sb) + data + {IBlock(j), IBlock(d)} && data <= b.owner.Keys
    requires j < sb.ninodes && d < sb.ninodes && DataStart(sb) <= start && 0 < sb.size
    ensures AllUnder(b.logged, start) && AllUnder(b.owner.Keys, start)
  {
    hide BitmapSectors, IBlock;
    MetadataUnder(sb, j, start);
    MetadataUnder(sb, d, start);
    forall x | x in b.owner.Keys ensures x < start {
      assert x in a.owner.Keys || x in Taken(a, b);
    }
    forall x | x in b.logged ensures x < start {
      assert x in BitmapSectors(sb) + {IBlock(j)} || x in BitmapSectors(sb) + {IBlock(d)} || x in b.owner.Keys;
    }
  }

  lemma {:induction false} FewSectors(sb: Super, data: set<nat>, x: nat, y: nat, logged: set<nat>)
    requires sb.size <= BPB && |data| <= 2 && logged <= BitmapSectors(sb) + data + {x, y}
    ensures |logged| <= MAX_LOGGED
  {
    var b := sb.ninodes / IPB + 3;
    forall c | c in BitmapSectors(sb) ensures c == b {
    }
    var all := data + {b} + {x} + {y};
    assert logged <= all;
    Fewer(logged, all);
  }

  lemma {:induction false} EitherDisk(d0: Disk, d1: Disk, t: Wal.Txn, p: nat, start: nat, sb: Super)
    requires p <= 1 && AllBelow([t], start) && d1 == Wal.Effect(d0, t) && start <= |d0| == |d1| == sb.size && DataStart(sb) <= sb.size
    ensures Holding(Crash.AfterTxns(d0[..start], [t][..p]), sb, NodesOn(if p == 0 then d0 else d1, sb))
    ensures HeadKept(d0, d1) && 1 < start ==>
      1 < |Crash.AfterTxns(d0[..start], [t][..p])| && Crash.AfterTxns(d0[..start], [t][..p])[..2] == d0[..2]
  {
    hide Wal.Effect, Below, NodesOn;
    AfterBelow(d0, [t][..p], start);
    var d := if p == 0 then d0 else d1;
    if p == 1 {
      assert [t][..1] == [t] && [t][1..] == [];
    }
    assert Crash.AfterTxns(d0, [t][..p]) == d;
    if HeadKept(d0, d1) && 1 < start {
      HeadBelow(d0, d, start);
    }
  }
}
