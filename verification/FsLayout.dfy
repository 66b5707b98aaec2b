/**
 The on-disk layout: which sector holds which inode and which bitmap bit, and the codecs between
 sectors and inodes or bits. Sectors: 0 unused, 1 super block, inode blocks, bitmap blocks, data.
 */
module FsLayout {
  import opened Blocks
  import opened Bits

  const BPB := 4096        // bitmap bits per block
  const IPB := 8           // inodes per block
  const INODE_WORDS := 16
  const NDIRECT := 12
  const NINDIRECT := 128
  const MAXFILE := 140
  const SHORT := 0x1_0000

  type Disk = seq<Block>

  /** The sizes recorded in the super block. */
  datatype Super = Super(size: nat, ninodes: nat)

  function IBlock(i: nat): nat {
    i / IPB + 2
  }

  function BBlock(sb: Super, b: nat): nat {
    b / BPB + sb.ninodes / IPB + 3
  }

  /** The first data sector: everything below holds metadata. */
  function DataStart(sb: Super): nat {
    sb.ninodes / IPB + 3 + sb.size / BPB + 1
  }

  ghost predicate DiskOk(d: Disk, sb: Super) {
    |d| == sb.size && DataStart(sb) <= sb.size < UINT_LIMIT
  }

  /** The boot sector and the super block are as they were. */
  ghost predicate HeadKept(d: Disk, e: Disk) {
    1 < |d| == |e| && e[0] == d[0] && e[1] == d[1]
  }

  /** So they are on the sectors below `start`. */
  lemma {:induction false} HeadBelow(d: Disk, e: Disk, start: nat)
    requires HeadKept(d, e) && 1 < start <= |e|
    ensures |e[..start]| == start && e[..start][..2] == d[..2]
  {
  }

  // ----- The bitmap -----

  /** Block `b` is marked in use. */
  predicate Marked(d: Disk, sb: Super, b: nat)
    requires b < sb.size && |d| == sb.size && DataStart(sb) <= sb.size
  {
    Bit(d[BBlock(sb, b)][(b % BPB) / 8], b % BPB % 8)
  }

  function WithByte(blk: Block, i: nat, x: Byte): Block
    requires i < BSIZE
  {
    blk[i := x]
  }

  /** The bitmap sector of `b` with the bit of `b` set or cleared. */
  function BitBlock(blk: Block, b: nat, mark: bool): Block {
    var i, k := (b % BPB) / 8, b % BPB % 8;
    WithByte(blk, i, ByteWith(blk[i], k, mark))
  }

  /** The disk after marking or unmarking block `b`. */
  function SetMark(d: Disk, sb: Super, b: nat, mark: bool): (r: Disk)
    requires b < sb.size && |d| == sb.size && DataStart(sb) <= sb.size
    ensures |r| == |d|
  {
    d[BBlock(sb, b) := BitBlock(d[BBlock(sb, b)], b, mark)]
  }

  /** Setting one bit changes exactly that bit. */
  lemma {:induction false} SetMarkBits(d: Disk, sb: Super, b: nat, mark: bool, c: nat)
    requires b < sb.size && c < sb.size && |d| == sb.size && DataStart(sb) <= sb.size
    ensures Marked(SetMark(d, sb, b, mark), sb, c) <==> (if c == b then mark else Marked(d, sb, c))
  {
    hide ByteWith, Bit;
    SamePlace(b, c);
  }

  /** Sector, byte and bit determine the block. */
  lemma {:induction false} SamePlace(b: nat, c: nat)
    ensures b / BPB == c / BPB && (b % BPB) / 8 == (c % BPB) / 8 && b % BPB % 8 == c % BPB % 8 ==> b == c
  {
  }

  // ----- Inodes -----

  datatype Inode = Inode(typ: nat, major: nat, minor: nat, nlink: nat, size: nat, addrs: seq<nat>)

  /** The fields fit the on-disk structure. */
  ghost predicate InodeFits(ip: Inode) {
    && ip.typ < SHORT && ip.major < SHORT && ip.minor < SHORT && ip.nlink < SHORT && ip.size < UINT_LIMIT
    && |ip.addrs| == NDIRECT + 1
    && forall k :: 0 <= k < |ip.addrs| ==> ip.addrs[k] < UINT_LIMIT
  }

  /** The words of the on-disk inode: two pairs of shorts, the size, the addresses. */
  function InodeWords(ip: Inode): seq<nat> {
    [ip.typ + SHORT * ip.major, ip.minor + SHORT * ip.nlink, ip.size] + ip.addrs
  }

  function WordsInode(ws: seq<nat>): Inode
    requires |ws| == INODE_WORDS
  {
    Inode(ws[0] % SHORT, ws[0] / SHORT, ws[1] % SHORT, ws[1] / SHORT, ws[2], ws[3..])
  }

  /** The inode in slot `slot` of an inode block. */
  function GetInode(blk: Block, slot: nat): Inode
    requires slot < IPB
  {
    WordsInode(GetWords(blk, INODE_WORDS * slot, INODE_WORDS))
  }

  /** The inode block after iupdate stores `ip` in slot `slot`. */
  function PutInode(blk: Block, slot: nat, ip: Inode): Block
    requires slot < IPB && |ip.addrs| == NDIRECT + 1
  {
    SetWords(blk, INODE_WORDS * slot, InodeWords(ip), INODE_WORDS)
  }

  lemma {:induction false} WordsRoundTrip(ip: Inode)
    requires InodeFits(ip)
    ensures |InodeWords(ip)| == INODE_WORDS && WordsInode(InodeWords(ip)) == ip
    ensures forall k :: 0 <= k < INODE_WORDS ==> InodeWords(ip)[k] < UINT_LIMIT
  {
    Shorts(ip.typ, ip.major);
    Shorts(ip.minor, ip.nlink);
    assert InodeWords(ip)[3..] == ip.addrs;
  }

  lemma {:induction false} Shorts(lo: nat, hi: nat)
    requires lo < SHORT && hi < SHORT
    ensures (lo + SHORT * hi) % SHORT == lo && (lo + SHORT * hi) / SHORT == hi && lo + SHORT * hi < UINT_LIMIT
  {
  }

  /** An inode reads back as it was stored, and the other inodes of the block are untouched. */
  lemma {:induction false} InodeRoundTrip(blk: Block, slot: nat, ip: Inode, other: nat)
    requires slot < IPB && other < IPB && InodeFits(ip)
    ensures GetInode(PutInode(blk, slot, ip), other) == if other == slot then ip else GetInode(blk, other)
  {
    hide GetWord, SetWords, GetWords, InodeWords, WordsInode;
    WordsRoundTrip(ip);
    var r, w := PutInode(blk, slot, ip), INODE_WORDS * other;
    if other == slot {
      assert GetWords(r, w, INODE_WORDS) == InodeWords(ip);
    } else {
      assert GetWords(r, w, INODE_WORDS) == GetWords(blk, w, INODE_WORDS);
    }
  }

  function ReadInode(d: Disk, i: nat): Inode
    requires IBlock(i) < |d|
  {
    GetInode(d[IBlock(i)], i % IPB)
  }

  function WriteInode(d: Disk, i: nat, ip: Inode): (r: Disk)
    requires IBlock(i) < |d| && |ip.addrs| == NDIRECT + 1
    ensures |r| == |d|
  {
    d[IBlock(i) := PutInode(d[IBlock(i)], i % IPB, ip)]
  }

  /** iupdate stores exactly the one inode. */
  lemma {:induction false} WriteInodeReads(d: Disk, i: nat, ip: Inode, j: nat)
    requires IBlock(i) < |d| && IBlock(j) < |d| && InodeFits(ip)
    ensures ReadInode(WriteInode(d, i, ip), j) == if j == i then ip else ReadInode(d, j)
  {
    hide GetInode, PutInode;
    if IBlock(i) == IBlock(j) {
      InodeRoundTrip(d[IBlock(i)], i % IPB, ip, j % IPB);
    }
  }

  /** Inode, bitmap and data sectors are apart, and apart from the boot sector and the super block. */
  lemma {:induction false} RegionsApart(sb: Super, i: nat, b: nat)
    requires i < sb.ninodes && b < sb.size
    ensures 1 < IBlock(i) < BBlock(sb, b) < DataStart(sb)
  {
  }

  /** The mark of block `b` is the bit that counts 2^(b % 8) in byte b / 8 of the bitmap, with 512 bytes to a sector. */
  lemma {:induction false} MarkedIs(d: Disk, sb: Super, b: nat)
    requires b < sb.size && |d| == sb.size && DataStart(sb) <= sb.size
    ensures BBlock(sb, 0) + b / 8 / BSIZE < |d| && Pow2(b % 8) > 0
    ensures Marked(d, sb, b) <==> d[BBlock(sb, 0) + b / 8 / BSIZE][b / 8 % BSIZE] / Pow2(b % 8) % 2 == 1
  {
    hide Bit, Pow2;
    RegionsAbut(sb);
    assert b / 8 / BSIZE == b / BPB && b / 8 % BSIZE == (b % BPB) / 8 && b % BPB % 8 == b % 8;
    BitIs(d[BBlock(sb, b)][(b % BPB) / 8], b % 8);
  }

  /** The regions follow each other without a gap: inodes from sector 2 on, then the bitmap, then data. */
  lemma {:induction false} RegionsAbut(sb: Super)
    ensures IBlock(0) == 2 && BBlock(sb, 0) == IBlock(sb.ninodes) + 1 && DataStart(sb) == BBlock(sb, sb.size) + 1
  {
  }

  /** Counted from the start of the disk, inode `i` lies 64 bytes after inode `i - 1`, and the bit of block `b` next to that of `b - 1`. */
  lemma {:induction false} Places(sb: Super, i: nat, b: nat)
    ensures BSIZE * IBlock(i) + 4 * INODE_WORDS * (i % IPB) == BSIZE * IBlock(0) + 64 * i
    ensures 8 * (BSIZE * BBlock(sb, b) + (b % BPB) / 8) + b % BPB % 8 == 8 * BSIZE * BBlock(sb, 0) + b
  {
  }

  lemma {:induction false} StoredWord(blk: Block, slot: nat, ip: Inode, k: nat)
    requires slot < IPB && InodeFits(ip) && k < INODE_WORDS
    ensures GetWord(PutInode(blk, slot, ip), INODE_WORDS * slot + k) == InodeWords(ip)[k]
  {
    hide GetWord, SetWords, InodeWords;
    WordsRoundTrip(ip);
  }

  /** A word that holds two shorts, byte by byte. */
  lemma {:induction false} Halves(r: Block, w: nat, lo: nat, hi: nat)
    requires w < WORDS && GetWord(r, w) == lo + SHORT * hi && lo < SHORT
    ensures r[4 * w] as int + 0x100 * (r[4 * w + 1] as int) == lo && r[4 * w + 2] as int + 0x100 * (r[4 * w + 3] as int) == hi
  {
    var low := r[4 * w] as int + 0x100 * (r[4 * w + 1] as int);
    var high := r[4 * w + 2] as int + 0x100 * (r[4 * w + 3] as int);
    assert GetWord(r, w) == low + SHORT * high;
    Shorts(low, high);
  }

  /** Where the fields of a stored inode are, byte by byte: four little-endian shorts, the size, thirteen addresses. */
  lemma {:induction false} InodeBytes(blk: Block, slot: nat, ip: Inode, k: nat)
    requires slot < IPB && InodeFits(ip) && k <= NDIRECT
    ensures var r, at := PutInode(blk, slot, ip), 64 * slot;
            && r[at] as int + 0x100 * (r[at + 1] as int) == ip.typ
            && r[at + 2] as int + 0x100 * (r[at + 3] as int) == ip.major
            && r[at + 4] as int + 0x100 * (r[at + 5] as int) == ip.minor
            && r[at + 6] as int + 0x100 * (r[at + 7] as int) == ip.nlink
            && LittleEndian(r[at + 8..at + 12]) == ip.size
            && var a := at + 12 + 4 * k; LittleEndian(r[a..a + 4]) == ip.addrs[k]
  {
    hide GetWord, PutInode, Word, LittleEndian;
    var r, w := PutInode(blk, slot, ip), INODE_WORDS * slot;
    StoredWord(blk, slot, ip, 0);
    StoredWord(blk, slot, ip, 1);
    StoredWord(blk, slot, ip, 2);
    StoredWord(blk, slot, ip, 3 + k);
    Halves(r, w, ip.typ, ip.major);
    Halves(r, w + 1, ip.minor, ip.nlink);
    WordIs(r, w + 2);
    WordIs(r, w + 3 + k);
  }
}
