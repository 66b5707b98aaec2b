/**
 Disk blocks as byte sequences, and their view as little-endian 32-bit words.
 The log header, the indirect blocks and the on-disk inodes are all read and
 written through this word view.
 */
module Blocks {
  const BSIZE := 512
  const WORDS := 128
  const UINT_LIMIT := 0x1_0000_0000

  type Byte = x: int | 0 <= x < 256
  type Block = s: seq<Byte> | |s| == BSIZE witness seq(BSIZE, _ => 0)

  function Zeros(n: nat): (r: seq<Byte>)
    ensures |r| == n && forall i :: 0 <= i < n ==> r[i] == 0
  {
    if n == 0 then [] else Zeros(n - 1) + [0]
  }

  /** The all-zero block that `memset(data, 0, BSIZE)` leaves. */
  const ZERO_BLOCK: Block := Zeros(BSIZE)

  /** The little-endian word made of four bytes. */
  function Word(b0: Byte, b1: Byte, b2: Byte, b3: Byte): (w: nat)
    ensures w < UINT_LIMIT
  {
    b0 + 0x100 * b1 + 0x1_0000 * b2 + 0x100_0000 * b3
  }

  /** The four bytes of a word. */
  function WordBytes(w: nat): (r: seq<Byte>)
    requires w < UINT_LIMIT
    ensures |r| == 4 && Word(r[0], r[1], r[2], r[3]) == w
  {
    SplitWord(w);
    [w % 0x100, (w / 0x100) % 0x100, (w / 0x1_0000) % 0x100, w / 0x100_0000]
  }

  /** The `i`-th 32-bit word of a block. */
  function GetWord(b: Block, i: nat): (w: nat)
    requires i < WORDS
    ensures w < UINT_LIMIT
  {
    Word(b[4 * i], b[4 * i + 1], b[4 * i + 2], b[4 * i + 3])
  }

  /** The number whose base-256 digits the bytes are, lowest first. */
  function LittleEndian(s: seq<Byte>): nat {
    if s == [] then 0 else s[0] + 0x100 * LittleEndian(s[1..])
  }

  /** A word reads the four bytes of its place lowest first. */
  lemma {:induction false} WordIs(b: Block, i: nat)
    requires i < WORDS
    ensures GetWord(b, i) == LittleEndian(b[4 * i..4 * i + 4])
  {
    var s := b[4 * i..4 * i + 4];
    assert s[1..][1..][1..][1..] == [];
    assert LittleEndian(s[1..][1..][1..]) == s[3];
    assert LittleEndian(s[1..][1..]) == s[2] as int + 0x100 * (s[3] as int);
  }

  /** The block after storing `w` at word index `i`: its low 32 bits read back, the other words are untouched. */
  function SetWord(b: Block, i: nat, w: nat): (r: Block)
    requires i < WORDS
    ensures GetWord(r, i) == w % UINT_LIMIT
    ensures forall j: nat :: j < WORDS && j != i ==> GetWord(r, j) == GetWord(b, j)
    ensures forall k :: 0 <= k < BSIZE && !(4 * i <= k < 4 * i + 4) ==> r[k] == b[k]
  {
    var v := WordBytes(w % UINT_LIMIT);
    var r: Block := b[4 * i := v[0]][4 * i + 1 := v[1]][4 * i + 2 := v[2]][4 * i + 3 := v[3]];
    r
  }

  lemma {:induction false} SplitWord(w: nat)
    requires w < UINT_LIMIT
    ensures 0 <= w / 0x100_0000 < 0x100
    ensures w % 0x100 + 0x100 * ((w / 0x100) % 0x100) + 0x1_0000 * ((w / 0x1_0000) % 0x100)
            + 0x100_0000 * (w / 0x100_0000) == w
  {
    assert w / 0x100 / 0x100 == w / 0x1_0000;
    assert w / 0x1_0000 / 0x100 == w / 0x100_0000;
  }

  /** The `n` words of a block from word `w` on. */
  function GetWords(blk: Block, w: nat, n: nat): (r: seq<nat>)
    requires w + n <= WORDS
    ensures |r| == n && forall k: nat :: k < n ==> r[k] == GetWord(blk, w + k)
  {
    if n == 0 then [] else GetWords(blk, w, n - 1) + [GetWord(blk, w + n - 1)]
  }

  /** The block after storing the first `n` of the words `ws` from word `w` on. */
  function SetWords(blk: Block, w: nat, ws: seq<nat>, n: nat): (r: Block)
    requires n <= |ws| && w + n <= WORDS
    ensures forall j: nat :: j < WORDS ==>
      GetWord(r, j) == (if w <= j < w + n then ws[j - w] % UINT_LIMIT else GetWord(blk, j))
  {
    if n == 0 then blk else SetWord(SetWords(blk, w, ws, n - 1), w + n - 1, ws[n - 1])
  }

  /** A zeroed block reads as zero words. */
  lemma {:induction false} ZeroWords()
    ensures forall i: nat :: i < WORDS ==> GetWord(ZERO_BLOCK, i) == 0
  {
  }

  /** Bytes with `src` copied over them from `o` on. */
  function Overlay(s: seq<Byte>, o: nat, src: seq<Byte>): (r: seq<Byte>)
    requires o + |src| <= |s|
    ensures |r| == |s| && forall i :: 0 <= i < |s| ==> r[i] == if o <= i < o + |src| then src[i - o] else s[i]
  {
    s[..o] + src + s[o + |src|..]
  }
}
