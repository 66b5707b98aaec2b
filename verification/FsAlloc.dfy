/**
 What an operation allocates: balloc hands out the first free block each time, so the blocks that a run of
 operations takes are the lowest free ones. Whether they all lie below some sector is then a matter of how
 many are free below it.
 */
module FsAlloc {
  import opened Blocks
  import opened FsLayout
  import opened FsState

  /** The disk, the owners of its blocks and the sectors logged so far. */
  datatype Books = Books(d: Disk, owner: Owners, logged: set<nat>)

  /** The blocks owned in `b` and not in `a`. */
  ghost function Taken(a: Books, b: Books): set<nat> {
    b.owner.Keys - a.owner.Keys
  }

  /** Block `n` of disk `d` is free and no block before it is. */
  ghost predicate FirstFree(d: Disk, sb: Super, n: nat) {
    DiskOk(d, sb) && n < sb.size && !Marked(d, sb, n) && forall c: nat :: c < n ==> Marked(d, sb, c)
  }

  /** From `d` to `e` exactly the mark of block `n` was set. */
  ghost predicate MarksOne(d: Disk, e: Disk, sb: Super, n: nat) {
    DiskOk(d, sb) && DiskOk(e, sb) && forall c: nat :: c < sb.size ==> (Marked(e, sb, c) <==> Marked(d, sb, c) || c == n)
  }

  ghost predicate SameMarks(d: Disk, e: Disk, sb: Super) {
    DiskOk(d, sb) && DiskOk(e, sb) && forall c: nat :: c < sb.size ==> (Marked(e, sb, c) <==> Marked(d, sb, c))
  }

  /** What was logged since `a` are neither the boot sector nor the super block, and these are as they were. */
  ghost predicate SparesHead(a: Books, b: Books) {
    HeadKept(a.d, b.d) && forall x :: x in b.logged ==> x in a.logged || 1 < x
  }

  /** From `a` to `b` blocks were only allocated: free ones, with none left free before them, and each was logged. */
  ghost predicate Takes(sb: Super, a: Books, b: Books) {
    && DiskOk(a.d, sb) && DiskOk(b.d, sb) && SparesHead(a, b)
    && a.logged <= b.logged && a.owner.Keys <= b.owner.Keys && Taken(a, b) <= b.logged
    && (forall c: nat :: c < sb.size ==> (Marked(b.d, sb, c) <==> Marked(a.d, sb, c) || c in Taken(a, b)))
    && (forall n :: n in Taken(a, b) ==> LowestFree(sb, a, b, n))
  }

  ghost predicate LowestFree(sb: Super, a: Books, b: Books, n: nat)
    requires DiskOk(a.d, sb) && DiskOk(b.d, sb)
  {
    n < sb.size && !Marked(a.d, sb, n) && forall c: nat :: c < n ==> Marked(b.d, sb, c)
  }

  /** Writing a data block changes no mark. */
  lemma {:induction false} DataMarks(d: Disk, sb: Super, x: nat, blk: Block)
    requires DiskOk(d, sb) && DataStart(sb) <= x < sb.size
    ensures SameMarks(d, d[x := blk], sb)
  {
  }

  /** Marking a block and zeroing it sets its mark alone. */
  lemma {:induction false} AllocMarks(d: Disk, sb: Super, n: nat)
    requires DiskOk(d, sb) && DataStart(sb) <= n < sb.size
    ensures MarksOne(d, SetMark(d, sb, n, true)[n := ZERO_BLOCK], sb, n)
  {
    hide Marked, SetMark;
    var e := SetMark(d, sb, n, true);
    DataMarks(e, sb, n, ZERO_BLOCK);
    forall c: nat | c < sb.size ensures Marked(e, sb, c) <==> Marked(d, sb, c) || c == n {
      SetMarkBits(d, sb, n, true, c);
    }
  }

  lemma {:induction false} MarksThen(d: Disk, e: Disk, sb: Super, n: nat, x: nat, blk: Block)
    requires MarksOne(d, e, sb, n) && DataStart(sb) <= x < sb.size
    ensures |e| == sb.size && MarksOne(d, e[x := blk], sb, n)
  {
    hide Marked;
    DataMarks(e, sb, x, blk);
  }

  lemma {:induction false} SparedHead(a: Books, b: Books)
    requires SparesHead(a, b)
    ensures HeadKept(a.d, b.d)
  {
  }

  lemma {:induction false} SparesWrite(a: Books, b: Books, x: nat, blk: Block, c: Books)
    requires SparesHead(a, b) && 1 < x < |b.d| && c.d == b.d[x := blk] && c.logged == b.logged + {x}
    ensures SparesHead(a, c)
  {
  }

  lemma {:induction false} SparesSame(a: Books, b: Books, c: Books)
    requires SparesHead(a, b) && c == b.(owner := c.owner)
    ensures SparesHead(a, c)
  {
  }

  /** Nothing was allocated, whatever else was logged. */
  lemma {:induction false} TakesNone(sb: Super, a: Books, b: Books)
    requires SameMarks(a.d, b.d, sb) && a.owner == b.owner && a.logged <= b.logged && SparesHead(a, b)
    ensures TakesN(sb, a, b, 0)
  {
    assert Taken(a, b) == {};
  }

  /** One block was allocated. */
  lemma {:induction false} TakesOne(sb: Super, a: Books, b: Books, n: nat, o: Owner)
    requires FirstFree(a.d, sb, n) && MarksOne(a.d, b.d, sb, n) && n !in a.owner && b.owner == a.owner[n := o]
    requires a.logged <= b.logged && n in b.logged && SparesHead(a, b)
    ensures TakesN(sb, a, b, 1)
  {
    assert Taken(a, b) == {n};
    assert b.owner - {n} == a.owner;
  }

  /** Allocations add up; what the first ones logged may have been committed in between. */
  lemma {:induction false} TakesThen(sb: Super, a: Books, b: Books, between: set<nat>, c: Books)
    requires Takes(sb, a, b) && Takes(sb, b.(logged := between), c) && between <= b.logged
    ensures Takes(sb, a, c.(logged := b.logged + c.logged))
  {
    var b', c' := b.(logged := between), c.(logged := b.logged + c.logged);
    assert Taken(a, c') == Taken(a, b) + Taken(b', c);
    forall n | n in Taken(a, c') ensures LowestFree(sb, a, c', n) {
      assert n in Taken(a, b) ==> LowestFree(sb, a, b, n);
      assert n in Taken(b', c) ==> LowestFree(sb, b', c, n);
    }
  }

  /** Exactly `n` blocks were allocated. */
  ghost predicate TakesN(sb: Super, a: Books, b: Books, n: int) {
    Takes(sb, a, b) && |b.owner| == |a.owner| + n
  }

  /** Fewer than `n` blocks were allocated. */
  ghost predicate TakesFewer(sb: Super, a: Books, b: Books, n: int) {
    Takes(sb, a, b) && |b.owner| < |a.owner| + n
  }

  lemma {:induction false} TookSpares(sb: Super, a: Books, b: Books, n: int)
    requires TakesN(sb, a, b, n) || TakesFewer(sb, a, b, n)
    ensures SparesHead(a, b)
  {
  }

  lemma {:induction false} TakesTrans(sb: Super, a: Books, b: Books, c: Books)
    requires Takes(sb, a, b) && Takes(sb, b, c)
    ensures Takes(sb, a, c)
  {
    hide Marked;
    TakesThen(sb, a, b, b.logged, c);
    assert b.logged + c.logged == c.logged;
  }

  lemma {:induction false} TakesMore(sb: Super, a: Books, b: Books, c: Books, m: int, n: int)
    requires TakesN(sb, a, b, m)
    ensures TakesN(sb, b, c, n) ==> TakesN(sb, a, c, m + n)
    ensures TakesFewer(sb, b, c, n) ==> TakesFewer(sb, a, c, m + n)
  {
    hide Takes;
    if Takes(sb, b, c) {
      TakesTrans(sb, a, b, c);
    }
  }

  lemma {:induction false} TakesNothing(sb: Super, a: Books)
    requires DiskOk(a.d, sb)
    ensures TakesN(sb, a, a, 0)
  {
    TakesNone(sb, a, a);
  }

  // ----- How many, and where -----

  /** The blocks a file of `nb` data blocks holds: from the thirteenth on also the indirect block. */
  function Held(nb: nat): nat {
    nb + if nb > NDIRECT then 1 else 0
  }

  /** The free blocks below `start`. */
  ghost function FreeBelow(d: Disk, sb: Super, start: nat): set<nat>
    requires DiskOk(d, sb) && start <= sb.size
  {
    set b: nat | b < start && !Marked(d, sb, b)
  }

  ghost predicate AllUnder(s: set<nat>, start: nat) {
    forall b :: b in s ==> b < start
  }

  lemma {:induction false} Counted(sb: Super, a: Books, b: Books)
    requires Takes(sb, a, b)
    ensures |b.owner| == |a.owner| + |Taken(a, b)|
  {
    hide Marked;
    assert b.owner.Keys == a.owner.Keys + Taken(a, b);
    assert |b.owner.Keys| == |b.owner| && |a.owner.Keys| == |a.owner|;
  }

  lemma {:induction false} Subset(a: set<nat>, b: set<nat>)
    requires a <= b
    ensures |a| <= |b| && (a != b ==> |a| < |b|)
  {
    assert b == a + (b - a);
  }

  /** All that was allocated lies below `start` exactly if that many blocks were free there. */
  lemma {:induction false} UnderIfEnough(sb: Super, a: Books, b: Books, start: nat)
    requires Takes(sb, a, b) && start <= sb.size
    ensures AllUnder(Taken(a, b), start) <==> |b.owner| - |a.owner| <= |FreeBelow(a.d, sb, start)|
  {
    hide Marked;
    Counted(sb, a, b);
    var free, taken := FreeBelow(a.d, sb, start), Taken(a, b);
    if AllUnder(taken, start) {
      forall n | n in taken ensures n in free {
        assert LowestFree(sb, a, b, n);
      }
      Subset(taken, free);
    } else {
      var n :| n in taken && n >= start;
      assert LowestFree(sb, a, b, n);
      assert free <= taken;
      assert n in taken && n !in free;
      Subset(free, taken);
    }
  }

  /** While fewer were taken than were free below `start`, one is still free. */
  lemma {:induction false} NotFullYet(sb: Super, a: Books, b: Books, start: nat) returns (c: nat)
    requires Takes(sb, a, b) && start <= sb.size && |b.owner| - |a.owner| < |FreeBelow(a.d, sb, start)|
    ensures c < sb.size && !Marked(b.d, sb, c)
  {
    Counted(sb, a, b);
    var free, taken := FreeBelow(a.d, sb, start), Taken(a, b);
    if free <= taken {
      Subset(free, taken);
    }
    assert !(free <= taken);
    c :| c in free && c !in taken;
  }

  /** Marks keep the sectors from `start` on from being allocated. */
  lemma {:induction false} UnderIfMarked(sb: Super, a: Books, b: Books, start: nat)
    requires Takes(sb, a, b) && start <= sb.size && forall c: nat :: start <= c < sb.size ==> Marked(a.d, sb, c)
    ensures AllUnder(Taken(a, b), start)
  {
    forall n | n in Taken(a, b) ensures n < start {
      assert LowestFree(sb, a, b, n);
    }
  }
}
