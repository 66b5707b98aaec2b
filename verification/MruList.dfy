/**
 The circular doubly linked list through which the buffer cache keeps its buffers in order of
 last release. Buffers are entries of a table; entry `NBUF` is the list head.
 */
module MruList {
  import opened Seqs

  const NBUF := 10
  const HEAD := NBUF

  datatype Links = Links(prev: nat, next: nat)

  /** The `k`-th node of the ring that `order` describes, the head at both ends. */
  function Ring(order: seq<nat>, k: int): nat
    requires 0 <= k <= |order| + 1
  {
    if k == 0 || k == |order| + 1 then HEAD else order[k - 1]
  }

  /** Ring nodes `i` and `i + 1` point at each other. */
  ghost predicate Linked(ln: seq<Links>, order: seq<nat>, i: nat)
    requires |ln| == NBUF + 1 && i <= |order|
    requires forall j :: 0 <= j < |order| ==> order[j] < NBUF
  {
    var a, b := Ring(order, i), Ring(order, i + 1);
    ln[a].next == b && ln[b].prev == a
  }

  /** The links form one ring through the head and the buffers of `order`, in that order, both ways. */
  ghost predicate ListOk(ln: seq<Links>, order: seq<nat>) {
    && |ln| == NBUF + 1
    && (forall i :: 0 <= i < |order| ==> order[i] < NBUF)
    && Distinct(order)
    && (forall i: nat :: i <= |order| ==> Linked(ln, order, i))
  }

  function RemoveAt(order: seq<nat>, k: nat): seq<nat>
    requires k < |order|
  {
    order[..k] + order[k + 1..]
  }

  function SetNext(ln: seq<Links>, a: nat, x: nat): seq<Links>
    requires a < |ln|
  {
    ln[a := ln[a].(next := x)]
  }

  function SetPrev(ln: seq<Links>, a: nat, x: nat): seq<Links>
    requires a < |ln|
  {
    ln[a := ln[a].(prev := x)]
  }

  /** brelse, first half: take node `b` out of the ring. */
  function Unlink(ln: seq<Links>, b: nat): seq<Links>
    requires b < |ln| && ln[b].next < |ln| && ln[b].prev < |ln|
  {
    SetNext(SetPrev(ln, ln[b].next, ln[b].prev), ln[b].prev, ln[b].next)
  }

  /** brelse, second half, and binit: put node `b` right after the head. */
  function InsertFront(ln: seq<Links>, b: nat): seq<Links>
    requires b < |ln| && |ln| == NBUF + 1 && ln[HEAD].next < |ln|
  {
    var first := ln[HEAD].next;
    var l1 := SetPrev(SetNext(ln, b, first), b, HEAD);
    var l2 := SetPrev(l1, first, b);
    SetNext(l2, HEAD, b)
  }

  lemma {:induction false} UnlinkOk(ln: seq<Links>, order: seq<nat>, k: nat)
    requires ListOk(ln, order) && k < |order|
    ensures ln[order[k]].next < |ln| && ln[order[k]].prev < |ln|
    ensures ListOk(Unlink(ln, order[k]), RemoveAt(order, k))
  {
    var rest := RemoveAt(order, k);
    assert Linked(ln, order, k) && Linked(ln, order, k + 1);
    forall i: nat | i <= |rest| ensures Linked(Unlink(ln, order[k]), rest, i) {
      UnlinkLinked(ln, order, k, i);
    }
  }

  lemma {:induction false} UnlinkLinked(ln: seq<Links>, order: seq<nat>, k: nat, i: nat)
    requires ListOk(ln, order) && k < |order| && i < |order|
    requires ln[order[k]].next < |ln| && ln[order[k]].prev < |ln|
    ensures Linked(Unlink(ln, order[k]), RemoveAt(order, k), i)
  {
    var rest := RemoveAt(order, k);
    assert Linked(ln, order, k) && Linked(ln, order, k + 1);
    assert Linked(ln, order, i) && Linked(ln, order, i + 1);
    assert Ring(rest, i) == if i <= k then Ring(order, i) else Ring(order, i + 1);
    assert Ring(rest, i + 1) == if i < k then Ring(order, i + 1) else Ring(order, i + 2);
    RingDistinct(ln, order, k, if i <= k then i else i + 1);
    RingDistinct(ln, order, k + 2, if i < k then i + 1 else i + 2);
  }

  /** Two positions of a ring hold the same node only if they are equal or both the head. */
  lemma {:induction false} RingDistinct(ln: seq<Links>, order: seq<nat>, i: nat, j: nat)
    requires ListOk(ln, order) && i <= |order| + 1 && j <= |order| + 1
    ensures Ring(order, i) == Ring(order, j) ==>
      i == j || ((i == 0 || i == |order| + 1) && (j == 0 || j == |order| + 1))
  {
  }

  lemma {:induction false} InsertFrontOk(ln: seq<Links>, order: seq<nat>, b: nat)
    requires ListOk(ln, order) && b < NBUF && b !in order
    ensures ln[HEAD].next < |ln|
    ensures ListOk(InsertFront(ln, b), [b] + order)
  {
    assert Linked(ln, order, 0);
    var longer := [b] + order;
    var l2 := InsertFront(ln, b);
    forall i: nat | i <= |longer| ensures Linked(l2, longer, i) {
      if i >= 2 {
        assert Linked(ln, order, i - 1);
        assert Ring(longer, i) == Ring(order, i - 1) && Ring(longer, i + 1) == Ring(order, i);
        RingDistinct(ln, order, 0, i - 1);
        RingDistinct(ln, order, 1, i);
      }
    }
  }
}
