/**
 The user-level memory allocator of section 8.7 of The C Programming Language, second edition.
 Addresses count units of one Header (8 bytes). The free list is circular through a header `base`
 of size zero that lies below every block.
 */
module Umalloc {
  import opened Options

  datatype Header = Header(ptr: nat, size: nat)
  type Memory = map<nat, Header>

  predicate Apart(a: nat, n: nat, b: nat, m: nat) {
    a + n <= b || b + m <= a
  }

  // ----- The free list -----

  /** The address that follows position `i` of the ring `fl`. */
  function Next(fl: seq<nat>, i: nat): nat
    requires i < |fl|
  {
    if i + 1 < |fl| then fl[i + 1] else fl[0]
  }

  /** Position `i` is linked to its successor, and a gap separates it from the following block. */
  ghost predicate NodeOk(mem: Memory, fl: seq<nat>, i: nat)
    requires i < |fl|
  {
    && fl[i] in mem
    && mem[fl[i]].ptr == Next(fl, i)
    && (i > 0 ==> mem[fl[i]].size > 0)
    && (i + 1 < |fl| ==> fl[i] + mem[fl[i]].size < fl[i + 1])
  }

  /** Circular, address-ordered, disjoint and fully coalesced. */
  ghost predicate ListOk(mem: Memory, fl: seq<nat>, base: nat) {
    && |fl| > 0 && fl[0] == base
    && base in mem && mem[base].size == 0
    && (forall i, j :: 0 <= i < j < |fl| ==> fl[i] < fl[j])
    && (forall i: nat :: i < |fl| ==> NodeOk(mem, fl, i))
  }

  /** Position `j` is where a block at address `bp` belongs in address order. */
  predicate Belongs(fl: seq<nat>, bp: nat, j: nat) {
    j < |fl| && fl[j] < bp && (j + 1 < |fl| ==> bp < fl[j + 1])
  }

  // ----- The heap -----

  /** Unit `x` lies in the free block at position `i`. */
  predicate InNode(mem: Memory, fl: seq<nat>, i: nat, x: nat) {
    0 < i < |fl| && fl[i] in mem && fl[i] <= x < fl[i] + mem[fl[i]].size
  }

  ghost predicate InFree(mem: Memory, fl: seq<nat>, x: nat) {
    exists i: nat :: InNode(mem, fl, i, x)
  }

  ghost predicate InLive(live: map<nat, nat>, x: nat) {
    exists a :: a in live && a <= x < a + live[a]
  }

  /** No unit of the block `a` of `n` units is free. */
  ghost predicate NoneFree(mem: Memory, fl: seq<nat>, a: nat, n: nat) {
    forall x: nat :: a <= x < a + n ==> !InFree(mem, fl, x)
  }

  /** Live blocks are disjoint from each other and from every free block, and record their size. */
  ghost predicate LiveOk(mem: Memory, fl: seq<nat>, base: nat, live: map<nat, nat>) {
    && (forall a :: a in live ==> base < a && a in mem && mem[a].size == live[a] > 0)
    && (forall a :: a in live ==> NoneFree(mem, fl, a, live[a]))
    && (forall a, b :: a in live && b in live && a != b ==> Apart(a, live[a], b, live[b]))
  }

  /** The list is well formed and free and live units together are exactly those obtained from sbrk. */
  ghost predicate HeapOk(mem: Memory, fl: seq<nat>, base: nat, live: map<nat, nat>, arena: set<nat>) {
    && ListOk(mem, fl, base)
    && LiveOk(mem, fl, base, live)
    && (forall x: nat :: x in arena <==> InFree(mem, fl, x) || InLive(live, x))
  }

  // ----- Returning a block to the list -----

  /** The list after a block at `bp` is linked in after position `j`, merging with its neighbours. */
  function Inserted(mem: Memory, fl: seq<nat>, bp: nat, j: nat): seq<nat>
    requires j < |fl| && bp in mem && fl[j] in mem
  {
    fl[..j + 1] + (if MergesDown(mem, fl, bp, j) then [] else [bp])
    + (if MergesUp(mem, fl, bp, j) then fl[j + 2..] else fl[j + 1..])
  }

  /** The headers after free has stored its links and merged sizes; `p` is the list node below `bp`. */
  function Freed(mem: Memory, p: nat, bp: nat): Memory
    requires p in mem && bp in mem && mem[p].ptr in mem
  {
    var next := mem[p].ptr;
    var m1 := if bp + mem[bp].size == next
              then mem[bp := Header(mem[next].ptr, mem[bp].size + mem[next].size)]
              else mem[bp := mem[bp].(ptr := next)];
    if p + m1[p].size == bp
    then m1[p := Header(m1[bp].ptr, m1[p].size + m1[bp].size)]
    else m1[p := m1[p].(ptr := bp)]
  }

  /** `bp` fits between position `j` and its successor without overlapping either. */
  ghost predicate FitsAt(mem: Memory, fl: seq<nat>, base: nat, bp: nat, j: nat) {
    && ListOk(mem, fl, base) && Belongs(fl, bp, j)
    && bp in mem && mem[bp].size > 0
    && fl[j] in mem && fl[j] + mem[fl[j]].size <= bp
    && (j + 1 < |fl| ==> bp + mem[bp].size <= fl[j + 1])
  }

  predicate MergesUp(mem: Memory, fl: seq<nat>, bp: nat, j: nat)
    requires bp in mem
  {
    j + 1 < |fl| && bp + mem[bp].size == fl[j + 1]
  }

  predicate MergesDown(mem: Memory, fl: seq<nat>, bp: nat, j: nat)
    requires j < |fl| && fl[j] in mem
  {
    fl[j] + mem[fl[j]].size == bp
  }

  /** Where each entry of the list after the insertion comes from. */
  lemma {:induction false} InsertedShape(mem: Memory, fl: seq<nat>, bp: nat, j: nat)
    requires j < |fl| && bp in mem && fl[j] in mem
    ensures var fl' := Inserted(mem, fl, bp, j);
            var d, u := if MergesDown(mem, fl, bp, j) then 0 else 1, if MergesUp(mem, fl, bp, j) then 1 else 0;
            && |fl'| == |fl| + d - u
            && (forall i :: 0 <= i <= j ==> fl'[i] == fl[i])
            && (d == 1 ==> fl'[j + 1] == bp)
            && (forall i :: j + d < i < |fl'| ==> fl'[i] == fl[i - d + u])
  {
  }

  lemma {:induction false} FreedNode(mem: Memory, fl: seq<nat>, base: nat, bp: nat, j: nat, i: nat)
    requires FitsAt(mem, fl, base, bp, j) && mem[fl[j]].ptr in mem
    requires i < |Inserted(mem, fl, bp, j)|
    ensures NodeOk(Freed(mem, fl[j], bp), Inserted(mem, fl, bp, j), i)
  {
    if i == j || (i == j + 1 && !MergesDown(mem, fl, bp, j)) {
      FreedNodeChanged(mem, fl, base, bp, j, i);
    } else {
      FreedNodeKept(mem, fl, base, bp, j, i);
    }
  }

  lemma {:induction false} FreedNodeChanged(mem: Memory, fl: seq<nat>, base: nat, bp: nat, j: nat, i: nat)
    requires FitsAt(mem, fl, base, bp, j) && mem[fl[j]].ptr in mem
    requires i == j || (i == j + 1 && !MergesDown(mem, fl, bp, j))
    ensures i < |Inserted(mem, fl, bp, j)|
    ensures NodeOk(Freed(mem, fl[j], bp), Inserted(mem, fl, bp, j), i)
  {
    InsertedShape(mem, fl, bp, j);
    hide Inserted;
    assert NodeOk(mem, fl, j);
    assert j + 1 < |fl| ==> NodeOk(mem, fl, j + 1);
    hide ListOk;
  }

  lemma {:induction false} FreedNodeKept(mem: Memory, fl: seq<nat>, base: nat, bp: nat, j: nat, i: nat)
    requires FitsAt(mem, fl, base, bp, j) && mem[fl[j]].ptr in mem
    requires i < |Inserted(mem, fl, bp, j)|
    requires i != j && (i == j + 1 ==> MergesDown(mem, fl, bp, j))
    ensures NodeOk(Freed(mem, fl[j], bp), Inserted(mem, fl, bp, j), i)
  {
    InsertedShape(mem, fl, bp, j);
    var fl' := Inserted(mem, fl, bp, j);
    var k := if i < j then i
      else i - (if MergesDown(mem, fl, bp, j) then 0 else 1) + (if MergesUp(mem, fl, bp, j) then 1 else 0);
    FreedKeeps(mem, fl, base, bp, j, k);
    assert NodeOk(mem, fl, k);
    hide Inserted, Freed, ListOk;
    assert fl'[i] == fl[k];
    assert i + 1 < |fl'| ==> k + 1 < |fl| && fl'[i + 1] == fl[k + 1];
    assert i + 1 == |fl'| ==> k + 1 == |fl| && fl'[0] == fl[0];
  }

  /** free leaves the headers of the other list nodes alone. */
  lemma {:induction false} FreedKeeps(mem: Memory, fl: seq<nat>, base: nat, bp: nat, j: nat, k: nat)
    requires FitsAt(mem, fl, base, bp, j) && mem[fl[j]].ptr in mem
    requires k < |fl| && k != j
    ensures fl[k] in mem && Freed(mem, fl[j], bp)[fl[k]] == mem[fl[k]]
  {
    assert NodeOk(mem, fl, k);
    assert fl[k] != fl[j];
    assert k < j ==> fl[k] < fl[j];
    assert k > j + 1 ==> fl[j + 1] < fl[k];
  }

  /** free keeps the list circular, address-ordered, disjoint and fully coalesced. */
  lemma {:induction false} FreedList(mem: Memory, fl: seq<nat>, base: nat, bp: nat, j: nat)
    requires FitsAt(mem, fl, base, bp, j)
    ensures mem[fl[j]].ptr in mem
    ensures ListOk(Freed(mem, fl[j], bp), Inserted(mem, fl, bp, j), base)
  {
    assert NodeOk(mem, fl, j);
    if j + 1 < |fl| {
      assert NodeOk(mem, fl, j + 1);
    }
    var fl' := Inserted(mem, fl, bp, j);
    forall i: nat | i < |fl'| ensures NodeOk(Freed(mem, fl[j], bp), fl', i) {
      FreedNode(mem, fl, base, bp, j, i);
    }
  }

  /** free adds exactly the units of the returned block to the free units. */
  lemma {:induction false} FreedUnits(mem: Memory, fl: seq<nat>, base: nat, bp: nat, j: nat, x: nat)
    requires FitsAt(mem, fl, base, bp, j) && mem[fl[j]].ptr in mem
    ensures InFree(Freed(mem, fl[j], bp), Inserted(mem, fl, bp, j), x)
            <==> InFree(mem, fl, x) || bp <= x < bp + mem[bp].size
  {
    FreedUnitsOnly(mem, fl, base, bp, j, x);
    FreedUnitsAll(mem, fl, base, bp, j, x);
  }

  lemma {:induction false} FreedUnitsOnly(mem: Memory, fl: seq<nat>, base: nat, bp: nat, j: nat, x: nat)
    requires FitsAt(mem, fl, base, bp, j) && mem[fl[j]].ptr in mem
    ensures InFree(Freed(mem, fl[j], bp), Inserted(mem, fl, bp, j), x)
            ==> InFree(mem, fl, x) || bp <= x < bp + mem[bp].size
  {
    var mem', fl' := Freed(mem, fl[j], bp), Inserted(mem, fl, bp, j);
    var up, down := MergesUp(mem, fl, bp, j), MergesDown(mem, fl, bp, j);
    InsertedShape(mem, fl, bp, j);
    hide Inserted;
    assert NodeOk(mem, fl, j) && (j + 1 < |fl| ==> NodeOk(mem, fl, j + 1));
    if InFree(mem', fl', x) && !(bp <= x < bp + mem[bp].size) {
      var i: nat :| InNode(mem', fl', i, x);
      if i <= j {
        assert InNode(mem, fl, i, x) || InNode(mem, fl, j + 1, x);
      } else if i == j + 1 && !down {
        assert InNode(mem, fl, j + 1, x);
      } else {
        var k := i - (if down then 0 else 1) + (if up then 1 else 0);
        assert fl'[i] == fl[k] && InNode(mem, fl, k, x);
      }
    }
  }

  lemma {:induction false} FreedUnitsAll(mem: Memory, fl: seq<nat>, base: nat, bp: nat, j: nat, x: nat)
    requires FitsAt(mem, fl, base, bp, j) && mem[fl[j]].ptr in mem
    ensures InFree(mem, fl, x) || bp <= x < bp + mem[bp].size
            ==> InFree(Freed(mem, fl[j], bp), Inserted(mem, fl, bp, j), x)
  {
    var mem', fl' := Freed(mem, fl[j], bp), Inserted(mem, fl, bp, j);
    var up, down := MergesUp(mem, fl, bp, j), MergesDown(mem, fl, bp, j);
    InsertedShape(mem, fl, bp, j);
    hide Inserted;
    assert NodeOk(mem, fl, j) && (j + 1 < |fl| ==> NodeOk(mem, fl, j + 1));
    if bp <= x < bp + mem[bp].size {
      assert InNode(mem', fl', if down then j else j + 1, x);
    } else if InFree(mem, fl, x) {
      var i: nat :| InNode(mem, fl, i, x);
      if i <= j {
        assert InNode(mem', fl', i, x);
      } else if i == j + 1 && up {
        assert InNode(mem', fl', if down then j else j + 1, x);
      } else {
        var k := i + (if down then 0 else 1) - (if up then 1 else 0);
        assert fl'[k] == fl[i] && InNode(mem', fl', k, x);
      }
    }
  }

  /** In a sound heap a live block fits between the list nodes around it. */
  lemma {:induction false} LiveFits(mem: Memory, fl: seq<nat>, base: nat, live: map<nat, nat>, bp: nat, j: nat)
    requires ListOk(mem, fl, base) && LiveOk(mem, fl, base, live) && bp in live && Belongs(fl, bp, j)
    ensures FitsAt(mem, fl, base, bp, j)
  {
    assert NoneFree(mem, fl, bp, live[bp]);
    assert NodeOk(mem, fl, j);
    assert !InFree(mem, fl, bp);
    assert !InNode(mem, fl, j, bp);
    if j + 1 < |fl| {
      assert NodeOk(mem, fl, j + 1);
      assert bp <= fl[j + 1] < bp + live[bp] ==> InNode(mem, fl, j + 1, fl[j + 1]) && InFree(mem, fl, fl[j + 1]);
    }
  }

  /** free turns a live block into free units and keeps the heap sound. */
  lemma {:induction false} FreedHeap(mem: Memory, fl: seq<nat>, base: nat, live: map<nat, nat>, arena: set<nat>, bp: nat, j: nat)
    requires HeapOk(mem, fl, base, live, arena) && bp in live && Belongs(fl, bp, j)
    ensures FitsAt(mem, fl, base, bp, j) && mem[fl[j]].ptr in mem
    ensures HeapOk(Freed(mem, fl[j], bp), Inserted(mem, fl, bp, j), base, live - {bp}, arena)
  {
    LiveFits(mem, fl, base, live, bp, j);
    FreedList(mem, fl, base, bp, j);
    var mem', fl', live' := Freed(mem, fl[j], bp), Inserted(mem, fl, bp, j), live - {bp};
    hide ListOk, Inserted, InFree;
    forall x: nat ensures InFree(mem', fl', x) <==> InFree(mem, fl, x) || bp <= x < bp + mem[bp].size {
      FreedUnits(mem, fl, base, bp, j, x);
    }
    forall a | a in live' ensures mem'[a] == mem[a] && NoneFree(mem', fl', a, live'[a]) {
      NotAListNode(mem, fl, base, live, a, j);
      assert NoneFree(mem, fl, a, live[a]);
      assert Apart(a, live[a], bp, live[bp]);
    }
    forall x: nat ensures InLive(live, x) <==> InLive(live', x) || bp <= x < bp + live[bp] {
      LiveMinus(live, bp, x);
    }
  }

  lemma {:induction false} LiveMinus(live: map<nat, nat>, bp: nat, x: nat)
    requires bp in live
    ensures InLive(live, x) <==> InLive(live - {bp}, x) || bp <= x < bp + live[bp]
  {
    var live' := live - {bp};
    if InLive(live, x) {
      var a :| a in live && a <= x < a + live[a];
      assert a == bp || (a in live' && live'[a] == live[a]);
    }
    if InLive(live', x) {
      var a :| a in live' && a <= x < a + live'[a];
      assert a in live;
    }
  }

  lemma {:induction false} NotAListNode(mem: Memory, fl: seq<nat>, base: nat, live: map<nat, nat>, a: nat, j: nat)
    requires ListOk(mem, fl, base) && LiveOk(mem, fl, base, live) && a in live && j < |fl|
    ensures fl[j] != a
  {
    assert NodeOk(mem, fl, j);
    assert NoneFree(mem, fl, a, live[a]);
    assert !InFree(mem, fl, a);
    assert !InNode(mem, fl, j, a);
  }

  // ----- Taking a block from the list -----

  function RemoveNode(fl: seq<nat>, k: nat): seq<nat>
    requires k < |fl|
  {
    fl[..k] + fl[k + 1..]
  }

  /** The block malloc hands out from list node `p`: the whole of it, or its tail end. */
  function TakenAt(mem: Memory, p: nat, nunits: nat): nat
    requires p in mem && mem[p].size >= nunits
  {
    p + (mem[p].size - nunits)
  }

  /** The headers after malloc has taken `nunits` from node `p`, which follows `prevp`. */
  function Taken(mem: Memory, prevp: nat, p: nat, nunits: nat): Memory
    requires prevp in mem && p in mem && mem[p].size >= nunits
  {
    if mem[p].size == nunits then mem[prevp := mem[prevp].(ptr := mem[p].ptr)]
    else
      var m1 := mem[p := mem[p].(size := mem[p].size - nunits)];
      var q := TakenAt(mem, p, nunits);
      m1[q := Header(if q in m1 then m1[q].ptr else 0, nunits)]
  }

  /** The list after that: the node is gone if it was used up. */
  function Remaining(mem: Memory, fl: seq<nat>, k: nat, nunits: nat): seq<nat>
    requires k < |fl| && fl[k] in mem
  {
    if mem[fl[k]].size == nunits then RemoveNode(fl, k) else fl
  }

  ghost predicate CanTake(mem: Memory, fl: seq<nat>, base: nat, k: nat, nunits: nat) {
    && ListOk(mem, fl, base) && 0 < k < |fl| && nunits > 0
    && fl[k] in mem && fl[k - 1] in mem && mem[fl[k]].size >= nunits
  }

  lemma {:induction false} TakenList(mem: Memory, fl: seq<nat>, base: nat, k: nat, nunits: nat)
    requires CanTake(mem, fl, base, k, nunits)
    ensures ListOk(Taken(mem, fl[k - 1], fl[k], nunits), Remaining(mem, fl, k, nunits), base)
  {
    var mem', fl' := Taken(mem, fl[k - 1], fl[k], nunits), Remaining(mem, fl, k, nunits);
    assert NodeOk(mem, fl, k) && NodeOk(mem, fl, k - 1);
    forall i: nat | i < |fl'| ensures NodeOk(mem', fl', i) {
      var i0 := if mem[fl[k]].size == nunits && i >= k then i + 1 else i;
      assert NodeOk(mem, fl, i0);
      assert fl'[i] == fl[i0];
      if mem[fl[k]].size != nunits {
        assert i > k ==> fl[k] + mem[fl[k]].size < fl[i] by {
          if i > k {
            assert fl[k] + mem[fl[k]].size < fl[k + 1] <= fl[i];
          }
        }
      }
    }
  }

  lemma {:induction false} TakenUnits(mem: Memory, fl: seq<nat>, base: nat, k: nat, nunits: nat, x: nat)
    requires CanTake(mem, fl, base, k, nunits)
    ensures var q := TakenAt(mem, fl[k], nunits);
            InFree(Taken(mem, fl[k - 1], fl[k], nunits), Remaining(mem, fl, k, nunits), x)
            <==> InFree(mem, fl, x) && !(q <= x < q + nunits)
  {
    TakenUnitsOnly(mem, fl, base, k, nunits, x);
    TakenUnitsAll(mem, fl, base, k, nunits, x);
  }

  lemma {:induction false} TakenUnitsOnly(mem: Memory, fl: seq<nat>, base: nat, k: nat, nunits: nat, x: nat)
    requires CanTake(mem, fl, base, k, nunits)
    ensures var q := TakenAt(mem, fl[k], nunits);
            InFree(Taken(mem, fl[k - 1], fl[k], nunits), Remaining(mem, fl, k, nunits), x)
            ==> InFree(mem, fl, x) && !(q <= x < q + nunits)
  {
    var mem', fl' := Taken(mem, fl[k - 1], fl[k], nunits), Remaining(mem, fl, k, nunits);
    assert NodeOk(mem, fl, k) && NodeOk(mem, fl, k - 1);
    if InFree(mem', fl', x) {
      var i: nat :| InNode(mem', fl', i, x);
      var i0 := if mem[fl[k]].size == nunits && i >= k then i + 1 else i;
      assert fl'[i] == fl[i0];
      TakenApart(mem, fl, base, k, i0);
      assert InNode(mem, fl, i0, x);
    }
  }

  lemma {:induction false} TakenUnitsAll(mem: Memory, fl: seq<nat>, base: nat, k: nat, nunits: nat, x: nat)
    requires CanTake(mem, fl, base, k, nunits)
    ensures var q := TakenAt(mem, fl[k], nunits);
            InFree(mem, fl, x) && !(q <= x < q + nunits)
            ==> InFree(Taken(mem, fl[k - 1], fl[k], nunits), Remaining(mem, fl, k, nunits), x)
  {
    var mem', fl' := Taken(mem, fl[k - 1], fl[k], nunits), Remaining(mem, fl, k, nunits);
    var q := TakenAt(mem, fl[k], nunits);
    assert NodeOk(mem, fl, k) && NodeOk(mem, fl, k - 1);
    if InFree(mem, fl, x) && !(q <= x < q + nunits) {
      var i: nat :| InNode(mem, fl, i, x);
      var i1 := if mem[fl[k]].size == nunits && i > k then i - 1 else i;
      TakenApart(mem, fl, base, k, i);
      assert fl'[i1] == fl[i];
      assert InNode(mem', fl', i1, x);
    }
  }

  /** Distinct list nodes do not overlap. */
  lemma {:induction false} TakenApart(mem: Memory, fl: seq<nat>, base: nat, k: nat, i: nat)
    requires ListOk(mem, fl, base) && k < |fl| && i < |fl|
    ensures fl[k] in mem && fl[i] in mem
    ensures i < k ==> fl[i] + mem[fl[i]].size < fl[k]
    ensures k < i ==> fl[k] + mem[fl[k]].size < fl[i]
  {
    assert NodeOk(mem, fl, k) && NodeOk(mem, fl, i);
    if i < k {
      assert fl[i + 1] <= fl[k];
    } else if k < i {
      assert fl[k + 1] <= fl[i];
    }
  }

  /** malloc turns exactly the units it returns from free into live and keeps the heap sound. */
  lemma {:induction false} MayTake(mem: Memory, fl: seq<nat>, base: nat, live: map<nat, nat>, arena: set<nat>, k: nat, nunits: nat)
    requires HeapOk(mem, fl, base, live, arena) && 0 < k < |fl| && nunits > 0 && fl[k] in mem && mem[fl[k]].size >= nunits
    ensures CanTake(mem, fl, base, k, nunits) && fl[k - 1] in mem && base <= fl[k - 1] < fl[k]
  {
    assert NodeOk(mem, fl, k - 1);
  }

  lemma {:induction false} RemainingAt(mem: Memory, fl: seq<nat>, k: nat, nunits: nat)
    requires 0 < k < |fl| && fl[k] in mem
    ensures k - 1 < |Remaining(mem, fl, k, nunits)| && Remaining(mem, fl, k, nunits)[k - 1] == fl[k - 1]
  {
  }

  lemma {:induction false} TakenHeap(mem: Memory, fl: seq<nat>, base: nat, live: map<nat, nat>, arena: set<nat>, k: nat, nunits: nat)
    requires HeapOk(mem, fl, base, live, arena) && CanTake(mem, fl, base, k, nunits)
    ensures var q := TakenAt(mem, fl[k], nunits);
            && q !in live
            && (forall a :: a in live ==> Apart(a, live[a], q, nunits))
            && HeapOk(Taken(mem, fl[k - 1], fl[k], nunits), Remaining(mem, fl, k, nunits), base, live[q := nunits], arena)
  {
    var q := TakenAt(mem, fl[k], nunits);
    var mem', fl', live' := Taken(mem, fl[k - 1], fl[k], nunits), Remaining(mem, fl, k, nunits), live[q := nunits];
    TakenList(mem, fl, base, k, nunits);
    forall x: nat ensures InFree(mem', fl', x) <==> InFree(mem, fl, x) && !(q <= x < q + nunits) {
      TakenUnits(mem, fl, base, k, nunits, x);
    }
    forall x: nat | q <= x < q + nunits ensures InFree(mem, fl, x) {
      assert InNode(mem, fl, k, x);
    }
    assert base < q by { TakenApart(mem, fl, base, k, 0); }
    forall a | a in live ensures a != q && Apart(a, live[a], q, nunits) && mem'[a] == mem[a] {
      NotAListNode(mem, fl, base, live, a, k);
      NotAListNode(mem, fl, base, live, a, k - 1);
      assert NoneFree(mem, fl, a, live[a]);
      var x := if a < q then q else a;
      assert a <= x < a + live[a] ==> !InFree(mem, fl, x);
    }
    hide ListOk, InFree, Taken, Remaining;
    forall a | a in live' ensures NoneFree(mem', fl', a, live'[a]) {
      if a != q {
        assert NoneFree(mem, fl, a, live[a]);
      }
    }
    forall x: nat ensures InLive(live', x) <==> InLive(live, x) || q <= x < q + nunits {
      LivePlus(live, q, nunits, x);
    }
  }

  lemma {:induction false} LivePlus(live: map<nat, nat>, q: nat, n: nat, x: nat)
    requires q !in live
    ensures InLive(live[q := n], x) <==> InLive(live, x) || q <= x < q + n
  {
    var live' := live[q := n];
    if InLive(live', x) {
      var a :| a in live' && a <= x < a + live'[a];
      assert a == q || (a in live && live[a] == live'[a]);
    }
    if InLive(live, x) {
      var a :| a in live && a <= x < a + live[a];
      assert a in live' && live'[a] == live[a];
    }
    if q <= x < q + n {
      assert q in live' && live'[q] == n;
    }
  }

  // ----- Walking the ring -----

  /** The ring from position `f` on, once around. */
  function From(fl: seq<nat>, f: nat): (r: seq<nat>)
    requires f < |fl|
    ensures |r| == |fl| && r[0] == fl[f]
  {
    fl[f..] + fl[..f]
  }

  /** The list position of the `c`-th node from position `f`. */
  function At(fl: seq<nat>, f: nat, c: nat): (i: nat)
    requires f < |fl| && c < |fl|
    ensures i < |fl| && From(fl, f)[c] == fl[i]
  {
    if f + c < |fl| then f + c else f + c - |fl|
  }

  lemma {:induction false} WalkNext(mem: Memory, fl: seq<nat>, base: nat, f: nat, c: nat)
    requires ListOk(mem, fl, base) && f < |fl| && c < |fl|
    ensures var p := From(fl, f)[c];
            p in mem && mem[p].ptr == From(fl, f)[if c + 1 < |fl| then c + 1 else 0]
  {
    var i := At(fl, f, c);
    assert NodeOk(mem, fl, i);
    assert c + 1 < |fl| ==> From(fl, f)[c + 1] == fl[At(fl, f, c + 1)];
  }

  /** Every list position is met on the way around. */
  lemma {:induction false} WalkMeets(fl: seq<nat>, f: nat, i: nat) returns (c: nat)
    requires f < |fl| && i < |fl|
    ensures c < |fl| && At(fl, f, c) == i
  {
    c := if f <= i then i - f else i + |fl| - f;
  }

  /** The exit test of free's search loop. */
  predicate Stops(mem: Memory, p: nat, bp: nat)
    requires p in mem
  {
    var next := mem[p].ptr;
    (bp > p && bp < next) || (p >= next && (bp > p || bp < next))
  }

  /** free's search stops at exactly the node below the block in address order. */
  lemma {:induction false} StopsWhereItBelongs(mem: Memory, fl: seq<nat>, base: nat, bp: nat, i: nat)
    requires ListOk(mem, fl, base) && i < |fl| && base < bp && bp !in fl
    ensures base <= fl[i] && fl[i] in mem && (Stops(mem, fl[i], bp) <==> Belongs(fl, bp, i))
  {
    assert NodeOk(mem, fl, i);
    assert i > 0 ==> fl[0] < fl[i];
  }

  lemma {:induction false} BelongsSomewhere(fl: seq<nat>, bp: nat, n: nat) returns (j: nat)
    requires 0 < n <= |fl| && fl[0] < bp && bp !in fl
    requires forall i, j :: 0 <= i < j < |fl| ==> fl[i] < fl[j]
    ensures j < n && Belongs(fl[..n], bp, j)
  {
    if fl[n - 1] < bp {
      j := n - 1;
    } else {
      j := BelongsSomewhere(fl, bp, n - 1);
    }
  }

  // ----- The allocator -----

  const HEADER_SIZE := 8
  const MIN_UNITS := 4096
  const UINT_LIMIT := 0x1_0000_0000
  const INT_LIMIT := 0x8000_0000

  /** The units malloc asks for: the bytes rounded up, and a header. */
  function NUnits(nbytes: nat): (n: nat)
    ensures n > 0 && HEADER_SIZE * (n - 1) >= nbytes && HEADER_SIZE * (n - 1) < nbytes + HEADER_SIZE
  {
    (nbytes + HEADER_SIZE - 1) / HEADER_SIZE + 1
  }

  function CoreUnits(nunits: nat): nat {
    if nunits < MIN_UNITS then MIN_UNITS else nunits
  }

  /** The bytes morecore asks sbrk for, before they become a signed int. */
  function CoreBytes(nunits: nat): nat {
    HEADER_SIZE * CoreUnits(nunits)
  }

  /** malloc's request reaches sbrk, whose argument is a signed int, as a positive number exactly up to 16 bytes below the limit. */
  lemma {:induction false} CoreBytesFit(nbytes: nat)
    ensures CoreBytes(NUnits(nbytes)) < INT_LIMIT <==> nbytes <= INT_LIMIT - 2 * HEADER_SIZE
  {
    var n := NUnits(nbytes);
    assert HEADER_SIZE * (n - 1) == HEADER_SIZE * n - HEADER_SIZE;
    if CoreBytes(n) < INT_LIMIT {
      assert n < INT_LIMIT / HEADER_SIZE;
    }
  }

  ghost predicate Fits(mem: Memory, p: nat, nunits: nat) {
    p in mem && mem[p].size >= nunits
  }

  /** The region `[a, a + n)` lies above `base` and outside everything obtained so far. */
  ghost predicate Fresh(base: nat, arena: set<nat>, a: nat, n: nat) {
    base < a && forall x: nat :: a <= x < a + n ==> x !in arena
  }

  ghost function Region(a: nat, n: nat): (r: set<nat>)
    ensures forall x: nat :: x in r <==> a <= x < a + n
  {
    if n == 0 then {} else Region(a, n - 1) + {a + n - 1}
  }

  /** A fresh region can be counted as a live block, ready to be freed into the list. */
  lemma {:induction false} CoreHeap(mem: Memory, fl: seq<nat>, base: nat, live: map<nat, nat>, arena: set<nat>, a: nat, h: Header)
    requires HeapOk(mem, fl, base, live, arena) && h.size > 0 && Fresh(base, arena, a, h.size)
    ensures a !in live
    ensures HeapOk(mem[a := h], fl, base, live[a := h.size], arena + Region(a, h.size))
  {
    var mem', live' := mem[a := h], live[a := h.size];
    assert a !in arena;
    assert a in live ==> InLive(live, a);
    CoreList(mem, fl, base, a, h);
    hide ListOk;
    forall b | b in live ensures Apart(b, live[b], a, h.size) && NoneFree(mem', fl, b, live[b]) {
      var x := if b < a then a else b;
      assert NoneFree(mem, fl, b, live[b]);
      assert b <= x < b + live[b] ==> InLive(live, x) && x in arena;
      assert a <= x < a + h.size ==> x !in arena;
      forall y: nat | b <= y < b + live[b] ensures !InFree(mem', fl, y) {
        assert !InFree(mem, fl, y);
      }
    }
    forall y: nat | a <= y < a + h.size ensures !InFree(mem', fl, y) {
      assert !InFree(mem, fl, y);
    }
    forall x: nat ensures InLive(live', x) <==> InLive(live, x) || a <= x < a + h.size {
      LivePlus(live, a, h.size, x);
    }
  }

  /** A header stored outside the free units disturbs neither the list nor what is free. */
  lemma {:induction false} CoreList(mem: Memory, fl: seq<nat>, base: nat, a: nat, h: Header)
    requires ListOk(mem, fl, base) && base < a && !InFree(mem, fl, a)
    ensures ListOk(mem[a := h], fl, base)
    ensures forall x: nat :: InFree(mem[a := h], fl, x) <==> InFree(mem, fl, x)
  {
    var mem' := mem[a := h];
    forall i: nat | i < |fl| ensures fl[i] != a && NodeOk(mem', fl, i) {
      assert NodeOk(mem, fl, i);
      assert !InNode(mem, fl, i, a);
    }
    forall x: nat ensures InFree(mem', fl, x) <==> InFree(mem, fl, x) {
      assert forall i: nat :: InNode(mem', fl, i, x) <==> InNode(mem, fl, i, x);
    }
  }

  /** The node that holds a freed block is at least as large as the block. */
  lemma {:induction false} FreedHasRoom(mem: Memory, fl: seq<nat>, base: nat, bp: nat, j: nat) returns (i: nat)
    requires FitsAt(mem, fl, base, bp, j) && mem[fl[j]].ptr in mem
    ensures i < |Inserted(mem, fl, bp, j)|
    ensures Fits(Freed(mem, fl[j], bp), Inserted(mem, fl, bp, j)[i], mem[bp].size)
  {
    InsertedShape(mem, fl, bp, j);
    i := if MergesDown(mem, fl, bp, j) then j else j + 1;
  }

  /** The list nodes in the order malloc examines them: from the one after `freep` around to `freep`. */
  function Examined(fl: seq<nat>, f: nat): (r: seq<nat>)
    requires f < |fl|
    ensures |r| == |fl|
  {
    From(fl, f)[1..] + [fl[f]]
  }

  /** malloc examines the list in address order from the node after `freep`, past the end to its beginning, and `freep` last. */
  lemma {:induction false} ExaminedOrder(fl: seq<nat>, f: nat, c: nat)
    requires f < |fl| && c < |fl|
    ensures Examined(fl, f)[c] == fl[if f + 1 + c < |fl| then f + 1 + c else f + 1 + c - |fl|]
  {
  }

  /** The first examined node that is large enough, or the end. */
  ghost function FirstFit(mem: Memory, ring: seq<nat>, nunits: nat): (k: nat)
    ensures k <= |ring|
    ensures k < |ring| ==> Fits(mem, ring[k], nunits)
    ensures forall i :: 0 <= i < k ==> !Fits(mem, ring[i], nunits)
  {
    if ring == [] then 0 else if Fits(mem, ring[0], nunits) then 0 else 1 + FirstFit(mem, ring[1..], nunits)
  }

  lemma {:induction false} FirstFitIs(mem: Memory, ring: seq<nat>, nunits: nat, k: nat)
    requires k < |ring| && Fits(mem, ring[k], nunits)
    requires forall i :: 0 <= i < k ==> !Fits(mem, ring[i], nunits)
    ensures FirstFit(mem, ring, nunits) == k
  {
  }

  class Allocator {
    const base: nat
    var mem: Memory
    var freep: nat                 // 0 is the null pointer
    ghost var fl: seq<nat>         // the free list in address order, from `base`
    ghost var f: nat               // the position of `freep` in it
    ghost var live: map<nat, nat>  // the blocks handed out, with their sizes in units
    ghost var arena: set<nat>      // every unit obtained from sbrk

    ghost predicate Valid()
      reads this
    {
      && base > 0
      && if freep == 0 then fl == [] && live == map[] && arena == {}
         else HeapOk(mem, fl, base, live, arena) && f < |fl| && fl[f] == freep
    }

    constructor (base: nat)
      requires base > 0
      ensures Valid() && this.base == base && live == map[] && arena == {}
    {
      this.base, mem, freep := base, map[], 0;
      fl, f, live, arena := [], 0, map[], {};
    }

    /** The search loop of free: the list node below `bp` in address order. */
    method Search(bp: nat) returns (p: nat, ghost j: nat)
      requires Valid() && bp in live
      ensures freep != 0 && Belongs(fl, bp, j) && fl[j] == p >= base
    {
      hide LiveOk, InLive, InFree, ListOk, From, At, Stops, Belongs;
      NotInList(mem, fl, base, live, bp);
      ghost var goal := HasPlace(mem, fl, base, bp);
      ghost var end := WalkMeets(fl, f, goal);
      p := freep;
      ghost var c := 0;
      StopsWhereItBelongs(mem, fl, base, bp, At(fl, f, c));
      while !Stops(mem, p, bp)
        invariant c <= end && p == From(fl, f)[c] && p in mem
        invariant Stops(mem, p, bp) <==> Belongs(fl, bp, At(fl, f, c))
        invariant base <= p
        decreases end - c
      {
        WalkNext(mem, fl, base, f, c);
        p := mem[p].ptr;
        c := c + 1;
        StopsWhereItBelongs(mem, fl, base, bp, At(fl, f, c));
      }
      j := At(fl, f, c);
    }

    /** free, on the header address of a live block. */
    method Free(bp: nat) returns (ghost j: nat)
      requires Valid() && bp in live
      modifies this
      ensures Valid() && freep != 0 && live == old(live) - {bp} && arena == old(arena)
      ensures FitsAt(old(mem), old(fl), base, bp, j) && old(mem)[old(fl)[j]].ptr in old(mem)
      ensures mem == Freed(old(mem), old(fl)[j], bp) && fl == Inserted(old(mem), old(fl), bp, j) && f == j
    {
      hide LiveOk, InLive, InFree, ListOk;
      var p;
      p, j := Search(bp);
      FreedHeap(mem, fl, base, live, arena, bp, j);
      InsertedShape(mem, fl, bp, j);
      ghost var fl' := Inserted(mem, fl, bp, j);
      var next := mem[p].ptr;
      if bp + mem[bp].size == next {
        mem := mem[bp := Header(mem[next].ptr, mem[bp].size + mem[next].size)];
      } else {
        mem := mem[bp := mem[bp].(ptr := next)];
      }
      if p + mem[p].size == bp {
        mem := mem[p := Header(mem[bp].ptr, mem[p].size + mem[bp].size)];
      } else {
        mem := mem[p := mem[p].(ptr := bp)];
      }
      freep := p;
      fl, f, live := fl', j, live - {bp};
    }

    /** morecore: a fresh region from sbrk, freed into the list. `brk` is what sbrk answers. */
    method MoreCore(nu: nat, brk: Option<nat>) returns (r: Option<nat>)
      requires Valid() && freep != 0
      requires brk.Some? ==> CoreBytes(nu) < INT_LIMIT && Fresh(base, arena, brk.value, CoreUnits(nu))
      modifies this
      ensures Valid() && freep != 0 && live == old(live)
      ensures brk.None? ==> r == None && mem == old(mem) && fl == old(fl) && f == old(f) && freep == old(freep) && arena == old(arena)
      ensures brk.Some? ==>
        && r == Some(freep) && arena == old(arena) + Region(brk.value, CoreUnits(nu))
        && exists i :: 0 <= i < |fl| && Fits(mem, fl[i], nu)
    {
      hide LiveOk, InLive, InFree, ListOk;
      if brk.None? {
        return None;
      }
      var units := if nu < MIN_UNITS then MIN_UNITS else nu;
      var hp := brk.value;
      ghost var h := Header(if hp in mem then mem[hp].ptr else 0, units);
      CoreHeap(mem, fl, base, live, arena, hp, h);
      mem := mem[hp := Header(if hp in mem then mem[hp].ptr else 0, units)];
      live, arena := live[hp := units], arena + Region(hp, units);
      ghost var mem0, fl0 := mem, fl;
      ghost var j := Free(hp);
      assert live == old(live);
      ghost var i := FreedHasRoom(mem0, fl0, base, hp, j);
      assert Fits(mem, fl[i], nu);
      return Some(freep);
    }

    /**
     malloc. `brk` is what sbrk answers if it is asked; it is asked at most once. The header of the
     result lies one unit below the pointer the C code returns.
     */
    method Malloc(nbytes: nat, brk: Option<nat>) returns (r: Option<nat>)
      requires Valid() && nbytes + HEADER_SIZE - 1 < UINT_LIMIT
      requires brk.Some? ==> nbytes <= INT_LIMIT - 2 * HEADER_SIZE && Fresh(base, arena, brk.value, CoreUnits(NUnits(nbytes)))
      modifies this
      ensures Valid()
      ensures r.Some? ==>
        && r.value !in old(live) && live == old(live)[r.value := NUnits(nbytes)]
        && (forall a :: a in old(live) ==> Apart(a, old(live)[a], r.value, NUnits(nbytes)))
      ensures r.None? ==> brk.None? && live == old(live)
      ensures
        var mem0 := if old(freep) == 0 then old(mem)[base := Header(base, 0)] else old(mem);
        var ring := if old(freep) == 0 then [base] else Examined(old(fl), old(f));
        var k := FirstFit(mem0, ring, NUnits(nbytes));
        if k < |ring| then r == Some(ring[k] + (mem0[ring[k]].size - NUnits(nbytes))) && arena == old(arena)
        else if brk.None? then r == None && arena == old(arena) && mem == mem0
        else r.Some? && arena == old(arena) + Region(brk.value, if NUnits(nbytes) < 4096 then 4096 else NUnits(nbytes))
    {
      hide LiveOk, InLive, InFree, ListOk, NodeOk, From, Region, Fresh, HeapOk, CoreBytes,
        FirstFit, Examined;
      var nunits := (nbytes + HEADER_SIZE - 1) / HEADER_SIZE + 1;
      if freep == 0 {
        mem, freep := mem[base := Header(base, 0)], base;
        fl, f := [base], 0;
        FirstHeap(mem, base);
      }
      ghost var mem0, ring, arena0 := mem, Examined(fl, f), arena;
      CoreBytesFit(nbytes);
      HeapList(mem, fl, base, live, arena);
      ghost var c, called := 0, false;
      ExaminedWalk(mem, fl, base, f, 0);
      var prevp := freep;
      var p := mem[prevp].ptr;
      while true
        invariant Valid() && freep != 0 && live == old(live)
        invariant c < |fl| && prevp == From(fl, f)[c] && p == Examined(fl, f)[c]
        invariant forall t :: 0 <= t < c ==> !Fits(mem, Examined(fl, f)[t], nunits)
        invariant called ==> exists i :: 0 <= i < |fl| && Fits(mem, fl[i], nunits)
        invariant if called then
            brk.Some? && FirstFit(mem0, ring, nunits) == |ring| && arena == arena0 + Region(brk.value, CoreUnits(nunits))
          else mem == mem0 && ring == Examined(fl, f) && arena == arena0
        decreases !called, |fl| - c
      {
        HeapList(mem, fl, base, live, arena);
        ExaminedWalk(mem, fl, base, f, c);
        if mem[p].size >= nunits {
          ghost var i := ExaminedAt(mem, fl, base, f, c);
          FirstFitIs(mem, Examined(fl, f), nunits, c);
          r := Some(TakenAt(mem, p, nunits));
          Take(prevp, p, nunits, i);
          return;
        }
        if p == freep {
          NothingFits(mem, fl, f, nunits);
          var core := MoreCore(nunits, brk);
          if core.None? {
            return None;
          }
          called := true;
          p := core.value;
          c := 0;
        } else {
          c := c + 1;
        }
        HeapList(mem, fl, base, live, arena);
        ExaminedWalk(mem, fl, base, f, c);
        prevp := p;
        p := mem[p].ptr;
      }
    }

    /** The end of malloc: take `nunits` from list node `p`, which follows `prevp`. */
    method Take(prevp: nat, p: nat, nunits: nat, ghost i: nat)
      requires Valid() && freep != 0 && nunits > 0
      requires 0 < i < |fl| && fl[i] == p && fl[i - 1] == prevp && p in mem && mem[p].size >= nunits
      modifies this
      ensures Valid() && freep == prevp && arena == old(arena)
      ensures var q := TakenAt(old(mem), p, nunits);
        && q !in old(live) && live == old(live)[q := nunits]
        && (forall a :: a in old(live) ==> Apart(a, old(live)[a], q, nunits))
    {
      hide LiveOk, InLive, InFree, ListOk, NodeOk, HeapOk, CanTake;
      MayTake(mem, fl, base, live, arena, i, nunits);
      TakenHeap(mem, fl, base, live, arena, i, nunits);
      RemainingAt(mem, fl, i, nunits);
      ghost var fl' := Remaining(mem, fl, i, nunits);
      ghost var q := TakenAt(mem, p, nunits);
      if mem[p].size == nunits {
        mem := mem[prevp := mem[prevp].(ptr := mem[p].ptr)];
      } else {
        mem := mem[p := mem[p].(size := mem[p].size - nunits)];
        var rest := p + mem[p].size;
        mem := mem[rest := Header(if rest in mem then mem[rest].ptr else 0, nunits)];
      }
      freep := prevp;
      fl, f, live := fl', i - 1, live[q := nunits];
    }
  }

  lemma {:induction false} HeapList(mem: Memory, fl: seq<nat>, base: nat, live: map<nat, nat>, arena: set<nat>)
    requires HeapOk(mem, fl, base, live, arena)
    ensures ListOk(mem, fl, base)
  {
  }

  lemma {:induction false} FirstHeap(mem: Memory, base: nat)
    requires base in mem && mem[base] == Header(base, 0)
    ensures HeapOk(mem, [base], base, map[], {})
  {
  }

  /** malloc's pair of pointers moves along the ring together. */
  lemma {:induction false} ExaminedWalk(mem: Memory, fl: seq<nat>, base: nat, f: nat, c: nat)
    requires ListOk(mem, fl, base) && f < |fl| && c < |fl|
    ensures var w, e := From(fl, f), Examined(fl, f);
            && w[c] in mem && mem[w[c]].ptr == e[c] && e[c] in mem
            && (e[c] == fl[f] <==> c == |fl| - 1)
            && (c + 1 < |fl| ==> w[c + 1] == e[c])
  {
    WalkNext(mem, fl, base, f, c);
    if c + 1 < |fl| {
      WalkNext(mem, fl, base, f, c + 1);
      var i := At(fl, f, c + 1);
      assert i != f;
      assert fl[i] != fl[f];
    } else {
      WalkNext(mem, fl, base, f, 0);
    }
  }

  /** The examined node's predecessor in address order is the pointer that trails it. */
  lemma {:induction false} ExaminedAt(mem: Memory, fl: seq<nat>, base: nat, f: nat, c: nat) returns (i: nat)
    requires ListOk(mem, fl, base) && f < |fl| && c < |fl|
    ensures i < |fl| && fl[i] == Examined(fl, f)[c] && fl[i] in mem
    ensures if i == 0 then mem[fl[i]].size == 0 else fl[i - 1] == From(fl, f)[c]
  {
    i := At(fl, f, c) + 1;
    if i == |fl| {
      i := 0;
    }
    assert NodeOk(mem, fl, i);
    if c + 1 < |fl| {
      assert i == At(fl, f, c + 1);
    }
  }

  lemma {:induction false} NothingFits(mem: Memory, fl: seq<nat>, f: nat, nunits: nat)
    requires f < |fl|
    requires forall t :: 0 <= t < |fl| ==> !Fits(mem, Examined(fl, f)[t], nunits)
    ensures FirstFit(mem, Examined(fl, f), nunits) == |fl|
    ensures forall i :: 0 <= i < |fl| ==> !Fits(mem, fl[i], nunits)
  {
    forall i: nat | i < |fl| ensures !Fits(mem, fl[i], nunits) {
      var c := WalkMeets(fl, f, i);
      assert fl[i] == Examined(fl, f)[if c == 0 then |fl| - 1 else c - 1];
    }
  }

  lemma {:induction false} HasPlace(mem: Memory, fl: seq<nat>, base: nat, bp: nat) returns (j: nat)
    requires ListOk(mem, fl, base) && base < bp && bp !in fl
    ensures j < |fl| && Belongs(fl, bp, j)
  {
    j := BelongsSomewhere(fl, bp, |fl|);
    assert fl[..|fl|] == fl;
  }

  lemma {:induction false} NotInList(mem: Memory, fl: seq<nat>, base: nat, live: map<nat, nat>, a: nat)
    requires ListOk(mem, fl, base) && LiveOk(mem, fl, base, live) && a in live
    ensures base < a && a !in fl
  {
    forall i: nat | i < |fl| ensures fl[i] != a {
      NotAListNode(mem, fl, base, live, a, i);
    }
  }
}
