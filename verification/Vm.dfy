/**
 The physical page allocator (kalloc.c) and the address-space operations (vm.c), over one physical
 memory that all address spaces share.
 */
module Vm {
  import opened Blocks
  import opened Options
  import opened Seqs
  import opened VmState
  import opened VmFree

  const KERNBASE := 0x8000_0000
  const USER_FLAGS := PTE_P + PTE_W + PTE_U

  /** A row of the kernel's map: `n` pages from virtual page `virt` at physical page `phys`. */
  datatype Kmap = Kmap(virt: nat, phys: nat, n: nat, perm: nat)

  /** flags & PTE_U */
  predicate HasU(flags: nat) {
    flags / PTE_U % 2 == 1
  }

  /** flags & ~PTE_U */
  function ClearU(flags: nat): (r: nat)
    ensures !HasU(r) && r % PTE_U == flags % PTE_U && r / (2 * PTE_U) == flags / (2 * PTE_U)
  {
    if HasU(flags) then flags - PTE_U else flags
  }

  /** From `pte` to `pte'` a page that is mapped stays so, with its frame and all flags but PTE_U. */
  predicate OutOfReach(pte: Pte, pte': Pte) {
    pte.Present? ==>
      pte'.Present? && pte'.frame == pte.frame && !HasU(pte'.flags) && pte'.flags % 4 == pte.flags % 4 && pte'.flags / 8 == pte.flags / 8
  }

  /** A page that user code, and so copyout, can reach. */
  predicate UserPage(pte: Pte) {
    pte.Present? && HasU(pte.flags)
  }

  /** Page `v` holds some of the `n` bytes from `va` on. */
  predicate Covers(va: nat, n: nat, v: nat) {
    0 < n && va / PGSIZE <= v && v * PGSIZE < va + n
  }

  /** perm | PTE_P */
  function WithP(perm: nat): nat {
    if perm % 2 == 1 then perm else perm + PTE_P
  }

  /** The present bit is set and the other flags are kept. */
  lemma {:induction false} WithPIs(perm: nat)
    ensures WithP(perm) % 2 == 1 && WithP(perm) / 2 == perm / 2
  {
  }

  ghost predicate RowOk(k: Kmap) {
    USER <= k.virt && 0 < k.n && k.virt + k.n <= VPNS
  }

  predicate In(k: Kmap, v: nat) {
    k.virt <= v < k.virt + k.n
  }

  ghost predicate KmapOk(kmap: seq<Kmap>) {
    && (forall i :: 0 <= i < |kmap| ==> RowOk(kmap[i]))
    && (forall i, j, v: nat :: 0 <= i < j < |kmap| && In(kmap[i], v) ==> !In(kmap[j], v))
  }

  /** What the kernel's map says of virtual page `v`. */
  ghost function KernelPte(kmap: seq<Kmap>, v: nat): Pte {
    if kmap == [] then Absent
    else
      var k := kmap[|kmap| - 1];
      if In(k, v) then RowPte(k, v) else KernelPte(kmap[..|kmap| - 1], v)
  }

  ghost function RowPte(k: Kmap, v: nat): Pte
    requires In(k, v)
  {
    Present(k.phys + (v - k.virt), WithP(k.perm))
  }

  const DEVICES := 0xF_E000   // the first page of the device mapping, which reaches to the end of memory

  /** The device pages are mapped, and not for the user. */
  ghost predicate DevicesMapped(m: Mem, d: nat) {
    forall v: nat :: DEVICES <= v < VPNS ==> Lookup(m, d, v).Present? && !UserPage(Lookup(m, d, v))
  }

  /** The kernel's map, with the kernel's writable data from physical page `data` on. */
  function KernelMap(data: nat): seq<Kmap>
    requires 256 < data < 57344
  {
    [ Kmap(USER, 0, 256, PTE_W),
      Kmap(USER + 256, 256, data - 256, 0),
      Kmap(USER + data, data, 57344 - data, PTE_W),
      Kmap(DEVICES, DEVICES, VPNS - DEVICES, PTE_W) ]
  }

  lemma {:induction false} KernelMapOk(data: nat)
    requires 256 < data < 57344
    ensures KmapOk(KernelMap(data))
  {
  }

  /**
   The kernel's half of an address space: at page `v` is physical page `v - USER`, writable unless it holds the kernel's
   text, the device pages are at their own addresses, none is for the user, and nothing else is mapped.
   */
  ghost predicate KernelLayout(m: Mem, d: nat, data: nat) {
    && (forall v: nat :: USER <= v < USER + 57344 ==>
         Lookup(m, d, v) == Present(v - USER, if v - USER < 256 || data <= v - USER then PTE_P + PTE_W else PTE_P))
    && (forall v: nat :: DEVICES <= v < VPNS ==> Lookup(m, d, v) == Present(v, PTE_P + PTE_W))
    && (forall v: nat :: USER + 57344 <= v < DEVICES ==> Lookup(m, d, v) == Absent)
  }

  lemma {:induction false} KernelMapAt(data: nat, v: nat)
    requires 256 < data < 57344 && v < VPNS
    ensures KernelPte(KernelMap(data), v) ==
            if USER <= v < USER + 57344
            then Present(v - USER, if v - USER < 256 || data <= v - USER then PTE_P + PTE_W else PTE_P)
            else if DEVICES <= v then Present(v, PTE_P + PTE_W) else Absent
  {
    var kmap := KernelMap(data);
    assert kmap[..3][..2] == kmap[..2] && kmap[..2][..1] == kmap[..1] && kmap[..1][..0] == [];
    assert KernelPte(kmap[..1], v) == if In(kmap[0], v) then RowPte(kmap[0], v) else Absent;
    assert KernelPte(kmap[..2], v) == if In(kmap[1], v) then RowPte(kmap[1], v) else KernelPte(kmap[..1], v);
    assert KernelPte(kmap[..3], v) == if In(kmap[2], v) then RowPte(kmap[2], v) else KernelPte(kmap[..2], v);
  }

  /** An address space that maps the kernel as the map says is laid out so. */
  lemma {:induction false} KernelMapLayout(data: nat, m: Mem, d: nat)
    requires 256 < data < 57344 && forall v: nat :: USER <= v < VPNS ==> Lookup(m, d, v) == KernelPte(KernelMap(data), v)
    ensures KernelLayout(m, d, data)
  {
    hide Lookup, KernelPte, KernelMap;
    forall v: nat | USER <= v < VPNS
      ensures KernelPte(KernelMap(data), v) ==
              if v < USER + 57344 then Present(v - USER, if v - USER < 256 || data <= v - USER then PTE_P + PTE_W else PTE_P)
              else if DEVICES <= v then Present(v, PTE_P + PTE_W) else Absent
    {
      KernelMapAt(data, v);
    }
  }

  /** It maps the device pages in every address space. */
  lemma {:induction false} KernelMapDevices(data: nat, m: Mem, d: nat)
    requires 256 < data < 57344 && forall v: nat :: USER <= v < VPNS ==> Lookup(m, d, v) == KernelPte(KernelMap(data), v)
    ensures DevicesMapped(m, d)
  {
    var kmap := KernelMap(data);
    forall v: nat | DEVICES <= v < VPNS ensures Lookup(m, d, v).Present? && !UserPage(Lookup(m, d, v)) {
      assert In(kmap[3], v) && KernelPte(kmap, v) == RowPte(kmap[3], v);
    }
  }

  class Machine {
    const lo: nat
    const hi: nat                   // kalloc hands out the pages from `lo` up to `hi`
    var freelist: seq<nat>
    var tables: map<nat, seq<Pte>>
    var data: map<nat, seq<Byte>>
    ghost var owner: Owners
    ghost var starved: bool         // some kalloc found no page

    ghost function M(): Mem
      reads this
    {
      Mem(freelist, tables, data)
    }

    ghost predicate InRange(f: nat) {
      0 < lo <= f < hi
    }

    ghost predicate Valid()
      reads this
    {
      MemOk(M(), owner) && forall f :: f in Frames(M(), owner) ==> InRange(f)
    }

    /** kinit and freerange: every page is free. */
    constructor (lo: nat, hi: nat)
      requires 0 < lo <= hi
      ensures Valid() && owner == map[] && !starved && this.lo == lo && this.hi == hi
      ensures forall f: nat :: f in Frames(M(), owner) <==> lo <= f < hi
    {
      this.lo, this.hi := lo, hi;
      freelist, tables, data := [], map[], map[];
      owner, starved := map[], false;
      new;
      var p := lo;
      while p < hi
        invariant lo <= p <= hi && owner == map[] && !starved && tables == map[] && data == map[]
        invariant Distinct(freelist) && forall f :: f in freelist <==> lo <= f < p
      {
        DistinctCons(p, freelist);
        ghost var was := freelist;
        Kfree(p);
        assert M().free == [p] + was;
        p := p + 1;
      }
    }

    /** kfree, of a page of the right range that is not free. */
    method Kfree(f: nat)
      requires InRange(f)
      modifies this`freelist, this`tables, this`data
      ensures M() == Freed(old(M()), f)
      ensures freelist == [f] + old(freelist) && tables == old(tables) - {f} && data == old(data) - {f}
    {
      tables, data := tables - {f}, data - {f};
      freelist := [f] + freelist;
    }

    /** kalloc. */
    method Kalloc() returns (r: Option<nat>)
      requires Valid()
      modifies this`freelist, this`starved
      ensures Valid() && starved == (old(starved) || r.None?)
      ensures r.None? <==> old(freelist) == []
      ensures r.None? ==> freelist == old(freelist)
      ensures r.Some? ==>
        && r.value == old(freelist)[0] && freelist == old(freelist)[1..]
        && InRange(r.value) && Held(M(), owner, r.value) && Agree(old(M()), M(), owner)
        && Frames(M(), owner) == Frames(old(M()), owner) - {r.value} && r.value in Frames(old(M()), owner)
    {
      if freelist == [] {
        starved := true;
        return None;
      }
      TakeFree(M(), owner);
      r := Some(freelist[0]);
      freelist := freelist[1..];
    }

    /** walkpgdir: the page table that holds the entry for page `v`, made if asked for. */
    method Walkpgdir(d: nat, v: nat, alloc: bool) returns (r: Option<nat>)
      requires Valid() && IsDir(owner, d) && v < VPNS
      modifies this`freelist, this`tables, this`owner, this`starved
      ensures Valid() && Evolves(old(M()), old(owner), M(), owner, d, {}, false) && (old(starved) ==> starved)
      ensures r.None? || !alloc ==> M() == old(M()) && owner == old(owner)
      ensures Kept(old(owner), owner)
      ensures r.None? ==> Entry(M(), d, v / NENTRIES) == Absent && (alloc ==> starved)
      ensures alloc ==> (r.None? <==> old(Entry(M(), d, v / NENTRIES)) == Absent && old(freelist) == [])
      ensures r.Some? ==> |freelist| == |old(freelist)| - if old(Entry(M(), d, v / NENTRIES)) == Absent then 1 else 0
      ensures forall t: nat :: t < NENTRIES && t != v / NENTRIES ==> Entry(M(), d, t) == old(Entry(M(), d, t))
      ensures !alloc ==> starved == old(starved)
      ensures r.Some? ==> Entry(M(), d, v / NENTRIES).Present? && Entry(M(), d, v / NENTRIES).frame == r.value && IsTable(M(), r.value)
      ensures forall w: nat :: w < VPNS ==> Lookup(M(), d, w) == old(Lookup(M(), d, w))
    {
      hide MemOk, OthersKept, Lookup, Evolves, Frames, Agree;
      OwnTable(M(), owner, d, v / NENTRIES);
      EvolvesRefl(M(), owner, d, false);
      var pde := tables[d][v / NENTRIES];
      if pde.Present? {
        return Some(pde.frame);
      }
      if !alloc {
        return None;
      }
      ghost var m0 := M();
      r := Kalloc();
      if r.None? {
        return;
      }
      var f := r.value;
      MadeTable(m0, M(), owner, d, v / NENTRIES, f, PTE_P + PTE_W + PTE_U);
      tables := tables[f := Blank(NENTRIES)];
      tables := tables[d := tables[d][v / NENTRIES := Present(f, PTE_P + PTE_W + PTE_U)]];
      owner := owner[f := Owner(d, Tab(v / NENTRIES))];
      StillHeld(m0, old(owner), M(), owner, d, {}, false, 0);
    }
  
    /** mappages: one user page, or any number of kernel pages. None of them may be mapped yet. */
    method Mappages(d: nat, v: nat, n: nat, pa: nat, perm: nat) returns (ok: bool)
      requires Valid() && IsDir(owner, d) && 0 < n && v + n <= VPNS
      requires v < USER ==> n == 1 && Held(M(), owner, pa) && IsPage(M(), pa) && InRange(pa)
      requires forall w: nat :: v <= w < v + n ==> Lookup(M(), d, w) == Absent
      modifies this`freelist, this`tables, this`owner, this`starved
      ensures Valid() && (old(starved) ==> starved) && (!ok ==> starved) && data == old(data) && Kept(old(owner), owner)
      ensures Evolves(old(M()), old(owner), M(), owner, d, if ok && v < USER then {pa} else {}, false)
      ensures n == 1 ==>
        && (!ok <==> old(Entry(M(), d, v / NENTRIES)) == Absent && old(freelist) == [])
        && |freelist| == |old(freelist)| - (if ok && old(Entry(M(), d, v / NENTRIES)) == Absent then 1 else 0)
        && (forall t: nat :: t < NENTRIES && t != v / NENTRIES ==> Entry(M(), d, t) == old(Entry(M(), d, t)))
        && (ok ==> Entry(M(), d, v / NENTRIES).Present?) && (!ok ==> M() == old(M()))
      ensures ok || v < USER ==>
        forall w: nat :: w < VPNS ==>
          Lookup(M(), d, w) == if ok && v <= w < v + n then Present(pa + (w - v), WithP(perm)) else old(Lookup(M(), d, w))
      ensures forall w: nat :: w < VPNS && !(v <= w < v + n) ==> Lookup(M(), d, w) == old(Lookup(M(), d, w))
    {
      hide MemOk, OthersKept, Lookup, Evolves, Frames, WithP, MappedTo, Entry;
      EvolvesRefl(M(), owner, d, false);
      MappedNone(M(), d, v, pa, WithP(perm));
      var k := 0;
      while true
        invariant k < n && Valid() && (old(starved) ==> starved) && data == old(data) && Kept(old(owner), owner)
        invariant Evolves(old(M()), old(owner), M(), owner, d, {}, false)
        invariant v < USER || n == 1 ==> k == 0
        invariant k == 0 ==> M() == old(M()) && owner == old(owner)
        invariant MappedTo(old(M()), M(), d, v, k, pa, WithP(perm))
        decreases n - k
      {
        ghost var m0, o0 := M(), owner;
        MappedOutside(old(M()), m0, d, v, k, n, pa, WithP(perm));
        StillHeld(old(M()), old(owner), m0, o0, d, {}, false, pa);
        var pgtab := Walkpgdir(d, v + k, true);
        EvolvesTrans(old(M()), old(owner), m0, o0, {}, false, M(), owner, {}, false, d, {});
        if pgtab.None? {
          return false;
        }
        ghost var m1, o1 := M(), owner;
        StillHeld(m0, o0, m1, o1, d, {}, false, pa);
        if v < USER {
          MapOneUser(m1, o1, d, v, pa, WithP(perm), false);
          owner := owner[pa := Owner(d, Page(v))];
        } else {
          MapOneKernel(m1, o1, d, v + k, Present(pa + k, WithP(perm)), false);
        }
        tables := tables[pgtab.value := tables[pgtab.value][(v + k) % NENTRIES := Present(pa + k, WithP(perm))]];
        ghost var plus := if v < USER then {pa} else {};
        EvolvesTrans(old(M()), old(owner), m1, o1, {}, false, M(), owner, plus, false, d, plus);
        StillHeld(m1, o1, M(), owner, d, plus, false, pa);
        MappedNext(old(M()), m0, M(), d, v, k, pa, WithP(perm));
        if k == n - 1 {
          MappedAll(old(M()), M(), d, v, n, pa, WithP(perm));
          break;
        }
        k := k + 1;
      }
      ok := true;
    }

    /** setupkvm: a new address space that maps the kernel as its table says and no user page. */
    method Setupkvm(kmap: seq<Kmap>) returns (r: Option<nat>)
      requires Valid() && KmapOk(kmap)
      modifies this`freelist, this`tables, this`owner, this`starved
      ensures Valid() && (old(starved) ==> starved) && (r.None? ==> starved) && data == old(data) && Kept(old(owner), owner)
      ensures forall e :: IsDir(old(owner), e) ==> IsDir(owner, e) && SpaceKept(old(M()), M(), e)
      ensures r.Some? ==>
        && r.value !in old(owner)
        && Evolves(old(M()), old(owner), M(), owner, r.value, {}, false)
        && forall v: nat :: v < VPNS ==> Lookup(M(), r.value, v) == KernelPte(kmap, v)
      ensures r.None? ==> Frames(M(), owner) == old(Frames(M(), owner)) && exists e :: Stray(old(owner), owner, e)
    {
      hide MemOk, Lookup, Evolves, SpaceKept, KmapOk, Frames;
      ghost var m0, o0 := M(), owner;
      r := Kalloc();
      if r.None? {
        forall e | IsDir(o0, e) ensures SpaceKept(m0, M(), e) {
          AgreeSpace(m0, M(), o0, e);
        }
        assert Stray(o0, owner, 0);
        return;
      }
      var d := r.value;
      FirstDir(m0, o0, M(), d, false);
      tables := tables[d := Blank(NENTRIES)];
      owner := owner[d := Owner(d, Dir)];
      StillHeld(m0, o0, M(), owner, d, {}, false, 0);
      var k := 0;
      while k < |kmap|
        invariant k <= |kmap| && Valid() && (old(starved) ==> starved) && data == old(data) && Kept(o0, owner)
        invariant Evolves(m0, o0, M(), owner, d, {}, false)
        invariant forall v: nat :: v < VPNS ==> Lookup(M(), d, v) == KernelPte(kmap[..k], v)
      {
        ghost var m1, o1 := M(), owner;
        StillHeld(m0, o0, m1, o1, d, {}, false, 0);
        NextRow(kmap, k);
        var ok := Mappages(d, kmap[k].virt, kmap[k].n, kmap[k].phys, kmap[k].perm);
        EvolvesTrans(m0, o0, m1, o1, {}, false, M(), owner, {}, false, d, {});
        if !ok {
          EvolvesOthers(m0, o0, M(), owner, d, false);
          StrayIn(m0, o0, M(), owner, d);
          return None;
        }
        k := k + 1;
      }
      assert kmap[..k] == kmap;
      EvolvesOthers(m0, o0, M(), owner, d, false);
    }

    /** kvmalloc: the kernel's own address space, which maps physical memory and the devices and no user page. */
    method Kvmalloc(data: nat) returns (r: Option<nat>)
      requires Valid() && 256 < data < 57344
      modifies this`freelist, this`tables, this`owner, this`starved
      ensures Valid() && (r.None? ==> starved)
      ensures r.Some? ==>
        && r.value !in old(owner) && KernelLayout(M(), r.value, data)
        && forall v: nat :: v < USER ==> Lookup(M(), r.value, v) == Absent
    {
      hide MemOk, Lookup, Evolves, SpaceKept, KmapOk, Frames, KernelPte, KernelMap, KernelLayout;
      KernelMapOk(data);
      r := Setupkvm(KernelMap(data));
      if r.Some? {
        KernelMapLayout(data, M(), r.value);
        forall v: nat | v < USER ensures Lookup(M(), r.value, v) == Absent {
          KernelMapAt(data, v);
        }
      }
    }

    /**
     deallocuvm: the pages of the range that it reaches are unmapped and free, all else is as it was.
     The panic on a null physical address is unreachable.
     */
    method Deallocuvm(d: nat, oldsz: nat, newsz: nat) returns (r: nat)
      requires Valid() && IsDir(owner, d) && oldsz <= KERNBASE
      modifies this`freelist, this`tables, this`data, this`owner, this`starved
      ensures Valid() && starved == old(starved)
      ensures newsz >= oldsz ==> r == oldsz && M() == old(M()) && owner == old(owner)
      ensures newsz < oldsz ==> r == newsz && Unmapped(old(M()), old(owner), M(), owner, d, PgUp(newsz), PgUp(oldsz))
    {
      hide MemOk, OthersKept, Lookup, Frames, Entry, Skips, Stands, Evolves;
      if newsz >= oldsz {
        return oldsz;
      }
      ghost var m0, o0, start, end := M(), owner, PgUp(newsz), PgUp(oldsz);
      EvolvesRefl(m0, o0, d, false);
      assert Stands(m0, d, start, start) by { StandsFirst(m0, d, start); }
      var a := PgUp(newsz);
      while a * PGSIZE < oldsz
        invariant start <= a && Valid() && starved == old(starved) && Stands(m0, d, start, a)
        invariant Evolves(m0, o0, M(), owner, d, {}, false) && Shrinks(m0, o0, M(), owner)
        invariant forall t: nat :: t < NENTRIES ==> Entry(M(), d, t) == Entry(m0, d, t)
        invariant forall w: nat :: w < VPNS ==>
          Lookup(M(), d, w) == if start <= w < a && w < end && !Skips(m0, d, start, w) then Absent else Lookup(m0, d, w)
        decreases oldsz - a * PGSIZE
      {
        EvolvesDir(m0, o0, M(), owner, d, {}, false);
        var pgtab := Walkpgdir(d, a, false);
        if pgtab.None? {
          StepTable(m0, d, start, a);
          a := a + (NENTRIES - 1);
        } else {
          StepPage(m0, d, start, a);
          var pte := tables[pgtab.value][a % NENTRIES];
          assert pte == Lookup(M(), d, a) by { EntryLookup(M(), d, a); }
          if pte.Present? {
            ghost var m1, o1 := M(), owner;
            UnmapOne(m1, o1, d, a);
            owner := owner - {pte.frame};
            Kfree(pte.frame);
            tables := tables[pgtab.value := tables[pgtab.value][a % NENTRIES := Absent]];
            EvolvesTrans(m0, o0, m1, o1, {}, false, M(), owner, {}, false, d, {});
            StillHeld(m1, o1, M(), owner, d, {}, false, 0);
          }
        }
        a := a + 1;
      }
      r := newsz;
    }

    /** A page from kalloc is filled and mapped: the step allocuvm and copyuvm share. */
    method MapFresh(d: nat, v: nat, page: seq<Byte>, perm: nat) returns (got: bool, ok: bool)
      requires Valid() && IsDir(owner, d) && v < USER && Lookup(M(), d, v) == Absent && |page| == PGSIZE
      modifies this`freelist, this`tables, this`data, this`owner, this`starved
      ensures Valid() && (old(starved) ==> starved) && (ok ==> got) && (!ok ==> starved)
      ensures Evolves(old(M()), old(owner), M(), owner, d, {}, got && !ok)
      ensures got <==> |old(freelist)| >= 1
      ensures ok <==> |old(freelist)| >= if old(Entry(M(), d, v / NENTRIES)) == Absent then 2 else 1
      ensures ok ==> |freelist| == |old(freelist)| - if old(Entry(M(), d, v / NENTRIES)) == Absent then 2 else 1
      ensures !got ==> M() == old(M()) && owner == old(owner)
      ensures got && !ok ==>
        && freelist == [] && old(freelist)[0] in old(Frames(M(), owner))
        && Frames(M(), owner) == old(Frames(M(), owner)) - {old(freelist)[0]}
      ensures forall t: nat :: t < NENTRIES ==>
        Entry(M(), d, t).Present? == (old(Entry(M(), d, t)).Present? || (ok && t == v / NENTRIES))
      ensures DataKept(old(M()), old(owner), M()) && Kept(old(owner), owner)
      ensures forall w: nat :: w < VPNS && (w != v || !ok) ==> Lookup(M(), d, w) == old(Lookup(M(), d, w))
      ensures ok ==> MapsNew(M(), d, v, page, WithP(perm), old(owner))
    {
      hide MemOk, Lookup, Frames, Evolves, Agree;
      ghost var m0, o0 := M(), owner;
      EvolvesRefl(m0, o0, d, false);
      var mem := Kalloc();
      if mem.None? {
        return false, false;
      }
      var f := mem.value;
      ghost var m1 := M();
      AgreeTwice(m0, m1, o0, f, page, d);
      data := data[f := page];
      ghost var m2 := M();
      ok := Mappages(d, v, 1, f, perm);
      got := true;
      HandedOver(m0, o0, m2, M(), owner, d, f, ok);
      StillHeld(m0, o0, M(), owner, d, {}, !ok, 0);
    }

    /** The pages from `oldsz` to `newsz` are given up again. */
    method GiveBack(d: nat, oldsz: nat, newsz: nat)
      requires Valid() && IsDir(owner, d) && newsz <= KERNBASE
      modifies this`freelist, this`tables, this`data, this`owner, this`starved
      ensures Valid() && starved == old(starved)
      ensures Evolves(old(M()), old(owner), M(), owner, d, {}, false) && Frames(M(), owner) == old(Frames(M(), owner))
      ensures forall w: nat :: USER <= w < VPNS ==> Lookup(M(), d, w) == old(Lookup(M(), d, w))
      ensures oldsz < newsz ==> Unmapped(old(M()), old(owner), M(), owner, d, PgUp(oldsz), PgUp(newsz))
    {
      hide MemOk, Lookup, Frames, Evolves;
      ghost var m, o := M(), owner;
      PgUpKernel(newsz);
      var _ := Deallocuvm(d, newsz, oldsz);
      Settle(m, o, M(), owner, d, PgUp(oldsz), PgUp(newsz), newsz > oldsz, false);
      StrayIn(m, o, M(), owner, d);
    }

    /** allocuvm out of memory at page `a`, having started from `m0`: the address space is again as it was then. */
    method GiveUp(d: nat, oldsz: nat, newsz: nat, ghost m0: Mem, ghost o0: Owners, ghost a: nat, ghost lost: set<nat>)
      requires Valid() && MemOk(m0, o0) && IsDir(o0, d) && PgUp(oldsz) <= a < PgUp(newsz) && newsz < KERNBASE
      requires Evolves(m0, o0, M(), owner, d, {}, lost != {}) && Accounted(m0, o0, M(), d, PgUp(oldsz), a, lost) && freelist == []
      requires forall v: nat :: PgUp(oldsz) <= v < PgUp(newsz) ==> Lookup(m0, d, v) == Absent
      modifies this`freelist, this`tables, this`data, this`owner, this`starved
      ensures Valid() && starved == old(starved) && Frames(M(), owner) == old(Frames(M(), owner))
      ensures Evolves(m0, o0, M(), owner, d, {}, lost != {}) && SpaceKept(m0, M(), d)
      ensures forall w: nat :: USER <= w < VPNS ==> Lookup(M(), d, w) == Lookup(m0, d, w)
      ensures var start, n := PgUp(oldsz), PgUp(newsz) - PgUp(oldsz);
        !Enough(m0, d, start, n) && Allotted(m0, o0, M(), d, start, n, lost)
    {
      hide MemOk, Lookup, Frames, Evolves, Supply, RunsOut, Enough, Allotted, SpaceKept, Midway, Unmapped, PgUp, Grown, TablesMade;
      ghost var m2, o2, start := M(), owner, PgUp(oldsz);
      EvolvesDir(m0, o0, m2, o2, d, {}, lost != {});
      PgUpKernel(newsz);
      PgUpLess(oldsz, newsz);
      GiveBack(d, oldsz, newsz);
      MidwayUndone(m0, o0, m2, o2, M(), owner, d, start, a, PgUp(newsz));
      EvolvesStarved(m2, o2, M(), owner, d, {}, lost != {});
      EvolvesTrans(m0, o0, m2, o2, {}, lost != {}, M(), owner, {}, lost != {}, d, {});
      SupplyEnds(m0, o0, M(), d, start, a - start, PgUp(newsz) - start, lost);
    }

    /**
     allocuvm: zeroed pages fill the range and all else is as it was. It takes a page for each page of the range and
     one for each new page table. A page is lost exactly if the free list runs out at the request for a page table;
     if that was for the last page, the new size is returned all the same and the last page is not mapped.
     */
    method Allocuvm(d: nat, oldsz: nat, newsz: nat) returns (r: nat, ghost lost: set<nat>)
      requires Valid() && IsDir(owner, d)
      requires forall v: nat :: PgUp(oldsz) <= v < PgUp(newsz) && v < USER ==> Lookup(M(), d, v) == Absent
      modifies this`freelist, this`tables, this`data, this`owner, this`starved
      ensures Valid() && (old(starved) ==> starved) && (!starved ==> lost == {})
      ensures Evolves(old(M()), old(owner), M(), owner, d, {}, lost != {})
      ensures |lost| <= 1 && lost <= old(Frames(M(), owner)) && Frames(M(), owner) == old(Frames(M(), owner)) - lost
      ensures forall w: nat :: USER <= w < VPNS ==> Lookup(M(), d, w) == old(Lookup(M(), d, w))
      ensures r == 0 ==> SpaceKept(old(M()), M(), d)
      ensures newsz >= KERNBASE ==> r == 0 && M() == old(M()) && owner == old(owner)
      ensures newsz < KERNBASE && newsz < oldsz ==> r == oldsz && M() == old(M()) && owner == old(owner)
      ensures oldsz <= newsz < KERNBASE ==>
        var start, n := PgUp(oldsz), PgUp(newsz) - PgUp(oldsz);
        && r == (if Enough(old(M()), d, start, n) then newsz else 0)
        && Allotted(old(M()), old(owner), M(), d, start, n, lost)
      ensures !starved && oldsz <= newsz < KERNBASE ==>
        r == newsz && Grown(old(M()), old(owner), M(), d, PgUp(oldsz), PgUp(newsz))
    {
      hide MemOk, Lookup, Frames, Evolves, Entry, Grown, Enough, Allotted, PgUp, SpaceKept, DataKept, Accounted;
      ghost var m0, o0, start := M(), owner, PgUp(oldsz);
      lost := {};
      EvolvesRefl(m0, o0, d, false);
      NotYet(m0, o0, d, start);
      if newsz >= KERNBASE {
        return 0, {};
      }
      if newsz < oldsz {
        return oldsz, {};
      }
      PgUpMono(oldsz, newsz);
      PgUpKernel(newsz);
      var a := PgUp(oldsz);
      while a * PGSIZE < newsz
        invariant start <= a <= PgUp(newsz) && Valid() && (old(starved) ==> starved) && (!starved ==> lost == {})
        invariant Evolves(m0, o0, M(), owner, d, {}, lost != {}) && Kept(o0, owner) && Accounted(m0, o0, M(), d, start, a, lost)
        invariant a == start ==> M() == m0
        invariant |lost| <= 1 && lost <= Frames(m0, o0) && Frames(M(), owner) == Frames(m0, o0) - lost
        decreases newsz - a * PGSIZE
      {
        ghost var m1, o1, lost1 := M(), owner, lost;
        PgUpAbove(newsz, a);
        EvolvesDir(m0, o0, m1, o1, d, {}, lost != {});
        OutsideSame(m0, o0, m1, d, start, a, lost, a);
        var got, ok := MapFresh(d, a, Zeros(PGSIZE), PTE_W + PTE_U);
        if !got {
          EvolvesStarved(m1, o1, M(), owner, d, {}, lost != {});
          EvolvesTrans(m0, o0, m1, o1, {}, lost != {}, M(), owner, {}, lost != {}, d, {});
          GiveUp(d, oldsz, newsz, m0, o0, a, lost);
          return 0, lost;
        }
        AccountNext(m0, o0, m1, o1, M(), owner, d, start, a, lost, ok);
        lost := if ok then {} else {m1.free[0]};
        if ok {
          FramesKept(m1, o1, M(), owner, d);
        }
        EvolvesTrans(m0, o0, m1, o1, {}, lost1 != {}, M(), owner, {}, lost != {}, d, {});
        a := a + 1;
      }
      PgUpAbove(newsz, a);
      OutsideSame(m0, o0, M(), d, start, a, lost, USER);
      AccountDone(m0, o0, M(), d, start, a, lost);
      r := newsz;
    }

    /** freevm: every page of the address space is free again and the others are kept. */
    method Freevm(d: nat)
      requires Valid() && IsDir(owner, d)
      modifies this`freelist, this`tables, this`data, this`owner, this`starved
      ensures Valid() && starved == old(starved)
      ensures owner == Rest(old(owner), d) && OthersKept(old(M()), old(owner), M(), owner, d)
      ensures Frames(M(), owner) == old(Frames(M(), owner))
    {
      hide MemOk, OthersKept, Lookup, Unmapped, Frames, TabFrames, Rest;
      ghost var m0, o0 := M(), owner;
      var _ := Deallocuvm(d, KERNBASE, 0);
      ghost var m1, o1 := M(), owner;
      AllUnmapped(m0, o0, m1, o1, d);
      AllTabs(m1, o1, d);
      Detach(m1, o1, d);
      owner := Rest(owner, d);
      ghost var table := tables[d];
      assert TabFrames(table, 0) == {} by { NoTabs(table); }
      var i := 0;
      while i < NENTRIES
        invariant i <= NENTRIES && MemOk(M(), owner) && Agree(m1, M(), owner) && starved == old(starved)
        invariant owner == Rest(o1, d) && d in tables && tables[d] == table
        invariant Frames(M(), owner) == Frames(m1, owner) + TabFrames(table, i)
      {
        TabHeld(m1, o1, d, i);
        if tables[d][i].Present? {
          var f := tables[d][i].frame;
          HeldFrames(M(), owner, f);
          FreeHeld(M(), owner, f);
          Kfree(f);
        }
        i := i + 1;
      }
      HeldFrames(M(), owner, d);
      FreeHeld(M(), owner, d);
      Kfree(d);
      OnlySpaceLeft(m0, o0, m1, o1, M(), owner, d);
    }

    /**
     copyuvm: while memory lasts, a new address space whose first pages hold the same bytes with the same
     flags on physical pages that were not in use, and which maps the kernel as every space does.
     */
    method Copyuvm(d: nat, sz: nat, kmap: seq<Kmap>) returns (r: Option<nat>, ghost lost: set<nat>)
      requires Valid() && IsDir(owner, d) && KmapOk(kmap) && sz <= KERNBASE
      requires forall v: nat :: v < PgUp(sz) ==> Lookup(M(), d, v).Present?
      modifies this`freelist, this`tables, this`data, this`owner, this`starved
      ensures Valid() && (old(starved) ==> starved) && (r.None? ==> starved)
      ensures forall e :: IsDir(old(owner), e) ==> IsDir(owner, e) && SpaceKept(old(M()), M(), e)
      ensures |lost| <= 1 && lost <= old(Frames(M(), owner)) && Frames(M(), owner) == old(Frames(M(), owner)) - lost
      ensures r.None? ==> exists e :: Stray(old(owner), owner, e)
      ensures r.Some? ==>
        && r.value !in old(owner) && lost == {}
        && Evolves(old(M()), old(owner), M(), owner, r.value, {}, false)
        && Copied(old(M()), old(owner), d, M(), r.value, PgUp(sz))
        && forall v: nat :: PgUp(sz) <= v < VPNS ==> Lookup(M(), r.value, v) == KernelPte(kmap, v)
    {
      hide MemOk, Lookup, Frames, Evolves, KmapOk, SpaceKept, KernelPte;
      ghost var m0, o0 := M(), owner;
      lost := {};
      r := Setupkvm(kmap);
      if r.None? {
        return;
      }
      var e := r.value;
      var i := 0;
      while i * PGSIZE < sz
        invariant i <= PgUp(sz) && Valid() && (old(starved) ==> starved) && Kept(o0, owner)
        invariant Evolves(m0, o0, M(), owner, e, {}, false)
        invariant Copied(m0, o0, d, M(), e, i)
        invariant forall v: nat :: i <= v < VPNS ==> Lookup(M(), e, v) == KernelPte(kmap, v)
        decreases sz - i * PGSIZE
      {
        ghost var m1, o1 := M(), owner;
        ParentPage(m0, o0, m1, o1, d, e, i, false);
        var pgtab := Walkpgdir(d, i, false);
        assert M() == m1 && owner == o1;
        EntryLookup(m1, d, i);
        var pte := tables[pgtab.value][i % NENTRIES];
        NoUserRow(kmap, i);
        var got, ok := MapFresh(e, i, data[pte.frame], pte.flags);
        EvolvesTrans(m0, o0, m1, o1, {}, false, M(), owner, {}, got && !ok, e, {});
        if !ok {
          StrayIn(m0, o0, m1, o1, e);
          if got {
            lost := {m1.free[0]};
          }
          EvolvesDir(m0, o0, M(), owner, e, {}, got && !ok);
          ghost var m2, o2 := M(), owner;
          Freevm(e);
          Undone(m0, o0, m2, o2, M(), owner, e, got && !ok);
          NoStray(m0, o0, m2, o2, owner, e, got && !ok);
          return None, lost;
        }
        CopyOne(m0, o0, d, m1, o1, M(), e, i);
        i := i + 1;
      }
      EvolvesOthers(m0, o0, M(), owner, e, false);
      StrayIn(m0, o0, M(), owner, e);
    }

    /** clearpteu: the page stays as it is mapped but user code cannot reach it; without a page table it panics. */
    method Clearpteu(d: nat, v: nat) returns (ok: bool)
      requires Valid() && IsDir(owner, d) && v < USER
      modifies this`freelist, this`tables, this`owner, this`starved
      ensures Valid() && starved == old(starved) && data == old(data)
      ensures Evolves(old(M()), old(owner), M(), owner, d, {}, false)
      ensures (ok <==> Entry(old(M()), d, v / NENTRIES).Present?) && (Lookup(old(M()), d, v).Present? ==> ok)
      ensures forall w: nat :: w < VPNS && w != v ==> Lookup(M(), d, w) == old(Lookup(M(), d, w))
      ensures var pte := old(Lookup(M(), d, v));
        Lookup(M(), d, v) == if pte.Present? then Present(pte.frame, ClearU(pte.flags)) else Absent
      ensures !UserPage(Lookup(M(), d, v))
      ensures OutOfReach(old(Lookup(M(), d, v)), Lookup(M(), d, v))
    {
      hide MemOk, Frames, OthersKept, Evolves;
      EvolvesRefl(M(), owner, d, false);
      var pgtab := Walkpgdir(d, v, false);
      if pgtab.None? {
        return false;
      }
      var pte := tables[pgtab.value][v % NENTRIES];
      if pte.Present? {
        ClearOne(M(), owner, d, v, ClearU(pte.flags));
        tables := tables[pgtab.value := tables[pgtab.value][v % NENTRIES := Present(pte.frame, ClearU(pte.flags))]];
        StillHeld(old(M()), owner, M(), owner, d, {}, false, 0);
      }
      ok := true;
    }

    /** uva2ka: the physical page of a user page, if user code can reach it. */
    method Uva2ka(d: nat, v: nat) returns (r: Option<nat>)
      requires Valid() && IsDir(owner, d) && v < VPNS
      modifies this`freelist, this`tables, this`owner, this`starved
      ensures Valid() && M() == old(M()) && owner == old(owner) && starved == old(starved)
      ensures r.Some? <==> UserPage(Lookup(M(), d, v))
      ensures r.Some? ==> Lookup(M(), d, v).frame == r.value
    {
      hide MemOk, Frames, Evolves;
      var pgtab := Walkpgdir(d, v, false);
      if pgtab.None? {
        return None;
      }
      var pte := tables[pgtab.value][v % NENTRIES];
      if !pte.Present? {
        return None;
      }
      if !HasU(pte.flags) {
        return None;
      }
      return Some(pte.frame);
    }

    /** copyout: fails exactly if a page of the range cannot be reached by user code. */
    method Copyout(d: nat, va: nat, p: seq<Byte>) returns (ok: bool)
      requires Valid() && IsDir(owner, d) && va + |p| <= KERNBASE
      modifies this`freelist, this`tables, this`data, this`owner, this`starved
      ensures Valid() && starved == old(starved) && owner == old(owner)
      ensures Evolves(old(M()), old(owner), M(), owner, d, {}, false)
      ensures forall w: nat :: w < VPNS ==> Lookup(M(), d, w) == old(Lookup(M(), d, w))
      ensures ok <==> forall v: nat :: Covers(va, |p|, v) ==> UserPage(Lookup(M(), d, v))
      ensures ok ==> forall a: nat :: a < KERNBASE ==>
        UserByte(M(), d, a) == if va <= a < va + |p| then p[a - va] else old(UserByte(M(), d, a))
    {
      hide MemOk, Frames, Evolves, Lookup, UserByte, Entry;
      ghost var m0 := M();
      EvolvesRefl(m0, owner, d, false);
      var a, k := va, 0;
      while k < |p|
        invariant k <= |p| && a == va + k && (k == 0 || k == |p| || a % PGSIZE == 0)
        invariant Valid() && starved == old(starved) && owner == old(owner)
        invariant Evolves(m0, owner, M(), owner, d, {}, false)
        invariant forall w: nat :: w < VPNS ==> Lookup(M(), d, w) == Lookup(m0, d, w)
        invariant forall v: nat :: Covers(va, k, v) ==> UserPage(Lookup(m0, d, v))
        invariant forall b: nat :: b < KERNBASE ==> UserByte(M(), d, b) == if va <= b < a then p[b - va] else UserByte(m0, d, b)
      {
        var v := a / PGSIZE;
        var pa := Uva2ka(d, v);
        if pa.None? {
          return false;
        }
        var o := a % PGSIZE;
        var n := if PGSIZE - o > |p| - k then |p| - k else PGSIZE - o;
        ghost var m1 := M();
        WriteBytes(m1, owner, d, a, p[k..k + n]);
        data := data[pa.value := Overlay(data[pa.value], o, p[k..k + n])];
        EvolvesTrans(m0, owner, m1, owner, {}, false, M(), owner, {}, false, d, {});
        StillHeld(m1, owner, M(), owner, d, {}, false, 0);
        k := k + n;
        a := va + k;
      }
      ok := true;
    }

    /** A whole life of an address space: set up, grown, freed. The free pages are the same ones again. */
    method Lifetime(kmap: seq<Kmap>, newsz: nat)
      requires Valid() && KmapOk(kmap)
      modifies this`freelist, this`tables, this`data, this`owner, this`starved
      ensures Valid()
      ensures !starved ==> forall f :: f in freelist <==> f in old(freelist)
    {
      hide MemOk, Lookup, Frames, Evolves, KmapOk, KernelPte, SpaceKept, OthersKept, Grown;
      ghost var m0, o0 := M(), owner;
      var d := Setupkvm(kmap);
      if d.Some? {
        ghost var m1, o1 := M(), owner;
        EvolvesDir(m0, o0, m1, o1, d.value, {}, false);
        forall v: nat | v < USER ensures Lookup(M(), d.value, v) == Absent {
          NoUserRow(kmap, v);
        }
        ghost var lost;
        var size;
        size, lost := Allocuvm(d.value, 0, newsz);
        EvolvesTrans(m0, o0, m1, o1, {}, false, M(), owner, {}, lost != {}, d.value, {});
        EvolvesDir(m0, o0, M(), owner, d.value, {}, lost != {});
        ghost var m2, o2 := M(), owner;
        Freevm(d.value);
        if lost == {} {
          AllBack(m0, o0, m2, o2, M(), owner, d.value);
        }
      }
    }
  }

  /** A page from the free list becomes a page table. */
  lemma {:induction false} MadeTable(m0: Mem, m1: Mem, owner: Owners, d: nat, t: nat, f: nat, flags: nat)
    requires MemOk(m0, owner) && IsDir(owner, d) && t < NENTRIES && Entry(m0, d, t) == Absent
    requires MemOk(m1, owner) && Agree(m0, m1, owner) && Held(m1, owner, f)
    requires f in Frames(m0, owner) && Frames(m1, owner) == Frames(m0, owner) - {f}
    ensures f != d && IsTable(m1, d)
    ensures var m' := SetPte(m1.(tables := m1.tables[f := Blank(NENTRIES)]), d, t, Present(f, flags));
            && Evolves(m0, owner, m', owner[f := Owner(d, Tab(t))], d, {}, false) && IsTable(m', f)
            && Entry(m', d, t) == Present(f, flags)
            && (forall u: nat :: u < NENTRIES && u != t ==> Entry(m', d, u) == Entry(m0, d, u))
            && (forall w: nat :: w < VPNS ==> Lookup(m', d, w) == Lookup(m0, d, w))
  {
    FreedKeeps(m0, m1, owner, d);
    OwnTable(m0, owner, d, t);
    OwnTable(m1, owner, d, t);
    hide MemOk, OthersKept, Lookup;
    AddTable(m1, owner, d, t, f, flags);
    var m', owner' := SetPte(m1.(tables := m1.tables[f := Blank(NENTRIES)]), d, t, Present(f, flags)), owner[f := Owner(d, Tab(t))];
    OthersKeptTrans(m0, owner, m1, owner, m', owner', d);
    assert Frames(m', owner') == Frames(m1, owner) + {f};
  }

  lemma {:induction false} SameFrames(m: Mem, m': Mem, owner: Owners)
    requires m.free == m'.free
    ensures Frames(m, owner) == Frames(m', owner)
  {
  }

  lemma {:induction false} ClearOne(m: Mem, owner: Owners, d: nat, v: nat, flags: nat)
    requires MemOk(m, owner) && IsDir(owner, d) && v < USER && Lookup(m, d, v).Present?
    ensures var pde := Entry(m, d, v / NENTRIES); pde.Present? && IsTable(m, pde.frame)
    ensures var pte := Present(Lookup(m, d, v).frame, flags);
            var m' := SetPte(m, Entry(m, d, v / NENTRIES).frame, v % NENTRIES, pte);
            && Evolves(m, owner, m', owner, d, {}, false)
            && (forall w: nat :: w < VPNS ==> Lookup(m', d, w) == if w == v then pte else Lookup(m, d, w))
  {
    assert Entry(m, d, v / NENTRIES).Present?;
    hide MemOk, OthersKept, Lookup;
    var pte := Present(Lookup(m, d, v).frame, flags);
    Remap(m, owner, d, v, pte);
    SameFrames(m, SetPte(m, Entry(m, d, v / NENTRIES).frame, v % NENTRIES, pte), owner);
  }

  /** The first `n` pages of `e` hold what those of `d` held, with the same flags, on pages that were not in use. */
  ghost predicate Copied(m: Mem, owner: Owners, d: nat, m': Mem, e: nat, n: nat) {
    forall v: nat :: v < n ==> PageCopied(m, owner, d, m', e, v)
  }

  ghost predicate PageCopied(m: Mem, owner: Owners, d: nat, m': Mem, e: nat, v: nat) {
    var pte := Lookup(m, d, v);
    pte.Present? && pte.frame in m.data && MapsNew(m', e, v, m.data[pte.frame], WithP(pte.flags), owner)
  }

  lemma {:induction false} ParentPage(m0: Mem, o0: Owners, m1: Mem, o1: Owners, d: nat, e: nat, v: nat, starved: bool)
    requires MemOk(m0, o0) && Evolves(m0, o0, m1, o1, e, {}, starved) && IsDir(o0, d) && e !in o0 && v < USER
    requires Lookup(m0, d, v).Present?
    ensures IsDir(o1, d) && IsDir(o1, e) && Lookup(m1, d, v) == Lookup(m0, d, v)
    ensures var f := Lookup(m0, d, v).frame; IsPage(m0, f) && f in m1.data && m1.data[f] == m0.data[f]
    ensures Entry(m1, d, v / NENTRIES).Present? && IsTable(m1, Entry(m1, d, v / NENTRIES).frame)
  {
    assert SpaceKept(m0, m1, d);
    var f := Lookup(m0, d, v).frame;
    assert PageOk(m0, o0, d, v) && BackOk(m0, o0, f);
    assert SameData(m0, m1, f);
    OwnTable(m1, o1, d, v / NENTRIES);
  }

  lemma {:induction false} CopyOne(m0: Mem, o0: Owners, d: nat, m1: Mem, o1: Owners, m2: Mem, e: nat, i: nat)
    requires MemOk(m1, o1) && IsDir(o1, e) && Copied(m0, o0, d, m1, e, i) && i < USER
    requires Lookup(m0, d, i).Present? && Lookup(m0, d, i).frame in m0.data
    requires MapsNew(m2, e, i, m0.data[Lookup(m0, d, i).frame], WithP(Lookup(m0, d, i).flags), o1)
    requires forall w: nat :: w < VPNS && w != i ==> Lookup(m2, e, w) == Lookup(m1, e, w)
    requires DataKept(m1, o1, m2) && Kept(o0, o1)
    ensures Copied(m0, o0, d, m2, e, i + 1)
  {
    forall v: nat | v < i + 1 ensures PageCopied(m0, o0, d, m2, e, v) {
      if v < i {
        assert PageCopied(m0, o0, d, m1, e, v);
        assert PageOk(m1, o1, e, v);
      }
    }
  }

  /** Once the new space is given up nothing of it is left. */
  lemma {:induction false} NoStray(m0: Mem, o0: Owners, m1: Mem, o1: Owners, o2: Owners, e: nat, leaked: bool)
    requires Evolves(m0, o0, m1, o1, e, {}, leaked) && o2 == Rest(o1, e)
    ensures Stray(o0, o2, e)
  {
  }

  lemma {:induction false} Undone(m0: Mem, o0: Owners, m1: Mem, o1: Owners, m2: Mem, o2: Owners, e: nat, starved: bool)
    requires Evolves(m0, o0, m1, o1, e, {}, starved) && OthersKept(m1, o1, m2, o2, e) && e !in o0
    ensures forall d :: IsDir(o0, d) ==> IsDir(o2, d) && SpaceKept(m0, m2, d)
  {
    hide SpaceKept;
    OthersKeptTrans(m0, o0, m1, o1, m2, o2, e);
  }

  lemma {:induction false} AllBack(m0: Mem, o0: Owners, m1: Mem, o1: Owners, m2: Mem, o2: Owners, d: nat)
    requires MemOk(m0, o0) && d !in o0 && Evolves(m0, o0, m1, o1, d, {}, false)
    requires MemOk(m2, o2) && o2 == Rest(o1, d) && Frames(m2, o2) == Frames(m1, o1)
    ensures forall f :: f in m2.free <==> f in m0.free
  {
    forall f | f in o0 ensures o0[f].dir != d {
      assert BackOk(m0, o0, f);
    }
    forall f ensures f in o2 <==> f in o0 {
    }
    forall f ensures f in m2.free <==> f in m0.free {
      assert f in Frames(m2, o2) <==> f in Frames(m0, o0);
      assert FreeOk(m0, o0) && FreeOk(m2, o2);
    }
  }

  lemma {:induction false} NoTabs(table: seq<Pte>)
    ensures TabFrames(table, 0) == {}
  {
  }

  /** deallocuvm from KERNBASE to 0 reaches every user page. */
  lemma {:induction false} AllUnmapped(m: Mem, owner: Owners, m': Mem, owner': Owners, d: nat)
    requires Unmapped(m, owner, m', owner', d, PgUp(0), PgUp(KERNBASE))
    ensures NoUserPages(owner', d) && MemOk(m', owner') && IsDir(owner', d)
    ensures OthersKept(m, owner, m', owner', d) && Rest(owner', d) == Rest(owner, d) && Frames(m', owner') == Frames(m, owner)
  {
    forall f | f in owner' && owner'[f].dir == d ensures !owner'[f].role.Page? {
      assert BackOk(m', owner', f);
      assert forall v: nat :: v < USER ==> Hit(m, d, PgUp(0), PgUp(KERNBASE), v);
    }
  }

  lemma {:induction false} OnlySpaceLeft(m0: Mem, o0: Owners, m1: Mem, o1: Owners, m2: Mem, o2: Owners, d: nat)
    requires OthersKept(m0, o0, m1, o1, d) && MemOk(m1, Rest(o1, d)) && Agree(m1, m2, Rest(o1, d)) && o2 == Rest(o1, d)
    ensures OthersKept(m0, o0, m2, o2, d)
  {
    hide MemOk, OthersKept, Agree;
    assert Rest(o2, d) == Rest(o1, d);
    OnlySpace(m1, o1, m2, o2, d);
    OthersKeptTrans(m0, o0, m1, o1, m2, o2, d);
  }

  /** The pages that were in use hold what they held. */
  ghost predicate DataKept(m: Mem, owner: Owners, m': Mem) {
    forall f :: f in owner ==> SameData(m, m', f)
  }

  /** Page `v` is mapped, with these flags, to a page that was not in use and holds `page`. */
  ghost predicate MapsNew(m: Mem, d: nat, v: nat, page: seq<Byte>, flags: nat, was: Owners) {
    var pte := Lookup(m, d, v);
    pte.Present? && pte.flags == flags && pte.frame !in was && pte.frame in m.data && m.data[pte.frame] == page
  }

  /** Pages `start..end` are new and zero, the others as they were. */
  ghost predicate Grown(m: Mem, owner: Owners, m': Mem, d: nat, start: nat, end: nat) {
    && (forall v: nat :: start <= v < end ==> MapsNew(m', d, v, Zeros(PGSIZE), USER_FLAGS, owner))
    && (forall v: nat :: v < VPNS && !(start <= v < end) ==> Lookup(m', d, v) == Lookup(m, d, v))
    && DataKept(m, owner, m')
  }

  lemma {:induction false} PgUpAbove(sz: nat, a: nat)
    ensures a * PGSIZE < sz <==> a < PgUp(sz)
  {
  }

  lemma {:induction false} PgUpLess(sz: nat, sz': nat)
    requires PgUp(sz) < PgUp(sz')
    ensures sz < sz'
  {
    PgUpAbove(sz', PgUp(sz));
  }

  lemma {:induction false} PgUpMono(sz: nat, sz': nat)
    requires sz <= sz'
    ensures PgUp(sz) <= PgUp(sz')
  {
  }

  lemma {:induction false} PgUpKernel(sz: nat)
    requires sz <= KERNBASE
    ensures PgUp(sz) <= USER
  {
  }

  // ----- How many pages allocuvm needs -----

  /** Mapping page `start + k`, after those before it, needs a new page table. */
  ghost predicate NewTable(m: Mem, d: nat, start: nat, k: nat) {
    Entry(m, d, (start + k) / NENTRIES) == Absent && (k == 0 || (start + k - 1) / NENTRIES != (start + k) / NENTRIES)
  }

  /** The pages it takes to map `k` pages from `start` on: each of them, and the new page tables. */
  ghost function Supply(m: Mem, d: nat, start: nat, k: nat): nat {
    if k == 0 then 0 else Supply(m, d, start, k - 1) + if NewTable(m, d, start, k - 1) then 2 else 1
  }

  /** With `free` pages, the last one goes to page `start + k` and none is left for its page table. */
  ghost predicate RunsOut(m: Mem, d: nat, start: nat, k: nat, free: nat) {
    NewTable(m, d, start, k) && free == Supply(m, d, start, k) + 1
  }

  /** The free pages are enough to get to the end of `n` pages, if need be without a table for the last one. */
  ghost predicate Enough(m: Mem, d: nat, start: nat, n: nat) {
    Supply(m, d, start, n) <= |m.free| || (n > 0 && RunsOut(m, d, start, n - 1, |m.free|))
  }

  /**
   How the attempt to map `n` pages from `start` on ended: a page is lost exactly if the free pages run out for a
   page table; with enough of them all pages are new and as many are gone as it takes; if they run out at the last
   page, that page is not mapped.
   */
  ghost predicate Allotted(m: Mem, owner: Owners, m': Mem, d: nat, start: nat, n: nat, lost: set<nat>) {
    && (lost != {} <==> exists k: nat :: k < n && RunsOut(m, d, start, k, |m.free|))
    && (Supply(m, d, start, n) <= |m.free| ==>
          lost == {} && Grown(m, owner, m', d, start, start + n) && |m'.free| == |m.free| - Supply(m, d, start, n))
    && (n > 0 && RunsOut(m, d, start, n - 1, |m.free|) ==> Lookup(m', d, start + n - 1) == Absent)
  }

  /** From `m0` to `m` page tables were made for the pages `start..a` and no others. */
  ghost predicate TablesMade(m0: Mem, m: Mem, d: nat, start: nat, a: nat) {
    forall t: nat :: t < NENTRIES ==>
      Entry(m, d, t).Present? == (Entry(m0, d, t).Present? || (start < a && start / NENTRIES <= t <= (a - 1) / NENTRIES))
  }

  lemma {:induction false} SupplyNone(m: Mem, d: nat, start: nat, free: nat)
    ensures Supply(m, d, start, 0) == 0 && TablesMade(m, m, d, start, start)
  {
  }

  lemma {:induction false} GrownNone(m: Mem, owner: Owners, d: nat, start: nat)
    ensures Grown(m, owner, m, d, start, start)
  {
  }

  lemma {:induction false} SupplyNext(m0: Mem, m1: Mem, d: nat, start: nat, a: nat, free: nat)
    requires TablesMade(m0, m1, d, start, a) && start <= a < USER
    ensures Entry(m1, d, a / NENTRIES) == Absent <==> NewTable(m0, d, start, a - start)
    ensures Supply(m0, d, start, a - start + 1) == Supply(m0, d, start, a - start) + if NewTable(m0, d, start, a - start) then 2 else 1
    ensures RunsOut(m0, d, start, a - start, free) <==> NewTable(m0, d, start, a - start) && free == Supply(m0, d, start, a - start) + 1
  {
    hide Entry;
    assert a / NENTRIES < NENTRIES;
    assert Entry(m1, d, a / NENTRIES).Present? == (Entry(m0, d, a / NENTRIES).Present?
      || (start < a && start / NENTRIES <= a / NENTRIES <= (a - 1) / NENTRIES));
  }

  lemma {:induction false} TablesMore(m0: Mem, m1: Mem, m2: Mem, d: nat, start: nat, a: nat)
    requires TablesMade(m0, m1, d, start, a) && start <= a
    requires forall t: nat :: t < NENTRIES ==> Entry(m2, d, t).Present? == (Entry(m1, d, t).Present? || t == a / NENTRIES)
    ensures TablesMade(m0, m2, d, start, a + 1)
  {
    hide Entry;
    assert start < a ==> a / NENTRIES <= (a - 1) / NENTRIES + 1;
  }

  /**
   While allocuvm is at page `a`: all pages but those of `start..a` are as they were, and if one of these is mapped then
   so that deallocuvm finds the first page table.
   */
  ghost predicate Midway(m0: Mem, o0: Owners, m: Mem, d: nat, start: nat, a: nat) {
    && DataKept(m0, o0, m)
    && (forall w: nat :: w < VPNS && !(start <= w < a) ==> Lookup(m, d, w) == Lookup(m0, d, w))
    && (Entry(m, d, start / NENTRIES).Present? || forall w: nat :: start <= w < a ==> Lookup(m, d, w) == Absent)
  }

  /** The pages taken so far: all that were asked for, or all there were, with one lost for want of a page table. */
  ghost predicate Accounted(m0: Mem, o0: Owners, m: Mem, d: nat, start: nat, a: nat, lost: set<nat>) {
    && start <= a && Midway(m0, o0, m, d, start, a)
    && if lost == {}
       then Grown(m0, o0, m, d, start, a) && TablesMade(m0, m, d, start, a) && |m.free| + Supply(m0, d, start, a - start) == |m0.free|
       else a > start && m.free == [] && RunsOut(m0, d, start, a - start - 1, |m0.free|) && Lookup(m, d, a - 1) == Absent
  }

  lemma {:induction false} NotYet(m: Mem, owner: Owners, d: nat, start: nat)
    ensures Accounted(m, owner, m, d, start, start, {}) && SpaceKept(m, m, d)
  {
    hide Grown, Lookup, Entry, TablesMade;
    SupplyNone(m, d, start, |m.free|);
    GrownNone(m, owner, d, start);
  }

  lemma {:induction false} OutsideSame(m0: Mem, o0: Owners, m: Mem, d: nat, start: nat, a: nat, lost: set<nat>, from: nat)
    requires Accounted(m0, o0, m, d, start, a, lost) && a <= from
    ensures forall w: nat :: from <= w < VPNS ==> Lookup(m, d, w) == Lookup(m0, d, w)
  {
    hide Lookup, Grown, TablesMade, RunsOut;
  }

  lemma {:induction false} AccountNext(m0: Mem, o0: Owners, m1: Mem, o1: Owners, m2: Mem, o2: Owners, d: nat, start: nat, a: nat,
                                       lost: set<nat>, ok: bool)
    requires Accounted(m0, o0, m1, d, start, a, lost) && a < USER && Lookup(m1, d, a) == Absent
    requires MemOk(m0, o0) && IsDir(o0, d) && MemOk(m1, o1) && Kept(o0, o1) && Evolves(m0, o0, m1, o1, d, {}, lost != {})
    requires |m1.free| >= 1 && (ok <==> |m1.free| >= if Entry(m1, d, a / NENTRIES) == Absent then 2 else 1)
    requires ok ==> |m2.free| == |m1.free| - if Entry(m1, d, a / NENTRIES) == Absent then 2 else 1
    requires if ok then MapsNew(m2, d, a, Zeros(PGSIZE), USER_FLAGS, o1) else m2.free == []
    requires DataKept(m1, o1, m2) && forall w: nat :: w < VPNS && (w != a || !ok) ==> Lookup(m2, d, w) == Lookup(m1, d, w)
    requires forall t: nat :: t < NENTRIES ==> Entry(m2, d, t).Present? == (Entry(m1, d, t).Present? || (ok && t == a / NENTRIES))
    ensures lost == {} && Accounted(m0, o0, m2, d, start, a + 1, if ok then {} else {m1.free[0]})
  {
    hide MemOk, Evolves, Lookup, Entry, Grown, MapsNew, DataKept, TablesMade, Midway, NewTable;
    SupplyNext(m0, m1, d, start, a, |m0.free|);
    MidwayNext(m0, o0, m1, o1, m2, d, start, a, ok);
    if ok {
      GrowOne(m0, o0, m1, o1, m2, o2, d, start, a);
      TablesMore(m0, m1, m2, d, start, a);
    }
  }

  lemma {:induction false} AccountDone(m0: Mem, o0: Owners, m: Mem, d: nat, start: nat, a: nat, lost: set<nat>)
    requires Accounted(m0, o0, m, d, start, a, lost)
    ensures Enough(m0, d, start, a - start) && Allotted(m0, o0, m, d, start, a - start, lost) && (lost == {} ==> Grown(m0, o0, m, d, start, a))
  {
    hide Lookup, Grown, TablesMade, Midway, Supply, RunsOut, Enough, Allotted;
    SupplyDone(m0, o0, m, d, start, a - start, lost);
  }

  lemma {:induction false} MidwayNext(m0: Mem, o0: Owners, m1: Mem, o1: Owners, m2: Mem, d: nat, start: nat, a: nat, ok: bool)
    requires Midway(m0, o0, m1, d, start, a) && start <= a && Kept(o0, o1) && DataKept(m1, o1, m2)
    requires (!ok ==> Lookup(m1, d, a) == Absent && a < VPNS) && (ok ==> TablesMade(m0, m1, d, start, a) && a < VPNS)
    requires forall w: nat :: w < VPNS && (w != a || !ok) ==> Lookup(m2, d, w) == Lookup(m1, d, w)
    requires forall t: nat :: t < NENTRIES ==> Entry(m2, d, t).Present? == (Entry(m1, d, t).Present? || (ok && t == a / NENTRIES))
    ensures Midway(m0, o0, m2, d, start, a + 1)
  {
    hide Lookup, Entry;
    assert start / NENTRIES < NENTRIES;
  }

  /** After deallocuvm none of the pages is mapped and the others are as before. */
  lemma {:induction false} MidwayUndone(m0: Mem, o0: Owners, m2: Mem, o2: Owners, m3: Mem, o3: Owners, d: nat, start: nat, a: nat, end: nat)
    requires MemOk(m0, o0) && IsDir(o0, d) && Midway(m0, o0, m2, d, start, a) && a <= end <= USER
    requires forall v: nat :: start <= v < end ==> Lookup(m0, d, v) == Absent
    requires Unmapped(m2, o2, m3, o3, d, start, end)
    ensures SpaceKept(m0, m3, d) && forall w: nat :: USER <= w < VPNS ==> Lookup(m3, d, w) == Lookup(m0, d, w)
  {
    hide Lookup, Entry;
    forall v: nat | v < VPNS ensures Lookup(m3, d, v) == Lookup(m0, d, v) {
    }
    forall v: nat | v < USER && Lookup(m0, d, v).Present? ensures SameData(m0, m3, Lookup(m0, d, v).frame) {
      assert PageOk(m0, o0, d, v) && PageOk(m3, o3, d, v);
    }
  }

  lemma {:induction false} SupplyGrows(m: Mem, d: nat, start: nat, j: nat, k: nat)
    requires j <= k
    ensures Supply(m, d, start, j) <= Supply(m, d, start, k)
  {
    if j < k {
      SupplyGrows(m, d, start, j, k - 1);
    }
  }

  /** The pages run out for a page table at one place only. */
  lemma {:induction false} RunsOutOnce(m: Mem, d: nat, start: nat, j: nat, k: nat, free: nat)
    requires RunsOut(m, d, start, j, free) && j != k
    ensures !RunsOut(m, d, start, k, free) && Supply(m, d, start, j + 1) > free
  {
    hide NewTable;
    if j < k {
      SupplyGrows(m, d, start, j + 1, k);
    } else {
      SupplyGrows(m, d, start, k + 1, j);
    }
  }

  /** The loop stops before page `start + k`, for want of a page. */
  lemma {:induction false} SupplyEnds(m: Mem, owner: Owners, m': Mem, d: nat, start: nat, k: nat, n: nat, lost: set<nat>)
    requires k < n
    requires if lost != {} then k > 0 && RunsOut(m, d, start, k - 1, |m.free|) else |m.free| == Supply(m, d, start, k)
    ensures !Enough(m, d, start, n) && Allotted(m, owner, m', d, start, n, lost)
  {
    hide NewTable, Grown, Lookup;
    SupplyGrows(m, d, start, k + 1, n);
    if lost != {} {
      RunsOutOnce(m, d, start, k - 1, n - 1, |m.free|);
      SupplyGrows(m, d, start, k, n);
    } else {
      forall j: nat | j < n ensures !RunsOut(m, d, start, j, |m.free|) {
        if j < k {
          SupplyGrows(m, d, start, j + 1, k);
        } else {
          SupplyGrows(m, d, start, k, j);
        }
      }
    }
  }

  /** The loop got to its end. */
  lemma {:induction false} SupplyDone(m: Mem, owner: Owners, m': Mem, d: nat, start: nat, n: nat, lost: set<nat>)
    requires lost == {} ==>
      Supply(m, d, start, n) <= |m.free| && Grown(m, owner, m', d, start, start + n) && |m'.free| == |m.free| - Supply(m, d, start, n)
    requires lost != {} ==> n > 0 && RunsOut(m, d, start, n - 1, |m.free|) && Lookup(m', d, start + n - 1) == Absent
    ensures Enough(m, d, start, n) && Allotted(m, owner, m', d, start, n, lost)
  {
    hide NewTable, Grown, Lookup;
    if lost == {} {
      forall j: nat | j < n ensures !RunsOut(m, d, start, j, |m.free|) {
        SupplyGrows(m, d, start, j + 1, n);
      }
    }
  }

  lemma {:induction false} GrowOne(m0: Mem, o0: Owners, m1: Mem, o1: Owners, m2: Mem, o2: Owners, d: nat, start: nat, a: nat)
    requires MemOk(m0, o0) && Evolves(m0, o0, m1, o1, d, {}, false) && Grown(m0, o0, m1, d, start, a)
    requires start <= a < USER && IsDir(o0, d)
    requires MapsNew(m2, d, a, Zeros(PGSIZE), USER_FLAGS, o1) && DataKept(m1, o1, m2)
    requires forall w: nat :: w < VPNS && w != a ==> Lookup(m2, d, w) == Lookup(m1, d, w)
    requires MemOk(m1, o1) && Kept(o0, o1)
    ensures Grown(m0, o0, m2, d, start, a + 1)
  {
    forall v: nat | start <= v < a + 1 ensures MapsNew(m2, d, v, Zeros(PGSIZE), USER_FLAGS, o0) {
      if v < a {
        assert MapsNew(m1, d, v, Zeros(PGSIZE), USER_FLAGS, o0);
        assert PageOk(m1, o1, d, v);
      }
    }
  }

  ghost predicate Kept(owner: Owners, owner': Owners) {
    forall f :: f in owner ==> f in owner' && owner'[f] == owner[f]
  }

  lemma {:induction false} AgreeTwice(m0: Mem, m1: Mem, owner: Owners, f: nat, page: seq<Byte>, d: nat)
    requires MemOk(m0, owner) && MemOk(m1, owner) && Agree(m0, m1, owner) && Held(m1, owner, f) && IsDir(owner, d)
    ensures var m2 := m1.(data := m1.data[f := page]);
            && MemOk(m2, owner) && Agree(m0, m2, owner) && Held(m2, owner, f)
            && (forall w: nat :: w < VPNS ==> Lookup(m2, d, w) == Lookup(m0, d, w))
            && Frames(m2, owner) == Frames(m1, owner)
  {
    var m2 := m1.(data := m1.data[f := page]);
    FillHeld(m1, owner, f, page);
    hide MemOk, Lookup;
    forall w: nat | w < VPNS ensures Lookup(m2, d, w) == Lookup(m0, d, w) {
      AgreeLookup(m0, m2, owner, d, w);
    }
  }

  /** A page taken from the free list is mapped, or lost when memory has run out. */
  /** A page taken from the free list is mapped, or else lost. */
  lemma {:induction false} HandedOver(m0: Mem, o0: Owners, m2: Mem, m3: Mem, o3: Owners, d: nat, f: nat, mapped: bool)
    requires MemOk(m0, o0) && Agree(m0, m2, o0) && f in Frames(m0, o0) && Frames(m2, o0) == Frames(m0, o0) - {f}
    requires Evolves(m2, o0, m3, o3, d, if mapped then {f} else {}, false)
    ensures Evolves(m0, o0, m3, o3, d, {}, !mapped)
    ensures !mapped ==> Frames(m3, o3) == Frames(m0, o0) - {f}
  {
    hide MemOk, OthersKept, Agree, Frames;
    AgreeOthers(m0, m2, o0, d);
    OthersKeptTrans(m0, o0, m2, o0, m3, o3, d);
  }

  /** Every page that came into use belongs to `e`. */
  ghost predicate Stray(owner: Owners, owner': Owners, e: nat) {
    forall f :: f in owner' && f !in owner ==> owner'[f].dir == e
  }

  lemma {:induction false} StrayIn(m: Mem, owner: Owners, m': Mem, owner': Owners, d: nat)
    requires Evolves(m, owner, m', owner', d, {}, false)
    ensures Stray(owner, owner', d) && Frames(m', owner') == Frames(m, owner)
  {
  }

  lemma {:induction false} Settle(m: Mem, owner: Owners, m': Mem, owner': Owners, d: nat, start: nat, end: nat, shrunk: bool, starved: bool)
    requires MemOk(m, owner) && IsDir(owner, d)
    requires if shrunk then Unmapped(m, owner, m', owner', d, start, end) else m' == m && owner' == owner
    ensures Evolves(m, owner, m', owner', d, {}, starved)
  {
    if shrunk {
      hide MemOk, OthersKept;
    } else {
      EvolvesRefl(m, owner, d, starved);
    }
  }

  /** Pages needed to hold `sz` bytes. */
  function PgUp(sz: nat): nat {
    (sz + PGSIZE - 1) / PGSIZE
  }

  /** Pages in use are only given up, and keep what they hold. */
  ghost predicate Shrinks(m: Mem, owner: Owners, m': Mem, owner': Owners) {
    forall f :: f in owner' ==> f in owner && owner'[f] == owner[f] && SameData(m, m', f)
  }

  /** The result of unmapping the pages of `start..end` that are reached. */
  ghost predicate Unmapped(m: Mem, owner: Owners, m': Mem, owner': Owners, d: nat, start: nat, end: nat) {
    && Evolves(m, owner, m', owner', d, {}, false) && Shrinks(m, owner, m', owner')
    && (forall t: nat :: t < NENTRIES ==> Entry(m', d, t) == Entry(m, d, t))
    && (forall w: nat :: w < VPNS ==> Lookup(m', d, w) == if Hit(m, d, start, end, w) then Absent else Lookup(m, d, w))
  }

  /** Exactly the pages that were mapped in the range and reached are free now. */
  lemma {:induction false} ExactlyFreed(m: Mem, owner: Owners, m': Mem, owner': Owners, d: nat, start: nat, end: nat, f: nat)
    requires MemOk(m, owner) && Unmapped(m, owner, m', owner', d, start, end)
    ensures f in m'.free <==>
      f in m.free || (f in owner && owner[f].dir == d && owner[f].role.Page? && Hit(m, d, start, end, owner[f].role.v))
  {
    hide Lookup, Entry, Hit;
    assert FreeOk(m, owner) && FreeOk(m', owner');
    assert f in Frames(m, owner) <==> f in Frames(m', owner');
    if f in owner {
      assert BackOk(m, owner, f);
      var e := owner[f].dir;
      assert e == d && owner[f].role.Tab? ==> TabOk(m', owner', d, owner[f].role.t);
      assert e == d && owner[f].role.Page? ==> PageOk(m', owner', d, owner[f].role.v);
    }
    if f in owner' {
      assert BackOk(m', owner', f);
    }
  }

  /**
   A page mapped in the range survives exactly if the walk steps over it: it is still mapped to the same frame,
   which is not free. Otherwise it is unmapped and its frame is free.
   */
  lemma {:induction false} SurvivesIfSkipped(m: Mem, owner: Owners, m': Mem, owner': Owners, d: nat, start: nat, end: nat, v: nat)
    requires MemOk(m, owner) && IsDir(owner, d) && Unmapped(m, owner, m', owner', d, start, end)
    requires start <= v < end && v < USER && Lookup(m, d, v).Present?
    ensures Skips(m, d, start, v) <==> Lookup(m', d, v) == Lookup(m, d, v)
    ensures Skips(m, d, start, v) <==> Lookup(m, d, v).frame !in m'.free
  {
    hide Lookup, Skips, Evolves, Entry;
    var f := Lookup(m, d, v).frame;
    assert PageOk(m, owner, d, v);
    assert FreeOk(m, owner);
    ExactlyFreed(m, owner, m', owner', d, start, end, f);
  }

  /** A directory without its first table, whose second table maps the page after it. */
  ghost function Gap(): (m: Mem) {
    Mem([], map[10 := Blank(NENTRIES)[1 := Present(11, USER_FLAGS)], 11 := Blank(NENTRIES)[0 := Present(12, USER_FLAGS)]],
        map[12 := Zeros(PGSIZE)])
  }

  ghost function GapOwners(): Owners {
    map[10 := Owner(10, Dir), 11 := Owner(10, Tab(1)), 12 := Owner(10, Page(1024))]
  }

  /** In that sound memory page 1024 is mapped, and shrinking to five pages steps over it. */
  lemma {:induction false} GapSkips(m: Mem, owner: Owners)
    requires m == Gap() && owner == GapOwners()
    ensures MemOk(m, owner) && IsDir(owner, 10)
    ensures Lookup(m, 10, 1024).Present? && Skips(m, 10, 5, 1024)
  {
    hide Blank, Zeros;
    assert Entry(m, 10, 1) == Present(11, USER_FLAGS) && Entry(m, 11, 0) == Present(12, USER_FLAGS);
    assert forall t: nat :: t != 1 ==> Entry(m, 10, t) == Absent;
    assert forall t: nat :: t != 0 ==> Entry(m, 11, t) == Absent;
    forall v: nat | v != 1024 ensures Lookup(m, 10, v) == Absent {
      assert v / NENTRIES == 1 ==> v % NENTRIES != 0;
    }
  }

  // ----- The kernel keeps user memory contiguous, so nothing is stepped over -----

  /** allocuvm from the end of contiguous memory leaves it contiguous. */
  lemma {:induction false} GrowsContiguous(m: Mem, owner: Owners, m': Mem, d: nat, start: nat, end: nat)
    requires Contiguous(m, d, start) && Grown(m, owner, m', d, start, end) && start <= end
    ensures Contiguous(m', d, end)
  {
    hide Lookup;
    forall v: nat | v < USER ensures Lookup(m', d, v).Present? <==> v < end {
      assert start <= v < end ==> MapsNew(m', d, v, Zeros(PGSIZE), USER_FLAGS, owner);
    }
  }

  /** So does deallocuvm at the end of it, and there it frees every page of its range. */
  lemma {:induction false} ShrinksContiguous(m: Mem, owner: Owners, m': Mem, owner': Owners, d: nat, start: nat, end: nat)
    requires MemOk(m, owner) && IsDir(owner, d) && Contiguous(m, d, end) && start <= end <= USER
    requires Unmapped(m, owner, m', owner', d, start, end)
    ensures Contiguous(m', d, start)
    ensures forall v: nat :: start <= v < end ==> Lookup(m, d, v).Present? && Lookup(m, d, v).frame in m'.free
  {
    hide Lookup, Skips, Evolves, MemOk;
    forall v: nat | v < USER
      ensures Lookup(m', d, v).Present? <==> v < start
      ensures start <= v < end ==> Lookup(m, d, v).frame in m'.free
    {
      if start <= v < end {
        ContiguousHit(m, d, end, start, end, v);
        SurvivesIfSkipped(m, owner, m', owner', d, start, end, v);
      }
    }
  }

  /** A new space, empty or copied from a contiguous one, is contiguous. */
  lemma {:induction false} StartsContiguous(m: Mem, owner: Owners, d: nat, m': Mem, e: nat, n: nat, kmap: seq<Kmap>)
    requires KmapOk(kmap) && n <= USER && Copied(m, owner, d, m', e, n)
    requires forall v: nat :: n <= v < VPNS ==> Lookup(m', e, v) == KernelPte(kmap, v)
    ensures Contiguous(m', e, n)
  {
    hide Lookup, KmapOk;
    forall v: nat | v < USER ensures Lookup(m', e, v).Present? <==> v < n {
      if v < n {
        assert PageCopied(m, owner, d, m', e, v);
      } else {
        NoUserRow(kmap, v);
      }
    }
  }

  lemma {:induction false} StandsFirst(m: Mem, d: nat, start: nat)
    ensures Stands(m, d, start, start)
  {
    assert Jumping(m, d, start, start);
  }

  lemma {:induction false} EvolvesDir(m: Mem, owner: Owners, m': Mem, owner': Owners, d: nat, plus: set<nat>, starved: bool)
    requires Evolves(m, owner, m', owner', d, plus, starved)
    ensures IsDir(owner', d)
  {
  }

  lemma {:induction false} EntryLookup(m: Mem, d: nat, v: nat)
    requires Entry(m, d, v / NENTRIES).Present? && IsTable(m, Entry(m, d, v / NENTRIES).frame)
    ensures m.tables[Entry(m, d, v / NENTRIES).frame][v % NENTRIES] == Lookup(m, d, v)
  {
  }

  /** kfree of the page, then the entry cleared. */
  lemma {:induction false} UnmapOne(m: Mem, owner: Owners, d: nat, v: nat)
    requires MemOk(m, owner) && IsDir(owner, d) && v < USER && Lookup(m, d, v).Present?
    ensures var f, tf := Lookup(m, d, v).frame, Entry(m, d, v / NENTRIES);
            && f in Frames(m, owner) && f in owner && tf.Present? && tf.frame != f && IsTable(m, tf.frame)
            && var m' := SetPte(Freed(m, f), tf.frame, v % NENTRIES, Absent);
               && Evolves(m, owner, m', owner - {f}, d, {}, false) && Shrinks(m, owner, m', owner - {f})
               && (forall w: nat :: w < VPNS ==> Lookup(m', d, w) == if w == v then Absent else Lookup(m, d, w))
               && (forall t: nat :: t < NENTRIES ==> Entry(m', d, t) == Entry(m, d, t))
  {
    var f, tf := Lookup(m, d, v).frame, Entry(m, d, v / NENTRIES).frame;
    OwnTable(m, owner, d, v / NENTRIES);
    hide MemOk, OthersKept, Lookup, Entry;
    Unmap(m, owner, d, v);
    var m' := SetPte(Freed(m, f), tf, v % NENTRIES, Absent);
    assert m' == Freed(SetPte(m, tf, v % NENTRIES, Absent), f);
  }

  lemma {:induction false} FirstDir(m0: Mem, owner: Owners, m1: Mem, d: nat, starved: bool)
    requires MemOk(m0, owner) && MemOk(m1, owner) && Agree(m0, m1, owner) && Held(m1, owner, d)
    requires d in Frames(m0, owner) && Frames(m1, owner) == Frames(m0, owner) - {d}
    ensures var m', owner' := m1.(tables := m1.tables[d := Blank(NENTRIES)]), owner[d := Owner(d, Dir)];
            && Evolves(m0, owner, m', owner', d, {}, starved)
            && (forall v: nat :: v < VPNS ==> Lookup(m', d, v) == Absent)
  {
    var m', owner' := m1.(tables := m1.tables[d := Blank(NENTRIES)]), owner[d := Owner(d, Dir)];
    hide MemOk, Lookup, Agree, OthersKept, Blank;
    AddDir(m1, owner, d);
    assert OthersKept(m0, owner, m1, owner, d) by { AgreeOthers(m0, m1, owner, d); }
    OthersKeptTrans(m0, owner, m1, owner, m', owner', d);
    assert Frames(m', owner') == Frames(m1, owner) + {d};
  }

  lemma {:induction false} AgreeOthers(m: Mem, m': Mem, owner: Owners, d: nat)
    requires MemOk(m, owner) && Agree(m, m', owner)
    ensures OthersKept(m, owner, m', owner, d)
  {
    forall e | IsDir(owner, e) ensures SpaceKept(m, m', e) {
      AgreeSpace(m, m', owner, e);
    }
  }

  lemma {:induction false} EvolvesOthers(m: Mem, owner: Owners, m': Mem, owner': Owners, d: nat, starved: bool)
    requires Evolves(m, owner, m', owner', d, {}, starved) && d !in owner
    ensures forall e :: IsDir(owner, e) ==> IsDir(owner', e) && SpaceKept(m, m', e)
  {
  }

  /** The pages of the next row are not mapped by the rows before it. */
  lemma {:induction false} NextRow(kmap: seq<Kmap>, k: nat)
    requires KmapOk(kmap) && k < |kmap|
    ensures RowOk(kmap[k])
    ensures forall v: nat :: In(kmap[k], v) ==> KernelPte(kmap[..k], v) == Absent
    ensures forall v: nat :: KernelPte(kmap[..k + 1], v) == if In(kmap[k], v) then RowPte(kmap[k], v) else KernelPte(kmap[..k], v)
  {
    forall v: nat | In(kmap[k], v) ensures KernelPte(kmap[..k], v) == Absent {
      NoRow(kmap[..k], v);
    }
    assert kmap[..k + 1][..k] == kmap[..k];
  }

  lemma {:induction false} NoRow(kmap: seq<Kmap>, v: nat)
    requires forall i :: 0 <= i < |kmap| ==> !In(kmap[i], v)
    ensures KernelPte(kmap, v) == Absent
  {
    if kmap != [] {
      NoRow(kmap[..|kmap| - 1], v);
    }
  }

  /** The kernel's map leaves user pages alone. */
  lemma {:induction false} NoUserRow(kmap: seq<Kmap>, v: nat)
    requires KmapOk(kmap) && v < USER
    ensures KernelPte(kmap, v) == Absent
  {
    forall i | 0 <= i < |kmap| ensures !In(kmap[i], v) {
      assert RowOk(kmap[i]);
    }
    NoRow(kmap, v);
  }

  lemma {:induction false} StillHeld(m: Mem, owner: Owners, m': Mem, owner': Owners, d: nat, plus: set<nat>, starved: bool, f: nat)
    requires Evolves(m, owner, m', owner', d, plus, starved)
    ensures Held(m, owner, f) && f !in plus ==> Held(m', owner', f)
    ensures MemOk(m', owner') && IsDir(owner', d) && Frames(m', owner') <= Frames(m, owner) + plus
  {
    HeldFrames(m, owner, f);
    HeldFrames(m', owner', f);
  }

  /** From `m0` to `m` the pages `v..v + k` were mapped to consecutive frames from `pa` on, and no others. */
  ghost predicate MappedTo(m0: Mem, m: Mem, d: nat, v: nat, k: nat, pa: nat, flags: nat) {
    forall w: nat :: w < VPNS ==> Lookup(m, d, w) == if v <= w < v + k then Present(pa + (w - v), flags) else Lookup(m0, d, w)
  }

  lemma {:induction false} MappedNone(m: Mem, d: nat, v: nat, pa: nat, flags: nat)
    ensures MappedTo(m, m, d, v, 0, pa, flags)
  {
  }

  lemma {:induction false} MappedOutside(m0: Mem, m: Mem, d: nat, v: nat, k: nat, n: nat, pa: nat, flags: nat)
    requires MappedTo(m0, m, d, v, k, pa, flags) && k < n && v + n <= VPNS
    ensures Lookup(m, d, v + k) == Lookup(m0, d, v + k)
    ensures forall w: nat :: w < VPNS && !(v <= w < v + n) ==> Lookup(m, d, w) == Lookup(m0, d, w)
    ensures k == 0 ==> forall w: nat :: w < VPNS ==> Lookup(m, d, w) == Lookup(m0, d, w)
  {
    hide Lookup;
  }

  lemma {:induction false} MappedNext(m0: Mem, m1: Mem, m2: Mem, d: nat, v: nat, k: nat, pa: nat, flags: nat)
    requires MappedTo(m0, m1, d, v, k, pa, flags)
    requires forall w: nat :: w < VPNS ==> Lookup(m2, d, w) == if w == v + k then Present(pa + k, flags) else Lookup(m1, d, w)
    ensures MappedTo(m0, m2, d, v, k + 1, pa, flags)
  {
    hide Lookup;
  }

  lemma {:induction false} MappedAll(m0: Mem, m: Mem, d: nat, v: nat, n: nat, pa: nat, flags: nat)
    requires MappedTo(m0, m, d, v, n, pa, flags)
    ensures forall w: nat :: w < VPNS ==> Lookup(m, d, w) == if v <= w < v + n then Present(pa + (w - v), flags) else Lookup(m0, d, w)
  {
  }

  lemma {:induction false} MapOneUser(m: Mem, owner: Owners, d: nat, v: nat, f: nat, flags: nat, starved: bool)
    requires MemOk(m, owner) && IsDir(owner, d) && v < USER && Entry(m, d, v / NENTRIES).Present?
    requires Lookup(m, d, v) == Absent && Held(m, owner, f) && IsPage(m, f)
    ensures IsTable(m, Entry(m, d, v / NENTRIES).frame)
    ensures var m' := SetPte(m, Entry(m, d, v / NENTRIES).frame, v % NENTRIES, Present(f, flags));
            var owner' := owner[f := Owner(d, Page(v))];
            && Evolves(m, owner, m', owner', d, {f}, starved)
            && (forall t: nat :: t < NENTRIES ==> Entry(m', d, t) == Entry(m, d, t))
            && (forall w: nat :: w < VPNS ==> Lookup(m', d, w) == if w == v then Present(f, flags) else Lookup(m, d, w))
  {
    OwnTable(m, owner, d, v / NENTRIES);
    hide MemOk, OthersKept, Lookup;
    MapUser(m, owner, d, v, f, flags);
    var m' := SetPte(m, Entry(m, d, v / NENTRIES).frame, v % NENTRIES, Present(f, flags));
    assert Frames(m', owner[f := Owner(d, Page(v))]) == Frames(m, owner) + {f};
  }

  lemma {:induction false} MapOneKernel(m: Mem, owner: Owners, d: nat, v: nat, pte: Pte, starved: bool)
    requires MemOk(m, owner) && IsDir(owner, d) && USER <= v < VPNS && Entry(m, d, v / NENTRIES).Present?
    ensures IsTable(m, Entry(m, d, v / NENTRIES).frame)
    ensures var m' := SetPte(m, Entry(m, d, v / NENTRIES).frame, v % NENTRIES, pte);
            && Evolves(m, owner, m', owner, d, {}, starved)
            && (forall t: nat :: t < NENTRIES ==> Entry(m', d, t) == Entry(m, d, t))
            && (forall w: nat :: w < VPNS ==> Lookup(m', d, w) == if w == v then pte else Lookup(m, d, w))
  {
    OwnTable(m, owner, d, v / NENTRIES);
    hide MemOk, OthersKept, Lookup;
    Remap(m, owner, d, v, pte);
  }
}
