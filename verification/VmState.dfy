/**
 Physical pages and two-level page tables (kalloc.c, vm.c): the free list, the page directories and
 page tables, the user pages, and who owns each page that is in use.
 */
module VmState {
  import opened Blocks
  import opened Seqs

  const PGSIZE := 4096
  const NENTRIES := 1024           // entries of a page directory or page table
  const VPNS := NENTRIES * NENTRIES
  const USER := 512 * NENTRIES     // the first kernel page, at KERNBASE
  const PTE_P := 1
  const PTE_W := 2
  const PTE_U := 4

  /** An entry of a page directory or page table: present entries name a physical page. */
  datatype Pte = Absent | Present(frame: nat, flags: nat)

  datatype Mem = Mem(free: seq<nat>, tables: map<nat, seq<Pte>>, data: map<nat, seq<Byte>>)

  /** What an address space uses a page for: its directory, the table of a directory entry, a user page. */
  datatype Role = Dir | Tab(t: nat) | Page(v: nat)
  datatype Owner = Owner(dir: nat, role: Role)
  type Owners = map<nat, Owner>

  // ----- Page table lookup -----

  function Entry(m: Mem, table: nat, i: nat): Pte {
    if table in m.tables && i < |m.tables[table]| then m.tables[table][i] else Absent
  }

  /** The translation of virtual page `v` under page directory `d`. */
  function Lookup(m: Mem, d: nat, v: nat): Pte {
    var pde := Entry(m, d, v / NENTRIES);
    if pde.Absent? then Absent else Entry(m, pde.frame, v % NENTRIES)
  }

  function Blank(n: nat): (r: seq<Pte>)
    ensures |r| == n && forall i :: 0 <= i < n ==> r[i] == Absent
  {
    if n == 0 then [] else Blank(n - 1) + [Absent]
  }

  // ----- The invariant -----

  predicate IsTable(m: Mem, f: nat) {
    f in m.tables && |m.tables[f]| == NENTRIES
  }

  predicate IsPage(m: Mem, f: nat) {
    f in m.data && |m.data[f]| == PGSIZE
  }

  ghost predicate IsDir(owner: Owners, d: nat) {
    d in owner && owner[d] == Owner(d, Dir)
  }

  /** A page in use is what its owner holds it to be, and its owner points to it. */
  ghost predicate BackOk(m: Mem, owner: Owners, f: nat)
    requires f in owner
  {
    var d := owner[f].dir;
    && IsDir(owner, d)
    && match owner[f].role
       case Dir => d == f && IsTable(m, f)
       case Tab(t) => t < NENTRIES && Entry(m, d, t).Present? && Entry(m, d, t).frame == f && IsTable(m, f)
       case Page(v) => v < USER && Lookup(m, d, v).Present? && Lookup(m, d, v).frame == f && IsPage(m, f)
  }

  ghost predicate TabOk(m: Mem, owner: Owners, d: nat, t: nat) {
    var pde := Entry(m, d, t);
    pde.Present? ==> pde.frame in owner && owner[pde.frame] == Owner(d, Tab(t))
  }

  ghost predicate PageOk(m: Mem, owner: Owners, d: nat, v: nat) {
    var pte := Lookup(m, d, v);
    pte.Present? ==> pte.frame in owner && owner[pte.frame] == Owner(d, Page(v))
  }

  ghost predicate FreeOk(m: Mem, owner: Owners) {
    && Distinct(m.free)
    && forall f :: f in m.free ==> f !in owner
  }

  ghost predicate MemOk(m: Mem, owner: Owners) {
    && (forall f :: f in owner ==> BackOk(m, owner, f))
    && (forall d, t: nat :: IsDir(owner, d) && t < NENTRIES ==> TabOk(m, owner, d, t))
    && (forall d, v: nat :: IsDir(owner, d) && v < USER ==> PageOk(m, owner, d, v))
    && FreeOk(m, owner)
  }

  /** A page in nobody's hands but the caller's. */
  ghost predicate Held(m: Mem, owner: Owners, f: nat) {
    f !in owner && f !in m.free
  }

  // ----- What an operation on one address space leaves alone -----

  /** Address space `d` translates as before, to the same bytes. */
  ghost predicate SpaceKept(m: Mem, m': Mem, d: nat) {
    && (forall v: nat :: v < VPNS ==> Lookup(m', d, v) == Lookup(m, d, v))
    && (forall v: nat :: v < USER && Lookup(m, d, v).Present? ==> SameData(m, m', Lookup(m, d, v).frame))
  }

  predicate SameData(m: Mem, m': Mem, f: nat) {
    f in m.data ==> f in m'.data && m'.data[f] == m.data[f]
  }

  /** Every address space but `d` is kept, with the pages it owns. */
  ghost predicate OthersKept(m: Mem, owner: Owners, m': Mem, owner': Owners, d: nat) {
    && (forall e :: IsDir(owner, e) && e != d ==> IsDir(owner', e) && SpaceKept(m, m', e))
    && (forall f :: f in owner && owner[f].dir != d ==> f in owner' && owner'[f] == owner[f])
    && (forall f :: f in owner' && owner'[f].dir != d ==> f in owner && owner'[f] == owner[f])
  }

  lemma {:induction false} OthersKeptTrans(m: Mem, o: Owners, m1: Mem, o1: Owners, m2: Mem, o2: Owners, d: nat)
    requires OthersKept(m, o, m1, o1, d) && OthersKept(m1, o1, m2, o2, d)
    ensures OthersKept(m, o, m2, o2, d)
  {
    forall e | IsDir(o, e) && e != d ensures IsDir(o2, e) && SpaceKept(m, m2, e) {
      assert IsDir(o1, e) && SpaceKept(m, m1, e) && SpaceKept(m1, m2, e);
      forall v: nat | v < USER && Lookup(m, e, v).Present? ensures SameData(m, m2, Lookup(m, e, v).frame) {
        assert Lookup(m1, e, v) == Lookup(m, e, v);
        assert SameData(m, m1, Lookup(m, e, v).frame) && SameData(m1, m2, Lookup(m, e, v).frame);
      }
    }
  }

  /** The pages that are free or in use: no operation loses one while memory lasts. */
  ghost function Frames(m: Mem, owner: Owners): set<nat> {
    (set f | f in m.free) + owner.Keys
  }

  // ----- Changing tables -----

  /** The entries that lookups under directories depend on lie in tables that are owned. */
  lemma {:induction false} OwnTable(m: Mem, owner: Owners, d: nat, t: nat)
    requires MemOk(m, owner) && IsDir(owner, d) && t < NENTRIES
    ensures IsTable(m, d)
    ensures var pde := Entry(m, d, t);
            pde.Present? ==> pde.frame in owner && owner[pde.frame] == Owner(d, Tab(t)) && IsTable(m, pde.frame) && pde.frame != d
  {
    assert BackOk(m, owner, d);
    assert TabOk(m, owner, d, t);
    var pde := Entry(m, d, t);
    assert pde.Present? ==> BackOk(m, owner, pde.frame);
  }

  /** Setting entry `v` changes the translation of that page only. */
  function SetPte(m: Mem, table: nat, i: nat, pte: Pte): Mem
    requires table in m.tables && i < |m.tables[table]|
  {
    m.(tables := m.tables[table := m.tables[table][i := pte]])
  }

  lemma {:induction false} SetPteLookup(m: Mem, owner: Owners, d: nat, v: nat, pte: Pte, e: nat, w: nat)
    requires MemOk(m, owner) && IsDir(owner, d) && v < VPNS && IsDir(owner, e) && w < VPNS
    requires Entry(m, d, v / NENTRIES).Present?
    ensures IsTable(m, Entry(m, d, v / NENTRIES).frame)
    ensures var m' := SetPte(m, Entry(m, d, v / NENTRIES).frame, v % NENTRIES, pte);
            && Entry(m', e, w / NENTRIES) == Entry(m, e, w / NENTRIES)
            && Lookup(m', e, w) == if e == d && w == v then pte else Lookup(m, e, w)
  {
    OwnTable(m, owner, d, v / NENTRIES);
    OwnTable(m, owner, e, w / NENTRIES);
    SamePlace(v, w);
  }

  lemma {:induction false} SamePlace(v: nat, w: nat)
    ensures v / NENTRIES == w / NENTRIES && v % NENTRIES == w % NENTRIES ==> v == w
  {
  }

  // ----- Changes that no page in use notices -----

  /** Pages in use hold what they held. */
  ghost predicate Agree(m: Mem, m': Mem, owner: Owners) {
    forall f :: f in owner ==> SameData(m, m', f) && SameTable(m, m', f)
  }

  predicate SameTable(m: Mem, m': Mem, f: nat) {
    f in m.tables ==> f in m'.tables && m'.tables[f] == m.tables[f]
  }

  lemma {:induction false} AgreeLookup(m: Mem, m': Mem, owner: Owners, d: nat, v: nat)
    requires MemOk(m, owner) && Agree(m, m', owner) && IsDir(owner, d) && v < VPNS
    ensures Entry(m', d, v / NENTRIES) == Entry(m, d, v / NENTRIES) && Lookup(m', d, v) == Lookup(m, d, v)
  {
    OwnTable(m, owner, d, v / NENTRIES);
    var pde := Entry(m, d, v / NENTRIES);
    assert SameTable(m, m', d);
    assert pde.Present? ==> SameTable(m, m', pde.frame);
  }

  lemma {:induction false} AgreeOk(m: Mem, m': Mem, owner: Owners)
    requires MemOk(m, owner) && Agree(m, m', owner) && FreeOk(m', owner)
    ensures MemOk(m', owner)
  {
    forall f | f in owner ensures BackOk(m', owner, f) {
      assert BackOk(m, owner, f) && SameTable(m, m', f) && SameData(m, m', f);
      match owner[f].role {
        case Dir =>
        case Tab(t) =>
          AgreeLookup(m, m', owner, owner[f].dir, t * NENTRIES);
        case Page(v) =>
          AgreeLookup(m, m', owner, owner[f].dir, v);
      }
    }
    forall d, t: nat | IsDir(owner, d) && t < NENTRIES ensures TabOk(m', owner, d, t) {
      assert TabOk(m, owner, d, t);
      AgreeLookup(m, m', owner, d, t * NENTRIES);
    }
    forall d, v: nat | IsDir(owner, d) && v < USER ensures PageOk(m', owner, d, v) {
      assert PageOk(m, owner, d, v);
      AgreeLookup(m, m', owner, d, v);
    }
  }

  lemma {:induction false} AgreeSpace(m: Mem, m': Mem, owner: Owners, d: nat)
    requires MemOk(m, owner) && Agree(m, m', owner) && IsDir(owner, d)
    ensures SpaceKept(m, m', d)
  {
    forall v: nat | v < VPNS ensures Lookup(m', d, v) == Lookup(m, d, v) {
      AgreeLookup(m, m', owner, d, v);
    }
    forall v: nat | v < USER && Lookup(m, d, v).Present? ensures SameData(m, m', Lookup(m, d, v).frame) {
      assert PageOk(m, owner, d, v);
    }
  }

  // ----- The free list -----

  /** kfree: the page is junk and first on the free list. */
  function Freed(m: Mem, f: nat): Mem {
    Mem([f] + m.free, m.tables - {f}, m.data - {f})
  }

  lemma {:induction false} FreeHeld(m: Mem, owner: Owners, f: nat)
    requires MemOk(m, owner) && Held(m, owner, f)
    ensures MemOk(Freed(m, f), owner) && Agree(m, Freed(m, f), owner)
    ensures Frames(Freed(m, f), owner) == Frames(m, owner) + {f}
  {
    var m' := Freed(m, f);
    assert FreeOk(m, owner);
    AgreeOk(m, m', owner);
  }

  lemma {:induction false} TakeFree(m: Mem, owner: Owners)
    requires MemOk(m, owner) && m.free != []
    ensures var m' := m.(free := m.free[1..]);
            && MemOk(m', owner) && Agree(m, m', owner) && Held(m', owner, m.free[0])
            && Frames(m', owner) == Frames(m, owner) - {m.free[0]} && m.free[0] in Frames(m, owner)
  {
    var m', f := m.(free := m.free[1..]), m.free[0];
    assert m.free == [f] + m'.free;
    AgreeOk(m, m', owner);
  }

  lemma {:induction false} FillHeld(m: Mem, owner: Owners, f: nat, page: seq<Byte>)
    requires MemOk(m, owner) && Held(m, owner, f)
    ensures var m' := m.(data := m.data[f := page]); MemOk(m', owner) && Agree(m, m', owner) && Held(m', owner, f)
  {
    AgreeOk(m, m.(data := m.data[f := page]), owner);
  }

  // ----- One address space and the rest -----

  /** The pages of every address space but `d`. */
  ghost function Rest(owner: Owners, d: nat): Owners {
    map f | f in owner && owner[f].dir != d :: owner[f]
  }

  /** The invariant, for the pages of `d` alone. */
  ghost predicate SpaceOk(m: Mem, owner: Owners, d: nat) {
    && IsDir(owner, d)
    && (forall f :: f in owner && owner[f].dir == d ==> BackOk(m, owner, f))
    && (forall t: nat :: t < NENTRIES ==> TabOk(m, owner, d, t))
    && (forall v: nat :: v < USER ==> PageOk(m, owner, d, v))
  }

  /** Forgetting an address space leaves the others sound. */
  lemma {:induction false} Detach(m: Mem, owner: Owners, d: nat)
    requires MemOk(m, owner)
    ensures MemOk(m, Rest(owner, d))
  {
    var rest := Rest(owner, d);
    forall f | f in rest ensures BackOk(m, rest, f) {
      assert BackOk(m, owner, f);
    }
    forall e, t: nat | IsDir(rest, e) && t < NENTRIES ensures TabOk(m, rest, e, t) {
      assert IsDir(owner, e) && TabOk(m, owner, e, t);
    }
    forall e, v: nat | IsDir(rest, e) && v < USER ensures PageOk(m, rest, e, v) {
      assert IsDir(owner, e) && PageOk(m, owner, e, v);
    }
  }

  lemma {:induction false} Attach(m: Mem, owner: Owners, d: nat)
    requires MemOk(m, Rest(owner, d)) && SpaceOk(m, owner, d) && FreeOk(m, owner)
    ensures MemOk(m, owner)
  {
    var rest := Rest(owner, d);
    forall f | f in owner ensures BackOk(m, owner, f) {
      assert owner[f].dir != d ==> BackOk(m, rest, f);
    }
    forall e, t: nat | IsDir(owner, e) && t < NENTRIES ensures TabOk(m, owner, e, t) {
      assert e != d ==> IsDir(rest, e) && TabOk(m, rest, e, t);
    }
    forall e, v: nat | IsDir(owner, e) && v < USER ensures PageOk(m, owner, e, v) {
      assert e != d ==> IsDir(rest, e) && PageOk(m, rest, e, v);
    }
  }

  /** A change to the pages of `d` alone keeps the other address spaces. */
  lemma {:induction false} ChangeSpace(m: Mem, owner: Owners, m': Mem, owner': Owners, d: nat)
    requires MemOk(m, owner) && Rest(owner', d) == Rest(owner, d) && Agree(m, m', Rest(owner, d))
    requires SpaceOk(m', owner', d) && FreeOk(m', owner')
    ensures MemOk(m', owner') && OthersKept(m, owner, m', owner', d)
  {
    var rest := Rest(owner, d);
    hide MemOk, SpaceOk;
    Detach(m, owner, d);
    assert FreeOk(m', rest);
    AgreeOk(m, m', rest);
    Attach(m', owner', d);
    OnlySpace(m, owner, m', owner', d);
  }

  lemma {:induction false} OnlySpace(m: Mem, owner: Owners, m': Mem, owner': Owners, d: nat)
    requires MemOk(m, Rest(owner, d)) && Rest(owner', d) == Rest(owner, d) && Agree(m, m', Rest(owner, d))
    ensures OthersKept(m, owner, m', owner', d)
  {
    var rest := Rest(owner, d);
    forall e | IsDir(owner, e) && e != d ensures IsDir(owner', e) && SpaceKept(m, m', e) {
      assert IsDir(rest, e);
      AgreeSpace(m, m', rest, e);
      assert rest[e] == owner'[e];
    }
    forall f | f in owner && owner[f].dir != d ensures f in owner' && owner'[f] == owner[f] {
      assert f in rest;
    }
    forall f | f in owner' && owner'[f].dir != d ensures f in owner && owner'[f] == owner[f] {
      assert f in Rest(owner', d);
    }
  }

  // ----- Growing an address space -----

  /** A new page directory maps nothing. */
  lemma {:induction false} AddDir(m: Mem, owner: Owners, f: nat)
    requires MemOk(m, owner) && Held(m, owner, f)
    ensures var m', owner' := m.(tables := m.tables[f := Blank(NENTRIES)]), owner[f := Owner(f, Dir)];
            && MemOk(m', owner') && OthersKept(m, owner, m', owner', f) && IsDir(owner', f)
            && (forall v: nat :: v < VPNS ==> Lookup(m', f, v) == Absent)
  {
    var m', owner' := m.(tables := m.tables[f := Blank(NENTRIES)]), owner[f := Owner(f, Dir)];
    AddedDir(m, owner, f);
    hide MemOk, Blank;
    forall d | IsDir(owner, d) && d != f ensures IsDir(owner', d) && SpaceKept(m, m', d) {
      AgreeSpace(m, m', owner, d);
    }
  }

  lemma {:induction false} AddedDir(m: Mem, owner: Owners, f: nat)
    requires MemOk(m, owner) && Held(m, owner, f)
    ensures var m', owner' := m.(tables := m.tables[f := Blank(NENTRIES)]), owner[f := Owner(f, Dir)];
            MemOk(m', owner') && Agree(m, m', owner) && forall i: nat :: Entry(m', f, i) == Absent
  {
    var m', owner' := m.(tables := m.tables[f := Blank(NENTRIES)]), owner[f := Owner(f, Dir)];
    AgreeOk(m, m', owner);
    forall g | g in owner' ensures BackOk(m', owner', g) {
      assert g != f ==> BackOk(m', owner, g);
    }
    forall d, t: nat | IsDir(owner', d) && t < NENTRIES ensures TabOk(m', owner', d, t) {
      assert d != f ==> TabOk(m', owner, d, t);
    }
    forall d, v: nat | IsDir(owner', d) && v < USER ensures PageOk(m', owner', d, v) {
      assert d != f ==> PageOk(m', owner, d, v);
    }
  }

  /** A new, empty page table translates nothing more. */
  lemma {:induction false} AddTable(m: Mem, owner: Owners, d: nat, t: nat, f: nat, flags: nat)
    requires MemOk(m, owner) && IsDir(owner, d) && t < NENTRIES && Entry(m, d, t) == Absent && Held(m, owner, f)
    ensures IsTable(m, d)
    ensures var m' := SetPte(m.(tables := m.tables[f := Blank(NENTRIES)]), d, t, Present(f, flags));
            var owner' := owner[f := Owner(d, Tab(t))];
            && MemOk(m', owner') && OthersKept(m, owner, m', owner', d)
            && Entry(m', d, t) == Present(f, flags)
            && (forall w: nat :: w < VPNS ==> Lookup(m', d, w) == Lookup(m, d, w))
  {
    OwnTable(m, owner, d, t);
    var m' := SetPte(m.(tables := m.tables[f := Blank(NENTRIES)]), d, t, Present(f, flags));
    var owner' := owner[f := Owner(d, Tab(t))];
    assert FreeOk(m, owner);
    forall w: nat | w < VPNS
      ensures Lookup(m', d, w) == Lookup(m, d, w)
      ensures w / NENTRIES != t ==> Entry(m', d, w / NENTRIES) == Entry(m, d, w / NENTRIES)
    {
      OwnTable(m, owner, d, w / NENTRIES);
    }
    AddedTable(m, owner, d, t, f, flags);
    hide MemOk, SpaceOk;
    assert Rest(owner', d) == Rest(owner, d);
    ChangeSpace(m, owner, m', owner', d);
  }

  lemma {:induction false} AddedTable(m: Mem, owner: Owners, d: nat, t: nat, f: nat, flags: nat)
    requires MemOk(m, owner) && IsDir(owner, d) && t < NENTRIES && Entry(m, d, t) == Absent && Held(m, owner, f)
    requires IsTable(m, d)
    requires var m' := SetPte(m.(tables := m.tables[f := Blank(NENTRIES)]), d, t, Present(f, flags));
             forall w: nat :: w < VPNS ==> Lookup(m', d, w) == Lookup(m, d, w)
    ensures var m' := SetPte(m.(tables := m.tables[f := Blank(NENTRIES)]), d, t, Present(f, flags));
            SpaceOk(m', owner[f := Owner(d, Tab(t))], d)
  {
    var m' := SetPte(m.(tables := m.tables[f := Blank(NENTRIES)]), d, t, Present(f, flags));
    var owner' := owner[f := Owner(d, Tab(t))];
    assert IsTable(m', f);
    forall g | g in owner' && owner'[g].dir == d ensures BackOk(m', owner', g) {
      if g != f {
        assert BackOk(m, owner, g);
      }
    }
    forall u: nat | u < NENTRIES ensures TabOk(m', owner', d, u) {
      assert TabOk(m, owner, d, u);
    }
    forall v: nat | v < USER ensures PageOk(m', owner', d, v) {
      assert PageOk(m, owner, d, v);
      assert Lookup(m', d, v) == Lookup(m, d, v);
    }
  }

  // ----- Setting one translation -----

  /** Setting the entry of page `v` keeps the other spaces; `d` stays sound if its owners say what `v` maps to now. */
  lemma {:induction false} SetEntry(m: Mem, owner: Owners, d: nat, v: nat, pte: Pte, owner': Owners)
    requires MemOk(m, owner) && IsDir(owner, d) && v < VPNS && Entry(m, d, v / NENTRIES).Present?
    requires Rest(owner', d) == Rest(owner, d) && FreeOk(m, owner') && IsDir(owner', d)
    requires forall f :: f in owner' && owner'[f].dir == d && owner'[f] != Owner(d, Page(v)) ==> f in owner && owner[f] == owner'[f]
    requires forall f :: f in owner && owner[f].dir == d && owner[f] != Owner(d, Page(v)) ==> f in owner' && owner[f] == owner'[f]
    requires forall f :: f in owner' && owner'[f] == Owner(d, Page(v)) ==> v < USER && pte.Present? && pte.frame == f && IsPage(m, f)
    requires v < USER && pte.Present? ==> pte.frame in owner' && owner'[pte.frame] == Owner(d, Page(v))
    ensures IsTable(m, Entry(m, d, v / NENTRIES).frame)
    ensures var m' := SetPte(m, Entry(m, d, v / NENTRIES).frame, v % NENTRIES, pte);
            && MemOk(m', owner') && OthersKept(m, owner, m', owner', d)
            && (forall w: nat :: w < VPNS ==> Lookup(m', d, w) == if w == v then pte else Lookup(m, d, w))
            && (forall t: nat :: t < NENTRIES ==> Entry(m', d, t) == Entry(m, d, t))
  {
    var tf := Entry(m, d, v / NENTRIES).frame;
    OwnTable(m, owner, d, v / NENTRIES);
    var m' := SetPte(m, tf, v % NENTRIES, pte);
    forall w: nat | w < VPNS ensures Lookup(m', d, w) == if w == v then pte else Lookup(m, d, w) {
      SetPteLookup(m, owner, d, v, pte, d, w);
    }
    forall t: nat | t < NENTRIES ensures Entry(m', d, t) == Entry(m, d, t) {
      SetPteLookup(m, owner, d, v, pte, d, t * NENTRIES);
    }
    assert SpaceOk(m', owner', d) by {
      SetSpace(m, owner, m', owner', d, v, pte);
    }
    hide MemOk, SpaceOk;
    ChangeSpace(m, owner, m', owner', d);
  }

  lemma {:induction false} SetSpace(m: Mem, owner: Owners, m': Mem, owner': Owners, d: nat, v: nat, pte: Pte)
    requires MemOk(m, owner) && IsDir(owner, d) && IsDir(owner', d)
    requires forall f :: IsTable(m, f) ==> IsTable(m', f)
    requires m'.data == m.data
    requires forall w: nat :: w < VPNS ==> Lookup(m', d, w) == if w == v then pte else Lookup(m, d, w)
    requires forall t: nat :: t < NENTRIES ==> Entry(m', d, t) == Entry(m, d, t)
    requires forall f :: f in owner' && owner'[f].dir == d && owner'[f] != Owner(d, Page(v)) ==> f in owner && owner[f] == owner'[f]
    requires forall f :: f in owner && owner[f].dir == d && owner[f] != Owner(d, Page(v)) ==> f in owner' && owner[f] == owner'[f]
    requires forall f :: f in owner' && owner'[f] == Owner(d, Page(v)) ==> v < USER && pte.Present? && pte.frame == f && IsPage(m, f)
    requires v < USER && pte.Present? ==> pte.frame in owner' && owner'[pte.frame] == Owner(d, Page(v))
    ensures SpaceOk(m', owner', d)
  {
    hide Entry, Lookup;
    forall f | f in owner' && owner'[f].dir == d ensures BackOk(m', owner', f) {
      if owner'[f] == Owner(d, Page(v)) {
        assert Lookup(m', d, v) == pte;
      } else {
        assert BackOk(m, owner, f);
      }
    }
    forall t: nat | t < NENTRIES ensures TabOk(m', owner', d, t) {
      assert TabOk(m, owner, d, t);
    }
    forall w: nat | w < USER ensures PageOk(m', owner', d, w) {
      assert PageOk(m, owner, d, w);
      assert Lookup(m', d, w) == if w == v then pte else Lookup(m, d, w);
    }
  }

  /** mappages, of one user page. */
  lemma {:induction false} MapUser(m: Mem, owner: Owners, d: nat, v: nat, f: nat, flags: nat)
    requires MemOk(m, owner) && IsDir(owner, d) && v < USER && Entry(m, d, v / NENTRIES).Present?
    requires Lookup(m, d, v) == Absent && Held(m, owner, f) && IsPage(m, f)
    ensures IsTable(m, Entry(m, d, v / NENTRIES).frame)
    ensures var m' := SetPte(m, Entry(m, d, v / NENTRIES).frame, v % NENTRIES, Present(f, flags));
            var owner' := owner[f := Owner(d, Page(v))];
            && MemOk(m', owner') && OthersKept(m, owner, m', owner', d)
            && (forall w: nat :: w < VPNS ==> Lookup(m', d, w) == if w == v then Present(f, flags) else Lookup(m, d, w))
  {
    var owner' := owner[f := Owner(d, Page(v))];
    forall g | g in owner ensures owner[g] != Owner(d, Page(v)) {
      assert BackOk(m, owner, g);
    }
    assert FreeOk(m, owner);
    hide MemOk;
    assert Rest(owner', d) == Rest(owner, d);
    SetEntry(m, owner, d, v, Present(f, flags), owner');
  }

  /** mappages, of one kernel page; or a change of the flags of a page that is mapped. */
  lemma {:induction false} Remap(m: Mem, owner: Owners, d: nat, v: nat, pte: Pte)
    requires MemOk(m, owner) && IsDir(owner, d) && v < VPNS && Entry(m, d, v / NENTRIES).Present?
    requires v < USER ==> pte.Present? && Lookup(m, d, v).Present? && Lookup(m, d, v).frame == pte.frame
    ensures IsTable(m, Entry(m, d, v / NENTRIES).frame)
    ensures var m' := SetPte(m, Entry(m, d, v / NENTRIES).frame, v % NENTRIES, pte);
            && MemOk(m', owner) && OthersKept(m, owner, m', owner, d)
            && (forall w: nat :: w < VPNS ==> Lookup(m', d, w) == if w == v then pte else Lookup(m, d, w))
  {
    forall g | g in owner && owner[g] == Owner(d, Page(v)) ensures v < USER && pte.Present? && g == pte.frame && IsPage(m, g) {
      assert BackOk(m, owner, g);
    }
    assert v < USER ==> PageOk(m, owner, d, v);
    assert FreeOk(m, owner);
    hide MemOk;
    SetEntry(m, owner, d, v, pte, owner);
  }

  /** deallocuvm, of one page: its entry is cleared and the page goes back to the free list. */
  lemma {:induction false} Unmap(m: Mem, owner: Owners, d: nat, v: nat)
    requires MemOk(m, owner) && IsDir(owner, d) && v < USER && Lookup(m, d, v).Present?
    ensures Entry(m, d, v / NENTRIES).Present? && IsTable(m, Entry(m, d, v / NENTRIES).frame)
    ensures var f := Lookup(m, d, v).frame;
            var m', owner' := Freed(SetPte(m, Entry(m, d, v / NENTRIES).frame, v % NENTRIES, Absent), f), owner - {f};
            && f in owner && owner[f] == Owner(d, Page(v))
            && MemOk(m', owner') && OthersKept(m, owner, m', owner', d)
            && (forall w: nat :: w < VPNS ==> Lookup(m', d, w) == if w == v then Absent else Lookup(m, d, w))
            && (forall t: nat :: t < NENTRIES ==> Entry(m', d, t) == Entry(m, d, t))
            && Frames(m', owner') == Frames(m, owner)
  {
    var f := Lookup(m, d, v).frame;
    assert PageOk(m, owner, d, v);
    assert FreeOk(m, owner);
    OwnTable(m, owner, d, v / NENTRIES);
    forall g | g in owner && owner[g] == Owner(d, Page(v)) ensures g == f {
      assert BackOk(m, owner, g);
    }
    var m1, owner' := SetPte(m, Entry(m, d, v / NENTRIES).frame, v % NENTRIES, Absent), owner - {f};
    hide MemOk, Lookup, Entry;
    assert Rest(owner', d) == Rest(owner, d);
    SetEntry(m, owner, d, v, Absent, owner');
    FreeHeld(m1, owner', f);
    var m' := Freed(m1, f);
    FreedKeeps(m1, m', owner', d);
    OthersKeptTrans(m, owner, m1, owner', m', owner', d);
  }

  lemma {:induction false} FreedKeeps(m: Mem, m': Mem, owner: Owners, d: nat)
    requires MemOk(m, owner) && Agree(m, m', owner) && IsDir(owner, d)
    ensures OthersKept(m, owner, m', owner, d) && SpaceKept(m, m', d)
    ensures forall t: nat :: t < NENTRIES ==> Entry(m', d, t) == Entry(m, d, t)
  {
    forall e | IsDir(owner, e) ensures SpaceKept(m, m', e) {
      AgreeSpace(m, m', owner, e);
    }
    forall t: nat | t < NENTRIES ensures Entry(m', d, t) == Entry(m, d, t) {
      AgreeLookup(m, m', owner, d, t * NENTRIES);
    }
  }

  // ----- What an operation on `d` promises -----

  /**
   Memory stays sound, the other address spaces are kept and no page appears but those of `plus`;
   unless memory ran out, none is lost either.
   */
  ghost predicate Evolves(m: Mem, owner: Owners, m': Mem, owner': Owners, d: nat, plus: set<nat>, starved: bool) {
    && MemOk(m', owner') && IsDir(owner', d)
    && OthersKept(m, owner, m', owner', d)
    && Frames(m', owner') <= Frames(m, owner) + plus
    && (!starved ==> Frames(m', owner') == Frames(m, owner) + plus)
  }

  lemma {:induction false} EvolvesTrans(m: Mem, o: Owners, m1: Mem, o1: Owners, p: set<nat>, s1: bool, m2: Mem,
                                        o2: Owners, q: set<nat>, s2: bool, d: nat, r: set<nat>)
    requires Evolves(m, o, m1, o1, d, p, s1) && Evolves(m1, o1, m2, o2, d, q, s2) && (s1 ==> s2) && p + q == r
    ensures Evolves(m, o, m2, o2, d, r, s2)
  {
    hide MemOk, OthersKept, Frames;
    OthersKeptTrans(m, o, m1, o1, m2, o2, d);
  }

  lemma {:induction false} EvolvesStarved(m: Mem, owner: Owners, m': Mem, owner': Owners, d: nat, plus: set<nat>, starved: bool)
    requires Evolves(m, owner, m', owner', d, plus, false)
    ensures Evolves(m, owner, m', owner', d, plus, starved)
  {
  }

  lemma {:induction false} FramesKept(m: Mem, owner: Owners, m': Mem, owner': Owners, d: nat)
    requires Evolves(m, owner, m', owner', d, {}, false)
    ensures Frames(m', owner') == Frames(m, owner)
  {
  }

  lemma {:induction false} EvolvesRefl(m: Mem, owner: Owners, d: nat, starved: bool)
    requires MemOk(m, owner) && IsDir(owner, d)
    ensures Evolves(m, owner, m, owner, d, {}, starved)
  {
  }

  /** A page is held exactly if it is neither free nor in use. */
  lemma {:induction false} HeldFrames(m: Mem, owner: Owners, f: nat)
    ensures Held(m, owner, f) <==> f !in Frames(m, owner)
  {
  }

  // ----- User memory as bytes -----

  /** The byte at user address `a`. */
  function UserByte(m: Mem, d: nat, a: nat): Byte {
    var pte := Lookup(m, d, a / PGSIZE);
    if pte.Present? && pte.frame in m.data && |m.data[pte.frame]| == PGSIZE then m.data[pte.frame][a % PGSIZE] else 0
  }

  /** Rewriting a user page changes the bytes at its addresses and no translation. */
  lemma {:induction false} WritePage(m: Mem, owner: Owners, d: nat, v: nat, page: seq<Byte>)
    requires MemOk(m, owner) && IsDir(owner, d) && v < USER && Lookup(m, d, v).Present? && |page| == PGSIZE
    ensures var f := Lookup(m, d, v).frame;
            && IsPage(m, f)
            && var m' := m.(data := m.data[f := page]);
               && Evolves(m, owner, m', owner, d, {}, false)
               && (forall w: nat :: w < VPNS ==> Lookup(m', d, w) == Lookup(m, d, w))
               && (forall a: nat :: a / PGSIZE < USER ==>
                 UserByte(m', d, a) == if a / PGSIZE == v then page[a % PGSIZE] else UserByte(m, d, a))
  {
    var f := Lookup(m, d, v).frame;
    assert PageOk(m, owner, d, v) && BackOk(m, owner, f);
    var m' := m.(data := m.data[f := page]);
    assert SpaceOk(m', owner, d) by {
      WrittenSpace(m, owner, d, f, page);
    }
    assert FreeOk(m, owner);
    forall a: nat | a / PGSIZE < USER ensures UserByte(m', d, a) == if a / PGSIZE == v then page[a % PGSIZE] else UserByte(m, d, a) {
      assert PageOk(m, owner, d, a / PGSIZE);
    }
    hide MemOk, SpaceOk;
    ChangeSpace(m, owner, m', owner, d);
  }

  lemma {:induction false} WrittenSpace(m: Mem, owner: Owners, d: nat, f: nat, page: seq<Byte>)
    requires MemOk(m, owner) && IsDir(owner, d) && |page| == PGSIZE
    ensures SpaceOk(m.(data := m.data[f := page]), owner, d)
  {
    var m' := m.(data := m.data[f := page]);
    forall g | g in owner && owner[g].dir == d ensures BackOk(m', owner, g) {
      assert BackOk(m, owner, g);
    }
    forall t: nat | t < NENTRIES ensures TabOk(m', owner, d, t) {
      assert TabOk(m, owner, d, t);
    }
    forall v: nat | v < USER ensures PageOk(m', owner, d, v) {
      assert PageOk(m, owner, d, v);
    }
  }

  /** Copying bytes within one page changes those bytes of user memory. */
  lemma {:induction false} WriteBytes(m: Mem, owner: Owners, d: nat, a: nat, src: seq<Byte>)
    requires MemOk(m, owner) && IsDir(owner, d) && a / PGSIZE < USER && Lookup(m, d, a / PGSIZE).Present?
    requires a % PGSIZE + |src| <= PGSIZE
    ensures var f := Lookup(m, d, a / PGSIZE).frame;
            && IsPage(m, f)
            && var m' := m.(data := m.data[f := Overlay(m.data[f], a % PGSIZE, src)]);
               && Evolves(m, owner, m', owner, d, {}, false)
               && (forall w: nat :: w < VPNS ==> Lookup(m', d, w) == Lookup(m, d, w))
               && (forall b: nat :: b / PGSIZE < USER ==>
                 UserByte(m', d, b) == if a <= b < a + |src| then src[b - a] else UserByte(m, d, b))
  {
    var v, f := a / PGSIZE, Lookup(m, d, a / PGSIZE).frame;
    assert PageOk(m, owner, d, v) && BackOk(m, owner, f);
    var page' := Overlay(m.data[f], a % PGSIZE, src);
    assert forall b: nat :: b / PGSIZE == v ==> UserByte(m, d, b) == m.data[f][b % PGSIZE];
    hide MemOk, Lookup, UserByte, Evolves, Overlay;
    WritePage(m, owner, d, v, page');
    var m' := m.(data := m.data[f := page']);
    forall b: nat | b / PGSIZE < USER ensures UserByte(m', d, b) == if a <= b < a + |src| then src[b - a] else UserByte(m, d, b) {
      InPage(a, b, |src|);
    }
  }

  lemma {:induction false} InPage(a: nat, b: nat, n: nat)
    requires a % PGSIZE + n <= PGSIZE
    ensures a <= b < a + n ==> b / PGSIZE == a / PGSIZE && b % PGSIZE == a % PGSIZE + (b - a)
    ensures b / PGSIZE == a / PGSIZE && !(a <= b < a + n) ==> !(a % PGSIZE <= b % PGSIZE < a % PGSIZE + n)
  {
  }
}
