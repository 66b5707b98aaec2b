/**
 Deallocation of user pages: which pages deallocuvm reaches, given that it steps over a missing page
 table by a table's worth of pages from where it stands.
 */
module VmFree {
  import opened VmState

  /**
   Page `v` is stepped over: the walk, from page `start`, finds the tables before that of `v` all
   missing, and enters the table of `v` at the position it began with.
   */
  ghost predicate Skips(m: Mem, d: nat, start: nat, v: nat) {
    && start / NENTRIES < v / NENTRIES && v % NENTRIES < start % NENTRIES
    && forall t: nat :: start / NENTRIES <= t < v / NENTRIES ==> Entry(m, d, t) == Absent
  }

  /** The pages of `start..end` that deallocuvm reaches. */
  ghost predicate Hit(m: Mem, d: nat, start: nat, end: nat, v: nat) {
    start <= v < end && !Skips(m, d, start, v)
  }

  /** Nothing is stepped over from the beginning of a table. */
  lemma {:induction false} AlignedStart(m: Mem, d: nat, start: nat, end: nat, v: nat)
    requires start % NENTRIES == 0
    ensures Hit(m, d, start, end, v) <==> start <= v < end
  {
  }

  /** User memory is contiguous from 0. */
  ghost predicate Contiguous(m: Mem, d: nat, n: nat) {
    forall v: nat :: v < USER ==> (Lookup(m, d, v).Present? <==> v < n)
  }

  /** In contiguous memory every present page of the range is reached. */
  lemma {:induction false} ContiguousHit(m: Mem, d: nat, n: nat, start: nat, end: nat, v: nat)
    requires Contiguous(m, d, n) && start <= v < end && v < USER && Lookup(m, d, v).Present?
    ensures Hit(m, d, start, end, v)
  {
    assert Lookup(m, d, start).Present?;
  }

  // ----- The walk -----

  /** Where the walk stands: still jumping over missing tables, or past the first table it found. */
  ghost predicate Jumping(m: Mem, d: nat, start: nat, a: nat) {
    && start <= a && a % NENTRIES == start % NENTRIES
    && forall t: nat :: start / NENTRIES <= t < a / NENTRIES ==> Entry(m, d, t) == Absent
  }

  ghost predicate Walking(m: Mem, d: nat, start: nat, a: nat) {
    && start <= a
    && (Entry(m, d, a / NENTRIES) == Absent ==> a % NENTRIES == 0)
    && forall w: nat :: a <= w ==> !Skips(m, d, start, w)
  }

  ghost predicate Stands(m: Mem, d: nat, start: nat, a: nat) {
    Jumping(m, d, start, a) || Walking(m, d, start, a)
  }

  /** A page the walk stands on in a table that exists is reached, and so is the next one. */
  lemma {:induction false} StepPage(m: Mem, d: nat, start: nat, a: nat)
    requires Stands(m, d, start, a) && Entry(m, d, a / NENTRIES).Present?
    ensures !Skips(m, d, start, a) && Stands(m, d, start, a + 1)
  {
    if Jumping(m, d, start, a) {
      forall w: nat | a <= w ensures !Skips(m, d, start, w) {
        assert w / NENTRIES > a / NENTRIES || (w / NENTRIES == a / NENTRIES && w % NENTRIES >= a % NENTRIES);
      }
    }
    NextPage(a);
    assert Walking(m, d, start, a + 1);
  }

  lemma {:induction false} NextPage(a: nat)
    ensures (a + 1) / NENTRIES == a / NENTRIES || ((a + 1) % NENTRIES == 0 && (a + 1) / NENTRIES == a / NENTRIES + 1)
  {
  }

  /** A jump over a missing table passes pages that are not mapped or are stepped over. */
  lemma {:induction false} StepTable(m: Mem, d: nat, start: nat, a: nat)
    requires Stands(m, d, start, a) && Entry(m, d, a / NENTRIES) == Absent
    ensures Stands(m, d, start, a + NENTRIES)
    ensures forall w: nat :: a <= w < a + NENTRIES ==> Skips(m, d, start, w) || Lookup(m, d, w) == Absent
  {
    assert (a + NENTRIES) / NENTRIES == a / NENTRIES + 1 && (a + NENTRIES) % NENTRIES == a % NENTRIES;
    forall w: nat | a <= w < a + NENTRIES ensures Skips(m, d, start, w) || Lookup(m, d, w) == Absent {
      NearBy(a, w);
    }
    if Jumping(m, d, start, a) {
      assert Jumping(m, d, start, a + NENTRIES);
    } else {
      assert Walking(m, d, start, a + NENTRIES);
    }
  }

  lemma {:induction false} NearBy(a: nat, w: nat)
    requires a <= w < a + NENTRIES
    ensures w / NENTRIES == a / NENTRIES || (w / NENTRIES == a / NENTRIES + 1 && w % NENTRIES < a % NENTRIES)
  {
  }

  // ----- Freeing the tables of an address space without user pages -----

  /** The page tables that the first `n` directory entries name. */
  ghost function TabFrames(table: seq<Pte>, n: nat): set<nat>
    requires n <= |table|
  {
    set i | 0 <= i < n && table[i].Present? :: table[i].frame
  }

  ghost predicate NoUserPages(owner: Owners, d: nat) {
    forall f :: f in owner && owner[f].dir == d ==> !owner[f].role.Page?
  }

  /** A table not freed yet is in nobody's hands. */
  lemma {:induction false} TabHeld(m: Mem, owner: Owners, d: nat, i: nat)
    requires MemOk(m, owner) && IsDir(owner, d) && i < NENTRIES
    ensures IsTable(m, d)
    ensures var table := m.tables[d];
            && TabFrames(table, i + 1) == TabFrames(table, i) + (if table[i].Present? then {table[i].frame} else {})
            && (table[i].Present? ==> table[i].frame !in TabFrames(table, i) && table[i].frame !in Frames(m, Rest(owner, d)))
            && (table[i].Present? ==> table[i].frame != d && table[i].frame in Frames(m, owner))
  {
    OwnTable(m, owner, d, i);
    var table := m.tables[d];
    assert table[i] == Entry(m, d, i);
    forall j: nat | j < i && table[j].Present? && table[i].Present? ensures table[j].frame != table[i].frame {
      OwnTable(m, owner, d, j);
      assert table[j] == Entry(m, d, j);
    }
    assert FreeOk(m, owner);
  }

  /** The directory and its tables are all that is left. */
  lemma {:induction false} AllTabs(m: Mem, owner: Owners, d: nat)
    requires MemOk(m, owner) && IsDir(owner, d) && NoUserPages(owner, d)
    ensures IsTable(m, d)
    ensures Frames(m, Rest(owner, d)) + TabFrames(m.tables[d], NENTRIES) + {d} == Frames(m, owner)
    ensures d !in Frames(m, Rest(owner, d)) + TabFrames(m.tables[d], NENTRIES)
  {
    OwnTable(m, owner, d, 0);
    var table := m.tables[d];
    assert FreeOk(m, owner);
    forall f | f in owner && owner[f].dir == d ensures f == d || f in TabFrames(table, NENTRIES) {
      assert BackOk(m, owner, f);
      assert owner[f].role.Tab? ==> table[owner[f].role.t] == Entry(m, d, owner[f].role.t);
    }
    forall i: nat | i < NENTRIES && table[i].Present? ensures table[i].frame in owner && table[i].frame != d {
      OwnTable(m, owner, d, i);
      assert table[i] == Entry(m, d, i);
    }
  }
}
