/**
 The inode cache, directory operations and path walk of fs.c. An inode's fields are written to the disk as
 soon as they change, so one copy serves.
 */
module Dirs {
  import opened Options
  import opened Paths
  import opened Namespace

  /** An entry of the inode cache: in use while `ref` is not 0, filled from the disk once `valid`. */
  datatype Slot = Slot(inum: nat, ref: nat, valid: bool)

  type Slots = seq<Slot>

  /** At most one entry in use for each inode. */
  ghost predicate CacheOk(c: Slots) {
    forall i, k :: 0 <= i < k < |c| && c[i].ref > 0 && c[k].ref > 0 ==> c[i].inum != c[k].inum
  }

  predicate Holds(c: Slots, i: nat, j: nat) {
    i < |c| && c[i].ref > 0 && c[i].inum == j
  }

  /** Every entry is in use: iget panics for an inode that has none. */
  ghost predicate AllHeld(c: Slots) {
    forall k :: 0 <= k < |c| ==> c[k].ref > 0
  }

  /** The references to inode `j`. */
  function Refs(c: Slots, j: nat): nat {
    if c == [] then 0 else Refs(c[..|c| - 1], j) + SlotRefs(c[|c| - 1], j)
  }

  function SlotRefs(x: Slot, j: nat): nat {
    if x.inum == j then x.ref else 0
  }

  lemma {:induction false} RefsUpdate(c: Slots, i: nat, x: Slot, j: nat)
    requires i < |c|
    ensures Refs(c[i := x], j) == Refs(c, j) - SlotRefs(c[i], j) + SlotRefs(x, j)
    ensures SlotRefs(c[i], j) <= Refs(c, j)
  {
    var front, t := c[..|c| - 1], c[i := x];
    if i < |c| - 1 {
      RefsUpdate(front, i, x, j);
      assert t[..|t| - 1] == front[i := x];
    } else {
      assert t[..|t| - 1] == front;
    }
  }

  /** References are as before but for one more to `j`, if `more`. */
  ghost predicate Balanced(c: Slots, c': Slots, j: nat, more: bool) {
    forall i :: Refs(c', i) == Refs(c, i) + if more && i == j then 1 else 0
  }

  /** Entry `i` now holds a new reference to `j`: one more on the entry in use, or a free entry taken over. */
  ghost predicate Took(c: Slots, c': Slots, i: nat, j: nat) {
    && i < |c| && |c'| == |c|
    && (if c[i].ref > 0 then c[i].inum == j && c' == c[i := c[i].(ref := c[i].ref + 1)]
        else c' == c[i := Slot(j, 1, false)] && forall k :: 0 <= k < |c| && c[k].ref > 0 ==> c[k].inum != j)
  }

  lemma {:induction false} TookOk(c: Slots, c': Slots, i: nat, j: nat)
    requires CacheOk(c) && Took(c, c', i, j)
    ensures CacheOk(c') && Holds(c', i, j) && Balanced(c, c', j, true)
  {
    forall x ensures Refs(c', x) == Refs(c, x) + if x == j then 1 else 0 {
      RefsUpdate(c, i, c'[i], x);
    }
  }

  /** The new reference is the only one exactly if there was none before. */
  lemma {:induction false} OnlyReference(c: Slots, c': Slots, i: nat, j: nat)
    requires Took(c, c', i, j)
    ensures c'[i].ref == 1 <==> Refs(c, j) == 0
  {
    if c[i].ref > 0 {
      RefsUpdate(c, i, c[i], j);
    } else {
      NoReferences(c, j);
    }
  }

  lemma {:induction false} NoReferences(c: Slots, j: nat)
    requires forall k :: 0 <= k < |c| && c[k].ref > 0 ==> c[k].inum != j
    ensures Refs(c, j) == 0
  {
    if c != [] {
      NoReferences(c[..|c| - 1], j);
    }
  }

  /** The state of an inode after its last reference without links is dropped. */
  predicate Frees(s: Nodes, x: Slot) {
    x.ref == 1 && x.valid && x.inum < |s| && s[x.inum].nlink == 0
  }

  function Dropped(s: Nodes, x: Slot): Slot
    requires x.ref > 0
  {
    Slot(x.inum, x.ref - 1, x.valid && !Frees(s, x))
  }

  function AfterPut(s: Nodes, x: Slot): Nodes {
    if Frees(s, x) then s[x.inum := FREE] else s
  }

  lemma {:induction false} DropOk(s: Nodes, c: Slots, i: nat)
    requires CacheOk(c) && i < |c| && c[i].ref > 0
    ensures var c' := c[i := Dropped(s, c[i])]; CacheOk(c') && Balanced(c', c, c[i].inum, true)
  {
    var c' := c[i := Dropped(s, c[i])];
    forall x ensures Refs(c, x) == Refs(c', x) + if x == c[i].inum then 1 else 0 {
      RefsUpdate(c, i, c'[i], x);
    }
  }

  /** Entries in use stay in use for the same inode, with one reference more at `at`. */
  ghost predicate Keeps(c: Slots, c': Slots, at: int) {
    && |c'| == |c|
    && forall k :: 0 <= k < |c| && c[k].ref > 0 ==> c'[k].inum == c[k].inum && c'[k].ref >= c[k].ref + if k == at then 1 else 0
  }

  lemma {:induction false} KeepsTook(c: Slots, c': Slots, i: nat, j: nat)
    requires Took(c, c', i, j)
    ensures Keeps(c, c', i)
  {
  }

  lemma {:induction false} KeepsDropped(c0: Slots, c1: Slots, c2: Slots, s: Nodes, i: nat)
    requires Keeps(c0, c1, i) && i < |c1| && c1[i].ref > 0 && c2 == c1[i := Dropped(s, c1[i])]
    ensures Keeps(c0, c2, -1)
  {
  }

  lemma {:induction false} KeepsMoved(c0: Slots, c1: Slots, c2: Slots, c3: Slots, s: Nodes, i: nat, slot: nat, j: nat)
    requires Keeps(c0, c1, i) && i < |c1| && c1[i].ref > 0 && Took(c1, c2, slot, j) && c3 == c2[i := Dropped(s, c2[i])]
    ensures Keeps(c0, c3, slot)
  {
  }

  lemma {:induction false} KeepsValid(c0: Slots, c1: Slots, c2: Slots, i: nat)
    requires Keeps(c0, c1, i) && i < |c1| && c2 == c1[i := c1[i].(valid := true)]
    ensures Keeps(c0, c2, i)
  {
  }

  /** Entries of all directories, linked or not, are inode numbers. */
  ghost predicate EntriesIn(s: Nodes) {
    forall d, k :: 0 <= d < |s| && 0 <= k < |s[d].entries| ==> s[d].entries[k].inum < |s|
  }

  ghost predicate SlotsIn(s: Nodes, c: Slots) {
    forall i :: 0 <= i < |c| && c[i].ref > 0 ==> 0 < c[i].inum < |s|
  }

  /** What dirlookup found: a reference to the inode, and the place of the entry. */
  datatype Look = NoSlot | Absent | Entry(slot: nat, place: nat)

  class Inodes {
    var nodes: Nodes
    var cache: Slots

    ghost predicate Valid()
      reads this
    {
      CacheOk(cache) && SlotsIn(nodes, cache) && EntriesIn(nodes) && ROOTINO < |nodes|
    }

    /** iget: no free entry is a panic. */
    method Iget(inum: nat) returns (r: Option<nat>)
      modifies this`cache
      ensures r.None? ==> cache == old(cache) && AllHeld(cache)
      ensures r.Some? ==> Took(old(cache), cache, r.value, inum)
      ensures r.Some? && old(cache)[r.value].ref == 0 ==> forall k :: 0 <= k < r.value ==> old(cache)[k].ref > 0
    {
      var empty: Option<nat> := None;
      var i := 0;
      while i < |cache|
        invariant i <= |cache| && cache == old(cache)
        invariant forall k :: 0 <= k < i && cache[k].ref > 0 ==> cache[k].inum != inum
        invariant empty.None? ==> forall k :: 0 <= k < i ==> cache[k].ref > 0
        invariant empty.Some? ==>
          empty.value < i && cache[empty.value].ref == 0 && forall k :: 0 <= k < empty.value ==> cache[k].ref > 0
      {
        if cache[i].ref > 0 && cache[i].inum == inum {
          cache := cache[i := cache[i].(ref := cache[i].ref + 1)];
          return Some(i);
        }
        if empty.None? && cache[i].ref == 0 {
          empty := Some(i);
        }
        i := i + 1;
      }
      if empty.Some? {
        cache := cache[empty.value := Slot(inum, 1, false)];
      }
      return empty;
    }

    /** idup. */
    method Idup(i: nat)
      requires i < |cache| && cache[i].ref > 0
      modifies this`cache
      ensures Took(old(cache), cache, i, old(cache)[i].inum)
    {
      cache := cache[i := cache[i].(ref := cache[i].ref + 1)];
    }

    /** ilock: an inode without a type is a panic. */
    method Ilock(i: nat) returns (ok: bool)
      requires Valid() && i < |cache| && cache[i].ref > 0
      modifies this`cache
      ensures Valid() && cache == old(cache)[i := old(cache)[i].(valid := true)]
      ensures ok <==> old(cache)[i].valid || nodes[cache[i].inum].typ != 0
      ensures forall j :: Refs(cache, j) == Refs(old(cache), j)
    {
      forall j ensures Refs(cache[i := cache[i].(valid := true)], j) == Refs(cache, j) {
        RefsUpdate(cache, i, cache[i].(valid := true), j);
      }
      if !cache[i].valid {
        cache := cache[i := cache[i].(valid := true)];
        return nodes[cache[i].inum].typ != 0;
      }
      ok := true;
    }

    /** iput: the last reference to an inode without links frees it. */
    method Iput(i: nat)
      requires Valid() && i < |cache| && cache[i].ref > 0
      modifies this
      ensures Valid() && nodes == AfterPut(old(nodes), old(cache)[i]) && cache == old(cache)[i := Dropped(old(nodes), old(cache)[i])]
      ensures var x := old(cache)[i];
              if x.ref == 1 && x.valid && old(nodes)[x.inum].nlink == 0
              then nodes == old(nodes)[x.inum := Node(0, 0, [])] && cache == old(cache)[i := Slot(x.inum, 0, false)]
              else nodes == old(nodes) && cache == old(cache)[i := Slot(x.inum, x.ref - 1, x.valid)]
      ensures Balanced(cache, old(cache), old(cache)[i].inum, true)
    {
      DropOk(nodes, cache, i);
      var x := cache[i];
      if x.ref == 1 && x.valid && nodes[x.inum].nlink == 0 {
        nodes := nodes[x.inum := FREE];
        cache := cache[i := Slot(x.inum, x.ref, false)];
      }
      cache := cache[i := cache[i].(ref := cache[i].ref - 1)];
    }

    /** dirlookup, in a directory. */
    method Dirlookup(i: nat, name: string) returns (r: Look)
      requires Valid() && i < |cache| && cache[i].ref > 0 && nodes[cache[i].inum].typ == T_DIR
      modifies this`cache
      ensures Valid() && |cache| == |old(cache)|
      ensures var es, found := nodes[old(cache)[i].inum].entries, Find(nodes[old(cache)[i].inum].entries, name, 0);
              && (r.Absent? <==> found.None?)
              && (r.NoSlot? ==> AllHeld(cache))
              && (!r.Entry? ==> cache == old(cache))
              && (r.Entry? ==> found == Some(r.place) && Took(old(cache), cache, r.slot, es[r.place].inum))
    {
      var es := nodes[cache[i].inum].entries;
      var k := 0;
      while k < |es|
        invariant k <= |es| && Find(es, name, k) == Find(es, name, 0)
      {
        if es[k].inum != 0 && es[k].name == name {
          var s := Iget(es[k].inum);
          if s.None? {
            return NoSlot;
          }
          TookOk(old(cache), cache, s.value, es[k].inum);
          return Entry(s.value, k);
        }
        k := k + 1;
      }
      return Absent;
    }

    /** The first lines of namex: a reference to where the path starts. */
    method Begin(path: string, cwd: nat) returns (r: Option<nat>)
      requires Valid() && cwd < |cache| && cache[cwd].ref > 0
      modifies this`cache
      ensures Valid() && |cache| == |old(cache)|
      ensures r.None? ==> cache == old(cache) && AllHeld(cache)
      ensures var start := if path != "" && path[0] == '/' then ROOTINO else old(cache)[cwd].inum;
              r.Some? ==> Holds(cache, r.value, start) && Balanced(old(cache), cache, start, true) && Keeps(old(cache), cache, r.value)
    {
      hide CacheOk, Refs, EntriesIn;
      if path != "" && path[0] == '/' {
        r := Iget(ROOTINO);
        if r.None? {
          return;
        }
        TookOk(old(cache), cache, r.value, ROOTINO);
      } else {
        Idup(cwd);
        r := Some(cwd);
        TookOk(old(cache), cache, cwd, old(cache)[cwd].inum);
      }
    }

    /** One step of namex: the name is looked up in a directory, and the reference moves on to what it names. */
    method Descend(ip: nat, name: string) returns (r: Option<Option<nat>>, ghost mid: Slots)
      requires Valid() && ip < |cache| && cache[ip].ref > 0 && nodes[cache[ip].inum].typ == T_DIR
      modifies this
      ensures Valid() && |cache| == |old(cache)| && |nodes| == |old(nodes)|
      ensures old(nodes)[old(cache)[ip].inum].nlink > 0 ==> nodes == old(nodes)
      ensures r.None? ==> cache == old(cache) && nodes == old(nodes) && AllHeld(cache)
      ensures var cur, found := old(cache)[ip].inum, Lookup(old(nodes)[old(cache)[ip].inum].entries, name);
              && (r == Some(None) ==> found.None? && Balanced(cache, old(cache), cur, true))
              && (r.Some? && r.value.Some? ==>
                    found.Some? && Holds(cache, r.value.value, found.value) && Moved(old(cache), cache, cur, found.value)
                    && Took(old(cache), mid, r.value.value, found.value))
              && (r.Some? ==> (r.value.None? ==> mid == old(cache))
                              && ip < |mid| && mid[ip].ref > 0 && cache == mid[ip := Dropped(old(nodes), mid[ip])])
    {
      hide CacheOk, Refs, EntriesIn;
      ghost var cur, c1 := cache[ip].inum, cache;
      var next := Dirlookup(ip, name);
      mid := cache;
      match next {
        case NoSlot =>
          return None, mid;
        case Absent =>
          Iput(ip);
          return Some(None), mid;
        case Entry(slot, place) =>
          ghost var j := nodes[cur].entries[place].inum;
          TookOk(c1, mid, slot, j);
          Iput(ip);
          MovedOn(c1, mid, cache, cur, j);
          return Some(Some(slot)), mid;
      }
    }

    /** The loop of namex, from an entry that holds a reference since the entries were `c0`. */
    method WalkOn(first: nat, path: string, parent: bool, ghost c0: Slots) returns (r: Walk)
      requires Valid() && first < |cache| && cache[first].ref > 0
      requires Balanced(c0, cache, cache[first].inum, true) && Keeps(c0, cache, first)
      modifies this
      ensures Valid() && |cache| == |old(cache)| && |nodes| == |old(nodes)|
      ensures r.Missing? ==> Balanced(c0, cache, 0, false) && Keeps(c0, cache, -1)
      ensures r.Found? ==>
        && r.slot < |cache| && cache[r.slot].ref > 0 && Balanced(c0, cache, cache[r.slot].inum, true)
        && Keeps(c0, cache, r.slot)
      ensures var start := old(cache)[first].inum;
              Sound(old(nodes)) && Live(old(nodes), start) ==>
                && nodes == old(nodes)
                && (r.Panic? ==> AllHeld(cache))
                && (!r.Panic? ==> LedTo(r, cache, Resolve(nodes, start, Elems(path), parent)))
                && (r.Found? && parent ==> Elems(path) != [] && r.name == Trunc(Elems(path)[|Elems(path)| - 1]))
                && (r.Found? ==> Live(nodes, cache[r.slot].inum) && (parent ==> nodes[cache[r.slot].inum].typ == T_DIR))
    {
      hide Sound, Refs, Resolve, Elems, CacheOk, EntriesIn, Balanced, Lookup, Keeps, Took;
      ghost var s0, start := nodes, cache[first].inum;
      ghost var good := Sound(s0) && Live(s0, start);
      var ip, rest, name := first, path, "";
      while true
        invariant Valid() && |cache| == |old(cache)| && |nodes| == |s0|
        invariant ip < |cache| && cache[ip].ref > 0 && Balanced(c0, cache, cache[ip].inum, true) && Keeps(c0, cache, ip)
        invariant good ==> nodes == s0 && Live(s0, cache[ip].inum)
        invariant good ==> Resolve(s0, cache[ip].inum, Elems(rest), parent) == Resolve(s0, start, Elems(path), parent)
        invariant Elems(rest) != [] ==> Elems(path) != [] && Elems(rest)[|Elems(rest)| - 1] == Elems(path)[|Elems(path)| - 1]
        decreases |rest|
      {
        ghost var cur := cache[ip].inum;
        ResolveStep(s0, cur, Elems(rest), parent);
        var e := Skipelem(rest);
        if e.None? {
          break;
        }
        name, rest := e.value.0, e.value.1;
        ghost var c1 := cache;
        var ok := Ilock(ip);
        SameBalance(c0, c1, cache, cur);
        KeepsValid(c0, c1, cache, ip);
        if !ok {
          return Panic;
        }
        if nodes[cache[ip].inum].typ != T_DIR {
          c1 := cache;
          KeepsDropped(c0, c1, c1[ip := Dropped(nodes, c1[ip])], nodes, ip);
          Iput(ip);
          PutBack(c0, c1, cache, cur);
          return Missing;
        }
        if parent && rest == "" {
          return Found(ip, name);
        }
        c1 := cache;
        if good {
          LookupLive(s0, cur, name);
        }
        ghost var s1 := nodes;
        var next; ghost var mid;
        next, mid := Descend(ip, name);
        if next.None? {
          return Panic;
        }
        if next.value.None? {
          PutBack(c0, c1, cache, cur);
          KeepsDropped(c0, c1, cache, s1, ip);
          return Missing;
        }
        KeepsMoved(c0, c1, mid, cache, s1, ip, next.value.value, cache[next.value.value].inum);
        ip := next.value.value;
        MoveBalance(c0, c1, cache, cur, cache[ip].inum);
      }
      if parent {
        ghost var c1, cur := cache, cache[ip].inum;
        KeepsDropped(c0, c1, c1[ip := Dropped(nodes, c1[ip])], nodes, ip);
        Iput(ip);
        PutBack(c0, c1, cache, cur);
        return Missing;
      }
      return Found(ip, name);
    }

    /**
     namex: what the path leads to from the root or the current directory, with one reference more than
     before; or nothing, with every reference count as before.
     */
    method Namex(path: string, parent: bool, cwd: nat) returns (r: Walk)
      requires Valid() && cwd < |cache| && cache[cwd].ref > 0
      modifies this
      ensures Valid() && |cache| == |old(cache)| && |nodes| == |old(nodes)|
      ensures r.Missing? ==> Balanced(old(cache), cache, 0, false) && Keeps(old(cache), cache, -1)
      ensures r.Found? ==>
        && r.slot < |cache| && cache[r.slot].ref > 0 && Balanced(old(cache), cache, cache[r.slot].inum, true)
        && Keeps(old(cache), cache, r.slot)
      ensures var start := if path != "" && path[0] == '/' then ROOTINO else old(cache)[cwd].inum;
              Sound(old(nodes)) && Live(old(nodes), start) ==>
                && nodes == old(nodes)
                && (r.Panic? ==> AllHeld(cache))
                && (!r.Panic? ==> LedTo(r, cache, Resolve(nodes, start, Elems(path), parent)))
                && (r.Found? && parent ==> Elems(path) != [] && r.name == Trunc(Elems(path)[|Elems(path)| - 1]))
                && (r.Found? ==> Live(nodes, cache[r.slot].inum) && (parent ==> nodes[cache[r.slot].inum].typ == T_DIR))
    {
      hide Sound, Refs, Resolve, Elems, CacheOk, EntriesIn, Balanced, Keeps, Live, LedTo;
      var first := Begin(path, cwd);
      if first.None? {
        return Panic;
      }
      r := WalkOn(first.value, path, parent, old(cache));
    }

    /** An absolute path leads to the same entry of the cache whatever the two callers' directories. */
    method WalkTwice(path: string, parent: bool, cwd: nat, cwd': nat) returns (r: Walk, r': Walk)
      requires Valid() && Sound(nodes) && path != "" && path[0] == '/'
      requires cwd < |cache| && cache[cwd].ref > 0 && cwd' < |cache| && cache[cwd'].ref > 0
      modifies this
      ensures Valid() && nodes == old(nodes) && (r.Panic? || r'.Panic? ==> AllHeld(cache))
      ensures !r.Panic? && !r'.Panic? ==>
        if r.Found? then r'.Found? && r'.slot == r.slot && (parent ==> r'.name == r.name) else r'.Missing?
    {
      hide Refs, Resolve, Elems, EntriesIn, Balanced;
      r := Namex(path, parent, cwd);
      if r.Panic? {
        return r, Panic;
      }
      r' := Namex(path, parent, cwd');
    }

    /** dirlink: a new entry in the first free place, unless the name is there. */
    method Dirlink(i: nat, name: string, inum: nat) returns (r: Linking)
      requires Valid() && i < |cache| && cache[i].ref > 0 && nodes[cache[i].inum].typ == T_DIR
      requires 0 < inum < |nodes| && |name| <= DIRSIZ
      modifies this
      ensures Valid() && |nodes| == |old(nodes)|
      ensures var d := old(cache)[i].inum;
              && (r.Exists? ==>
                    && Lookup(old(nodes)[d].entries, name).Some? && Balanced(old(cache), cache, 0, false) && Keeps(old(cache), cache, -1)
                    && (Live(old(nodes), Lookup(old(nodes)[d].entries, name).value) ==> nodes == old(nodes)))
              && (r.Stuck? ==> nodes == old(nodes) && if Lookup(nodes[d].entries, name).Some? then AllHeld(cache) else Crowded(nodes[d]))
              && (r.Done? ==> cache == old(cache) && Entered(old(nodes), nodes, d, r.place, Dirent(inum, name)))
              && (r.Done? ==>
                    && r.place < MAXENTRIES
                    && forall k :: 0 <= k < r.place && k < |old(nodes)[d].entries| ==> old(nodes)[d].entries[k].inum != 0)
    {
      hide CacheOk, Refs, EntriesIn;
      ghost var c0, s0 := cache, nodes;
      var look := Dirlookup(i, name);
      if look.NoSlot? {
        return Stuck;
      }
      if look.Entry? {
        ghost var j, c1 := nodes[cache[i].inum].entries[look.place].inum, cache;
        TookOk(c0, c1, look.slot, j);
        KeepsTook(c0, c1, look.slot, j);
        KeepsDropped(c0, c1, c1[look.slot := Dropped(nodes, c1[look.slot])], nodes, look.slot);
        Iput(look.slot);
        PutBack(c0, c1, cache, j);
        return Exists;
      }
      var d := cache[i].inum;
      var k := 0;
      while k < |nodes[d].entries|
        invariant k <= |nodes[d].entries| && forall i :: 0 <= i < k ==> nodes[d].entries[i].inum != 0
      {
        if nodes[d].entries[k].inum == 0 {
          break;
        }
        k := k + 1;
      }
      if k >= MAXENTRIES {
        return Stuck;
      }
      EnteredIn(nodes, d, k, Dirent(inum, name));
      nodes := nodes[d := WithEntry(nodes[d], k, Dirent(inum, name))];
      return Done(k);
    }

    /** ialloc: the first free inode; none is a panic. */
    method Ialloc(typ: nat) returns (r: Option<nat>)
      requires Valid()
      modifies this
      ensures Valid() && |nodes| == |old(nodes)|
      ensures r.Some? ==>
        && r.value < |cache|
        && var j := cache[r.value].inum;
           && 0 < j < |nodes| && old(nodes)[j].typ == 0 && (forall i :: 0 < i < j ==> old(nodes)[i].typ != 0)
           && nodes == old(nodes)[j := Node(typ, 0, [])] && Took(old(cache), cache, r.value, j)
      ensures r.None? ==> AllHeld(cache) || NoneFree(nodes)
    {
      hide CacheOk;
      var inum := 1;
      while inum < |nodes|
        invariant 1 <= inum <= |nodes| && nodes == old(nodes) && cache == old(cache)
        invariant forall i :: 0 < i < inum ==> nodes[i].typ != 0
      {
        if nodes[inum].typ == 0 {
          nodes := nodes[inum := Node(typ, 0, [])];
          r := Iget(inum);
          if r.Some? {
            TookOk(old(cache), cache, r.value, inum);
          }
          return;
        }
        inum := inum + 1;
      }
      return None;
    }
  }

  ghost predicate NoneFree(s: Nodes) {
    forall i :: 0 < i < |s| ==> s[i].typ != 0
  }

  const MAXENTRIES := 140 * 32   // dirents in the largest file

  /** A directory as large as a file can be, with no entry free. */
  ghost predicate Crowded(n: Node) {
    |n.entries| >= MAXENTRIES && forall k :: 0 <= k < MAXENTRIES ==> n.entries[k].inum != 0
  }

  /** How dirlink ends: a panic, the name is taken, or done. */
  datatype Linking = Stuck | Exists | Done(place: nat)

  /** From `s` to `t` an entry was added to `d` at a free place under a new name. */
  ghost predicate Entered(s: Nodes, t: Nodes, d: nat, k: nat, e: Dirent) {
    && d < |s| && k <= |s[d].entries| && (k < |s[d].entries| ==> s[d].entries[k].inum == 0)
    && (forall i :: 0 <= i < |s[d].entries| ==> !Matches(s[d].entries[i], e.name))
    && t == s[d := WithEntry(s[d], k, e)]
  }

  lemma {:induction false} EnteredIn(s: Nodes, d: nat, k: nat, e: Dirent)
    requires EntriesIn(s) && d < |s| && k <= |s[d].entries| && e.inum < |s|
    ensures EntriesIn(s[d := WithEntry(s[d], k, e)])
  {
  }

  /** How a path walk ends. */
  datatype Walk = Panic | Missing | Found(slot: nat, name: string)

  /** The walk ended where the path leads. */
  ghost predicate LedTo(r: Walk, c: Slots, where: Option<nat>) {
    match r
    case Found(i, _) => i < |c| && where == Some(c[i].inum)
    case _ => where == None
  }

  lemma {:induction false} ResolveStep(s: Nodes, d: nat, elems: seq<string>, parent: bool)
    ensures elems == [] ==> Resolve(s, d, elems, parent) == if parent then None else Some(d)
    ensures elems != [] && (d >= |s| || s[d].typ != T_DIR) ==> Resolve(s, d, elems, parent) == None
    ensures elems != [] && d < |s| && s[d].typ == T_DIR && parent && |elems| == 1 ==> Resolve(s, d, elems, parent) == Some(d)
    ensures elems != [] && d < |s| && s[d].typ == T_DIR && !(parent && |elems| == 1) ==>
      var j := Lookup(s[d].entries, Trunc(elems[0]));
      Resolve(s, d, elems, parent) == if j.None? then None else Resolve(s, j.value, elems[1..], parent)
  {
  }

  /** The one reference more is given back. */
  lemma {:induction false} PutBack(c0: Slots, c1: Slots, c2: Slots, j: nat)
    requires Balanced(c0, c1, j, true) && Balanced(c2, c1, j, true)
    ensures Balanced(c0, c2, 0, false)
  {
    hide Refs;
    forall i ensures Refs(c2, i) == Refs(c0, i) {
      assert Refs(c1, i) == Refs(c0, i) + if i == j then 1 else 0;
    }
  }

  /** A reference to one inode is exchanged for one to another. */
  ghost predicate Moved(c: Slots, c': Slots, from: nat, to: nat) {
    forall i :: Refs(c', i) + (if i == from then 1 else 0) == Refs(c, i) + if i == to then 1 else 0
  }

  lemma {:induction false} MovedOn(c1: Slots, c2: Slots, c3: Slots, from: nat, to: nat)
    requires Balanced(c1, c2, to, true) && Balanced(c3, c2, from, true)
    ensures Moved(c1, c3, from, to)
  {
    hide Refs;
    forall i ensures Refs(c3, i) + (if i == from then 1 else 0) == Refs(c1, i) + if i == to then 1 else 0 {
      assert Refs(c2, i) == Refs(c1, i) + if i == to then 1 else 0;
    }
  }

  lemma {:induction false} MoveBalance(c0: Slots, c1: Slots, c2: Slots, from: nat, to: nat)
    requires Balanced(c0, c1, from, true) && Moved(c1, c2, from, to)
    ensures Balanced(c0, c2, to, true)
  {
    hide Refs;
    forall i ensures Refs(c2, i) == Refs(c0, i) + if i == to then 1 else 0 {
      assert Refs(c1, i) == Refs(c0, i) + if i == from then 1 else 0;
    }
  }

  lemma {:induction false} SameBalance(c0: Slots, c1: Slots, c2: Slots, j: nat)
    requires Balanced(c0, c1, j, true) && forall i :: Refs(c2, i) == Refs(c1, i)
    ensures Balanced(c0, c2, j, true)
  {
    hide Refs;
  }
}
