/**
 The system calls that make and remove names (sysfile.c): each leaves the link counts right, with every
 reference to an inode given back, and a call that fails leaves every inode as it was.
 */
module Links {
  import opened Options
  import opened Paths
  import opened Namespace
  import opened Dirs

  /** What the calls rely on: sound link counts and a current directory that has not been unlinked. */
  ghost predicate Ready(ino: Inodes, cwd: nat)
    reads ino
  {
    && ino.Valid() && LinksOk(ino.nodes)
    && cwd < |ino.cache| && ino.cache[cwd].ref > 0 && Live(ino.nodes, ino.cache[cwd].inum)
  }

  /** Resolution looks at types and entries only. */
  lemma {:induction false} ResolveSame(s: Nodes, t: Nodes, d: nat, elems: seq<string>, parent: bool)
    requires |t| == |s| && forall i :: 0 <= i < |s| ==> t[i].typ == s[i].typ && t[i].entries == s[i].entries
    ensures Resolve(t, d, elems, parent) == Resolve(s, d, elems, parent)
    decreases |elems|
  {
    ResolveStep(s, d, elems, parent);
    ResolveStep(t, d, elems, parent);
    if elems != [] && d < |s| {
      var j := Lookup(s[d].entries, Trunc(elems[0]));
      if j.Some? {
        ResolveSame(s, t, j.value, elems[1..], parent);
      }
    }
  }

  /** What makes the calls panic: no cache entry, no inode or no directory entry is left. */
  ghost predicate OutOfRoom(s: Nodes, c: Slots) {
    AllHeld(c) || NoneFree(s) || exists d :: 0 <= d < |s| && Crowded(s[d])
  }

  function Raise(s: Nodes, j: nat): Nodes
    requires j < |s|
  {
    s[j := s[j].(nlink := s[j].nlink + 1)]
  }

  /** The last element of a path, as an entry keeps it. */
  function LastName(path: string): string {
    var es := Elems(path);
    if es == [] then "" else Trunc(es[|es| - 1])
  }

  /** When link(old, new) succeeds: a file, in a directory where the new name is free. */
  ghost predicate MayLink(s: Nodes, start: nat, start': nat, oldPath: string, newPath: string) {
    var ip, dp := Resolve(s, start, Elems(oldPath), false), Resolve(s, start', Elems(newPath), true);
    && ip.Some? && ip.value < |s| && s[ip.value].typ != T_DIR
    && dp.Some? && dp.value < |s| && Lookup(s[dp.value].entries, LastName(newPath)).None?
  }

  lemma {:induction false} Chain(c0: Slots, c1: Slots, c2: Slots, j: nat)
    requires Balanced(c0, c1, j, true) && Balanced(c1, c2, 0, false)
    ensures Balanced(c0, c2, j, true)
  {
    hide Refs;
    forall i ensures Refs(c2, i) == Refs(c0, i) + if i == j then 1 else 0 {
      assert Refs(c1, i) == Refs(c0, i) + if i == j then 1 else 0;
    }
  }

  lemma {:induction false} Locked(c: Slots, c': Slots)
    requires forall j :: Refs(c', j) == Refs(c, j)
    ensures Balanced(c, c', 0, false)
  {
  }

  /** The new entry makes good the raised count. */
  lemma {:induction false} LinkedIn(s: Nodes, t: Nodes, d: nat, k: nat, name: string, j: nat)
    requires OneOver(s, j) && Entered(s, t, d, k, Dirent(j, name)) && d < |s| && Linked(s[d])
    ensures LinksOk(t) && NewEntry(s, t, d, name, j) && Lookup(s[d].entries, name).None? && d < |t| && Linked(t[d])
  {
    hide OneOver, LinksOk;
    OverSound(s, j);
    Promised(s, d, k, name, j);
    FoundAgain(s, d, k, name, j);
  }

  /** The part of sys_link between raising the count and giving up the inode: the new name. */
  method LinkInto(ino: Inodes, ip: nat, newPath: string, cwd: nat) returns (r: Option<bool>)
    requires ino.Valid() && ip < |ino.cache| && ino.cache[ip].ref > 0 && OneOver(ino.nodes, ino.cache[ip].inum)
    requires cwd < |ino.cache| && ino.cache[cwd].ref > 0 && Live(ino.nodes, ino.cache[cwd].inum)
    modifies ino
    ensures ino.Valid() && |ino.nodes| == |old(ino.nodes)|
    ensures r.Some? ==> Balanced(old(ino.cache), ino.cache, 0, false) && Keeps(old(ino.cache), ino.cache, -1)
    ensures var start := if newPath != "" && newPath[0] == '/' then ROOTINO else old(ino.cache)[cwd].inum;
            var j, dp := old(ino.cache)[ip].inum, Resolve(old(ino.nodes), start, Elems(newPath), true);
            && (r == Some(false) ==> ino.nodes == old(ino.nodes))
            && (r.Some? ==>
               (r.value <==> dp.Some? && dp.value < |old(ino.nodes)| && Lookup(old(ino.nodes)[dp.value].entries, LastName(newPath)).None?))
            && (r == Some(true) ==> LinksOk(ino.nodes) && NewEntry(old(ino.nodes), ino.nodes, dp.value, LastName(newPath), j))
    ensures r.None? ==> OutOfRoom(ino.nodes, ino.cache)
  {
    hide LinksOk, OneOver, Resolve, Refs, CacheOk, EntriesIn, Elems, Sound, Entered, NewEntry, Lookup;
    ghost var s0, c0, j := ino.nodes, ino.cache, ino.cache[ip].inum;
    OverSound(s0, j);
    var w := ino.Namex(newPath, true, cwd);
    if w.Panic? {
      return None;
    }
    if w.Missing? {
      return Some(false);
    }
    ghost var c1 := ino.cache;
    var dp := w.slot;
    var ok := ino.Ilock(dp);
    ghost var c2, d := ino.cache, ino.cache[dp].inum;
    KeepsValid(c0, c1, c2, dp);
    Locked(c1, c2);
    Chain(c0, c1, c2, d);
    assert ok;
    LookupLive(s0, d, w.name);
    var link := ino.Dirlink(dp, w.name, ino.cache[ip].inum);
    if link.Stuck? {
      return None;
    }
    ghost var c3, s3 := ino.cache, ino.nodes;
    Chain(c0, c2, c3, d);
    if link.Done? {
      LinkedIn(s0, s3, d, link.place, w.name, j);
    }
    KeepsChain(c0, c2, c3, dp);
    KeepsDropped(c0, c3, c3[dp := Dropped(s3, c3[dp])], s3, dp);
    ino.Iput(dp);
    PutBack(c0, c3, ino.cache, d);
    return Some(link.Done?);
  }

  /** From `s` to `t` only directory `d` changed: it has one more entry, which leads from `name` to `j`. */
  ghost predicate NewEntry(s: Nodes, t: Nodes, d: nat, name: string, j: nat) {
    && (exists k: nat :: Entered(s, t, d, k, Dirent(j, name)))
    && d < |t| && Lookup(t[d].entries, name) == Some(j)
  }

  lemma {:induction false} OverSound(s: Nodes, j: nat)
    requires OneOver(s, j)
    ensures Sound(s) && Live(s, ROOTINO) && 0 < j < |s| && s[j].typ != T_DIR && s[j].nlink > 0
  {
  }

  lemma {:induction false} KeepsChain(c0: Slots, c1: Slots, c2: Slots, at: nat)
    requires Keeps(c0, c1, at) && (c2 == c1 || Keeps(c1, c2, -1))
    ensures Keeps(c0, c2, at)
  {
  }

  /** A new entry is found under its name. */
  lemma {:induction false} FoundAgain(s: Nodes, d: nat, k: nat, name: string, j: nat)
    requires CanLink(s, d, k, name, j)
    ensures Lookup(WithEntry(s[d], k, Dirent(j, name)).entries, name) == Some(j)
  {
    var es := WithEntry(s[d], k, Dirent(j, name)).entries;
    assert Matches(es[k], name) && forall i :: 0 <= i < |es| && i != k ==> !Matches(es[i], name);
    assert Find(es, name, 0) == Some(k);
  }

  /** The rest of sys_link, once the old path has led to a file, held since the entries were `c0`. */
  method LinkHeld(ino: Inodes, ip: nat, newPath: string, cwd: nat, ghost c0: Slots) returns (r: Option<int>)
    requires Ready(ino, cwd) && ip < |ino.cache| && ino.cache[ip].ref > 0
    requires Live(ino.nodes, ino.cache[ip].inum) && ino.nodes[ino.cache[ip].inum].typ != T_DIR
    requires cwd < |c0| && c0[cwd].ref > 0 && Keeps(c0, ino.cache, ip) && Balanced(c0, ino.cache, ino.cache[ip].inum, true)
    modifies ino
    ensures r.Some? ==> Ready(ino, cwd) && Balanced(c0, ino.cache, 0, false)
    ensures var start := if newPath != "" && newPath[0] == '/' then ROOTINO else old(ino.cache)[cwd].inum;
            var s, j, dp := old(ino.nodes), old(ino.cache)[ip].inum, Resolve(old(ino.nodes), start, Elems(newPath), true);
            && (r.Some? ==>
                  r.value == if dp.Some? && dp.value < |s| && Lookup(s[dp.value].entries, LastName(newPath)).None? then 0 else -1)
            && (r == Some(-1) ==> ino.nodes == s)
            && (r == Some(0) ==> GainedLink(s, ino.nodes, Some(j), dp, LastName(newPath)))
    ensures r.None? ==> OutOfRoom(ino.nodes, ino.cache)
  {
    hide LinksOk, OneOver, Resolve, Refs, CacheOk, EntriesIn, Elems, Sound, LastName;
    ghost var s0, c2, j := ino.nodes, ino.cache, ino.cache[ip].inum;
    RaisedIn(s0, j);
    Raised(s0, j);
    ino.nodes := Raise(ino.nodes, ino.cache[ip].inum);
    ResolveSame(s0, ino.nodes, if newPath != "" && newPath[0] == '/' then ROOTINO else c2[cwd].inum, Elems(newPath), true);
    var done := LinkInto(ino, ip, newPath, cwd);
    if done.None? {
      return None;
    }
    ghost var c3 := ino.cache;
    Chain(c0, c2, c3, j);
    KeepsChain(c0, c2, c3, ip);
    if !done.value {
      ino.nodes := ino.nodes[ino.cache[ip].inum := ino.nodes[ino.cache[ip].inum].(nlink := ino.nodes[ino.cache[ip].inum].nlink - 1)];
      assert ino.nodes == s0;
    }
    ghost var s3 := ino.nodes;
    KeepsDropped(c0, c3, c3[ip := Dropped(s3, c3[ip])], s3, ip);
    ino.Iput(ip);
    PutBack(c0, c3, ino.cache, j);
    return Some(if done.value then 0 else -1);
  }

  /**
   sys_link, once its arguments are fetched. It succeeds exactly if the old path leads to a file and the new
   name is free in a directory; then the new name leads to that file, whose count is one more. A failure
   leaves every inode as it was.
   */
  method SysLink(ino: Inodes, oldPath: string, newPath: string, cwd: nat) returns (r: Option<int>)
    requires Ready(ino, cwd)
    modifies ino
    ensures r.Some? ==> Ready(ino, cwd) && Balanced(old(ino.cache), ino.cache, 0, false)
    ensures var start := if oldPath != "" && oldPath[0] == '/' then ROOTINO else old(ino.cache)[cwd].inum;
            var start' := if newPath != "" && newPath[0] == '/' then ROOTINO else old(ino.cache)[cwd].inum;
            var s := old(ino.nodes);
            && (r.Some? ==> r.value == if MayLink(s, start, start', oldPath, newPath) then 0 else -1)
            && (r == Some(-1) ==> ino.nodes == s)
            && (r == Some(0) ==>
               GainedLink(s, ino.nodes, Resolve(s, start, Elems(oldPath), false), Resolve(s, start', Elems(newPath), true),
                          LastName(newPath)))
    ensures r.None? ==> OutOfRoom(ino.nodes, ino.cache)
  {
    hide LinksOk, OneOver, Resolve, Refs, CacheOk, EntriesIn, Elems, Sound, LastName;
    ghost var s0, c0 := ino.nodes, ino.cache;
    OkSound(s0);
    var w := ino.Namex(oldPath, false, cwd);
    if w.Panic? {
      return None;
    }
    if w.Missing? {
      return Some(-1);
    }
    ghost var c1 := ino.cache;
    var ip := w.slot;
    ghost var j := ino.cache[ip].inum;
    var ok := ino.Ilock(ip);
    ghost var c2 := ino.cache;
    KeepsValid(c0, c1, c2, ip);
    Locked(c1, c2);
    Chain(c0, c1, c2, j);
    assert ok;
    if ino.nodes[ino.cache[ip].inum].typ == T_DIR {
      KeepsDropped(c0, c2, c2[ip := Dropped(s0, c2[ip])], s0, ip);
      ino.Iput(ip);
      PutBack(c0, c2, ino.cache, j);
      return Some(-1);
    }
    r := LinkHeld(ino, ip, newPath, cwd, c0);
  }

  /** From `s` to `t` the inode gained a link, the name leads to it, and nothing else changed. */
  ghost predicate GainedLink(s: Nodes, t: Nodes, ip: Option<nat>, dp: Option<nat>, name: string) {
    && |t| == |s| && ip.Some? && ip.value < |s| && dp.Some? && dp.value < |s|
    && NewEntry(Raise(s, ip.value), t, dp.value, name, ip.value)
  }

  lemma {:induction false} OkSound(s: Nodes)
    requires LinksOk(s)
    ensures Sound(s) && ROOTINO < |s| && Live(s, ROOTINO)
  {
  }

  lemma {:induction false} RaisedIn(s: Nodes, j: nat)
    requires EntriesIn(s) && j < |s|
    ensures EntriesIn(Raise(s, j))
  {
  }

  // ----- Removing a name -----

  /** When unlink(path) succeeds: a name besides . and .. that is there and does not name a directory in use. */
  ghost predicate MayUnlink(s: Nodes, start: nat, path: string) {
    var dp, name := Resolve(s, start, Elems(path), true), LastName(path);
    && dp.Some? && dp.value < |s| && name != "." && name != ".."
    && MayRemove(s, dp.value, name)
  }

  /** The name is there, and is not that of a directory with entries. */
  ghost predicate MayRemove(s: Nodes, d: nat, name: string) {
    && d < |s|
    && var j := Lookup(s[d].entries, name);
       j.Some? && j.value < |s| && (s[j.value].typ == T_DIR ==> EmptyDir(s[j.value]))
  }

  /** isdirempty. */
  method IsDirEmpty(n: Node) returns (r: bool)
    ensures r <==> EmptyDir(n)
  {
    var k := 2;
    while k < |n.entries|
      invariant forall i :: 2 <= i < k && i < |n.entries| ==> n.entries[i].inum == 0
    {
      if n.entries[k].inum != 0 {
        return false;
      }
      k := k + 1;
    }
    return true;
  }

  predicate CanRemove(s: Nodes, d: nat, k: nat) {
    d < |s| && k < |s[d].entries| && s[d].entries[k].inum < |s| && s[d].nlink > 0 && s[s[d].entries[k].inum].nlink > 0
  }

  /** The inodes after entry `k` of `d` is cleared and the counts lowered. */
  function Removed(s: Nodes, d: nat, k: nat): Nodes
    requires CanRemove(s, d, k)
  {
    var j := s[d].entries[k].inum;
    if s[j].typ == T_DIR then WithoutDir(s, d, k)
    else s[d := WithEntry(s[d], k, EMPTY)][j := s[j].(nlink := s[j].nlink - 1)]
  }

  /** Removing a name found in a linked directory keeps the counts right, and the name is gone. */
  lemma {:induction false} RemovedOk(s: Nodes, d: nat, k: nat)
    requires LinksOk(s) && d < |s| && Linked(s[d]) && k < |s[d].entries| && s[d].entries[k].inum != 0
    requires s[d].entries[k].name != "." && s[d].entries[k].name != ".."
    requires var j := s[d].entries[k].inum; j < |s| ==> s[j].typ == T_DIR ==> EmptyDir(s[j])
    ensures var j := s[d].entries[k].inum;
            && Live(s, j) && j != d && k >= 2
            && LinksOk(Removed(s, d, k)) && Linked(Removed(s, d, k)[d])
            && Lookup(Removed(s, d, k)[d].entries, s[d].entries[k].name).None?
  {
    var j := s[d].entries[k].inum;
    assert DirOk(s, d) && Live(s, j);
    var es := s[d].entries;
    assert forall i :: 0 <= i < |es| && i != k && es[i].inum != 0 ==> es[i].name != es[k].name;
    if s[j].typ == T_DIR {
      RemovedDirCounts(s, d, k, 1);
      RemovedDir(s, d, k);
    } else {
      RemovedFile(s, d, k);
    }
    hide LinksOk;
    var t := Removed(s, d, k);
    assert t[d].entries == PutEntry(es, k, EMPTY);
    assert forall i :: 0 <= i < |t[d].entries| ==> !Matches(t[d].entries[i], es[k].name);
  }

  /** The end of sys_unlink: the entry is cleared, the counts lowered and both references given back. */
  method Erase(ino: Inodes, dp: nat, ip: nat, place: nat)
    requires ino.Valid() && LinksOk(ino.nodes)
    requires dp < |ino.cache| && ino.cache[dp].ref > 0 && Linked(ino.nodes[ino.cache[dp].inum])
    requires place < |ino.nodes[ino.cache[dp].inum].entries|
    requires ip < |ino.cache| && ino.cache[ip].ref > 0
    requires var e := ino.nodes[ino.cache[dp].inum].entries[place];
             e.inum == ino.cache[ip].inum && e.name != "." && e.name != ".."
             && (ino.nodes[ino.cache[ip].inum].typ == T_DIR ==> EmptyDir(ino.nodes[ino.cache[ip].inum]))
    modifies ino
    ensures ino.Valid() && LinksOk(ino.nodes) && |ino.nodes| == |old(ino.nodes)|
    ensures var d, j, e := old(ino.cache)[dp].inum, old(ino.cache)[ip].inum, old(ino.nodes)[old(ino.cache)[dp].inum].entries[place];
            && GivenBack(old(ino.cache), ino.cache, d, j)
            && Lookup(ino.nodes[d].entries, e.name).None?
            && j != d && CanRemove(old(ino.nodes), d, place) && ino.nodes == AfterPut(Removed(old(ino.nodes), d, place), old(ino.cache)[ip])
  {
    hide LinksOk, Refs, CacheOk, EntriesIn, Lookup, Balanced, GivenBack, EmptyDir, Count;
    ghost var s0, c0 := ino.nodes, ino.cache;
    var d, j := ino.cache[dp].inum, ino.cache[ip].inum;
    RemovedOk(s0, d, place);
    ghost var t := Removed(s0, d, place);
    ClearedIn(s0, d, place);
    ino.nodes := ino.nodes[d := WithEntry(ino.nodes[d], place, EMPTY)];
    ghost var s1 := ino.nodes;
    if ino.nodes[j].typ == T_DIR {
      ino.nodes := ino.nodes[d := ino.nodes[d].(nlink := ino.nodes[d].nlink - 1)];
    }
    EntriesSame(s1, ino.nodes);
    EntriesSame(s1, t);
    ino.Iput(dp);
    ghost var c1 := ino.cache;
    SlotsApart(c0, dp, ip, d, j);
    ino.nodes := ino.nodes[j := ino.nodes[j].(nlink := ino.nodes[j].nlink - 1)];
    assert ino.nodes == t;
    ino.Iput(ip);
    TwoBack(c0, c1, ino.cache, d, j);
    if t[j].nlink == 0 {
      Gone(t, j);
    }
  }

  /** One reference to each of two inodes is given back. */
  ghost predicate GivenBack(c: Slots, c': Slots, d: nat, j: nat) {
    forall i :: Refs(c, i) == Refs(c', i) + (if i == d then 1 else 0) + (if i == j then 1 else 0)
  }

  lemma {:induction false} TwoBack(c0: Slots, c1: Slots, c2: Slots, d: nat, j: nat)
    requires Balanced(c1, c0, d, true) && Balanced(c2, c1, j, true)
    ensures GivenBack(c0, c2, d, j)
  {
    hide Refs;
    forall i ensures Refs(c0, i) == Refs(c2, i) + (if i == d then 1 else 0) + (if i == j then 1 else 0) {
      assert Refs(c0, i) == Refs(c1, i) + if i == d then 1 else 0;
      assert Refs(c1, i) == Refs(c2, i) + if i == j then 1 else 0;
    }
  }

  lemma {:induction false} SlotsApart(c: Slots, dp: nat, ip: nat, d: nat, j: nat)
    requires Holds(c, dp, d) && Holds(c, ip, j) && d != j
    ensures dp != ip
  {
  }

  lemma {:induction false} ClearedIn(s: Nodes, d: nat, k: nat)
    requires EntriesIn(s) && d < |s| && k < |s[d].entries|
    ensures EntriesIn(s[d := WithEntry(s[d], k, EMPTY)])
  {
  }

  lemma {:induction false} EntriesSame(s: Nodes, t: Nodes)
    requires EntriesIn(s) && |t| == |s| && forall i :: 0 <= i < |s| ==> t[i].entries == s[i].entries
    ensures EntriesIn(t)
  {
  }

  /** From `s` to `t` the entry is gone and its inode has one link less; without links and references it is freed. */
  ghost predicate LostLink(s: Nodes, t: Nodes, c: Slots, d: nat, k: nat) {
    && CanRemove(s, d, k) && s[d].entries[k].inum != d
    && var u, j := Removed(s, d, k), s[d].entries[k].inum;
       t == if u[j].nlink == 0 && Refs(c, j) == 0 then u[j := FREE] else u
  }

  /** sys_unlink in the directory it found and locked: remove the name if it may, and give the directory back. */
  method UnlinkFrom(ino: Inodes, dp: nat, name: string) returns (r: Option<int>)
    requires ino.Valid() && LinksOk(ino.nodes) && name != "." && name != ".."
    requires dp < |ino.cache| && ino.cache[dp].ref > 0 && Linked(ino.nodes[ino.cache[dp].inum])
    modifies ino
    ensures var s, d := old(ino.nodes), old(ino.cache)[dp].inum;
            && (r.Some? ==> r.value == if MayRemove(s, d, name) then 0 else -1)
            && (r.Some? ==> ino.Valid() && LinksOk(ino.nodes) && Balanced(ino.cache, old(ino.cache), d, true))
            && (r == Some(-1) ==> ino.nodes == s)
            && (r == Some(0) ==> WithoutName(s, ino.nodes, old(ino.cache), d, name))
    ensures r.None? ==> OutOfRoom(ino.nodes, ino.cache)
  {
    hide LinksOk, Refs, CacheOk, EntriesIn, Sound, Find, Balanced, GivenBack, EmptyDir, Removed, LostLink;
    ghost var s0, c0 := ino.nodes, ino.cache;
    ghost var d := c0[dp].inum;
    OkSound(s0);
    LookupLive(s0, d, name);
    var look := ino.Dirlookup(dp, name);
    if look.NoSlot? {
      return None;
    }
    if look.Absent? {
      ino.Iput(dp);
      return Some(-1);
    }
    var ip := look.slot;
    ghost var c1, j := ino.cache, s0[d].entries[look.place].inum;
    TookOk(c0, c1, ip, j);
    KeepsTook(c0, c1, ip, j);
    var ok := ino.Ilock(ip);
    assert ok;
    ghost var c2 := ino.cache;
    Locked(c1, c2);
    Chain(c0, c1, c2, j);
    var empty := IsDirEmpty(ino.nodes[ino.cache[ip].inum]);
    if ino.nodes[ino.cache[ip].inum].typ == T_DIR && !empty {
      ino.Iput(ip);
      ghost var c3 := ino.cache;
      PutBack(c0, c2, c3, j);
      ino.Iput(dp);
      GaveBack(c0, c3, ino.cache, d);
      return Some(-1);
    }
    FoundIs(s0[d].entries, name, look.place);
    Erase(ino, dp, ip, look.place);
    LastReference(s0, ino.nodes, c0, c1, ip, d, look.place);
    OneBack(c0, c2, ino.cache, d, j);
    return Some(0);
  }

  /** sys_unlink, once its argument is fetched: exactly when it may, the name is gone and its inode has one link less. */
  method SysUnlink(ino: Inodes, path: string, cwd: nat) returns (r: Option<int>)
    requires Ready(ino, cwd)
    modifies ino
    ensures r.Some? ==> ino.Valid() && LinksOk(ino.nodes) && Balanced(old(ino.cache), ino.cache, 0, false)
    ensures var start := if path != "" && path[0] == '/' then ROOTINO else old(ino.cache)[cwd].inum;
            var s, dp := old(ino.nodes), Resolve(old(ino.nodes), start, Elems(path), true);
            && (r.Some? ==> r.value == if MayUnlink(s, start, path) then 0 else -1)
            && (r == Some(-1) ==> ino.nodes == s)
            && (r == Some(0) ==> WithoutName(s, ino.nodes, old(ino.cache), dp.value, LastName(path)))
    ensures r.None? ==> OutOfRoom(ino.nodes, ino.cache)
  {
    hide LinksOk, Resolve, Refs, CacheOk, EntriesIn, Elems, Sound, Balanced, MayRemove, WithoutName;
    ghost var s0, c0 := ino.nodes, ino.cache;
    OkSound(s0);
    var w := ino.Namex(path, true, cwd);
    if w.Panic? {
      return None;
    }
    if w.Missing? {
      return Some(-1);
    }
    ghost var c1 := ino.cache;
    var dp := w.slot;
    ghost var d := ino.cache[dp].inum;
    var ok := ino.Ilock(dp);
    assert ok;
    ghost var c2 := ino.cache;
    Locked(c1, c2);
    Chain(c0, c1, c2, d);
    if w.name == "." || w.name == ".." {
      ino.Iput(dp);
      PutBack(c0, c2, ino.cache, d);
      return Some(-1);
    }
    r := UnlinkFrom(ino, dp, w.name);
    if r.Some? {
      PutBack(c0, c2, ino.cache, d);
    }
    if r == Some(0) {
      HeldBefore(s0, ino.nodes, c0, c2, d, w.name);
    }
  }

  /** From `s` to `t` the name is gone from directory `d`, and so is one link of the inode it led to. */
  ghost predicate WithoutName(s: Nodes, t: Nodes, c: Slots, d: nat, name: string) {
    && d < |s| && d < |t| && Lookup(t[d].entries, name).None?
    && var k := Find(s[d].entries, name, 0);
       k.Some? && LostLink(s, t, c, d, k.value)
  }

  lemma {:induction false} FoundIs(es: seq<Dirent>, name: string, k: nat)
    requires Find(es, name, 0) == Some(k)
    ensures k < |es| && es[k].inum != 0 && es[k].name == name
  {
  }

  lemma {:induction false} HeldBefore(s: Nodes, t: Nodes, c0: Slots, c1: Slots, d: nat, name: string)
    requires Balanced(c0, c1, d, true) && WithoutName(s, t, c1, d, name)
    ensures WithoutName(s, t, c0, d, name)
  {
    hide Refs, Removed;
    var k := Find(s[d].entries, name, 0).value;
    var j := s[d].entries[k].inum;
    assert j != d ==> Refs(c1, j) == Refs(c0, j);
  }

  lemma {:induction false} GaveBack(c0: Slots, c1: Slots, c2: Slots, d: nat)
    requires Balanced(c0, c1, 0, false) && Balanced(c2, c1, d, true)
    ensures Balanced(c2, c0, d, true)
  {
    hide Refs;
    forall i ensures Refs(c0, i) == Refs(c2, i) + if i == d then 1 else 0 {
      assert Refs(c1, i) == Refs(c0, i);
      assert Refs(c1, i) == Refs(c2, i) + if i == d then 1 else 0;
    }
  }

  lemma {:induction false} OneBack(c0: Slots, c1: Slots, c2: Slots, d: nat, j: nat)
    requires Balanced(c0, c1, j, true) && GivenBack(c1, c2, d, j)
    ensures Balanced(c2, c0, d, true)
  {
    hide Refs;
    forall i ensures Refs(c0, i) == Refs(c2, i) + if i == d then 1 else 0 {
      assert Refs(c1, i) == Refs(c0, i) + if i == j then 1 else 0;
    }
  }

  /** The inode of the removed name goes exactly if nobody held it when the call began. */
  lemma {:induction false} LastReference(s: Nodes, t: Nodes, c0: Slots, c1: Slots, ip: nat, d: nat, k: nat)
    requires CanRemove(s, d, k) && s[d].entries[k].inum != d && Took(c0, c1, ip, s[d].entries[k].inum)
    requires t == AfterPut(Removed(s, d, k), c1[ip].(valid := true))
    ensures LostLink(s, t, c0, d, k)
  {
    hide Refs;
    OnlyReference(c0, c1, ip, s[d].entries[k].inum);
  }

  // ----- Creating -----

  /** When create succeeds: the name is free in a directory, or a file is asked for and a file is there. */
  ghost predicate MayCreate(s: Nodes, start: nat, path: string, typ: nat) {
    var dp := Resolve(s, start, Elems(path), true);
    && dp.Some? && dp.value < |s|
    && var j := Lookup(s[dp.value].entries, LastName(path));
       j.Some? ==> j.value < |s| && typ == T_FILE && s[j.value].typ == T_FILE
  }

  lemma {:induction false} EmptyIn(s: Nodes, j: nat, typ: nat)
    requires j < |s| && EntriesIn(s[j := Node(typ, 0, [])])
    ensures EntriesIn(s[j := Node(typ, 1, [])])
  {
    EntriesSame(s[j := Node(typ, 0, [])], s[j := Node(typ, 1, [])]);
  }

  /** The entries . and .. of a new directory, and the link the latter makes. */
  method MakeDots(ino: Inodes, dp: nat, ip: nat)
    requires ino.Valid() && dp < |ino.cache| && ino.cache[dp].ref > 0 && ip < |ino.cache| && ino.cache[ip].ref > 0
    requires ino.cache[ip].inum != ino.cache[dp].inum
    requires ino.nodes[ino.cache[dp].inum].typ == T_DIR
      && ino.nodes[ino.cache[ip].inum].typ == T_DIR && ino.nodes[ino.cache[ip].inum].entries == []
    modifies ino
    ensures ino.Valid() && ino.cache == old(ino.cache)
    ensures var d, j, s := ino.cache[dp].inum, ino.cache[ip].inum, old(ino.nodes);
            ino.nodes == s[d := s[d].(nlink := s[d].nlink + 1)][j := s[j].(entries := [Dirent(j, "."), Dirent(d, "..")])]
  {
    hide CacheOk, EntriesIn, Refs;
    var d, j := ino.cache[dp].inum, ino.cache[ip].inum;
    RaisedIn(ino.nodes, d);
    ino.nodes := Raise(ino.nodes, d);
    var dot := ino.Dirlink(ip, ".", j);
    assert dot.Done?;
    var dots := ino.Dirlink(ip, "..", d);
    assert dots.Done?;
    assert ino.nodes[j].entries == [Dirent(j, "."), Dirent(d, "..")];
  }

  /**
   From `s` to `t` the first free inode became `j`, of type `typ`, and `name` in directory `d` leads to it; a new
   directory holds . and .., and its parent has one link more. Nothing else changed.
   */
  ghost predicate NewNode(s: Nodes, t: Nodes, d: nat, name: string, j: nat, typ: nat) {
    && 0 < j < |s| && s[j].typ == 0 && (forall i :: 0 < i < j ==> s[i].typ != 0)
    && d < |s| && j != d && d < |t| && Lookup(t[d].entries, name) == Some(j)
    && exists k :: 0 <= k <= |s[d].entries| && t == Placed(s, d, k, name, j, typ)
  }

  ghost function Placed(s: Nodes, d: nat, k: nat, name: string, j: nat, typ: nat): Nodes
    requires d < |s| && k <= |s[d].entries| && j < |s|
  {
    if typ == T_DIR then WithDir(s, d, k, name, j) else s[j := Node(typ, 1, [])][d := WithEntry(s[d], k, Dirent(j, name))]
  }

  /** Create's last steps: a new inode, with . and .. if it is a directory, and its name. */
  method MakeNode(ino: Inodes, dp: nat, name: string, typ: nat) returns (r: Option<nat>)
    requires ino.Valid() && LinksOk(ino.nodes) && typ != 0 && |name| <= DIRSIZ
    requires dp < |ino.cache| && ino.cache[dp].ref > 0 && Linked(ino.nodes[ino.cache[dp].inum])
    requires Lookup(ino.nodes[ino.cache[dp].inum].entries, name).None?
    modifies ino
    ensures r.Some? ==>
      && ino.Valid() && LinksOk(ino.nodes) && |ino.nodes| == |old(ino.nodes)|
      && r.value < |ino.cache| && Took(old(ino.cache), ino.cache, r.value, ino.cache[r.value].inum)
      && var d, j := old(ino.cache)[dp].inum, ino.cache[r.value].inum;
         && Linked(ino.nodes[d]) && NewNode(old(ino.nodes), ino.nodes, d, name, j, typ)
    ensures r.None? ==> OutOfRoom(ino.nodes, ino.cache)
  {
    hide LinksOk, OneOver, Refs, CacheOk, EntriesIn, Find;
    ghost var s0, c0 := ino.nodes, ino.cache;
    var d := ino.cache[dp].inum;
    r := ino.Ialloc(typ);
    if r.None? {
      return;
    }
    var ip := r.value;
    var j := ino.cache[ip].inum;
    TookOk(c0, ino.cache, ip, j);
    KeepsTook(c0, ino.cache, ip, j);
    ino.nodes := ino.nodes[j := ino.nodes[j].(nlink := 1)];
    assert ino.nodes == s0[j := Node(typ, 1, [])];
    EmptyIn(s0, j, typ);
    if typ == T_DIR {
      MakeDots(ino, dp, ip);
    } else {
      Created(s0, j, typ);
    }
    ghost var s1 := ino.nodes;
    var link := ino.Dirlink(dp, name, j);
    if !link.Done? {
      return None;
    }
    FoundAgain(s1, d, link.place, name, j);
    assert ino.nodes == Placed(s0, d, link.place, name, j, typ);
    if typ == T_DIR {
      MadeDir(s0, d, link.place, name, j);
    } else {
      Promised(s1, d, link.place, name, j);
    }
  }

  /**
   create: exactly when it may, a reference to the inode that the path then leads to: the file that was
   there, or a new inode of the type asked for. Otherwise nothing changes.
   */
  method Create(ino: Inodes, path: string, typ: nat, cwd: nat) returns (r: Option<Option<nat>>)
    requires Ready(ino, cwd) && typ != 0
    modifies ino
    ensures r.Some? ==> ino.Valid() && LinksOk(ino.nodes) && |ino.nodes| == |old(ino.nodes)|
    ensures r == Some(None) ==> ino.nodes == old(ino.nodes) && Balanced(old(ino.cache), ino.cache, 0, false)
    ensures var start := if path != "" && path[0] == '/' then ROOTINO else old(ino.cache)[cwd].inum;
            var s, dp := old(ino.nodes), Resolve(old(ino.nodes), start, Elems(path), true);
            && (r.Some? ==> (r.value.Some? <==> MayCreate(s, start, path, typ)))
            && (r.Some? && r.value.Some? ==>
                  && r.value.value < |ino.cache| && ino.cache[r.value.value].ref > 0
                  && var j := ino.cache[r.value.value].inum;
                     && Balanced(old(ino.cache), ino.cache, j, true)
                     && (if Lookup(s[dp.value].entries, LastName(path)).Some?
                         then ino.nodes == s && Lookup(s[dp.value].entries, LastName(path)) == Some(j)
                         else NewNode(s, ino.nodes, dp.value, LastName(path), j, typ)))
    ensures r.None? ==> OutOfRoom(ino.nodes, ino.cache)
  {
    hide LinksOk, Resolve, Refs, CacheOk, EntriesIn, Elems, Sound, Find, Balanced;
    ghost var s0, c0 := ino.nodes, ino.cache;
    OkSound(s0);
    var w := ino.Namex(path, true, cwd);
    if w.Panic? {
      return None;
    }
    if w.Missing? {
      return Some(None);
    }
    ghost var c1 := ino.cache;
    var dp := w.slot;
    ghost var d := ino.cache[dp].inum;
    var ok := ino.Ilock(dp);
    ghost var c2 := ino.cache;
    Locked(c1, c2);
    Chain(c0, c1, c2, d);
    assert ok;
    LookupLive(s0, d, w.name);
    var look := ino.Dirlookup(dp, w.name);
    if look.NoSlot? {
      return None;
    }
    if look.Entry? {
      var used := UseExisting(ino, dp, look.slot, typ, c0, c2);
      return Some(used);
    }
    var ip := MakeNode(ino, dp, w.name, typ);
    if ip.None? {
      return None;
    }
    ghost var c3, j := ino.cache, ino.cache[ip.value].inum;
    TookOk(c2, c3, ip.value, j);
    KeepsTook(c2, c3, ip.value, j);
    ino.Iput(dp);
    Exchanged(c0, c2, c3, ino.cache, d, j);
    return Some(ip);
  }

  /** A reference to `d` was exchanged for one to `j`. */
  lemma {:induction false} Exchanged(c0: Slots, c1: Slots, c2: Slots, c3: Slots, d: nat, j: nat)
    requires Balanced(c0, c1, d, true) && Balanced(c1, c2, j, true) && Balanced(c3, c2, d, true)
    ensures Balanced(c0, c3, j, true)
  {
    MovedOn(c1, c2, c3, d, j);
    MoveBalance(c0, c1, c3, d, j);
  }

  // ----- A current directory that has been unlinked -----

  /** The first file system after create("/f"), mkdir("/d") and, from within /d, unlink("/d"). */
  ghost function Orphaned(n: nat): (s: Nodes)
    requires n >= 3
    ensures |s| == n + 2
  {
    var s1 := Placed(Fresh(n), ROOTINO, 2, "f", 2, T_FILE);
    var s2 := Placed(s1, ROOTINO, 3, "d", 3, T_DIR);
    Removed(s2, ROOTINO, 3)
  }

  lemma {:induction false} OrphanedIs(n: nat)
    requires n >= 3
    ensures var s := Orphaned(n);
            && s[0] == FREE && s[2] == Node(T_FILE, 1, []) && s[4] == FREE
            && s[ROOTINO] == Node(T_DIR, 1, [Dirent(1, "."), Dirent(1, ".."), Dirent(2, "f"), EMPTY])
            && s[3] == Node(T_DIR, 0, [Dirent(3, "."), Dirent(1, "..")])
  {
  }

  /**
   Every call so far kept the counts right, and the calls that follow are allowed; but link("/f", "g") and
   mkdir("e") in the orphaned directory leave them wrong.
   */
  lemma {:induction false} OrphanedBreaks(n: nat)
    requires n >= 3
    ensures var s := Orphaned(n);
            && LinksOk(s) && MayLink(s, ROOTINO, 3, "/f", "g") && MayCreate(s, 3, "e", T_DIR)
            && CanLink(s, 3, 2, "g", 2) && CanLink(s, 3, 2, "e", 4)
            && !LinksOk(Raise(s, 2)[3 := WithEntry(s[3], 2, Dirent(2, "g"))])
            && !LinksOk(WithDir(s, 3, 2, "e", 4))
  {
    var s0 := Fresh(n);
    var s1 := Placed(s0, ROOTINO, 2, "f", 2, T_FILE);
    FreshOk(n);
    Created(s0, 2, T_FILE);
    Promised(s0[2 := Node(T_FILE, 1, [])], ROOTINO, 2, "f", 2);
    MadeDir(s1, ROOTINO, 3, "d", 3);
    var s2 := Placed(s1, ROOTINO, 3, "d", 3, T_DIR);
    RemovedDir(s2, ROOTINO, 3);
    OrphanedIs(n);
    var s := Orphaned(n);
    Raised(s, 2);
    LostEntry(Raise(s, 2), 3, 2, "g", 2);
    LostDir(s, 3, 2, "e", 4);
    OrphanedPaths(s);
  }

  lemma {:induction false} OrphanedPaths(s: Nodes)
    requires |s| > 4 && s[2].typ == T_FILE && s[3] == Node(T_DIR, 0, [Dirent(3, "."), Dirent(1, "..")])
    requires s[ROOTINO] == Node(T_DIR, 1, [Dirent(1, "."), Dirent(1, ".."), Dirent(2, "f"), EMPTY])
    ensures MayLink(s, ROOTINO, 3, "/f", "g") && MayCreate(s, 3, "e", T_DIR)
  {
    OneElem("f");
    OneElem("g");
    OneElem("e");
    assert "/f"[1..] == "f";
    assert Elems("/f") == ["f"];
    var es := s[ROOTINO].entries;
    assert Find(es, "f", 2) == Some(2);
    assert Find(es, "f", 1) == Some(2);
    ResolveStep(s, ROOTINO, ["f"], false);
    ResolveStep(s, 2, [], false);
    ResolveStep(s, 3, ["g"], true);
    ResolveStep(s, 3, ["e"], true);
  }

  lemma {:induction false} OneElem(name: string)
    requires |name| == 1 && name != "/"
    ensures Elems(name) == [name] && Trunc(name) == name
  {
    ElemLenIs(name, 1);
    FirstElem(name);
    assert name[..1] == name && name[1..] == "";
    FirstElem("");
  }

  /** Create, when the name is there: the directory is given up, and the inode too unless it is the file asked for. */
  method UseExisting(ino: Inodes, dp: nat, ip: nat, typ: nat, ghost c0: Slots, ghost c1: Slots) returns (r: Option<nat>)
    requires ino.Valid() && dp < |c1| && c1[dp].ref > 0 && CacheOk(c1)
    requires ip < |ino.cache| && Took(c1, ino.cache, ip, ino.cache[ip].inum) && Balanced(c0, c1, c1[dp].inum, true)
    requires Live(ino.nodes, c1[dp].inum) && Live(ino.nodes, ino.cache[ip].inum)
    modifies ino
    ensures ino.Valid() && ino.nodes == old(ino.nodes)
    ensures r.Some? <==> typ == T_FILE && ino.nodes[old(ino.cache)[ip].inum].typ == T_FILE
    ensures r.None? ==> Balanced(c0, ino.cache, 0, false)
    ensures r.Some? ==>
      r.value == ip && Holds(ino.cache, ip, old(ino.cache)[ip].inum) && Balanced(c0, ino.cache, old(ino.cache)[ip].inum, true)
  {
    ghost var c2, d, j := ino.cache, c1[dp].inum, ino.cache[ip].inum;
    TookOk(c1, c2, ip, j);
    KeepsTook(c1, c2, ip, j);
    hide CacheOk, Refs, EntriesIn, Balanced;
    ino.Iput(dp);
    ghost var c3 := ino.cache;
    Exchanged(c0, c1, c2, c3, d, j);
    var ok := ino.Ilock(ip);
    ghost var c4 := ino.cache;
    Locked(c3, c4);
    Chain(c0, c3, c4, j);
    assert ok;
    if typ == T_FILE && ino.nodes[ino.cache[ip].inum].typ == T_FILE {
      return Some(ip);
    }
    ino.Iput(ip);
    PutBack(c0, c4, ino.cache, j);
    return None;
  }
}
