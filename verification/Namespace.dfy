/**
 Directories and links (fs.c, sysfile.c): inodes with their link counts, directories as arrays of
 entries, the resolution of paths, and the count of the entries that name an inode.
 */
module Namespace {
  import opened Options
  import opened Paths

  const T_DIR := 1
  const T_FILE := 2
  const ROOTINO := 1

  /** A directory entry; inode number 0 marks an empty slot. */
  datatype Dirent = Dirent(inum: nat, name: string)

  /** An inode; type 0 marks a free one. */
  datatype Node = Node(typ: nat, nlink: nat, entries: seq<Dirent>)

  const EMPTY := Dirent(0, "")
  const FREE := Node(0, 0, [])

  type Nodes = seq<Node>

  /** A directory that has not been unlinked. */
  predicate Linked(n: Node) {
    n.typ == T_DIR && n.nlink > 0
  }

  // ----- Lookup -----

  predicate Matches(e: Dirent, name: string) {
    e.inum != 0 && e.name == name
  }

  /** The first entry from `i` on with the name. */
  function Find(es: seq<Dirent>, name: string, i: nat): (r: Option<nat>)
    requires i <= |es|
    ensures r.Some? ==> i <= r.value < |es| && Matches(es[r.value], name) && forall k :: i <= k < r.value ==> !Matches(es[k], name)
    ensures r.None? ==> forall k :: i <= k < |es| ==> !Matches(es[k], name)
    decreases |es| - i
  {
    if i == |es| then None else if Matches(es[i], name) then Some(i) else Find(es, name, i + 1)
  }

  /** The inode a name leads to in a directory. */
  function Lookup(es: seq<Dirent>, name: string): Option<nat> {
    match Find(es, name, 0)
    case None => None
    case Some(k) => Some(es[k].inum)
  }

  /** The inode that the elements lead to from `start`; with `parent`, the directory of the last element. */
  function Resolve(s: Nodes, start: nat, elems: seq<string>, parent: bool): Option<nat>
    decreases |elems|
  {
    if elems == [] then (if parent then None else Some(start))
    else if start >= |s| || s[start].typ != T_DIR then None
    else if parent && |elems| == 1 then Some(start)
    else
      match Lookup(s[start].entries, Trunc(elems[0]))
      case None => None
      case Some(j) => Resolve(s, j, elems[1..], parent)
  }

  /** A walk goes on from where its first part leads. */
  lemma {:induction false} ResolveThen(s: Nodes, start: nat, a: seq<string>, b: seq<string>, parent: bool)
    requires b != []
    ensures var mid := Resolve(s, start, a, false);
            Resolve(s, start, a + b, parent) == if mid.None? then None else Resolve(s, mid.value, b, parent)
    decreases |a|
  {
    if a == [] {
      assert a + b == b;
    } else {
      assert (a + b)[1..] == a[1..] + b && (a + b)[0] == a[0];
      if start < |s| && s[start].typ == T_DIR && Lookup(s[start].entries, Trunc(a[0])).Some? {
        ResolveThen(s, Lookup(s[start].entries, Trunc(a[0])).value, a[1..], b, parent);
      }
    }
  }

  /**
   What "a/name" leads to is what the name, cut to 14 characters, stands for in the directory a leads
   to, and that directory is its parent.
   */
  lemma {:induction false} PathThen(s: Nodes, start: nat, a: string, name: string)
    requires name != "" && '/' !in name
    ensures var d, path := Resolve(s, start, Elems(a), false), Elems(a + "/" + name);
            if d.Some? && d.value < |s| && s[d.value].typ == T_DIR
            then Resolve(s, start, path, true) == d && Resolve(s, start, path, false) == Lookup(s[d.value].entries, Trunc(name))
            else Resolve(s, start, path, true) == Resolve(s, start, path, false) == None
  {
    hide Elems;
    ElemsJoin(a, name);
    ElemsName(name);
    ResolveThen(s, start, Elems(a), [name], true);
    ResolveThen(s, start, Elems(a), [name], false);
  }

  // ----- Sound directories -----

  /** An inode that an entry may name. */
  predicate Live(s: Nodes, j: nat) {
    0 < j < |s| && s[j].typ != 0 && s[j].nlink > 0
  }

  ghost predicate UniqueNames(es: seq<Dirent>) {
    forall i, k :: 0 <= i < k < |es| && es[i].inum != 0 && es[k].inum != 0 ==> es[i].name != es[k].name
  }

  /** The entries of a linked directory: itself, its parent, then distinct names of live inodes. */
  ghost predicate DirOk(s: Nodes, d: nat)
    requires d < |s|
  {
    Linked(s[d]) ==>
      var es := s[d].entries;
      && |es| >= 2 && es[0] == Dirent(d, ".") && es[1].inum != 0 && es[1].name == ".."
      && UniqueNames(es)
      && forall k :: 0 <= k < |es| && es[k].inum != 0 ==> Live(s, es[k].inum)
  }

  ghost predicate Sound(s: Nodes) {
    && ROOTINO < |s| && Linked(s[ROOTINO]) && s[0].typ == 0
    && forall d: nat :: d < |s| ==> DirOk(s, d)
  }

  /** From a linked directory a path leads to live inodes only. */
  lemma {:induction false} LookupLive(s: Nodes, d: nat, name: string)
    requires Sound(s) && d < |s| && Linked(s[d])
    ensures Lookup(s[d].entries, name).Some? ==> Live(s, Lookup(s[d].entries, name).value)
  {
    assert DirOk(s, d);
  }

  // ----- Counting links -----

  /** How many entries from `k` on name inode `j`. */
  function Count(es: seq<Dirent>, k: nat, j: nat): nat
    decreases |es| - k
  {
    if k >= |es| then 0 else (if es[k].inum == j then 1 else 0) + Count(es, k + 1, j)
  }

  /** Names that a directory gives to `j`, besides . and .. */
  function Names(n: Node, j: nat): nat {
    if Linked(n) then Count(n.entries, 2, j) else 0
  }

  /** 1 if the directory's .. is `j`. */
  function Up(n: Node, j: nat): nat {
    if Linked(n) && |n.entries| > 1 && n.entries[1].inum == j then 1 else 0
  }

  function Named(s: Nodes, j: nat): nat {
    if s == [] then 0 else Named(s[..|s| - 1], j) + Names(s[|s| - 1], j)
  }

  function Dots(s: Nodes, j: nat): nat {
    if s == [] then 0 else Dots(s[..|s| - 1], j) + Up(s[|s| - 1], j)
  }

  lemma {:induction false} NamedUpdate(s: Nodes, d: nat, n: Node, j: nat)
    requires d < |s|
    ensures Named(s[d := n], j) == Named(s, j) - Names(s[d], j) + Names(n, j)
    ensures Names(s[d], j) <= Named(s, j)
  {
    var front, t := s[..|s| - 1], s[d := n];
    if d < |s| - 1 {
      NamedUpdate(front, d, n, j);
      assert t[..|t| - 1] == front[d := n];
    } else {
      assert t[..|t| - 1] == front;
    }
  }

  lemma {:induction false} DotsUpdate(s: Nodes, d: nat, n: Node, j: nat)
    requires d < |s|
    ensures Dots(s[d := n], j) == Dots(s, j) - Up(s[d], j) + Up(n, j)
    ensures Up(s[d], j) <= Dots(s, j)
  {
    var front, t := s[..|s| - 1], s[d := n];
    if d < |s| - 1 {
      DotsUpdate(front, d, n, j);
      assert t[..|t| - 1] == front[d := n];
    } else {
      assert t[..|t| - 1] == front;
    }
  }

  /** Two directories that both name `j` make two names. */
  lemma {:induction false} NamedTwice(s: Nodes, d: nat, e: nat, j: nat)
    requires d < e < |s|
    ensures Names(s[d], j) + Names(s[e], j) <= Named(s, j)
  {
    NamedUpdate(s, d, FREE, j);
    NamedUpdate(s[d := FREE], e, FREE, j);
  }

  // ----- The link-count invariant -----

  /** The link count of an inode is the number of entries that name it, not counting the . entries. */
  ghost predicate CountOk(s: Nodes, j: nat)
    requires j < |s|
  {
    s[j].typ != 0 ==>
      && s[j].nlink == Named(s, j) + Dots(s, j)
      && (if s[j].typ == T_DIR then Named(s, j) <= 1 else Dots(s, j) == 0)
  }

  /** A linked directory other than the root is named by the directory its .. leads to. */
  ghost predicate ParentOk(s: Nodes, c: nat)
    requires c < |s|
  {
    Linked(s[c]) && c != ROOTINO ==>
      && |s[c].entries| > 1
      && var p := s[c].entries[1].inum;
         p < |s| && Linked(s[p]) && NamesEntry(s[p].entries, c)
  }

  ghost predicate NamesEntry(es: seq<Dirent>, c: nat) {
    exists k :: 2 <= k < |es| && es[k].inum == c
  }

  ghost predicate LinksOk(s: Nodes) {
    && Sound(s)
    && |s[ROOTINO].entries| > 1 && s[ROOTINO].entries[1].inum == ROOTINO && Named(s, ROOTINO) == 0
    && (forall j: nat :: j < |s| ==> CountOk(s, j))
    && (forall c: nat :: c < |s| ==> ParentOk(s, c))
  }

  // ----- One entry changes -----

  /** The entries after writing entry `k`, at most one past the end. */
  function PutEntry(es: seq<Dirent>, k: nat, e: Dirent): (r: seq<Dirent>)
    requires k <= |es|
    ensures |r| == if k == |es| then |es| + 1 else |es|
    ensures forall i :: 0 <= i < |r| ==> r[i] == if i == k then e else es[i]
  {
    if k == |es| then es + [e] else es[k := e]
  }

  lemma {:induction false} CountPut(es: seq<Dirent>, i: nat, k: nat, e: Dirent, j: nat)
    requires i <= k <= |es|
    ensures Count(PutEntry(es, k, e), i, j)
      == Count(es, i, j) - (if k < |es| && es[k].inum == j then 1 else 0) + (if e.inum == j then 1 else 0)
    decreases k - i
  {
    var r := PutEntry(es, k, e);
    if i < k {
      CountPut(es, i + 1, k, e, j);
    } else {
      CountSame(es, r, k + 1, j);
    }
  }

  lemma {:induction false} CountSame(es: seq<Dirent>, r: seq<Dirent>, i: nat, j: nat)
    requires |es| <= |r| <= i || |r| == |es|
    requires forall k :: i <= k < |es| ==> r[k] == es[k]
    ensures Count(r, i, j) == Count(es, i, j)
    decreases |es| - i
  {
    if i < |es| {
      CountSame(es, r, i + 1, j);
    }
  }

  // ----- Who is named -----

  lemma {:induction false} CountAt(es: seq<Dirent>, i: nat, k: nat, j: nat)
    requires i <= k < |es| && es[k].inum == j
    ensures Count(es, i, j) >= 1
    decreases k - i
  {
    if i < k {
      CountAt(es, i + 1, k, j);
    }
  }

  lemma {:induction false} CountNone(es: seq<Dirent>, i: nat, j: nat)
    requires forall k :: i <= k < |es| ==> es[k].inum != j
    ensures Count(es, i, j) == 0
    decreases |es| - i
  {
    if i < |es| {
      CountNone(es, i + 1, j);
    }
  }

  /** An entry besides . makes at least one link. */
  lemma {:induction false} EntryLinks(s: Nodes, d: nat, k: nat)
    requires d < |s| && Linked(s[d]) && 1 <= k < |s[d].entries|
    ensures var j := s[d].entries[k].inum; Named(s, j) + Dots(s, j) >= 1 && (k >= 2 ==> Named(s, j) >= 1)
  {
    var j := s[d].entries[k].inum;
    NamedUpdate(s, d, FREE, j);
    DotsUpdate(s, d, FREE, j);
    if k >= 2 {
      CountAt(s[d].entries, 2, k, j);
    }
  }

  lemma {:induction false} NamedNone(s: Nodes, j: nat)
    requires forall d: nat, k: nat :: d < |s| && Linked(s[d]) && 2 <= k < |s[d].entries| ==> s[d].entries[k].inum != j
    ensures Named(s, j) == 0
  {
    if s != [] {
      NamedNone(s[..|s| - 1], j);
      var n := s[|s| - 1];
      if Linked(n) {
        CountNone(n.entries, 2, j);
      }
    }
  }

  lemma {:induction false} DotsNone(s: Nodes, j: nat)
    requires forall d: nat :: d < |s| && Linked(s[d]) && 1 < |s[d].entries| ==> s[d].entries[1].inum != j
    ensures Dots(s, j) == 0
  {
    if s != [] {
      DotsNone(s[..|s| - 1], j);
    }
  }

  /** No entry names an inode that is not live. */
  lemma {:induction false} Unnamed(s: Nodes, j: nat)
    requires Sound(s) && 0 < j && !Live(s, j)
    ensures Named(s, j) == 0 && Dots(s, j) == 0
  {
    forall d: nat, k: nat | d < |s| && Linked(s[d]) && k < |s[d].entries| ensures s[d].entries[k].inum != j {
      assert DirOk(s, d);
    }
    NamedNone(s, j);
    DotsNone(s, j);
  }

  // ----- Linking -----

  /** An inode gets one more name in a directory, at a free place and under a new name. */
  ghost predicate CanLink(s: Nodes, d: nat, k: nat, name: string, j: nat) {
    && d < |s| && s[d].typ == T_DIR && k <= |s[d].entries| && (k < |s[d].entries| ==> s[d].entries[k].inum == 0)
    && (forall i :: 0 <= i < |s[d].entries| ==> !Matches(s[d].entries[i], name))
    && 0 < j < |s| && j != d
  }

  /** The entry added to directory `d`. */
  function WithEntry(n: Node, k: nat, e: Dirent): Node
    requires k <= |n.entries|
  {
    n.(entries := PutEntry(n.entries, k, e))
  }

  /** Links counted right but for inode `j`, which claims one more than it has. */
  ghost predicate OneOver(s: Nodes, j: nat) {
    && Sound(s)
    && |s[ROOTINO].entries| > 1 && s[ROOTINO].entries[1].inum == ROOTINO && Named(s, ROOTINO) == 0
    && 0 < j < |s| && s[j].typ != 0 && s[j].typ != T_DIR && s[j].nlink == Named(s, j) + 1 && Dots(s, j) == 0
    && (forall i: nat :: i < |s| && i != j ==> CountOk(s, i))
    && (forall c: nat :: c < |s| ==> ParentOk(s, c))
  }

  lemma {:induction false} PutUnique(es: seq<Dirent>, k: nat, e: Dirent)
    requires UniqueNames(es) && k <= |es| && (k < |es| ==> es[k].inum == 0)
    requires forall i :: 0 <= i < |es| ==> !Matches(es[i], e.name)
    ensures UniqueNames(PutEntry(es, k, e))
  {
  }

  /** Names and parents of `s` after an entry is added to `d`. */
  lemma {:induction false} AddCounts(s: Nodes, d: nat, k: nat, e: Dirent, i: nat)
    requires Sound(s) && d < |s| && Linked(s[d]) && k <= |s[d].entries| && (k < |s[d].entries| ==> s[d].entries[k].inum == 0) && 0 < i
    ensures k >= 2
    ensures var t := s[d := WithEntry(s[d], k, e)];
            Named(t, i) == Named(s, i) + (if e.inum == i then 1 else 0) && Dots(t, i) == Dots(s, i)
  {
    assert DirOk(s, d);
    var n := WithEntry(s[d], k, e);
    NamedUpdate(s, d, n, i);
    DotsUpdate(s, d, n, i);
    CountPut(s[d].entries, 2, k, e, i);
  }

  lemma {:induction false} AddSound(s: Nodes, d: nat, k: nat, name: string, j: nat)
    requires Sound(s) && CanLink(s, d, k, name, j) && Linked(s[d]) && Live(s, j)
    ensures Sound(s[d := WithEntry(s[d], k, Dirent(j, name))])
  {
    var e := Dirent(j, name);
    var t := s[d := WithEntry(s[d], k, e)];
    AddCounts(s, d, k, e, 1);
    assert DirOk(s, d);
    PutUnique(s[d].entries, k, e);
    forall c: nat | c < |t| ensures DirOk(t, c) {
      assert DirOk(s, c);
    }
  }

  /** The parent of a directory still names it. */
  lemma {:induction false} AddParent(s: Nodes, d: nat, k: nat, e: Dirent, c: nat)
    requires Sound(s) && d < |s| && Linked(s[d]) && k <= |s[d].entries| && (k < |s[d].entries| ==> s[d].entries[k].inum == 0)
    requires c < |s| && ParentOk(s, c)
    ensures ParentOk(s[d := WithEntry(s[d], k, e)], c)
  {
    var t := s[d := WithEntry(s[d], k, e)];
    AddCounts(s, d, k, e, 1);
    assert DirOk(s, c);
    if Linked(s[c]) && c != ROOTINO {
      var p := s[c].entries[1].inum;
      var i :| 2 <= i < |s[p].entries| && s[p].entries[i].inum == c;
      assert t[p].entries[i].inum == c;
    }
  }

  /** The entry that was promised makes the counts right. */
  lemma {:induction false} Promised(s: Nodes, d: nat, k: nat, name: string, j: nat)
    requires OneOver(s, j) && CanLink(s, d, k, name, j) && Linked(s[d])
    ensures LinksOk(s[d := WithEntry(s[d], k, Dirent(j, name))])
  {
    var e := Dirent(j, name);
    var t := s[d := WithEntry(s[d], k, e)];
    AddSound(s, d, k, name, j);
    AddCounts(s, d, k, e, ROOTINO);
    hide Sound, ParentOk, Named, Dots;
    forall i: nat | i < |t| ensures CountOk(t, i) {
      if 0 < i {
        AddCounts(s, d, k, e, i);
        assert i != j ==> CountOk(s, i);
      }
    }
    forall c: nat | c < |t| ensures ParentOk(t, c) {
      AddParent(s, d, k, e, c);
    }
    RootUp(s, t, d, k, e);
  }

  lemma {:induction false} RootUp(s: Nodes, t: Nodes, d: nat, k: nat, e: Dirent)
    requires Sound(s) && d < |s| && Linked(s[d]) && k <= |s[d].entries| && (k < |s[d].entries| ==> s[d].entries[k].inum == 0)
    requires t == s[d := WithEntry(s[d], k, e)] && |s[ROOTINO].entries| > 1
    ensures |t[ROOTINO].entries| > 1 && t[ROOTINO].entries[1] == s[ROOTINO].entries[1]
  {
    AddCounts(s, d, k, e, 1);
  }

  /** sys_link: the count is raised before the entry is there. */
  lemma {:induction false} Raised(s: Nodes, j: nat)
    requires LinksOk(s) && Live(s, j) && s[j].typ != T_DIR
    ensures OneOver(s[j := s[j].(nlink := s[j].nlink + 1)], j)
  {
    var t := s[j := s[j].(nlink := s[j].nlink + 1)];
    SameDirs(s, t, j);
    assert CountOk(s, j);
    forall i: nat | i < |t| && i != j ensures CountOk(t, i) {
      SameDirsCount(s, t, j, i);
      assert CountOk(s, i);
    }
    SameDirsCount(s, t, j, j);
    SameDirsCount(s, t, j, ROOTINO);
  }

  /** A change to an inode that is not, and was not, a linked directory. */
  lemma {:induction false} SameDirsCount(s: Nodes, t: Nodes, j: nat, i: nat)
    requires j < |s| && |t| == |s| && t == s[j := t[j]] && !Linked(s[j]) && !Linked(t[j])
    ensures Named(t, i) == Named(s, i) && Dots(t, i) == Dots(s, i)
  {
    NamedUpdate(s, j, t[j], i);
    DotsUpdate(s, j, t[j], i);
  }

  lemma {:induction false} SameDirs(s: Nodes, t: Nodes, j: nat)
    requires LinksOk(s) && j < |s| && |t| == |s| && t == s[j := t[j]] && !Linked(s[j]) && !Linked(t[j])
    requires (Live(s, j) ==> Live(t, j)) && j != 0
    ensures Sound(t) && (forall c: nat :: c < |t| ==> ParentOk(t, c))
    ensures |t[ROOTINO].entries| > 1 && t[ROOTINO] == s[ROOTINO]
  {
    forall d: nat | d < |t| ensures DirOk(t, d) {
      assert DirOk(s, d);
    }
    forall c: nat | c < |t| ensures ParentOk(t, c) {
      assert ParentOk(s, c);
    }
  }

  // ----- Inodes that come and go -----

  /** create: a new file claims a link before its entry is there. */
  lemma {:induction false} Created(s: Nodes, j: nat, typ: nat)
    requires LinksOk(s) && 0 < j < |s| && s[j].typ == 0 && typ != 0 && typ != T_DIR
    ensures OneOver(s[j := Node(typ, 1, [])], j)
  {
    var t := s[j := Node(typ, 1, [])];
    Unnamed(s, j);
    SameDirs(s, t, j);
    forall i: nat | i < |t| && i != j ensures CountOk(t, i) {
      SameDirsCount(s, t, j, i);
      assert CountOk(s, i);
    }
    SameDirsCount(s, t, j, j);
    SameDirsCount(s, t, j, ROOTINO);
  }

  /** iput: an inode without links goes. */
  lemma {:induction false} Gone(s: Nodes, j: nat)
    requires LinksOk(s) && 0 < j < |s| && s[j].nlink == 0
    ensures LinksOk(s[j := FREE])
  {
    var t := s[j := FREE];
    SameDirs(s, t, j);
    forall i: nat | i < |t| ensures CountOk(t, i) {
      SameDirsCount(s, t, j, i);
      assert CountOk(s, i);
    }
    SameDirsCount(s, t, j, ROOTINO);
  }

  // ----- Unlinking -----

  /** Counts after entry `k` of a directory is cleared. */
  lemma {:induction false} ClearCounts(s: Nodes, d: nat, k: nat, i: nat)
    requires d < |s| && Linked(s[d]) && 2 <= k < |s[d].entries| && 0 < i
    ensures var t := s[d := WithEntry(s[d], k, EMPTY)];
            Named(t, i) == Named(s, i) - (if s[d].entries[k].inum == i then 1 else 0) && Dots(t, i) == Dots(s, i)
  {
    var n := WithEntry(s[d], k, EMPTY);
    NamedUpdate(s, d, n, i);
    DotsUpdate(s, d, n, i);
    CountPut(s[d].entries, 2, k, EMPTY, i);
  }

  /** The counts of `t` are those of `s` with entry `k` of `d` gone, and the entries of linked directories agree. */
  lemma {:induction false} RemovedFile(s: Nodes, d: nat, k: nat)
    requires LinksOk(s) && d < |s| && Linked(s[d]) && 2 <= k < |s[d].entries|
    requires var j := s[d].entries[k].inum; j != 0 && j < |s| && s[j].typ != T_DIR && s[j].nlink > 0
    ensures var j := s[d].entries[k].inum;
            LinksOk(s[d := WithEntry(s[d], k, EMPTY)][j := s[j].(nlink := s[j].nlink - 1)])
  {
    var j := s[d].entries[k].inum;
    var t1 := s[d := WithEntry(s[d], k, EMPTY)];
    var t := t1[j := s[j].(nlink := s[j].nlink - 1)];
    assert DirOk(s, d) && Live(s, j);
    forall i: nat | 0 < i < |t| ensures CountOk(t, i) && Named(t, i) <= Named(s, i) {
      ClearCounts(s, d, k, i);
      SameDirsCount(t1, t, j, i);
      assert CountOk(s, i);
    }
    hide Named, Dots;
    RemovedSound(s, d, k, t);
    forall c: nat | c < |t| ensures ParentOk(t, c) {
      RemovedParent(s, d, k, t, c);
    }
  }

  /** After entry `k` of `d`, a name of `j`, is cleared and the count of `j` lowered, all entries still name live inodes. */
  lemma {:induction false} RemovedSound(s: Nodes, d: nat, k: nat, t: Nodes)
    requires LinksOk(s) && d < |s| && Linked(s[d]) && 2 <= k < |s[d].entries|
    requires var j := s[d].entries[k].inum;
             j != 0 && j < |s| && s[j].typ != T_DIR && s[j].nlink > 0
             && t == s[d := WithEntry(s[d], k, EMPTY)][j := s[j].(nlink := s[j].nlink - 1)]
    requires forall i: nat :: 0 < i < |t| ==> CountOk(t, i)
    ensures Sound(t) && |t[ROOTINO].entries| > 1 && t[ROOTINO].entries[1] == s[ROOTINO].entries[1]
  {
    var j := s[d].entries[k].inum;
    assert DirOk(s, d) && DirOk(s, ROOTINO);
    hide Named, Dots;
    forall c: nat | c < |t| ensures DirOk(t, c) {
      assert DirOk(s, c);
      if Linked(t[c]) {
        var es := t[c].entries;
        forall i | 0 <= i < |es| && es[i].inum != 0 ensures Live(t, es[i].inum) {
          assert Live(s, es[i].inum);
          if i > 0 {
            EntryLinks(t, c, i);
          }
          assert CountOk(t, j);
        }
      }
    }
  }

  lemma {:induction false} RemovedParent(s: Nodes, d: nat, k: nat, t: Nodes, c: nat)
    requires LinksOk(s) && d < |s| && Linked(s[d]) && 2 <= k < |s[d].entries| && c < |s|
    requires var j := s[d].entries[k].inum;
             j != 0 && j < |s| && s[j].typ != T_DIR && s[j].nlink > 0
             && t == s[d := WithEntry(s[d], k, EMPTY)][j := s[j].(nlink := s[j].nlink - 1)]
    ensures ParentOk(t, c)
  {
    assert ParentOk(s, c) && DirOk(s, c);
    if Linked(s[c]) && c != ROOTINO {
      var p := s[c].entries[1].inum;
      var i :| 2 <= i < |s[p].entries| && s[p].entries[i].inum == c;
      assert t[p].entries[i].inum == c;
    }
  }

  // ----- Directories -----

  /** isdirempty: nothing but . and .. */
  predicate EmptyDir(n: Node) {
    forall k :: 2 <= k < |n.entries| ==> n.entries[k].inum == 0
  }

  /** An empty directory has the one link of its name, its parent is the directory of that name, and that one keeps a link. */
  lemma {:induction false} EmptyDirLinks(s: Nodes, d: nat, k: nat)
    requires LinksOk(s) && d < |s| && Linked(s[d]) && 2 <= k < |s[d].entries|
    requires var j := s[d].entries[k].inum; j != 0 && j < |s| && s[j].typ == T_DIR && EmptyDir(s[j])
    ensures var j := s[d].entries[k].inum;
            && j != d && j != ROOTINO && |s[j].entries| > 1 && s[j].entries[1].inum == d
            && s[j].nlink == 1 && Named(s, j) == 1 && Dots(s, j) == 0 && Linked(s[j])
  {
    var j := s[d].entries[k].inum;
    assert DirOk(s, d) && Live(s, j) && DirOk(s, j) && CountOk(s, j) && ParentOk(s, j);
    EntryLinks(s, d, k);
    var p := s[j].entries[1].inum;
    var i :| 2 <= i < |s[p].entries| && s[p].entries[i].inum == j;
    NamedOnce(s, d, k, p, i);
    forall c: nat | c < |s| && Linked(s[c]) && 1 < |s[c].entries| ensures s[c].entries[1].inum != j {
      assert ParentOk(s, c) && DirOk(s, c);
    }
    DotsNone(s, j);
  }

  lemma {:induction false} NamedOnce(s: Nodes, d: nat, k: nat, p: nat, i: nat)
    requires d < |s| && Linked(s[d]) && 2 <= k < |s[d].entries| && p < |s| && Linked(s[p]) && 2 <= i < |s[p].entries|
    requires s[p].entries[i].inum == s[d].entries[k].inum && Named(s, s[d].entries[k].inum) <= 1
    ensures p == d
  {
    var j := s[d].entries[k].inum;
    CountAt(s[d].entries, 2, k, j);
    CountAt(s[p].entries, 2, i, j);
    if d < p {
      NamedTwice(s, d, p, j);
    } else if p < d {
      NamedTwice(s, p, d, j);
    }
  }

  /** A directory with a subdirectory has at least two links. */
  lemma {:induction false} SubdirLinks(s: Nodes, d: nat, j: nat)
    requires LinksOk(s) && d < |s| && Linked(s[d]) && j < |s| && j != d && j != ROOTINO && Linked(s[j])
    requires |s[j].entries| > 1 && s[j].entries[1].inum == d
    ensures s[d].nlink >= 2
  {
    assert CountOk(s, d) && ParentOk(s, d);
    if d == ROOTINO {
      DotsUpdate(s, j, FREE, d);
      DotsUpdate(s[j := FREE], ROOTINO, FREE, d);
    } else {
      EntryLinks(s, j, 1);
      DotsUpdate(s, j, FREE, d);
      var p := s[d].entries[1].inum;
      var i :| 2 <= i < |s[p].entries| && s[p].entries[i].inum == d;
      EntryLinks(s, p, i);
    }
  }

  /** sys_unlink of a directory. */
  function WithoutDir(s: Nodes, d: nat, k: nat): Nodes
    requires d < |s| && k < |s[d].entries| && s[d].entries[k].inum < |s| && s[d].nlink > 0 && s[s[d].entries[k].inum].nlink > 0
  {
    var j := s[d].entries[k].inum;
    s[d := WithEntry(s[d], k, EMPTY).(nlink := s[d].nlink - 1)][j := s[j].(nlink := s[j].nlink - 1)]
  }

  lemma {:induction false} RemovedDirCounts(s: Nodes, d: nat, k: nat, i: nat)
    requires LinksOk(s) && d < |s| && Linked(s[d]) && 2 <= k < |s[d].entries| && 0 < i
    requires var j := s[d].entries[k].inum; j != 0 && j < |s| && s[j].typ == T_DIR && EmptyDir(s[j])
    ensures var j := s[d].entries[k].inum;
            && s[j].nlink == 1 && s[d].nlink >= 2 && j != d && j != ROOTINO
            && var t := WithoutDir(s, d, k);
               && Named(t, i) == Named(s, i) - (if i == j then 1 else 0)
               && Dots(t, i) == Dots(s, i) - (if i == d then 1 else 0)
  {
    var j := s[d].entries[k].inum;
    EmptyDirLinks(s, d, k);
    SubdirLinks(s, d, j);
    var n := WithEntry(s[d], k, EMPTY).(nlink := s[d].nlink - 1);
    NamedUpdate(s, d, n, i);
    DotsUpdate(s, d, n, i);
    CountPut(s[d].entries, 2, k, EMPTY, i);
    var t1, m := s[d := n], s[j].(nlink := s[j].nlink - 1);
    NamedUpdate(t1, j, m, i);
    DotsUpdate(t1, j, m, i);
    CountNone(s[j].entries, 2, i);
  }

  lemma {:induction false} RemovedDir(s: Nodes, d: nat, k: nat)
    requires LinksOk(s) && d < |s| && Linked(s[d]) && 2 <= k < |s[d].entries|
    requires var j := s[d].entries[k].inum; j != 0 && j < |s| && s[j].typ == T_DIR && EmptyDir(s[j])
    ensures s[s[d].entries[k].inum].nlink == 1 && LinksOk(WithoutDir(s, d, k))
  {
    var j := s[d].entries[k].inum;
    EmptyDirLinks(s, d, k);
    RemovedDirCounts(s, d, k, ROOTINO);
    var t := WithoutDir(s, d, k);
    assert t[0] == s[0] by { assert DirOk(s, d); }
    forall i: nat | i < |t| ensures CountOk(t, i) {
      if 0 < i {
        RemovedDirCounts(s, d, k, i);
        assert CountOk(s, i);
      }
    }
    hide Named, Dots;
    RemovedDirSound(s, d, k);
    forall c: nat | c < |t| ensures ParentOk(t, c) {
      RemovedDirParent(s, d, k, c);
    }
  }

  lemma {:induction false} RemovedDirSound(s: Nodes, d: nat, k: nat)
    requires LinksOk(s) && d < |s| && Linked(s[d]) && 2 <= k < |s[d].entries|
    requires var j := s[d].entries[k].inum; j != 0 && j < |s| && s[j].typ == T_DIR && EmptyDir(s[j])
    ensures s[s[d].entries[k].inum].nlink == 1
    ensures var t := WithoutDir(s, d, k);
            Sound(t) && |t[ROOTINO].entries| > 1 && t[ROOTINO].entries[1] == s[ROOTINO].entries[1]
  {
    var j := s[d].entries[k].inum;
    RemovedDirCounts(s, d, k, j);
    EmptyDirLinks(s, d, k);
    var t := WithoutDir(s, d, k);
    assert DirOk(s, d) && DirOk(s, ROOTINO);
    hide Named, Dots;
    forall c: nat | c < |t| ensures DirOk(t, c) {
      assert DirOk(s, c);
      if Linked(t[c]) {
        var es := t[c].entries;
        forall i | 0 <= i < |es| && es[i].inum != 0 ensures Live(t, es[i].inum) {
          assert Live(s, es[i].inum);
          if i > 0 {
            EntryLinks(t, c, i);
          }
        }
      }
    }
  }

  lemma {:induction false} RemovedDirParent(s: Nodes, d: nat, k: nat, c: nat)
    requires LinksOk(s) && d < |s| && Linked(s[d]) && 2 <= k < |s[d].entries| && c < |s|
    requires var j := s[d].entries[k].inum;
             j != 0 && j < |s| && s[j].typ == T_DIR && EmptyDir(s[j]) && s[j].nlink == 1 && j != d && s[d].nlink >= 2
    ensures ParentOk(WithoutDir(s, d, k), c)
  {
    var j := s[d].entries[k].inum;
    var t := WithoutDir(s, d, k);
    assert ParentOk(s, c) && DirOk(s, c);
    if Linked(t[c]) && c != ROOTINO {
      var p := s[c].entries[1].inum;
      var i :| 2 <= i < |s[p].entries| && s[p].entries[i].inum == c;
      assert t[p].entries[i].inum == c;
    }
  }

  /** create, of a directory: the new one holds . and .., and its parent gains a link for the latter. */
  function WithDir(s: Nodes, d: nat, k: nat, name: string, j: nat): Nodes
    requires d < |s| && k <= |s[d].entries| && j < |s|
  {
    s[j := Node(T_DIR, 1, [Dirent(j, "."), Dirent(d, "..")])]
     [d := WithEntry(s[d].(nlink := s[d].nlink + 1), k, Dirent(j, name))]
  }

  lemma {:induction false} MadeDirCounts(s: Nodes, d: nat, k: nat, name: string, j: nat, i: nat)
    requires LinksOk(s) && CanLink(s, d, k, name, j) && Linked(s[d]) && s[j].typ == 0 && 0 < i
    ensures var t := WithDir(s, d, k, name, j);
            && Named(t, i) == Named(s, i) + (if i == j then 1 else 0)
            && Dots(t, i) == Dots(s, i) + (if i == d then 1 else 0)
            && k >= 2
  {
    assert DirOk(s, d);
    var m, e := Node(T_DIR, 1, [Dirent(j, "."), Dirent(d, "..")]), Dirent(j, name);
    NamedUpdate(s, j, m, i);
    DotsUpdate(s, j, m, i);
    var n := WithEntry(s[d].(nlink := s[d].nlink + 1), k, e);
    NamedUpdate(s[j := m], d, n, i);
    DotsUpdate(s[j := m], d, n, i);
    CountPut(s[d].entries, 2, k, e, i);
    CountNone(m.entries, 2, i);
  }

  lemma {:induction false} MadeDir(s: Nodes, d: nat, k: nat, name: string, j: nat)
    requires LinksOk(s) && CanLink(s, d, k, name, j) && Linked(s[d]) && s[j].typ == 0
    ensures LinksOk(WithDir(s, d, k, name, j))
  {
    var t := WithDir(s, d, k, name, j);
    Unnamed(s, j);
    MadeDirCounts(s, d, k, name, j, ROOTINO);
    assert DirOk(s, d) && DirOk(s, ROOTINO);
    forall i: nat | i < |t| ensures CountOk(t, i) {
      if 0 < i {
        MadeDirCounts(s, d, k, name, j, i);
        assert CountOk(s, i);
      }
    }
    hide Named, Dots;
    PutUnique(s[d].entries, k, Dirent(j, name));
    forall c: nat | c < |t| ensures DirOk(t, c) {
      assert DirOk(s, c);
    }
    forall c: nat | c < |t| ensures ParentOk(t, c) {
      MadeDirParent(s, d, k, name, j, c);
    }
  }

  lemma {:induction false} MadeDirParent(s: Nodes, d: nat, k: nat, name: string, j: nat, c: nat)
    requires LinksOk(s) && CanLink(s, d, k, name, j) && Linked(s[d]) && s[j].typ == 0 && c < |s|
    ensures ParentOk(WithDir(s, d, k, name, j), c)
  {
    var t := WithDir(s, d, k, name, j);
    assert ParentOk(s, c) && DirOk(s, c) && DirOk(s, d);
    if c == j {
      assert t[d].entries[k].inum == j;
    } else if Linked(s[c]) && c != ROOTINO {
      var p := s[c].entries[1].inum;
      var i :| 2 <= i < |s[p].entries| && s[p].entries[i].inum == c;
      assert t[p].entries[i].inum == c;
    }
  }

  // ----- Directories that are no longer linked -----

  /**
   An entry added to a directory that has been unlinked is not counted, so the inode it leads to claims one link
   too many: a new name of a file keeps the counts right if and only if its directory is linked.
   */
  lemma {:induction false} LostEntry(s: Nodes, d: nat, k: nat, name: string, j: nat)
    requires OneOver(s, j) && CanLink(s, d, k, name, j)
    ensures LinksOk(s[d := WithEntry(s[d], k, Dirent(j, name))]) <==> Linked(s[d])
  {
    if Linked(s[d]) {
      Promised(s, d, k, name, j);
    } else {
      var t := s[d := WithEntry(s[d], k, Dirent(j, name))];
      SameDirsCount(s, t, d, j);
      assert !CountOk(t, j);
    }
  }

  /**
   So it is with a new directory: the link that its .. makes brings the unlinked directory back to life, which no
   directory names.
   */
  lemma {:induction false} LostDir(s: Nodes, d: nat, k: nat, name: string, j: nat)
    requires LinksOk(s) && CanLink(s, d, k, name, j) && s[j].typ == 0
    ensures LinksOk(WithDir(s, d, k, name, j)) <==> Linked(s[d])
  {
    if Linked(s[d]) {
      MadeDir(s, d, k, name, j);
    } else {
      var t := WithDir(s, d, k, name, j);
      assert Linked(t[d]) && d != ROOTINO;
      if |t[d].entries| < 2 {
        assert !DirOk(t, d);
      } else if t[d].entries[1].inum == d {
        OwnParent(s, d, k, name, j);
      } else {
        NamelessDir(s, d, k, name, j);
      }
    }
  }

  /** A revived directory that is its own parent has one link and is counted twice. */
  lemma {:induction false} OwnParent(s: Nodes, d: nat, k: nat, name: string, j: nat)
    requires CanLink(s, d, k, name, j) && !Linked(s[d]) && !Linked(s[j])
    requires var t := WithDir(s, d, k, name, j); |t[d].entries| > 1 && t[d].entries[1].inum == d
    ensures !CountOk(WithDir(s, d, k, name, j), d)
  {
    var m := Node(T_DIR, 1, [Dirent(j, "."), Dirent(d, "..")]);
    var n := WithEntry(s[d].(nlink := s[d].nlink + 1), k, Dirent(j, name));
    DotsUpdate(s, j, m, d);
    DotsUpdate(s[j := m], d, n, d);
  }

  /** No other directory names a revived directory. */
  lemma {:induction false} NamelessDir(s: Nodes, d: nat, k: nat, name: string, j: nat)
    requires Sound(s) && CanLink(s, d, k, name, j) && !Linked(s[d]) && s[j].typ == 0 && d != ROOTINO
    requires var t := WithDir(s, d, k, name, j); |t[d].entries| > 1 && t[d].entries[1].inum != d
    ensures !ParentOk(WithDir(s, d, k, name, j), d)
  {
    var t := WithDir(s, d, k, name, j);
    var p := t[d].entries[1].inum;
    if p < |t| && Linked(t[p]) && p != j {
      assert DirOk(s, p);
      assert forall i :: 2 <= i < |t[p].entries| ==> t[p].entries[i].inum != d;
    }
  }

  // ----- The first file system -----

  function Frees(n: nat): (r: Nodes)
    ensures |r| == n && forall i :: 0 <= i < n ==> r[i] == FREE
  {
    if n == 0 then [] else Frees(n - 1) + [FREE]
  }

  /** A root directory that names itself twice, and free inodes. */
  function Fresh(n: nat): Nodes {
    [FREE, Node(T_DIR, 1, [Dirent(ROOTINO, "."), Dirent(ROOTINO, "..")])] + Frees(n)
  }

  /** The invariant holds to begin with. */
  lemma {:induction false} FreshOk(n: nat)
    ensures LinksOk(Fresh(n))
    decreases n
  {
    var s := Fresh(n);
    FreshCounts(n, ROOTINO);
    assert DirOk(s, ROOTINO);
    forall d: nat | d < |s| ensures DirOk(s, d) && CountOk(s, d) && ParentOk(s, d) {
      assert d != ROOTINO ==> s[d] == FREE;
    }
  }

  lemma {:induction false} FreshCounts(n: nat, j: nat)
    requires j == ROOTINO
    ensures Named(Fresh(n), j) == 0 && Dots(Fresh(n), j) == 1
    decreases n
  {
    var s := Fresh(n);
    if n == 0 {
      assert s[..1] == [FREE] && s[..1][..0] == [];
      assert Named([FREE], j) == 0 && Dots([FREE], j) == 0;
    } else {
      FreshCounts(n - 1, j);
      assert s[..|s| - 1] == Fresh(n - 1);
    }
  }
}
