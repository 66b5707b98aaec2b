/** Path names (fs.c): the elements of a path, and how skipelem takes them off one at a time. */
module Paths {
  import opened Options

  const DIRSIZ := 14

  /** A name as a directory entry keeps it. */
  function Trunc(name: string): (r: string)
    ensures |r| <= DIRSIZ && r <= name && (r == name || |r| == DIRSIZ)
  {
    if |name| >= DIRSIZ then name[..DIRSIZ] else name
  }

  /** The length of the element at the beginning of a path. */
  function ElemLen(path: string): (n: nat)
    ensures n <= |path| && (forall i :: 0 <= i < n ==> path[i] != '/') && (n < |path| ==> path[n] == '/')
  {
    if path == "" || path[0] == '/' then 0 else 1 + ElemLen(path[1..])
  }

  /** The parts between slashes, without the empty ones. */
  function Elems(path: string): seq<string>
    decreases |path|
  {
    if path == "" then []
    else if path[0] == '/' then Elems(path[1..])
    else [path[..ElemLen(path)]] + Elems(path[ElemLen(path)..])
  }

  /** Leading slashes do not matter. */
  lemma {:induction false} ElemsSlashes(path: string, k: nat)
    requires k <= |path| && forall i :: 0 <= i < k ==> path[i] == '/'
    ensures Elems(path[k..]) == Elems(path)
  {
    if k > 0 {
      ElemsSlashes(path[1..], k - 1);
      assert path[1..][k - 1..] == path[k..];
    } else {
      assert path[0..] == path;
    }
  }

  /** An element ends where the run without slashes does. */
  lemma {:induction false} ElemLenIs(path: string, n: nat)
    requires n <= |path| && (forall i :: 0 <= i < n ==> path[i] != '/') && (n < |path| ==> path[n] == '/')
    ensures ElemLen(path) == n
  {
    if n > 0 {
      ElemLenIs(path[1..], n - 1);
    }
  }

  /** The loop over slashes before and after an element. */
  method SkipSlashes(path: string, i: nat) returns (s: nat)
    requires i <= |path|
    ensures i <= s <= |path| && Elems(path[s..]) == Elems(path[i..]) && (s < |path| ==> path[s] != '/')
  {
    s := i;
    while s < |path| && path[s] == '/'
      invariant i <= s <= |path| && forall k :: i <= k < s ==> path[k] == '/'
    {
      s := s + 1;
    }
    ElemsSlashes(path[i..], s - i);
    assert path[i..][s - i..] == path[s..];
  }

  /** The loop over the characters of an element. */
  method SkipName(path: string, s: nat) returns (e: nat)
    requires s < |path| && path[s] != '/'
    ensures s < e <= |path| && e - s == ElemLen(path[s..])
  {
    e := s;
    while e < |path| && path[e] != '/'
      invariant s <= e <= |path| && forall k :: s <= k < e ==> path[k] != '/'
    {
      e := e + 1;
    }
    ElemLenIs(path[s..], e - s);
  }

  /** skipelem: the first element, cut to what an entry keeps, and the path after it without leading slashes. */
  method Skipelem(path: string) returns (r: Option<(string, string)>)
    ensures r.None? <==> Elems(path) == []
    ensures r.Some? ==>
      && Elems(path) != [] && r.value.0 == Trunc(Elems(path)[0]) && Elems(r.value.1) == Elems(path)[1..]
      && |r.value.1| < |path| && (r.value.1 == "" <==> Elems(r.value.1) == [])
  {
    hide Elems, ElemLen;
    var s := SkipSlashes(path, 0);
    assert path[0..] == path;
    FirstElem(path[s..]);
    if s == |path| {
      return None;
    }
    var e := SkipName(path, s);
    var len := e - s;
    var name := if len >= DIRSIZ then path[s..s + DIRSIZ] else path[s..e];
    assert path[s..][..len] == path[s..e] && path[s..][len..] == path[e..];
    assert name == Trunc(path[s..e]);
    var t := SkipSlashes(path, e);
    FirstElem(path[t..]);
    return Some((name, path[t..]));
  }

  /** A path that does not begin with a slash begins with an element. */
  lemma {:induction false} FirstElem(path: string)
    ensures path == "" ==> Elems(path) == []
    ensures path != "" && path[0] != '/' ==>
      0 < ElemLen(path) && Elems(path) == [path[..ElemLen(path)]] + Elems(path[ElemLen(path)..])
  {
  }

  /** A part without slashes is one element; slashes around it add none. */
  lemma {:induction false} ElemsName(name: string)
    requires name != "" && '/' !in name
    ensures Elems(name) == [name]
  {
    ElemLenIs(name, |name|);
    assert name[..|name|] == name && name[|name|..] == "";
  }

  /** A slash separates: the elements of a joined path are those of its two halves. */
  lemma {:induction false} ElemsJoin(a: string, b: string)
    ensures Elems(a + "/" + b) == Elems(a) + Elems(b)
    decreases |a|
  {
    var path := a + "/" + b;
    if a == "" {
      assert path[1..] == b;
    } else if a[0] == '/' {
      assert path[1..] == a[1..] + "/" + b;
      ElemsJoin(a[1..], b);
    } else {
      var n := ElemLen(a);
      ElemLenIs(path, n);
      assert path[..n] == a[..n] && path[n..] == a[n..] + "/" + b;
      ElemsJoin(a[n..], b);
    }
  }
}
