/**
 The argument stack that exec builds (exec.c): one user page above a guard page receives the argument
 strings and, below them, what `main` is called with.
 */
module Exec {
  import opened Blocks
  import opened VmState
  import opened VmFree
  import opened Vm

  const MAXARG := 32

  /** How exec ends: an error return, a panic, a stack pointer that wrapped to unmapped memory, or success with this stack pointer. */
  datatype Result = Bad | Panic | Wrapped | Ok(sp: nat)

  // ----- What a program finds at its stack pointer -----

  function UserWord(m: Mem, d: nat, a: nat): nat {
    Word(UserByte(m, d, a), UserByte(m, d, a + 1), UserByte(m, d, a + 2), UserByte(m, d, a + 3))
  }

  /** A NUL-terminated copy of `s` lies at `p`. */
  ghost predicate StringAt(m: Mem, d: nat, p: nat, s: seq<Byte>) {
    && (forall j: nat :: j < |s| ==> UserByte(m, d, p + j) == s[j])
    && UserByte(m, d, p + |s|) == 0
  }

  /** Entry `i` of the argument vector that the stack at `esp` points to. */
  function Arg(m: Mem, d: nat, esp: nat, i: nat): nat {
    UserWord(m, d, UserWord(m, d, esp + 8) + 4 * i)
  }

  /**
   The stack at `esp` holds a return address, argc and argv; argv is a null-terminated vector of pointers
   to copies of the arguments; vector and strings do not overlap and lie in `base..top`.
   */
  ghost predicate Arguments(m: Mem, d: nat, esp: nat, argv: seq<seq<Byte>>, base: nat, top: nat) {
    var n, vec := |argv|, UserWord(m, d, esp + 8);
    && UserWord(m, d, esp) == 0xffff_ffff && UserWord(m, d, esp + 4) == n
    && base <= esp && esp + 12 <= vec
    && Arg(m, d, esp, n) == 0
    && (forall i: nat :: i < n ==> StringAt(m, d, Arg(m, d, esp, i), argv[i]))
    && (forall i: nat :: i < n ==> vec + 4 * (n + 1) <= Arg(m, d, esp, i) && Arg(m, d, esp, i) + |argv[i]| < top)
    && (forall i: nat, j: nat :: i < j < n ==> Arg(m, d, esp, j) + |argv[j]| < Arg(m, d, esp, i))
  }

  /** From `m` to `m'` the first `n` pages and the kernel's are mapped as they were and those hold the same bytes. */
  ghost predicate ImageKept(m: Mem, m': Mem, d: nat, n: nat) {
    && (forall v: nat :: v < n || USER <= v < VPNS ==> Lookup(m', d, v) == Lookup(m, d, v))
    && (forall a: nat :: a < n * PGSIZE ==> UserByte(m', d, a) == UserByte(m, d, a))
  }

  lemma {:induction false} ImageKeptTrans(m0: Mem, m1: Mem, m2: Mem, d: nat, n: nat, n': nat)
    requires ImageKept(m0, m1, d, n) && ImageKept(m1, m2, d, n') && n <= n'
    ensures ImageKept(m0, m2, d, n)
  {
    hide Lookup, UserByte;
  }

  /** Growing beyond the image keeps it. */
  lemma {:induction false} GrownImage(m: Mem, owner: Owners, m': Mem, d: nat, n: nat)
    requires MemOk(m, owner) && IsDir(owner, d) && n + 2 <= USER && Grown(m, owner, m', d, n, n + 2)
    ensures ImageKept(m, m', d, n)
  {
    hide Lookup;
    forall a: nat | a < n * PGSIZE ensures UserByte(m', d, a) == UserByte(m, d, a) {
      var v := a / PGSIZE;
      assert PageOk(m, owner, d, v);
      assert Lookup(m, d, v).Present? ==> SameData(m, m', Lookup(m, d, v).frame);
    }
  }

  lemma {:induction false} ClearedImage(m: Mem, m': Mem, d: nat, n: nat)
    requires m'.data == m.data && n < USER && forall w: nat :: w < VPNS && w != n ==> Lookup(m', d, w) == Lookup(m, d, w)
    ensures ImageKept(m, m', d, n)
  {
    hide Lookup;
  }

  // ----- The stack pointer -----

  function AlignDown(x: int): int {
    x - x % 4
  }

  /** The stack pointer once the first `n` strings are pushed, were it not to wrap. */
  function Sp(top: int, argv: seq<seq<Byte>>, n: nat): int
    requires n <= |argv|
  {
    if n == 0 then top else AlignDown(Sp(top, argv, n - 1) - (|argv[n - 1]| + 1))
  }

  lemma {:induction false} SpMonotone(top: int, argv: seq<seq<Byte>>, i: nat, j: nat)
    requires i <= j <= |argv|
    ensures Sp(top, argv, j) <= Sp(top, argv, i)
  {
    if i < j {
      SpMonotone(top, argv, i, j - 1);
    }
  }

  /** Everything fits in the page below `top`. */
  predicate Fits(top: nat, argv: seq<seq<Byte>>) {
    |argv| <= MAXARG && Sp(top, argv, |argv|) - 4 * (4 + |argv|) >= top - PGSIZE
  }

  /** Bytes that start below the stack page `g + 1` and reach almost up to it touch the guard page `g`. */
  lemma {:induction false} GuardStops(g: nat, a: nat, n: nat)
    requires a % 4 == 0 && a < (g + 1) * PGSIZE && a + n > (g + 1) * PGSIZE - 4
    ensures Covers(a, n, g)
  {
    assert a / PGSIZE <= g;
  }

  /** Bytes of the stack page touch no other page. */
  lemma {:induction false} OnlyStackPage(g: nat, a: nat, n: nat, v: nat)
    requires (g + 1) * PGSIZE <= a && a + n <= (g + 2) * PGSIZE && Covers(a, n, v)
    ensures v == g + 1
  {
    assert a / PGSIZE >= g + 1;
  }

  // ----- Words as bytes -----

  predicate Uints(ws: seq<nat>) {
    forall i :: 0 <= i < |ws| ==> ws[i] < UINT_LIMIT
  }

  /** The bytes of an array of words. */
  function Flat(ws: seq<nat>): (r: seq<Byte>)
    requires Uints(ws)
    ensures |r| == 4 * |ws|
  {
    if ws == [] then [] else Flat(ws[..|ws| - 1]) + WordBytes(ws[|ws| - 1])
  }

  lemma {:induction false} FlatAt(ws: seq<nat>, i: nat)
    requires Uints(ws) && i < |ws|
    ensures Flat(ws)[4 * i..4 * i + 4] == WordBytes(ws[i])
  {
    var front := ws[..|ws| - 1];
    if i < |front| {
      FlatAt(front, i);
      assert Flat(ws)[4 * i..4 * i + 4] == Flat(front)[4 * i..4 * i + 4];
    }
  }

  /** Where the bytes of an array were copied to, its words read back. */
  lemma {:induction false} WordsAt(m: Mem, d: nat, a: nat, ws: seq<nat>, i: nat)
    requires Uints(ws) && i < |ws|
    requires forall b: nat :: a <= b < a + 4 * |ws| ==> UserByte(m, d, b) == Flat(ws)[b - a]
    ensures UserWord(m, d, a + 4 * i) == ws[i]
  {
    FlatAt(ws, i);
    var f, w := Flat(ws), WordBytes(ws[i]);
    assert f[4 * i] == f[4 * i..4 * i + 4][0] == w[0];
    assert f[4 * i + 1] == f[4 * i..4 * i + 4][1] == w[1];
    assert f[4 * i + 2] == f[4 * i..4 * i + 4][2] == w[2];
    assert f[4 * i + 3] == f[4 * i..4 * i + 4][3] == w[3];
  }

  // ----- Building the stack -----

  /** The first `n` strings lie where the stack pointer stopped for each, within the stack page. */
  ghost predicate Pushed(m: Mem, d: nat, g: nat, argv: seq<seq<Byte>>, n: nat, ptrs: seq<nat>) {
    && n <= |argv| && |ptrs| == n
    && Sp((g + 2) * PGSIZE, argv, n) >= (g + 1) * PGSIZE
    && forall i: nat :: i < n ==> ptrs[i] == Sp((g + 2) * PGSIZE, argv, i + 1) && StringAt(m, d, ptrs[i], argv[i])
  }

  lemma {:induction false} StringAbove(m: Mem, m': Mem, d: nat, p: nat, s: seq<Byte>, sp: nat)
    requires StringAt(m, d, p, s) && sp <= p && p + |s| < KERNBASE
    requires forall a: nat :: sp <= a < KERNBASE ==> UserByte(m', d, a) == UserByte(m, d, a)
    ensures StringAt(m', d, p, s)
  {
    hide UserByte;
  }

  lemma {:induction false} StringHere(m': Mem, d: nat, p: nat, s: seq<Byte>)
    requires forall a: nat :: p <= a < p + |s| + 1 ==> UserByte(m', d, a) == (s + [0])[a - p]
    ensures StringAt(m', d, p, s)
  {
    hide UserByte;
    assert UserByte(m', d, p + |s|) == (s + [0])[|s|];
  }

  /** Pushing one more string below the others. */
  lemma {:induction false} PushOne(m: Mem, m': Mem, d: nat, g: nat, argv: seq<seq<Byte>>, n: nat, ptrs: seq<nat>, sp: nat)
    requires n < |argv| && Pushed(m, d, g, argv, n, ptrs) && g + 2 <= USER
    requires sp == Sp((g + 2) * PGSIZE, argv, n + 1) && (g + 1) * PGSIZE <= sp
    requires var s := argv[n] + [0];
             forall a: nat :: a < KERNBASE ==> UserByte(m', d, a) == if sp <= a < sp + |s| then s[a - sp] else UserByte(m, d, a)
    ensures Pushed(m', d, g, argv, n + 1, ptrs + [sp])
  {
    hide UserByte, StringAt, Sp;
    var top := (g + 2) * PGSIZE;
    StringEnd(top, argv, n);
    StringHere(m', d, sp, argv[n]);
    forall i: nat | i < n + 1 ensures (ptrs + [sp])[i] == Sp(top, argv, i + 1) && StringAt(m', d, (ptrs + [sp])[i], argv[i]) {
      if i < n {
        SpMonotone(top, argv, i + 1, n);
        StringEnd(top, argv, i);
        StringAbove(m, m', d, ptrs[i], argv[i], sp + |argv[n]| + 1);
      }
    }
  }

  /** A string and its terminator end at or below where the stack pointer was. */
  lemma {:induction false} StringEnd(top: int, argv: seq<seq<Byte>>, i: nat)
    requires i < |argv|
    ensures Sp(top, argv, i + 1) + |argv[i]| + 1 <= Sp(top, argv, i) <= top
    ensures Sp(top, argv, i + 1) + |argv[i]| + 1 > Sp(top, argv, i) - 4 && Sp(top, argv, i + 1) % 4 == 0
  {
    SpMonotone(top, argv, 0, i);
  }

  /** The loop over the argument strings. */
  method PushStrings(mach: Machine, d: nat, g: nat, argv: seq<seq<Byte>>) returns (r: Result, ptrs: seq<nat>)
    requires mach.Valid() && IsDir(mach.owner, d) && g + 2 < USER && !UserPage(Lookup(mach.M(), d, g)) && DevicesMapped(mach.M(), d)
    modifies mach
    ensures mach.Valid() && mach.starved == old(mach.starved) && mach.owner == old(mach.owner)
    ensures Evolves(old(mach.M()), old(mach.owner), mach.M(), mach.owner, d, {}, false)
    ensures r.Wrapped? ==> Huge((g + 2) * PGSIZE, argv)
    ensures forall w: nat :: w < VPNS ==> Lookup(mach.M(), d, w) == old(Lookup(mach.M(), d, w))
    ensures !r.Panic? && (r.Ok? ==> |argv| <= MAXARG)
    ensures r.Ok? ==> r.sp == Sp((g + 2) * PGSIZE, argv, |argv|) && Pushed(mach.M(), d, g, argv, |argv|, ptrs)
    ensures r.Ok? ==> forall a: nat :: a < (g + 1) * PGSIZE ==> UserByte(mach.M(), d, a) == old(UserByte(mach.M(), d, a))
    ensures UserPage(old(Lookup(mach.M(), d, g + 1))) && Fits((g + 2) * PGSIZE, argv) ==> r.Ok?
  {
    hide MemOk, Frames, Evolves, Lookup, UserByte, UserPage, Covers, StringAt, DevicesMapped;
    var sp := (g + 2) * PGSIZE;
    ghost var m0, top := mach.M(), sp;
    ptrs := [];
    EvolvesRefl(m0, mach.owner, d, false);
    var argc := 0;
    while argc < |argv|
      invariant argc <= |argv| && argc <= MAXARG
      invariant sp == Sp(top, argv, argc) && Pushed(mach.M(), d, g, argv, argc, ptrs)
      invariant mach.Valid() && mach.starved == old(mach.starved) && mach.owner == old(mach.owner)
      invariant Evolves(m0, mach.owner, mach.M(), mach.owner, d, {}, false)
      invariant forall w: nat :: w < VPNS ==> Lookup(mach.M(), d, w) == Lookup(m0, d, w)
      invariant forall a: nat :: a < (g + 1) * PGSIZE ==> UserByte(mach.M(), d, a) == UserByte(m0, d, a)
    {
      SpMonotone(top, argv, argc + 1, |argv|);
      StringEnd(top, argv, argc);
      if argc >= MAXARG {
        return Bad, ptrs;
      }
      if |argv[argc]| + 1 > sp {
        var va := AlignDown(sp - (|argv[argc]| + 1)) + UINT_LIMIT;
        if va < DEVICES * PGSIZE {
          return Wrapped, ptrs;
        }
        // copyout at the wrapped address gives up at its first page
        var page := mach.Uva2ka(d, va / PGSIZE);
        DevicePage(m0, mach.M(), d, va / PGSIZE);
        assert page.None?;
        return Bad, ptrs;
      }
      var next := AlignDown(sp - (|argv[argc]| + 1));
      ghost var m1 := mach.M();
      var ok := mach.Copyout(d, next, argv[argc] + [0]);
      EvolvesTrans(m0, mach.owner, m1, mach.owner, {}, false, mach.M(), mach.owner, {}, false, d, {});
      if !ok {
        if next >= (g + 1) * PGSIZE {
          AllStack(mach.M(), d, g, next, |argv[argc]| + 1);
        }
        return Bad, ptrs;
      }
      if next < (g + 1) * PGSIZE {
        GuardStops(g, next, |argv[argc]| + 1);
        assert false;
      }
      PushOne(m1, mach.M(), d, g, argv, argc, ptrs, next);
      sp := next;
      ptrs := ptrs + [sp];
      argc := argc + 1;
    }
    return Ok(sp), ptrs;
  }

  /** An argument so long that the stack pointer wraps past the device mapping: it goes 32 megabytes below 0. */
  ghost predicate Huge(top: nat, argv: seq<seq<Byte>>) {
    exists n: nat :: n <= |argv| && Sp(top, argv, n) < DEVICES * PGSIZE - UINT_LIMIT
  }

  lemma {:induction false} DevicePage(m0: Mem, m: Mem, d: nat, v: nat)
    requires DevicesMapped(m0, d) && DEVICES <= v < VPNS && forall w: nat :: w < VPNS ==> Lookup(m, d, w) == Lookup(m0, d, w)
    ensures !UserPage(Lookup(m, d, v))
  {
  }

  lemma {:induction false} AllStack(m: Mem, d: nat, g: nat, a: nat, n: nat)
    requires (g + 1) * PGSIZE <= a && a + n <= (g + 2) * PGSIZE
    ensures UserPage(Lookup(m, d, g + 1)) ==> forall v: nat :: Covers(a, n, v) ==> UserPage(Lookup(m, d, v))
  {
    forall v: nat | Covers(a, n, v) ensures v == g + 1 {
      OnlyStackPage(g, a, n, v);
    }
  }

  /** The last words: return address, argc, argv, the pointers and a null. */
  function Vector(sp: nat, ptrs: seq<nat>): seq<nat>
    requires 4 * (|ptrs| + 1) <= sp
  {
    [0xffff_ffff, |ptrs|, sp - (|ptrs| + 1) * 4] + ptrs + [0]
  }

  /** Below the strings the vector is written: from `m` to `m'` only its bytes change. */
  ghost predicate WroteVector(m: Mem, m': Mem, d: nat, sp: nat, ptrs: seq<nat>) {
    && 4 * (4 + |ptrs|) <= sp <= KERNBASE && Uints(Vector(sp, ptrs))
    && var ws, esp := Vector(sp, ptrs), sp - 4 * (4 + |ptrs|);
       forall a: nat :: a < KERNBASE ==> UserByte(m', d, a) == if esp <= a < sp then Flat(ws)[a - esp] else UserByte(m, d, a)
  }

  lemma {:induction false} VectorReads(m: Mem, m': Mem, d: nat, sp: nat, ptrs: seq<nat>)
    requires WroteVector(m, m', d, sp, ptrs)
    ensures var n, esp := |ptrs|, sp - 4 * (4 + |ptrs|);
            && UserWord(m', d, esp) == 0xffff_ffff && UserWord(m', d, esp + 4) == n && UserWord(m', d, esp + 8) == esp + 12
            && Arg(m', d, esp, n) == 0 && forall i: nat :: i < n ==> Arg(m', d, esp, i) == ptrs[i]
  {
    hide UserByte, UserWord, Flat;
    var n, ws, esp := |ptrs|, Vector(sp, ptrs), sp - 4 * (4 + |ptrs|);
    WordsAt(m', d, esp, ws, 0);
    WordsAt(m', d, esp, ws, 1);
    WordsAt(m', d, esp, ws, 2);
    WordsAt(m', d, esp, ws, 3 + n);
    forall i: nat | i < n ensures Arg(m', d, esp, i) == ptrs[i] {
      WordsAt(m', d, esp, ws, 3 + i);
    }
  }

  lemma {:induction false} StringsKept(m: Mem, m': Mem, d: nat, sp: nat, ptrs: seq<nat>, p: nat, s: seq<Byte>)
    requires WroteVector(m, m', d, sp, ptrs) && StringAt(m, d, p, s) && sp <= p && p + |s| < KERNBASE
    ensures StringAt(m', d, p, s)
  {
    hide UserByte, Flat;
  }

  /** The strings and the vector below them are the arguments, as the program will read them. */
  lemma {:induction false} Complete(m: Mem, m': Mem, d: nat, g: nat, argv: seq<seq<Byte>>, ptrs: seq<nat>, sp: nat)
    requires g + 2 <= USER && Pushed(m, d, g, argv, |argv|, ptrs) && WroteVector(m, m', d, sp, ptrs)
    requires sp == Sp((g + 2) * PGSIZE, argv, |argv|) && (g + 1) * PGSIZE <= sp - 4 * (4 + |argv|)
    ensures Arguments(m', d, sp - 4 * (4 + |argv|), argv, (g + 1) * PGSIZE, (g + 2) * PGSIZE)
  {
    hide UserWord, Arg, StringAt, WroteVector, Sp;
    var top, n, esp := (g + 2) * PGSIZE, |argv|, sp - 4 * (4 + |argv|);
    VectorReads(m, m', d, sp, ptrs);
    forall i: nat | i < n
      ensures Arg(m', d, esp, i) == Sp(top, argv, i + 1) && StringAt(m', d, Arg(m', d, esp, i), argv[i])
      ensures sp <= Arg(m', d, esp, i) && Arg(m', d, esp, i) + |argv[i]| < top
    {
      SpMonotone(top, argv, i + 1, n);
      StringEnd(top, argv, i);
      StringsKept(m, m', d, sp, ptrs, ptrs[i], argv[i]);
    }
    forall i: nat, j: nat | i < j < n ensures Arg(m', d, esp, j) + |argv[j]| < Arg(m', d, esp, i) {
      StringEnd(top, argv, j);
      SpMonotone(top, argv, i + 1, j);
    }
  }

  /** The strings, then the vector. */
  method BuildStack(mach: Machine, d: nat, g: nat, argv: seq<seq<Byte>>) returns (r: Result)
    requires mach.Valid() && IsDir(mach.owner, d) && g + 2 < USER && !UserPage(Lookup(mach.M(), d, g)) && DevicesMapped(mach.M(), d)
    modifies mach
    ensures mach.Valid() && mach.starved == old(mach.starved) && mach.owner == old(mach.owner)
    ensures Evolves(old(mach.M()), old(mach.owner), mach.M(), mach.owner, d, {}, false)
    ensures r.Wrapped? ==> Huge((g + 2) * PGSIZE, argv)
    ensures !r.Panic? && (r.Ok? ==> Fits((g + 2) * PGSIZE, argv))
    ensures r.Ok? ==> Arguments(mach.M(), d, r.sp, argv, (g + 1) * PGSIZE, (g + 2) * PGSIZE)
    ensures r.Ok? ==> ImageKept(old(mach.M()), mach.M(), d, g + 1)
    ensures UserPage(old(Lookup(mach.M(), d, g + 1))) && Fits((g + 2) * PGSIZE, argv) ==> r.Ok?
  {
    hide MemOk, Frames, Evolves, Lookup, UserByte, UserPage, Covers, Arguments, Flat, Sp, Pushed, Vector, DevicesMapped, Huge;
    ghost var m0, top := mach.M(), (g + 2) * PGSIZE;
    var ptrs;
    r, ptrs := PushStrings(mach, d, g, argv);
    if !r.Ok? {
      return;
    }
    var sp, argc := r.sp, |argv|;
    VectorWords(mach.M(), d, g, argv, sp, ptrs);
    var ustack := Vector(sp, ptrs);
    var esp := sp - (3 + argc + 1) * 4;
    ghost var m1 := mach.M();
    var ok := mach.Copyout(d, esp, Flat(ustack));
    EvolvesTrans(m0, mach.owner, m1, mach.owner, {}, false, mach.M(), mach.owner, {}, false, d, {});
    if !ok {
      if esp >= (g + 1) * PGSIZE {
        AllStack(mach.M(), d, g, esp, 4 * (4 + argc));
      }
      return Bad;
    }
    if esp < (g + 1) * PGSIZE {
      GuardStops(g, esp, 4 * (4 + argc));
      assert false;
    }
    Complete(m1, mach.M(), d, g, argv, ptrs, sp);
    return Ok(esp);
  }

  lemma {:induction false} VectorWords(m: Mem, d: nat, g: nat, argv: seq<seq<Byte>>, sp: nat, ptrs: seq<nat>)
    requires |argv| <= MAXARG && g + 2 < USER && sp == Sp((g + 2) * PGSIZE, argv, |argv|) && Pushed(m, d, g, argv, |argv|, ptrs)
    ensures (g + 1) * PGSIZE <= sp <= (g + 2) * PGSIZE && sp % 4 == 0
    ensures |ptrs| == |argv| && Uints(Vector(sp, ptrs)) && |Vector(sp, ptrs)| == 4 + |argv|
  {
    hide Sp, StringAt, Uints, Vector;
    var top := (g + 2) * PGSIZE;
    SpMonotone(top, argv, 0, |argv|);
    TopFirst(top, argv);
    assert Uints(ptrs) by {
      PointerUints(top, argv, ptrs);
    }
    if |argv| > 0 {
      StringEnd(top, argv, |argv| - 1);
    }
    VectorUints(sp, ptrs);
  }

  lemma {:induction false} PointerUints(top: nat, argv: seq<seq<Byte>>, ptrs: seq<nat>)
    requires top < UINT_LIMIT && |ptrs| == |argv| && forall i: nat :: i < |argv| ==> ptrs[i] == Sp(top, argv, i + 1)
    ensures Uints(ptrs)
  {
    forall i: nat | i < |argv| ensures ptrs[i] <= top {
      SpMonotone(top, argv, 0, i + 1);
    }
  }

  lemma {:induction false} VectorUints(sp: nat, ptrs: seq<nat>)
    requires Uints(ptrs) && |ptrs| <= MAXARG && PGSIZE <= sp < UINT_LIMIT
    ensures Uints(Vector(sp, ptrs)) && |Vector(sp, ptrs)| == 4 + |ptrs|
  {
  }

  lemma {:induction false} TopFirst(top: int, argv: seq<seq<Byte>>)
    ensures Sp(top, argv, 0) == top
  {
  }

  /**
   exec from the stack allocation to the copy of the vector, for a program loaded into pages 0 up to its
   size. On success the program finds its arguments; an error return has freed the address space, also if a long
   argument wraps the stack pointer into the device mapping. Unless memory runs out or the program is too large,
   it succeeds exactly if everything fits in the stack page.
   */
  method Exec(mach: Machine, d: nat, size: nat, argv: seq<seq<Byte>>) returns (r: Result)
    requires mach.Valid() && IsDir(mach.owner, d) && Contiguous(mach.M(), d, PgUp(size)) && DevicesMapped(mach.M(), d)
    modifies mach
    ensures mach.Valid() && (r.Wrapped? ==> Huge((PgUp(size) + 2) * PGSIZE, argv))
    ensures r.Ok? ==>
      && IsDir(mach.owner, d) && Fits((PgUp(size) + 2) * PGSIZE, argv)
      && Arguments(mach.M(), d, r.sp, argv, (PgUp(size) + 1) * PGSIZE, (PgUp(size) + 2) * PGSIZE)
      && !UserPage(Lookup(mach.M(), d, PgUp(size)))
      && (!mach.starved ==> ImageKept(old(mach.M()), mach.M(), d, PgUp(size)))
    ensures r.Bad? ==> mach.owner == Rest(old(mach.owner), d)
    ensures OthersKept(old(mach.M()), old(mach.owner), mach.M(), mach.owner, d)
    ensures !mach.starved && !r.Panic? ==> Frames(mach.M(), mach.owner) == old(Frames(mach.M(), mach.owner))
    ensures !mach.starved ==> !r.Panic?
    ensures !mach.starved && (PgUp(size) + 2) * PGSIZE < KERNBASE ==>
      (r.Ok? <==> Fits((PgUp(size) + 2) * PGSIZE, argv))
  {
    hide MemOk, Frames, Evolves, Lookup, UserByte, Arguments, OthersKept, Fits, Rest, DevicesMapped, Huge, Allotted, Enough,
      ImageKept, OutOfReach, PgUp, UserPage, Grown;
    ghost var m0, o0 := mach.M(), mach.owner;
    var sz := PgUp(size) * PGSIZE;
    WholePages(PgUp(size));
    ghost var lost;
    sz, lost := mach.Allocuvm(d, sz, sz + 2 * PGSIZE);
    ghost var leaked := lost != {};
    ghost var m1, o1 := mach.M(), mach.owner;
    EvolvesDir(m0, o0, m1, o1, d, {}, leaked);
    if sz == 0 {
      mach.Freevm(d);
      Discarded(m0, o0, m1, o1, mach.M(), mach.owner, d, leaked);
      return Bad;
    }
    ghost var newPages := !mach.starved ==> UserPage(Lookup(m1, d, PgUp(size))) && UserPage(Lookup(m1, d, PgUp(size) + 1));
    assert newPages by {
      if !mach.starved {
        NewStack(m0, o0, m1, d, PgUp(size));
      }
    }
    var ok := mach.Clearpteu(d, PgUp(size));
    ghost var m2, o2 := mach.M(), mach.owner;
    EvolvesStarved(m1, o1, m2, o2, d, {}, leaked);
    EvolvesTrans(m0, o0, m1, o1, {}, leaked, m2, o2, {}, leaked, d, {});
    if !ok {
      EvolvesParts(m0, o0, m2, o2, d, leaked);
      return Panic;
    }
    EvolvesDir(m0, o0, m2, o2, d, {}, leaked);
    DevicesKept(m0, m2, d);
    r := BuildStack(mach, d, PgUp(size), argv);
    ghost var m3, o3 := mach.M(), mach.owner;
    EvolvesStarved(m2, o2, m3, o3, d, {}, leaked);
    EvolvesTrans(m0, o0, m2, o2, {}, leaked, m3, o3, {}, leaked, d, {});
    EvolvesParts(m0, o0, m3, o3, d, leaked);
    if r.Ok? {
      KeptThrough(m0, o0, m1, m2, m3, d, PgUp(size), mach.starved);
    }
    if r.Bad? {
      mach.Freevm(d);
      Discarded(m0, o0, m3, o3, mach.M(), mach.owner, d, leaked);
    }
  }

  lemma {:induction false} WholePages(n: nat)
    ensures PgUp(n * PGSIZE) == n && PgUp(n * PGSIZE + 2 * PGSIZE) == n + 2
  {
  }

  lemma {:induction false} KeptThrough(m0: Mem, o0: Owners, m1: Mem, m2: Mem, m3: Mem, d: nat, n: nat, starved: bool)
    requires MemOk(m0, o0) && IsDir(o0, d) && n + 2 < USER && (!starved ==> Grown(m0, o0, m1, d, n, n + 2))
    requires m2.data == m1.data && forall w: nat :: w < VPNS && w != n ==> Lookup(m2, d, w) == Lookup(m1, d, w)
    requires ImageKept(m2, m3, d, n + 1) && !UserPage(Lookup(m2, d, n))
    ensures !UserPage(Lookup(m3, d, n)) && (!starved ==> ImageKept(m0, m3, d, n))
  {
    hide MemOk, Grown, Lookup, UserByte;
    if !starved {
      GrownImage(m0, o0, m1, d, n);
      ClearedImage(m1, m2, d, n);
      ImageKeptTrans(m0, m1, m2, d, n, n);
      ImageKeptTrans(m0, m2, m3, d, n, n + 1);
    }
  }

  lemma {:induction false} DevicesKept(m0: Mem, m: Mem, d: nat)
    requires DevicesMapped(m0, d) && forall w: nat :: USER <= w < VPNS ==> Lookup(m, d, w) == Lookup(m0, d, w)
    ensures DevicesMapped(m, d)
  {
  }

  lemma {:induction false} NewStack(m: Mem, owner: Owners, m': Mem, d: nat, g: nat)
    requires Grown(m, owner, m', d, g, g + 2)
    ensures UserPage(Lookup(m', d, g)) && UserPage(Lookup(m', d, g + 1))
  {
    assert MapsNew(m', d, g, Zeros(PGSIZE), USER_FLAGS, owner) && MapsNew(m', d, g + 1, Zeros(PGSIZE), USER_FLAGS, owner);
  }

  lemma {:induction false} EvolvesParts(m: Mem, owner: Owners, m': Mem, owner': Owners, d: nat, starved: bool)
    requires Evolves(m, owner, m', owner', d, {}, starved)
    ensures IsDir(owner', d) && OthersKept(m, owner, m', owner', d) && (!starved ==> Frames(m', owner') == Frames(m, owner))
  {
  }

  /** An address space that is given up after all goes with every page it was given. */
  lemma {:induction false} Discarded(m0: Mem, o0: Owners, m1: Mem, o1: Owners, m2: Mem, o2: Owners, d: nat, starved: bool)
    requires Evolves(m0, o0, m1, o1, d, {}, starved) && OthersKept(m1, o1, m2, o2, d)
    requires o2 == Rest(o1, d) && Frames(m2, o2) == Frames(m1, o1)
    ensures o2 == Rest(o0, d) && OthersKept(m0, o0, m2, o2, d) && (!starved ==> Frames(m2, o2) == Frames(m0, o0))
  {
    OthersKeptTrans(m0, o0, m1, o1, m2, o2, d);
    SameRest(m0, o0, m1, o1, d);
    hide MemOk, OthersKept, Frames;
  }

  lemma {:induction false} SameRest(m: Mem, owner: Owners, m': Mem, owner': Owners, d: nat)
    requires OthersKept(m, owner, m', owner', d)
    ensures Rest(owner', d) == Rest(owner, d)
  {
    hide SpaceKept;
  }
}
