/**
 The random number streams (random.c): each step multiplies the seed of one stream modulo 2^31 - 1 in
 two rounds of 16-bit halves, so that every intermediate value fits a signed 32-bit long.
 */
module Random {
  import opened Options

  const M := 0x7fff_ffff
  const MULTONE := 24112
  const MULTTWO := 26143
  const MULT := 630360016   // the two multipliers together
  const STREAMS := 101

  /** A signed 32-bit long: arithmetic on it is checked not to leave its range. */
  newtype long = x: int | -0x8000_0000 <= x < 0x8000_0000

  /** A seed a stream may hold. */
  predicate Seed(z: int) {
    1 <= z < M
  }

  predicate Multiplier(a: int) {
    a == MULTONE || a == MULTTWO
  }

  // ----- One round -----

  /** The product and the value the round folds it to are the same modulo 2^31 - 1. */
  lemma {:induction false} Folded(z: int, a: int, low: int, hi: int)
    requires 0 <= z && 0 <= a
    requires low == z % 65536 * a && hi == z / 65536 * a + low / 65536
    ensures z * a == low % 65536 + hi % 32768 * 65536 + hi / 32768 * (M + 1)
  {
    assert z == z / 65536 * 65536 + z % 65536;
    assert z * a == z / 65536 * a * 65536 + z % 65536 * a;
    assert hi == hi / 32768 * 32768 + hi % 32768;
  }

  lemma {:induction false} ModEq(x: int, y: int, q: int)
    requires x == y + q * M && 0 <= y < M
    ensures x % M == y
  {
  }

  lemma {:induction false} ModProduct(x: int, y: int)
    ensures (x % M) * y % M == x * y % M
  {
    var q := x / M;
    assert x * y == (x % M) * y + q * y * M;
    ModShift((x % M) * y, q * y);
  }

  lemma {:induction false} ModShift(x: int, q: int)
    ensures (x + q * M) % M == x % M
  {
    ModEq(x + q * M, x % M, q + x / M);
  }

  /** The multiplier that undoes `a`. */
  function Inverse(a: int): int
    requires Multiplier(a)
  {
    if a == MULTONE then 836567431 else 1709328968
  }

  /** Multiplying by either multiplier can be undone, so it never makes a seed 0. */
  lemma {:induction false} Invertible(z: int, a: int)
    requires Seed(z) && Multiplier(a)
    ensures (z * a % M) * Inverse(a) % M == z
    ensures Seed(z * a % M)
  {
    var q := if a == MULTONE then 9393 else 20809;
    assert a * Inverse(a) == 1 + q * M;
    assert z * a * Inverse(a) == z + z * q * M;
    ModEq(z * a * Inverse(a), z, z * q);
    ModProduct(z * a, Inverse(a));
  }

  /** One round of the split multiplication. */
  method Round(z: long, a: long) returns (r: long)
    requires Seed(z as int) && Multiplier(a as int)
    ensures r as int == z as int * a as int % M && Seed(r as int)
  {
    var lowprd := z % 65536 * a;
    var hi3l := z / 65536 * a + lowprd / 65536;
    r := (lowprd % 65536 - M as long) + hi3l % 32768 * 65536 + hi3l / 32768;
    Folded(z as int, a as int, lowprd as int, hi3l as int);
    Invertible(z as int, a as int);
    ghost var q := hi3l as int / 32768;
    assert z as int * a as int == r as int + (q + 1) * M;
    if r < 0 {
      r := r + M as long;
      assert z as int * a as int == r as int + q * M;
      ModEq(z as int * a as int, r as int, q);
    } else {
      ModEq(z as int * a as int, r as int, q + 1);
    }
  }

  // ----- Whole runs -----

  function Pow(k: nat): int {
    if k == 0 then 1 else MULT * Pow(k - 1)
  }

  /** The seeds after stream `s` is advanced. */
  function Advance(z: seq<int>, s: int): (r: seq<int>)
    requires |z| == STREAMS
    ensures |r| == STREAMS
  {
    if 0 < s < STREAMS then z[s := z[s] * MULT % M] else z
  }

  /** The seeds after the streams `calls` are advanced in turn. */
  function AdvanceAll(z: seq<int>, calls: seq<int>): (r: seq<int>)
    requires |z| == STREAMS
    ensures |r| == STREAMS
  {
    if calls == [] then z else Advance(AdvanceAll(z, calls[..|calls| - 1]), calls[|calls| - 1])
  }

  function Count(calls: seq<int>, s: int): nat {
    if calls == [] then 0 else Count(calls[..|calls| - 1], s) + if calls[|calls| - 1] == s then 1 else 0
  }

  predicate Seeds(z: seq<int>) {
    |z| == STREAMS && forall s :: 1 <= s < STREAMS ==> Seed(z[s])
  }

  lemma {:induction false} AdvanceOk(z: seq<int>, s: int)
    requires Seeds(z)
    ensures Seeds(Advance(z, s))
  {
    if 0 < s < STREAMS {
      TwoRounds(z[s]);
    }
  }

  lemma {:induction false} TwoRounds(z: int)
    requires Seed(z)
    ensures (z * MULTONE % M) * MULTTWO % M == z * MULT % M && Seed(z * MULT % M)
  {
    Invertible(z, MULTONE);
    Invertible(z * MULTONE % M, MULTTWO);
    ModProduct(z * MULTONE, MULTTWO);
    assert z * MULTONE * MULTTWO == z * MULT;
  }

  /** After any run each stream holds its first seed times a power of the multiplier, and is never 0. */
  lemma {:induction false} EveryRun(z: seq<int>, calls: seq<int>, s: int)
    requires Seeds(z) && 1 <= s < STREAMS
    ensures Seeds(AdvanceAll(z, calls))
    ensures AdvanceAll(z, calls)[s] == z[s] * Pow(Count(calls, s)) % M
  {
    if calls == [] {
      ModEq(z[s], z[s], 0);
    } else {
      var before, c := calls[..|calls| - 1], calls[|calls| - 1];
      EveryRun(z, before, s);
      AdvanceOk(AdvanceAll(z, before), c);
      if c == s {
        var p := Pow(Count(before, s));
        ModProduct(z[s] * p, MULT);
        assert z[s] * p * MULT == z[s] * (MULT * p);
      }
    }
  }

  /** Ten rows of first seeds. */
  function SeedRow(k: nat): (r: seq<int>)
    ensures |r| == 10 && forall i :: 0 <= i < 10 ==> Seed(r[i])
  {
    if k == 0 then
      [1973272912, 281629770, 20006270, 1280689831, 2096730329, 1933576050, 913566091, 246780520, 1363774876, 604901985]
    else if k == 1 then
      [1511192140, 1259851944, 824064364, 150493284, 242708531, 75253171, 1964472944, 1202299975, 233217322, 1911216000]
    else if k == 2 then
      [726370533, 403498145, 993232223, 1103205531, 762430696, 1922803170, 1385516923, 76271663, 413682397, 726466604]
    else if k == 3 then
      [336157058, 1432650381, 1120463904, 595778810, 877722890, 1046574445, 68911991, 2088367019, 748545416, 622401386]
    else if k == 4 then
      [2122378830, 640690903, 1774806513, 2132545692, 2079249579, 78130110, 852776735, 1187867272, 1351423507, 1645973084]
    else if k == 5 then
      [1997049139, 922510944, 2045512870, 898585771, 243649545, 1004818771, 773686062, 403188473, 372279877, 1901633463]
    else if k == 6 then
      [498067494, 2087759558, 493157915, 597104727, 1530940798, 1814496276, 536444882, 1663153658, 855503735, 67784357]
    else if k == 7 then
      [1432404475, 619691088, 119025595, 880802310, 176192644, 1116780070, 277854671, 1366580350, 1142483975, 2026948561]
    else if k == 8 then
      [1053920743, 786262391, 1792203830, 1494667770, 1923011392, 1433700034, 1244184613, 1147297105, 539712780, 1545929719]
    else
      [190641742, 1645390429, 264907697, 620389253, 1502074852, 927711160, 364849192, 2049576050, 638580085, 547070247]
  }

  /** The table the generator starts with, up to row `n`; stream 0 is not used. */
  function FirstSeeds(n: nat): (r: seq<int>)
    ensures |r| == 1 + 10 * n && forall s :: 1 <= s < |r| ==> Seed(r[s])
  {
    if n == 0 then [0] else FirstSeeds(n - 1) + SeedRow(n - 1)
  }

  class Generator {
    var seed: int            // the stream last asked for
    var zrng: seq<int>
    ghost var first: seq<int>
    ghost var calls: seq<int>

    ghost predicate Valid()
      reads this
    {
      Seeds(first) && Seeds(zrng) && zrng == AdvanceAll(first, calls)
    }

    constructor ()
      ensures Valid() && seed == 0 && zrng == first == FirstSeeds(10) && calls == []
    {
      var table := FirstSeeds(10);
      seed, zrng, first, calls := 0, table, table, [];
    }

    /** The step both system calls share. */
    method Step()
      requires Valid() && 0 < seed < STREAMS
      modifies this`zrng, this`calls
      ensures Valid() && calls == old(calls) + [seed]
    {
      var zi := zrng[seed] as long;
      zi := Round(zi, MULTONE as long);
      zi := Round(zi, MULTTWO as long);
      TwoRounds(zrng[seed]);
      AdvanceOk(zrng, seed);
      zrng := zrng[seed := zi as int];
      calls := calls + [seed];
    }

    /** sys_random, up to the value it returns. */
    method Random()
      requires Valid()
      modifies this
      ensures Valid() && first == old(first)
      ensures seed == if old(seed) <= 0 then 0 else old(seed)
      ensures calls == if 0 < seed < STREAMS then old(calls) + [seed] else old(calls)
    {
      if seed <= 0 {
        seed := 0;
      }
      if seed > 0 && seed < STREAMS {
        Step();
      }
    }

    /** sys_random_set: select a stream and advance it. `arg` is the argument, if it can be fetched. */
    method RandomSet(arg: Option<int>) returns (r: int)
      requires Valid()
      modifies this
      ensures Valid() && first == old(first) && seed == if arg.Some? then arg.value else old(seed)
      ensures r == if arg.Some? && 0 < seed < STREAMS then 0 else -1
      ensures calls == if r == 0 then old(calls) + [seed] else old(calls)
    {
      if arg.None? {
        return -1;
      }
      seed := arg.value;
      if seed > 0 && seed < STREAMS {
        Step();
        return 0;
      }
      return -1;
    }
  }
}
