/**
 The pipe. Between two sleeps a process runs with the pipe's lock held, so a run of the system is a
 sequence of lock-holding sections: a writer storing until it is done, asleep or failing, a reader
 taking what is there or falling asleep, a close, or a sleeper made runnable by kill. `Step` says what
 each section does to the pipe as a queue; the class below it does the same on the ring buffer with
 its wrapping 32-bit counters.
 */
module Pipe {
  import opened Blocks

  const PIPESIZE := 512

  /** `readers` sleep on the read counter, `writers` on the write counter. */
  datatype State = State(stored: seq<Byte>, taken: seq<Byte>, readopen: bool, writeopen: bool,
                         readers: set<nat>, writers: set<nat>)

  datatype Event =
    | Write(pid: nat, bytes: seq<Byte>, killed: bool)
    | Read(pid: nat, n: nat, killed: bool)
    | Close(writable: bool)
    | Kill(pid: nat)

  datatype Outcome = Done(count: nat) | Asleep(count: nat) | Failed(count: nat)

  function Min(a: int, b: int): int {
    if a < b then a else b
  }

  function Pending(s: State): int {
    |s.stored| - |s.taken|
  }

  /** How many of its remaining bytes a writer stores in this section. */
  function Accepted(s: State, bytes: seq<Byte>): int {
    Min(|bytes|, PIPESIZE - Pending(s))
  }

  function WriteOutcome(s: State, bytes: seq<Byte>, killed: bool): Outcome
    requires 0 <= Accepted(s, bytes)
  {
    var m := Accepted(s, bytes);
    if m == |bytes| then Done(m) else if !s.readopen || killed then Failed(m) else Asleep(m)
  }

  function WriteStep(s: State, pid: nat, bytes: seq<Byte>, killed: bool): State
    requires 0 <= Pending(s) <= PIPESIZE
  {
    var m := Accepted(s, bytes);
    var s1 := s.(stored := s.stored + bytes[..m]);
    match WriteOutcome(s, bytes, killed)
    case Done(_) => s1.(readers := {})
    case Asleep(_) => s1.(readers := {}, writers := s.writers + {pid})
    case Failed(_) => s1
  }

  function ReadOutcome(s: State, n: nat, killed: bool): Outcome {
    if Pending(s) <= 0 && s.writeopen then (if killed then Failed(0) else Asleep(0))
    else Done(if n < Pending(s) then n else if Pending(s) < 0 then 0 else Pending(s))
  }

  /** The bytes a read section delivers. */
  function Delivered(s: State, n: nat, killed: bool): seq<Byte>
    requires 0 <= Pending(s)
  {
    s.stored[|s.taken|..|s.taken| + ReadOutcome(s, n, killed).count]
  }

  function ReadStep(s: State, pid: nat, n: nat, killed: bool): State
    requires 0 <= Pending(s)
  {
    match ReadOutcome(s, n, killed)
    case Failed(_) => s
    case Asleep(_) => s.(readers := s.readers + {pid})
    case Done(_) => s.(taken := s.taken + Delivered(s, n, killed), writers := {})
  }

  function CloseStep(s: State, writable: bool): State {
    if writable then s.(writeopen := false, readers := {}) else s.(readopen := false, writers := {})
  }

  function Step(s: State, e: Event): State
    requires 0 <= Pending(s) <= PIPESIZE
  {
    match e
    case Write(pid, bytes, killed) => WriteStep(s, pid, bytes, killed)
    case Read(pid, n, killed) => ReadStep(s, pid, n, killed)
    case Close(writable) => CloseStep(s, writable)
    case Kill(pid) => s.(readers := s.readers - {pid}, writers := s.writers - {pid})
  }

  const INITIAL := State([], [], true, true, {}, {})

  // ----- Invariants -----

  /** What has been read is a prefix of what was stored, and at most the buffer size is pending. */
  ghost predicate Fifo(s: State) {
    s.taken <= s.stored && Pending(s) <= PIPESIZE
  }

  /** A sleeping writer waits at a full pipe whose read end is open. */
  ghost predicate WritersWait(s: State) {
    s.writers != {} ==> Pending(s) == PIPESIZE && s.readopen
  }

  /** A sleeping reader waits at an empty pipe whose write end is open. */
  ghost predicate ReadersWait(s: State) {
    s.readers != {} ==> Pending(s) == 0 && s.writeopen
  }

  /**
   The one section that breaks the readers' invariant: a writer that fills the pipe with bytes left
   over and must fail, while readers sleep. It returns without waking them.
   */
  ghost predicate Abandons(s: State, e: Event) {
    e.Write? && |e.bytes| > PIPESIZE - Pending(s) && (e.killed || !s.readopen) && s.readers != {}
  }

  lemma {:induction false} StepFifo(s: State, e: Event)
    requires Fifo(s)
    ensures Fifo(Step(s, e))
    ensures s.stored <= Step(s, e).stored && s.taken <= Step(s, e).taken
  {
  }

  lemma {:induction false} StepWriters(s: State, e: Event)
    requires Fifo(s) && WritersWait(s)
    ensures WritersWait(Step(s, e))
  {
  }

  /** A section keeps the readers' invariant exactly when it is not an abandoning write. */
  lemma {:induction false} StepReaders(s: State, e: Event)
    requires Fifo(s) && ReadersWait(s)
    ensures ReadersWait(Step(s, e)) <==> !Abandons(s, e)
  {
  }

  // ----- Runs -----

  ghost function Run(es: seq<Event>): (s: State)
    ensures Fifo(s) && WritersWait(s)
  {
    if es == [] then INITIAL
    else
      var s := Run(es[..|es| - 1]);
      StepFifo(s, es[|es| - 1]);
      StepWriters(s, es[|es| - 1]);
      Step(s, es[|es| - 1])
  }

  /** All bytes handed to readers in a run, in order. */
  ghost function ReadBack(es: seq<Event>): seq<Byte> {
    if es == [] then []
    else
      var s, e := Run(es[..|es| - 1]), es[|es| - 1];
      ReadBack(es[..|es| - 1]) + (if e.Read? then Delivered(s, e.n, e.killed) else [])
  }

  /** All bytes accepted from writers in a run, in order. */
  ghost function WrittenIn(es: seq<Event>): seq<Byte> {
    if es == [] then []
    else
      var s, e := Run(es[..|es| - 1]), es[|es| - 1];
      WrittenIn(es[..|es| - 1]) + (if e.Write? then e.bytes[..Accepted(s, e.bytes)] else [])
  }

  /** No section of the run abandons sleeping readers. */
  ghost predicate NoneAbandoned(es: seq<Event>) {
    es == [] || (NoneAbandoned(es[..|es| - 1]) && !Abandons(Run(es[..|es| - 1]), es[|es| - 1]))
  }

  /** Over every run the bytes read are a prefix of the bytes written, at most PIPESIZE behind. */
  lemma {:induction false} FirstInFirstOut(es: seq<Event>)
    ensures ReadBack(es) == Run(es).taken && WrittenIn(es) == Run(es).stored
    ensures ReadBack(es) <= WrittenIn(es) && |WrittenIn(es)| - |ReadBack(es)| <= PIPESIZE
  {
    if es != [] {
      FirstInFirstOut(es[..|es| - 1]);
    }
  }

  /** How many bytes a sequence of reads asks for in all. */
  ghost function Asked(rs: seq<Event>): nat {
    if rs == [] then 0 else Asked(rs[..|rs| - 1]) + if rs[|rs| - 1].Read? then rs[|rs| - 1].n else 0
  }

  /** A read takes as many bytes as it asks for, up to what is pending, and stores none. */
  lemma {:induction false} ReadTakes(s: State, e: Event)
    requires Fifo(s) && e.Read?
    ensures Step(s, e).stored == s.stored && |Step(s, e).taken| - |s.taken| == Min(e.n, Pending(s))
  {
  }

  lemma {:induction false} ReadsTake(es: seq<Event>, rs: seq<Event>)
    requires forall e :: e in rs ==> e.Read?
    ensures Run(es + rs).stored == Run(es).stored
    ensures |Run(es + rs).taken| - |Run(es).taken| == Min(Asked(rs), Pending(Run(es)))
  {
    hide Step;
    if rs == [] {
      assert es + rs == es;
    } else {
      var rs0, e := rs[..|rs| - 1], rs[|rs| - 1];
      ReadsTake(es, rs0);
      assert (es + rs)[..|es + rs| - 1] == es + rs0 && (es + rs)[|es + rs| - 1] == e;
      ReadTakes(Run(es + rs0), e);
    }
  }

  /**
   After any run, further reads leave nothing behind exactly when together they ask for as much as
   was pending, and otherwise take just what they ask for.
   */
  lemma {:induction false} ReadsDrain(es: seq<Event>, rs: seq<Event>)
    requires forall e :: e in rs ==> e.Read?
    ensures Asked(rs) >= |WrittenIn(es)| - |ReadBack(es)| <==> ReadBack(es + rs) == WrittenIn(es)
    ensures Asked(rs) <= |WrittenIn(es)| - |ReadBack(es)| ==> |ReadBack(es + rs)| == |ReadBack(es)| + Asked(rs)
  {
    hide Run, ReadBack, WrittenIn, Asked;
    FirstInFirstOut(es);
    FirstInFirstOut(es + rs);
    ReadsTake(es, rs);
  }

  /** Two sleepers of both kinds would need a pipe both full and empty. */
  lemma {:induction false} NeverBothAsleep(s: State)
    requires WritersWait(s) && ReadersWait(s)
    ensures s.readers == {} || s.writers == {}
  {
  }

  /**
   Sleeping readers face an empty pipe with an open write end at every point of a run exactly when
   no section of the run is an abandoning write; readers and writers then never sleep at once.
   */
  lemma {:induction false} ReadersWaitUnlessAbandoned(es: seq<Event>)
    ensures (forall k :: 0 <= k <= |es| ==> ReadersWait(Run(es[..k]))) <==> NoneAbandoned(es)
    ensures NoneAbandoned(es) ==> Run(es).readers == {} || Run(es).writers == {}
  {
    hide Step, Abandons;
    if es != [] {
      var n := |es| - 1;
      var es0 := es[..n];
      ReadersWaitUnlessAbandoned(es0);
      assert forall k :: 0 <= k <= n ==> es0[..k] == es[..k];
      assert es[..|es|] == es;
      if ReadersWait(Run(es0)) {
        StepReaders(Run(es0), es[n]);
      }
      assert es0[..n] == es0;
    }
    if NoneAbandoned(es) {
      assert es[..|es|] == es;
      NeverBothAsleep(Run(es));
    }
  }

  /** A killed writer can leave a reader asleep at a full pipe. */
  lemma {:induction false} KilledWriterAbandonsReader(bytes: seq<Byte>)
    requires |bytes| == PIPESIZE + 1
    ensures var es := [Read(1, 1, false), Write(2, bytes, true)];
            Run(es).readers == {1} && Pending(Run(es)) == PIPESIZE && !ReadersWait(Run(es))
  {
    var e1, e2 := Read(1, 1, false), Write(2, bytes, true);
    assert [e1, e2][..1] == [e1] && [e1][..0] == [];
    assert Run([e1]) == INITIAL.(readers := {1});
    assert Accepted(Run([e1]), bytes) == PIPESIZE;
  }

  // ----- The ring buffer -----

  /** The 32-bit counters distinguish full, empty and neither, even after wrapping around. */
  lemma {:induction false} Counters(nread: nat, nwrite: nat)
    requires nread <= nwrite <= nread + PIPESIZE
    ensures nwrite % UINT_LIMIT == nread % UINT_LIMIT <==> nwrite == nread
    ensures nwrite % UINT_LIMIT == (nread % UINT_LIMIT + PIPESIZE) % UINT_LIMIT <==> nwrite == nread + PIPESIZE
  {
    WrapAdd(nread, PIPESIZE);
    WrapEqual(nread, nwrite);
    WrapEqual(nwrite, nread + PIPESIZE);
  }

  lemma {:induction false} WrapAdd(a: nat, d: nat)
    ensures (a % UINT_LIMIT + d) % UINT_LIMIT == (a + d) % UINT_LIMIT
  {
    var q := a / UINT_LIMIT;
    assert a + d == (a % UINT_LIMIT + d) + q * UINT_LIMIT;
  }

  lemma {:induction false} WrapEqual(a: nat, b: nat)
    requires a <= b < a + UINT_LIMIT
    ensures b % UINT_LIMIT == a % UINT_LIMIT <==> b == a
  {
    var qa, qb := a / UINT_LIMIT, b / UINT_LIMIT;
    assert b - a == (qb - qa) * UINT_LIMIT + (b % UINT_LIMIT - a % UINT_LIMIT);
  }

  lemma {:induction false} SlotUnique(n: nat, q: nat, b: nat)
    requires n == PIPESIZE * q + b && b < PIPESIZE
    ensures n % PIPESIZE == b
  {
  }

  /** PIPESIZE divides 2^32, so a wrapped counter still selects the right slot, and counts on. */
  lemma {:induction false} CounterSlot(n: nat)
    ensures n % UINT_LIMIT % PIPESIZE == n % PIPESIZE
    ensures (n % UINT_LIMIT + 1) % UINT_LIMIT == (n + 1) % UINT_LIMIT
  {
    var r, k := n % UINT_LIMIT, 0x80_0000 * (n / UINT_LIMIT);
    SlotUnique(n, r / PIPESIZE + k, r % PIPESIZE);
    WrapAdd(n, 1);
  }

  class Ring {
    const data: array<Byte>
    var nread: nat
    var nwrite: nat
    var readopen: bool
    var writeopen: bool
    var readers: set<nat>
    var writers: set<nat>
    ghost var stored: seq<Byte>
    ghost var taken: seq<Byte>

    ghost function Abs(): State
      reads this
    {
      State(stored, taken, readopen, writeopen, readers, writers)
    }

    /** The ring holds the pending bytes and the counters count bytes modulo 2^32. */
    ghost predicate Valid()
      reads this, data
    {
      && data.Length == PIPESIZE && Fifo(Abs())
      && nwrite == |stored| % UINT_LIMIT && nread == |taken| % UINT_LIMIT
      && forall i: nat :: |taken| <= i < |stored| ==> data[i % PIPESIZE] == stored[i]
    }

    /** pipealloc's initialisation. */
    constructor ()
      ensures Valid() && fresh(data) && Abs() == INITIAL
    {
      data := new Byte[PIPESIZE];
      nread, nwrite, readopen, writeopen, readers, writers := 0, 0, true, true, {}, {};
      stored, taken := [], [];
    }

    /** A writer's section: store until done, full and asleep, or full and failing. */
    method PipeWrite(pid: nat, bytes: seq<Byte>, killed: bool) returns (r: Outcome)
      requires Valid()
      modifies this, data
      ensures Valid() && Abs() == Step(old(Abs()), Write(pid, bytes, killed))
      ensures r.count <= |bytes| && stored == old(stored) + bytes[..r.count]
      ensures r.Done? <==> |bytes| <= PIPESIZE - (|old(stored)| - |taken|)
      ensures if r.Done? then r.count == |bytes| else |stored| - |taken| == PIPESIZE
      ensures !r.Done? ==> (r.Failed? <==> killed || !readopen)
      ensures readers == if r.Failed? then old(readers) else {}
      ensures writers == old(writers) + if r.Asleep? then {pid} else {}
      ensures taken == old(taken) && readopen == old(readopen) && writeopen == old(writeopen)
    {
      ghost var s0 := Abs();
      var i := 0;
      while i < |bytes|
        invariant 0 <= i <= |bytes| && i <= PIPESIZE - Pending(s0)
        invariant Valid() && Abs() == s0.(stored := s0.stored + bytes[..i])
      {
        Counters(|taken|, |stored|);
        if nwrite == (nread + PIPESIZE) % UINT_LIMIT {
          if !readopen || killed {
            return Failed(i);
          }
          readers := {};
          writers := writers + {pid};
          return Asleep(i);
        }
        StoreByte(bytes[i]);
        assert bytes[..i + 1] == bytes[..i] + [bytes[i]];
        i := i + 1;
      }
      assert bytes[..i] == bytes;
      readers := {};
      return Done(i);
    }

    method StoreByte(b: Byte)
      requires Valid() && Pending(Abs()) < PIPESIZE
      modifies this`nwrite, this`stored, data
      ensures Valid() && stored == old(stored) + [b]
    {
      CounterSlot(|stored|);
      SlotsApart(|taken|, |stored|);
      data[nwrite % PIPESIZE] := b;
      nwrite := (nwrite + 1) % UINT_LIMIT;
      stored := stored + [b];
    }

    method TakeByte() returns (b: Byte)
      requires Valid() && Pending(Abs()) > 0
      modifies this`nread, this`taken
      ensures Valid() && b == stored[|old(taken)|] && taken == old(taken) + [b]
    {
      CounterSlot(|taken|);
      b := data[nread % PIPESIZE];
      nread := (nread + 1) % UINT_LIMIT;
      taken := taken + [b];
    }

    /** A reader's section: fall asleep or fail on an empty open pipe, else deliver what is there. */
    method PipeRead(pid: nat, n: nat, killed: bool) returns (r: Outcome, bytes: seq<Byte>)
      requires Valid()
      modifies this
      ensures Valid() && Abs() == Step(old(Abs()), Read(pid, n, killed))
      ensures r.Done? <==> |old(taken)| < |stored| || !writeopen
      ensures !r.Done? ==> (r.Failed? <==> killed)
      ensures r.count == |bytes| && taken == old(taken) + bytes && bytes <= stored[|old(taken)|..]
      ensures |bytes| <= n && (r.Done? ==> |bytes| == n || taken == stored)
      ensures readers == old(readers) + if r.Asleep? then {pid} else {}
      ensures writers == if r.Done? then {} else old(writers)
      ensures stored == old(stored) && readopen == old(readopen) && writeopen == old(writeopen)
    {
      Counters(|taken|, |stored|);
      if nread == nwrite && writeopen {
        if killed {
          return Failed(0), [];
        }
        readers := readers + {pid};
        return Asleep(0), [];
      }
      ghost var s0 := Abs();
      bytes := Drain(n);
      writers := {};
      return Done(|bytes|), bytes;
    }

    /** The copy loop of piperead. */
    method Drain(n: nat) returns (bytes: seq<Byte>)
      requires Valid()
      modifies this`nread, this`taken
      ensures Valid() && taken == old(taken) + bytes
      ensures |bytes| == Min(n, old(Pending(Abs()))) && bytes == stored[|old(taken)|..|old(taken)| + |bytes|]
    {
      bytes := [];
      while |bytes| < n
        invariant |bytes| <= n && |old(taken)| + |bytes| <= |stored|
        invariant Valid() && taken == old(taken) + bytes
        invariant bytes == stored[|old(taken)|..|old(taken)| + |bytes|]
        decreases n - |bytes|
      {
        Counters(|taken|, |stored|);
        if nread == nwrite {
          return;
        }
        var b := TakeByte();
        bytes := bytes + [b];
      }
    }

    method PipeClose(writable: bool)
      requires Valid()
      modifies this
      ensures Valid() && Abs() == Step(old(Abs()), Close(writable))
      ensures stored == old(stored) && taken == old(taken)
      ensures if writable then !writeopen && readers == {} else !readopen && writers == {}
      ensures if writable then readopen == old(readopen) && writers == old(writers)
              else writeopen == old(writeopen) && readers == old(readers)
    {
      if writable {
        writeopen := false;
        readers := {};
      } else {
        readopen := false;
        writers := {};
      }
    }
  }

  /** The slot for the next byte is not one of the pending bytes' slots. */
  lemma {:induction false} SlotsApart(nread: nat, nwrite: nat)
    requires nread <= nwrite < nread + PIPESIZE
    ensures forall i: nat :: nread <= i < nwrite ==> i % PIPESIZE != nwrite % PIPESIZE
  {
    forall i: nat | nread <= i < nwrite ensures i % PIPESIZE != nwrite % PIPESIZE {
      assert 0 < nwrite - i < PIPESIZE;
    }
  }
}
