/** A pipe's ring buffer with its 32-bit counters, as steps of one byte. */
module PipeModel {
  import opened Wrappers

  const PIPESIZE: nat := 512

  type Byte = nat

  /** `written` and `taken` are all bytes ever put into and taken out of the
      ring; the code keeps only their lengths, modulo 2^32. */
  datatype Pipe = Pipe(data: seq<Byte>, nread: nat, nwrite: nat, readopen: bool, writeopen: bool,
                       written: seq<Byte>, taken: seq<Byte>)

  ghost predicate Inv(p: Pipe) {
    && |p.data| == PIPESIZE
    && p.nread == |p.taken| % UINT && p.nwrite == |p.written| % UINT
    && p.taken <= p.written && |p.written| - |p.taken| <= PIPESIZE
    && forall k :: |p.taken| <= k < |p.written| ==> p.data[k % PIPESIZE] == p.written[k]
  }

  predicate Full(p: Pipe) { p.nwrite == (p.nread + PIPESIZE) % UINT }

  predicate Empty(p: Pipe) { p.nread == p.nwrite }

  function Put(p: Pipe, b: Byte): Pipe
    requires |p.data| == PIPESIZE
  {
    p.(data := p.data[p.nwrite % PIPESIZE := b], nwrite := (p.nwrite + 1) % UINT, written := p.written + [b])
  }

  function Get(p: Pipe): Pipe
    requires |p.data| == PIPESIZE
  {
    p.(nread := (p.nread + 1) % UINT, taken := p.taken + [p.data[p.nread % PIPESIZE]])
  }

  function Close(p: Pipe, writable: bool): Pipe {
    if writable then p.(writeopen := false) else p.(readopen := false)
  }

  datatype Step = PutStep(b: Byte) | GetStep | CloseStep(writable: bool)

  /** pipealloc. */
  ghost predicate Init(p: Pipe) {
    |p.data| == PIPESIZE && p.nread == p.nwrite == 0 && p.readopen && p.writeopen && p.written == p.taken == []
  }

  /** A pipe with both ends closed is freed, so it takes no more steps. */
  ghost predicate Next(p: Pipe, step: Step, p': Pipe) {
    && |p.data| == PIPESIZE && (p.readopen || p.writeopen)
    && match step
       case PutStep(b) => p.readopen && !Full(p) && p' == Put(p, b)
       case GetStep => !Empty(p) && p' == Get(p)
       case CloseStep(writable) => p' == Close(p, writable)
  }

  lemma SlotMultiple(n: nat, q: nat)
    ensures (PIPESIZE * q + n) % PIPESIZE == n % PIPESIZE
  {
  }

  lemma SlotOf(n: nat)
    ensures (n % UINT) % PIPESIZE == n % PIPESIZE
  {
    var q, r := n / UINT, n % UINT;
    assert n == PIPESIZE * (0x80_0000 * q) + r;
    SlotMultiple(r, 0x80_0000 * q);
  }

  lemma SlotsApart(i: nat, j: nat)
    requires i < j < i + PIPESIZE
    ensures i % PIPESIZE != j % PIPESIZE
  {
  }

  lemma WrapAdd(n: nat, m: nat)
    ensures (n % UINT + m) % UINT == (n + m) % UINT
  {
    assert n == UINT * (n / UINT) + n % UINT;
    WrapMultiple(n % UINT + m, n / UINT);
  }

  lemma WrapMultiple(n: nat, q: nat)
    ensures (UINT * q + n) % UINT == n % UINT
  {
  }

  lemma WrapEqual(n: nat, d: nat, e: nat)
    requires d <= PIPESIZE && e <= PIPESIZE
    ensures (n + d) % UINT == (n + e) % UINT <==> d == e
  {
  }

  /** The counters' wrapped comparisons tell empty and full exactly. */
  lemma TestsAreExact(p: Pipe)
    requires Inv(p)
    ensures Full(p) <==> |p.written| - |p.taken| == PIPESIZE
    ensures Empty(p) <==> p.written == p.taken
  {
    var d := |p.written| - |p.taken|;
    WrapAdd(|p.taken|, PIPESIZE);
    WrapEqual(|p.taken|, d, PIPESIZE);
    WrapEqual(|p.taken|, d, 0);
    assert d == 0 ==> p.taken == p.written[..|p.taken|] == p.written;
  }

  lemma PutInv(p: Pipe, b: Byte)
    requires Inv(p) && !Full(p)
    ensures Inv(Put(p, b))
  {
    TestsAreExact(p);
    SlotOf(|p.written|);
    WrapAdd(|p.written|, 1);
    var p' := Put(p, b);
    forall k | |p'.taken| <= k < |p'.written| ensures p'.data[k % PIPESIZE] == p'.written[k] {
      if k < |p.written| {
        SlotsApart(k, |p.written|);
      }
    }
  }

  lemma GetInv(p: Pipe)
    requires Inv(p) && !Empty(p)
    ensures Inv(Get(p)) && Get(p).taken == p.written[..|p.taken| + 1]
  {
    TestsAreExact(p);
    SlotOf(|p.taken|);
    WrapAdd(|p.taken|, 1);
    assert p.data[|p.taken| % PIPESIZE] == p.written[|p.taken|];
  }

  ghost predicate Run(pipes: seq<Pipe>, steps: seq<Step>) {
    && |pipes| == |steps| + 1 && Init(pipes[0])
    && forall i :: 0 <= i < |steps| ==> StepAt(pipes, steps, i)
  }

  ghost predicate StepAt(pipes: seq<Pipe>, steps: seq<Step>, i: nat)
    requires |pipes| == |steps| + 1 && i < |steps|
  {
    Next(pipes[i], steps[i], pipes[i + 1])
  }

  /** FIFO over every interleaving: the bytes taken are a prefix of the bytes
      written, at most PIPESIZE behind, however often the counters wrap. */
  lemma {:induction false} Fifo(pipes: seq<Pipe>, steps: seq<Step>, i: nat)
    requires Run(pipes, steps) && i < |pipes|
    ensures Inv(pipes[i])
    ensures pipes[i].taken <= pipes[i].written && |pipes[i].written| - |pipes[i].taken| <= PIPESIZE
  {
    if i > 0 {
      Fifo(pipes, steps, i - 1);
      assert StepAt(pipes, steps, i - 1);
      match steps[i - 1]
      case PutStep(b) => PutInv(pipes[i - 1], b);
      case GetStep => GetInv(pipes[i - 1]);
      case CloseStep(_) =>
    }
  }

  // ----- what the steps alone say -----

  /** The bytes of the writes among the first i steps, in order. */
  function Sent(steps: seq<Step>, i: nat): seq<Byte>
    requires i <= |steps|
  {
    if i == 0 then [] else Sent(steps, i - 1) + if steps[i - 1].PutStep? then [steps[i - 1].b] else []
  }

  /** How many of the first i steps take a byte. */
  function Takes(steps: seq<Step>, i: nat): nat
    requires i <= |steps|
  {
    if i == 0 then 0 else Takes(steps, i - 1) + if steps[i - 1].GetStep? then 1 else 0
  }

  predicate ClosedBefore(steps: seq<Step>, i: nat, writable: bool)
    requires i <= |steps|
  {
    CloseStep(writable) in steps[..i]
  }

  /** In every interleaving the bytes taken are the first ones sent, as many as
      there were takes, and an end is open exactly until it is closed; after the
      read end is closed nothing more is sent. */
  lemma {:induction false} Delivered(pipes: seq<Pipe>, steps: seq<Step>, i: nat)
    requires Run(pipes, steps) && i < |pipes|
    ensures pipes[i].written == Sent(steps, i)
    ensures Takes(steps, i) <= |Sent(steps, i)| && pipes[i].taken == Sent(steps, i)[..Takes(steps, i)]
    ensures pipes[i].readopen <==> !ClosedBefore(steps, i, false)
    ensures pipes[i].writeopen <==> !ClosedBefore(steps, i, true)
    ensures i < |steps| && ClosedBefore(steps, i, false) ==> !steps[i].PutStep?
  {
    if i < |steps| {
      assert StepAt(pipes, steps, i);
    }
    if i > 0 {
      Delivered(pipes, steps, i - 1);
      Fifo(pipes, steps, i - 1);
      assert StepAt(pipes, steps, i - 1);
      assert steps[..i] == steps[..i - 1] + [steps[i - 1]];
      if steps[i - 1].GetStep? {
        GetInv(pipes[i - 1]);
      }
    }
  }
}

/** pipewrite, piperead and pipeclose.  A process that sleeps gives up the lock,
    so Write and Read are the stretches up to the first sleep; a process that
    slept calls again from where it was. */
module PipeCode {
  import opened Wrappers
  import opened PipeModel

  datatype Outcome = Returned(n: int) | Slept

  class PipeFile {
    const data: array<Byte>
    var nread: nat
    var nwrite: nat
    var readopen: bool
    var writeopen: bool
    var readersAsleep: bool      // some process sleeps on &nread
    var writersAsleep: bool      // some process sleeps on &nwrite
    ghost var written: seq<Byte>
    ghost var taken: seq<Byte>

    ghost function P(): Pipe
      reads this, data
    {
      Pipe(data[..], nread, nwrite, readopen, writeopen, written, taken)
    }

    ghost predicate Valid()
      reads this, data
    {
      data.Length == PIPESIZE && Inv(P())
    }

    /** Nobody waits to read while there is something to read or no writer. */
    ghost predicate ReadersOk()
      reads this
    {
      readersAsleep ==> written == taken && writeopen
    }

    /** Nobody waits to write while there is room or no reader. */
    ghost predicate WritersOk()
      reads this
    {
      writersAsleep ==> |written| - |taken| == PIPESIZE && readopen
    }

    constructor ()
      ensures Valid() && ReadersOk() && WritersOk() && fresh(data) && Init(P())
    {
      data := new Byte[PIPESIZE](_ => 0);
      nread, nwrite, readopen, writeopen := 0, 0, true, true;
      readersAsleep, writersAsleep := false, false;
      written, taken := [], [];
    }

    method PutByte(b: Byte)
      requires Valid() && !Full(P())
      modifies this`nwrite, this`written, data
      ensures Valid() && written == old(written) + [b]
    {
      ghost var p := P();
      PutInv(p, b);
      data[nwrite % PIPESIZE] := b;
      nwrite := (nwrite + 1) % UINT;
      written := written + [b];
      assert P() == Put(p, b);
    }

    method TakeByte() returns (ch: Byte)
      requires Valid() && nread != nwrite
      modifies this`nread, this`taken
      ensures Valid() && |old(taken)| < |written| && ch == written[|old(taken)|] && taken == written[..|old(taken)| + 1]
    {
      ghost var p := P();
      TestsAreExact(p);
      GetInv(p);
      ch := data[nread % PIPESIZE];
      nread := (nread + 1) % UINT;
      taken := taken + [ch];
      assert P() == Get(p);
    }

    /** Before the call: readers wait, and the kill comes after the first byte
        goes in and before pipewrite would wake anybody, that is before it
        fills the pipe, finishes or finds user memory unreadable. */
    ghost predicate Strands(bytes: seq<Byte>, start: nat, killedAt: nat, readable: nat)
      reads this
    {
      && readersAsleep && readopen
      && start < killedAt < |bytes| && killedAt <= readable && killedAt - start <= PIPESIZE
    }

    /** pipewrite from byte `start` on.  The process is found killed from byte
        `killedAt` on, and user memory can be read up to `readable`. */
    method Write(bytes: seq<Byte>, start: nat, killedAt: nat, readable: nat) returns (i: nat, out: Outcome)
      requires Valid() && start <= |bytes|
      modifies this`nwrite, this`written, this`readersAsleep, this`writersAsleep, data
      ensures Valid() && start <= i <= |bytes| && written == old(written) + bytes[start..i]
      ensures i > start ==> readopen && i <= killedAt && i <= readable
      ensures out == if i == |bytes| then Returned(i)
                     else if !readopen || killedAt <= i then Returned(-1)
                     else if |written| - |taken| == PIPESIZE then Slept else Returned(i)
      ensures out == Returned(i) && i < |bytes| ==> readable <= i
      ensures readersAsleep == (old(readersAsleep) && out == Returned(-1))
      ensures writersAsleep == (old(writersAsleep) || out == Slept)
      ensures old(WritersOk()) ==> WritersOk()
      ensures old(ReadersOk()) ==> (ReadersOk() <==> !old(Strands(bytes, start, killedAt, readable)))
    {
      i := start;
      while i < |bytes|
        invariant Valid() && start <= i <= |bytes| && written == old(written) + bytes[start..i]
        invariant i > start ==> readopen && i <= killedAt && i <= readable
        invariant readersAsleep == old(readersAsleep) && writersAsleep == old(writersAsleep)
        invariant old(WritersOk()) ==> WritersOk()
      {
        if !readopen || killedAt <= i {
          return i, Returned(-1);
        }
        TestsAreExact(P());
        if nwrite == (nread + PIPESIZE) % UINT {
          readersAsleep := false;
          writersAsleep := true;
          return i, Slept;
        } else {
          if readable <= i {
            break;
          }
          assert bytes[start..i + 1] == bytes[start..i] + [bytes[i]];
          PutByte(bytes[i]);
          i := i + 1;
        }
      }
      readersAsleep := false;
      return i, Returned(i);
    }

    /** piperead of n bytes, with user memory that can be written up to
        `writable`: waits while the pipe is empty and a writer is left. */
    method Read(n: nat, killed: bool, writable: nat) returns (out: Outcome, got: seq<Byte>)
      requires Valid()
      modifies this`nread, this`taken, this`readersAsleep, this`writersAsleep
      ensures Valid()
      ensures old(taken) == written && writeopen ==>
                taken == old(taken) && got == [] && out == if killed then Returned(-1) else Slept
      ensures !(old(taken) == written && writeopen) ==> out == Returned(|got|) && Drained(old(taken), n, writable, got)
      ensures readersAsleep == (old(readersAsleep) || out == Slept)
      ensures writersAsleep == (old(writersAsleep) && (out == Slept || out == Returned(-1)))
      ensures old(WritersOk()) ==> WritersOk()
      ensures old(ReadersOk()) ==> ReadersOk()
    {
      TestsAreExact(P());
      if nread == nwrite && writeopen {
        if killed {
          return Returned(-1), [];
        }
        readersAsleep := true;
        return Slept, [];
      }
      got := Drain(n, writable);
      writersAsleep := false;
      return Returned(|got|), got;
    }

    /** How many bytes a read returns: n, or all there are, or as many as can be copied out. */
    ghost function Copied(was: seq<Byte>, n: nat, writable: nat): int
      reads this
    {
      var avail := |written| - |was|;
      var m := if n < writable then n else writable;
      if m < avail then m else avail
    }

    /** Whether the copy stops at a byte that has left the pipe. */
    ghost function Lost(was: seq<Byte>, n: nat, writable: nat): nat
      reads this
    {
      if writable < n && |was| + writable < |written| then 1 else 0
    }

    ghost predicate Drained(was: seq<Byte>, n: nat, writable: nat, got: seq<Byte>)
      reads this
    {
      var m := Copied(was, n, writable);
      && 0 <= m && |was| + m + Lost(was, n, writable) <= |written|
      && got == written[|was|..|was| + m] && taken == written[..|was| + m + Lost(was, n, writable)]
    }

    /** piperead's copying loop. */
    method Drain(n: nat, writable: nat) returns (got: seq<Byte>)
      requires Valid()
      modifies this`nread, this`taken
      ensures Valid() && Drained(old(taken), n, writable, got)
    {
      got := [];
      var i := 0;
      assert taken == written[..|taken|];
      while i < n
        invariant Valid() && i == |got| <= n && i <= writable && |taken| == |old(taken)| + i <= |written|
        invariant got == written[|old(taken)|..|taken|] && taken == written[..|taken|]
      {
        TestsAreExact(P());
        if nread == nwrite {
          break;
        }
        var ch := TakeByte();
        if writable <= i {
          break;
        }
        got := got + [ch];
        i := i + 1;
      }
    }

    method CloseEnd(writable: bool) returns (freed: bool)
      requires Valid()
      modifies this`readopen, this`writeopen, this`readersAsleep, this`writersAsleep
      ensures Valid() && P() == Close(old(P()), writable) && (freed <==> !readopen && !writeopen)
      ensures readopen == (old(readopen) && writable) && writeopen == (old(writeopen) && !writable)
      ensures old(ReadersOk()) ==> ReadersOk()
      ensures old(WritersOk()) ==> WritersOk()
    {
      if writable {
        writeopen := false;
        readersAsleep := false;
      } else {
        readopen := false;
        writersAsleep := false;
      }
      freed := !readopen && !writeopen;
    }
  }

  /** Once the write end is closed, readers get what is left and then end of file. */
  method CloseThenRead(p: PipeFile, n: nat) returns (left: seq<Byte>, out: Outcome, got: seq<Byte>)
    requires p.Valid() && n > 0
    modifies p
    ensures p.Valid() && left == old(p.written)[|old(p.taken)|..] && out == Returned(0) && got == []
  {
    var freed := p.CloseEnd(true);
    out, left := p.Read(PIPESIZE, false, PIPESIZE);
    out, got := p.Read(n, false, n);
  }

  /** Once the read end is closed, every write of at least a byte fails and leaves nothing. */
  method CloseThenWrite(p: PipeFile, bytes: seq<Byte>) returns (out: Outcome)
    requires p.Valid() && bytes != []
    modifies p, p.data
    ensures p.Valid() && out == Returned(-1) && p.written == old(p.written) && p.taken == old(p.taken)
  {
    var freed := p.CloseEnd(false);
    var i;
    i, out := p.Write(bytes, 0, |bytes|, |bytes|);
  }

  /** pipewrite wakes readers only when it fills the pipe or finishes: a writer
      killed between two bytes leaves a reader asleep beside a byte. */
  method StrandedReader() returns (p: PipeFile)
    ensures p.Valid() && p.WritersOk() && p.readersAsleep && |p.written| == 1 && p.taken == [] && !p.ReadersOk()
  {
    p := new PipeFile();
    var out, _ := p.Read(1, false, 1);
    var i, out' := p.Write([7, 8], 0, 1, 2);
    assert i <= 1 && i != 0;
    assert p.written == [7];
  }
}
