/**
 The pipe between two streams of one process. Nothing is copied into the pipe: a write leaves
 its buffer on offer and is told to come back, a read takes from that buffer, and the write that
 comes back reports what was taken.
 */
module Pipe {
  import opened Common

  /** A buffer of the writer: its address and its bytes. */
  datatype Buffer = Buffer(address: nat, bytes: seq<byte>)

  /** offer is the buffer of the output stream, read the count taken by the input stream or -1.
      inShut and outShut are the flags that the closing peer sets. readSleeps and writeSleeps say
      that a source created for the stream has not been made ready. */
  datatype State = State(offer: Option<Buffer>, read: int, inClosed: bool, inShut: bool, outClosed: bool, outShut: bool,
                         readSleeps: bool, writeSleeps: bool)

  datatype ReadResult = Got(bytes: seq<byte>) | End | ReadClosed | ReadBlocks

  datatype WriteResult = Wrote(n: nat) | WriteClosed | WriteBlocks | OtherBuffer | Aborts

  const FRESH: State := State(None, -1, false, false, false, false, false, false)

  predicate Readable(s: State) { (s.offer.Some? && s.read == -1) || s.inShut }

  predicate Writable(s: State) { s.offer.None? || s.read >= 0 || s.outShut }

  /** The sources of a stream are made ready if the stream is. */
  function CheckedIn(s: State): State { if Readable(s) then s.(readSleeps := false) else s }

  function CheckedOut(s: State): State { if Writable(s) then s.(writeSleeps := false) else s }

  function ReadStep(s: State, count: nat): (State, ReadResult) {
    if s.inShut then (s, End)
    else if s.inClosed then (s, ReadClosed)
    else if s.offer.None? then (s, ReadBlocks)
    else
      var n := Min(|s.offer.value.bytes|, count);
      (CheckedOut(s.(read := n, offer := None)), Got(s.offer.value.bytes[..n]))
  }

  function WriteStep(s: State, b: Buffer): (State, WriteResult) {
    if s.outClosed || s.outShut then (s, WriteClosed)
    else if s.offer.Some? && s.offer.value.address != b.address then (s, OtherBuffer)
    else
      var s1 := CheckedIn(s.(offer := Some(b)));
      if s.read < 0 then (s1, WriteBlocks)
      else if s.read > |b.bytes| then (s1, Aborts)
      else (s1.(offer := None, read := -1), Wrote(s.read))
  }

  /** Closing one stream closes the other, unless an operation on it is pending; the flag is
      set in any case. Closing again has no effect. */
  function CloseInput(s: State, pending: bool): State {
    if s.inClosed then s else
    var s1 := s.(outShut := true);
    var s2 := if pending || s.outClosed then s1 else CheckedIn(s1.(inShut := true)).(outClosed := true);
    CheckedOut(s2).(inClosed := true)
  }

  function CloseOutput(s: State, pending: bool): State {
    if s.outClosed then s else
    var s1 := s.(inShut := true);
    var s2 := if pending || s.inClosed then s1 else CheckedOut(s1.(outShut := true)).(inClosed := true);
    CheckedIn(s2).(outClosed := true)
  }

  // ---------------------------------------------------------------- as the code runs

  class Pair {
    var buffer: Option<Buffer>
    var read: int
    var inClosed: bool
    var inShut: bool
    var outClosed: bool
    var outShut: bool
    var readSleeps: bool
    var writeSleeps: bool

    ghost function View(): State
      reads this
    {
      State(buffer, read, inClosed, inShut, outClosed, outShut, readSleeps, writeSleeps)
    }

    constructor ()
      ensures View() == FRESH
    {
      buffer, read := None, -1;
      inClosed, inShut, outClosed, outShut := false, false, false, false;
      readSleeps, writeSleeps := false, false;
    }

    method CheckInputSource()
      modifies this
      ensures View() == CheckedIn(old(View()))
    {
      if (buffer.Some? && read == -1) || inShut {
        readSleeps := false;
      }
    }

    method CheckOutputSource()
      modifies this
      ensures View() == CheckedOut(old(View()))
    {
      if buffer.None? || read >= 0 || outShut {
        writeSleeps := false;
      }
    }

    method Read(count: nat) returns (r: ReadResult)
      requires count > 0
      modifies this
      ensures (View(), r) == ReadStep(old(View()), count)
    {
      if inShut {
        return End;
      }
      if inClosed {
        return ReadClosed;
      }
      if buffer.None? {
        return ReadBlocks;
      }
      var n := Min(|buffer.value.bytes|, count);
      r := Got(buffer.value.bytes[..n]);
      read := n;
      buffer := None;
      CheckOutputSource();
    }

    method Write(b: Buffer) returns (r: WriteResult)
      modifies this
      ensures (View(), r) == WriteStep(old(View()), b)
    {
      if outClosed || outShut {
        return WriteClosed;
      }
      if !(buffer.None? || buffer.value.address == b.address) {
        return OtherBuffer;
      }
      buffer := Some(b);
      CheckInputSource();
      if read < 0 {
        return WriteBlocks;
      }
      if read > |b.bytes| {
        return Aborts;
      }
      r := Wrote(read);
      buffer := None;
      read := -1;
    }

    method CloseIn(pending: bool)
      modifies this
      ensures View() == CloseInput(old(View()), pending)
    {
      if inClosed {
        return;
      }
      outShut := true;
      if !pending && !outClosed {
        inShut := true;
        CheckInputSource();
        outClosed := true;
      }
      CheckOutputSource();
      inClosed := true;
    }

    method CloseOut(pending: bool)
      modifies this
      ensures View() == CloseOutput(old(View()), pending)
    {
      if outClosed {
        return;
      }
      inShut := true;
      if !pending && !inClosed {
        outShut := true;
        CheckOutputSource();
        inClosed := true;
      }
      CheckInputSource();
      outClosed := true;
    }
  }

  // ---------------------------------------------------------------- runs

  datatype Event =
    | Write(b: Buffer)
    | Read(count: nat)
    | ShutInput(pending: bool)
    | ShutOutput(pending: bool)
    | AwaitRead
    | AwaitWrite

  /** What has passed: the bytes handed to the reader, the bytes reported to the writer as written,
      the bytes taken but not reported yet, and the last buffer left on offer. */
  datatype Trace = Trace(pipe: State, received: seq<byte>, accepted: seq<byte>, taken: seq<byte>, last: Option<Buffer>, aborted: bool)

  const START: Trace := Trace(FRESH, [], [], [], None, false)

  /** GIO passes on no read or write of zero bytes. */
  function Exec(t: Trace, e: Event): Trace {
    match e
    case Read(count) =>
      if count == 0 then t else
      var (s, r) := ReadStep(t.pipe, count);
      if r.Got? then t.(pipe := s, received := t.received + r.bytes, taken := r.bytes) else t.(pipe := s)
    case Write(b) =>
      if b.bytes == [] || t.aborted then t else
      var (s, r) := WriteStep(t.pipe, b);
      (match r
       case Wrote(n) => t.(pipe := s, accepted := t.accepted + b.bytes[..Min(n, |b.bytes|)], taken := [], last := None)
       case WriteBlocks => t.(pipe := s, last := Some(b))
       case Aborts => t.(pipe := s, aborted := true)
       case _ => t.(pipe := s))
    case ShutInput(pending) => t.(pipe := CloseInput(t.pipe, pending))
    case ShutOutput(pending) => t.(pipe := CloseOutput(t.pipe, pending))
    case AwaitRead => t.(pipe := t.pipe.(readSleeps := true))
    case AwaitWrite => t.(pipe := t.pipe.(writeSleeps := true))
  }

  function Run(events: seq<Event>): Trace {
    if events == [] then START else Exec(Run(events[..|events| - 1]), events[|events| - 1])
  }

  /** A buffer is never on offer while a taken count waits to be reported, so that the pipe is
      idle, offered or taken; what is taken stands at the head of the buffer last offered. */
  ghost predicate Inv(t: Trace) {
    && t.pipe.read >= -1
    && !(t.pipe.offer.Some? && t.pipe.read >= 0)
    && |t.taken| == (if t.pipe.read >= 0 then t.pipe.read else 0)
    && (t.pipe.offer.Some? ==> t.last == t.pipe.offer && t.pipe.offer.value.bytes != [])
    && (t.pipe.read >= 0 ==> t.pipe.read > 0 && t.last.Some? && t.taken <= t.last.value.bytes)
    && (t.last.Some? ==> t.pipe.offer.Some? || t.pipe.read >= 0)
  }

  lemma StepInv(t: Trace, e: Event)
    requires Inv(t)
    ensures !Exec(t, e).aborted ==> Inv(Exec(t, e))
  {
  }

  lemma {:induction false} RunInv(events: seq<Event>)
    ensures !Run(events).aborted ==> Inv(Run(events))
  {
    if events != [] {
      var front, e := events[..|events| - 1], events[|events| - 1];
      RunInv(front);
      if !Run(front).aborted { StepInv(Run(front), e); }
    }
  }

  /** A read takes as much as it asks for or as there is, from the beginning of the buffer on offer. */
  lemma ReadTakes(s: State, count: nat)
    requires ReadStep(s, count).1.Got?
    ensures var got := ReadStep(s, count).1.bytes;
            && s.offer.Some? && got <= s.offer.value.bytes
            && |got| <= count && (|got| == count || got == s.offer.value.bytes)
  {
    var b := s.offer.value.bytes;
    if count >= |b| { assert b[..|b|] == b; }
  }

  /** Neither end is closed, and nothing is on offer or taken. */
  predicate Free(s: State) {
    s.offer.None? && s.read == -1 && !s.inClosed && !s.inShut && !s.outClosed && !s.outShut
  }

  /** One exchange over a free pipe: the write blocks, a read gets the bytes, the write that comes
      back reports them, and the pipe is free again. */
  lemma Exchange(s: State, b: Buffer, count: nat)
    requires Free(s) && b.bytes != [] && count > 0
    ensures var (s1, w) := WriteStep(s, b);
            var (s2, r) := ReadStep(s1, count);
            var (s3, w') := WriteStep(s2, b);
            && w == WriteBlocks && r.Got? && r.bytes <= b.bytes && |r.bytes| == (if count <= |b.bytes| then count else |b.bytes|)
            && w' == Wrote(|r.bytes|) && Free(s3)
  {
  }

  predicate OutputClosed(events: seq<Event>) {
    events != [] && (events[|events| - 1].ShutOutput? || OutputClosed(events[..|events| - 1]))
  }

  predicate InputClosed(events: seq<Event>) {
    events != [] && (events[|events| - 1].ShutInput? || InputClosed(events[..|events| - 1]))
  }

  /** A closed end has told the other one. */
  predicate Told(s: State) { (s.outClosed ==> s.inShut) && (s.inClosed ==> s.outShut) }

  lemma StepTold(t: Trace, e: Event)
    requires Told(t.pipe)
    ensures var s := Exec(t, e).pipe;
            && Told(s) && (t.pipe.outClosed || e.ShutOutput? ==> s.outClosed) && (t.pipe.inClosed || e.ShutInput? ==> s.inClosed)
  {
  }

  lemma {:induction false} RunTold(events: seq<Event>)
    ensures var s := Run(events).pipe;
            Told(s) && (OutputClosed(events) ==> s.outClosed) && (InputClosed(events) ==> s.inClosed)
  {
    if events != [] {
      RunTold(events[..|events| - 1]);
      StepTold(Run(events[..|events| - 1]), events[|events| - 1]);
    }
  }

  /** Once the output has been closed a read finds the end and a write is refused; once the input
      has been closed a write is refused and a read gets nothing. */
  lemma AfterClose(events: seq<Event>, b: Buffer, count: nat)
    ensures var s := Run(events).pipe;
            && (OutputClosed(events) ==> ReadStep(s, count).1 == End && WriteStep(s, b).1 == WriteClosed)
            && (InputClosed(events) ==>
                  WriteStep(s, b).1 == WriteClosed && (ReadStep(s, count).1 == End || ReadStep(s, count).1 == ReadClosed))
  {
    RunTold(events);
  }

  /** While neither end has been shut, exactly one side is ready: the reader when a buffer is on
      offer, else the writer. So a pipe in use never has both sides waiting. */
  lemma OneSideReady(events: seq<Event>)
    requires !Run(events).aborted && !Run(events).pipe.inShut && !Run(events).pipe.outShut
    ensures Readable(Run(events).pipe) <==> !Writable(Run(events).pipe)
    ensures Readable(Run(events).pipe) <==> Run(events).pipe.offer.Some?
  {
    RunInv(events);
  }

  /** Nobody sleeps beside a stream that is ready. */
  predicate Awake(s: State) { (s.readSleeps ==> !Readable(s)) && (s.writeSleeps ==> !Writable(s)) }

  /** No wake-up is lost, unless a source is created for a stream that is ready already. */
  lemma AwakeIff(t: Trace, e: Event)
    requires Inv(t) && Awake(t.pipe)
    ensures Awake(Exec(t, e).pipe) <==> !(e.AwaitRead? && Readable(t.pipe)) && !(e.AwaitWrite? && Writable(t.pipe))
  {
  }

  /** A source for the idle pipe's writer: it sleeps although the stream is ready. */
  lemma Overslept()
    ensures var s := Run([AwaitWrite]).pipe; s.writeSleeps && Writable(s)
  {
    assert [AwaitWrite][..0] == [];
  }

  /** Every source is created because an operation would have blocked. */
  predicate Polite(events: seq<Event>) {
    events == [] ||
    (var t, e := Run(events[..|events| - 1]), events[|events| - 1];
     && Polite(events[..|events| - 1])
     && (e.AwaitRead? ==> !Readable(t.pipe)) && (e.AwaitWrite? ==> !Writable(t.pipe)))
  }

  lemma {:induction false} NobodyOversleeps(events: seq<Event>)
    requires Polite(events) && !Run(events).aborted
    ensures Awake(Run(events).pipe)
  {
    if events != [] {
      var front := events[..|events| - 1];
      NobodyOversleeps(front);
      RunInv(front);
      AwakeIff(Run(front), events[|events| - 1]);
    }
  }

  /** The write that comes back after bytes were taken brings a buffer that starts with them. */
  predicate Honest(t: Trace, e: Event) {
    e.Write? && t.pipe.read >= 0 && !t.pipe.outClosed && !t.pipe.outShut && e.b.bytes != [] ==> t.taken <= e.b.bytes
  }

  /** No byte is lost or invented: what was read is what was reported as written, and what is taken. */
  predicate Faithful(t: Trace) { !t.aborted && t.received == t.accepted + t.taken }

  /** A step keeps the streams equal exactly when it is honest: otherwise the assertion in the
      write fails, or it reports bytes that were never read. */
  lemma FaithfulIff(t: Trace, e: Event)
    requires Inv(t) && Faithful(t)
    ensures Faithful(Exec(t, e)) <==> Honest(t, e)
  {
    if e.Write? && e.b.bytes != [] && t.pipe.read >= 0 && !t.pipe.outClosed && !t.pipe.outShut {
      var n := |t.taken|;
      if n <= |e.b.bytes| {
        assert Exec(t, e).accepted == t.accepted + e.b.bytes[..n] && Exec(t, e).received == t.accepted + t.taken;
        if Exec(t, e).accepted == Exec(t, e).received {
          assert (t.accepted + e.b.bytes[..n])[|t.accepted|..] == (t.accepted + t.taken)[|t.accepted|..];
          assert e.b.bytes[..n] == t.taken;
        }
      }
    }
  }

  /** The writer brings the same buffer until it is accepted. */
  predicate Retrying(events: seq<Event>) {
    events == [] ||
    (var t, e := Run(events[..|events| - 1]), events[|events| - 1];
     && Retrying(events[..|events| - 1])
     && (e.Write? && t.last.Some? ==> e.b == t.last.value))
  }

  /** With a writer that retries, the bytes read are always those reported as written plus those
      taken, in order, and the assertion in the write never fails. */
  lemma {:induction false} RetryingIsFaithful(events: seq<Event>)
    requires Retrying(events)
    ensures Faithful(Run(events)) && Inv(Run(events))
  {
    if events != [] {
      var t, e := Run(events[..|events| - 1]), events[|events| - 1];
      RetryingIsFaithful(events[..|events| - 1]);
      FaithfulIff(t, e);
      RunInv(events);
    }
  }

  /** A writer that comes back with another buffer makes the two ends disagree. */
  lemma OtherBytes()
    ensures var t := Run([Write(Buffer(0, [1])), Read(1), Write(Buffer(0, [2]))]);
            t.received == [1] && t.accepted == [2]
  {
    var e := [Write(Buffer(0, [1])), Read(1), Write(Buffer(0, [2]))];
    assert e[..2] == [Write(Buffer(0, [1])), Read(1)] && e[..2][..1] == [Write(Buffer(0, [1]))] && e[..1][..0] == [];
    var t1 := START.(pipe := FRESH.(offer := Some(Buffer(0, [1]))), last := Some(Buffer(0, [1])));
    assert Run(e[..1]) == t1;
    assert [1][..1] == [1] && [2][..1] == [2];
    assert Run(e[..2]) == t1.(pipe := FRESH.(read := 1), received := [1], taken := [1]);
  }
}
