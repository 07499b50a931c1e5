/**
 The WebDAV channel carries the replies of several clients in one stream of frames: the client,
 a 16-bit size, and that many bytes. The output queue refers to a client's header and buffer by
 address; the bytes are only looked at when they are written.
 */
module Webdav {
  import opened Common

  const MAX_MUX_SIZE: nat := 0xffff

  datatype Frame = Frame(client: nat, data: seq<byte>)

  function Encode(f: Frame): seq<byte> { Le(f.client, 8) + Le(|f.data|, 2) + f.data }

  function EncodeAll(fs: seq<Frame>): seq<byte> {
    if fs == [] then [] else Encode(fs[0]) + EncodeAll(fs[1..])
  }

  // ---------------------------------------------------------------- sending: the state

  /** A client's memory: its id, the size and the buffer that the queue points at, and whether a
      read into the buffer is outstanding. */
  datatype Client = Client(id: nat, size: nat, buf: seq<byte>, reading: bool)

  /** A queue element: an address in the client's memory, and how many bytes there. */
  datatype Elem = IdOf(client: nat) | SizeOf(client: nat) | BufferOf(client: nat, count: nat)

  datatype State = State(clients: map<nat, Client>, queue: seq<Elem>, flushing: bool, idle: bool, out: seq<byte>)

  const FRESH: State := State(map[], [], false, false, [])

  /** The bytes at the address, now. */
  function Bytes(clients: map<nat, Client>, e: Elem): seq<byte>
    requires e.client in clients
  {
    var c := clients[e.client];
    match e
    case IdOf(_) => Le(c.id, 8)
    case SizeOf(_) => Le(c.size, 2)
    case BufferOf(_, n) => if n <= |c.buf| then c.buf[..n] else c.buf
  }

  function Push(s: State, e: Elem): State {
    s.(queue := s.queue + [e], idle := s.idle || !s.flushing)
  }

  /** A read has completed with the bytes in the buffer: header and buffer are queued by address. */
  function Reply(s: State, h: nat, data: seq<byte>): State
    requires h in s.clients
  {
    var c := s.clients[h].(size := |data|, buf := data, reading := false);
    Push(Push(Push(s.(clients := s.clients[h := c]), IdOf(h)), SizeOf(h)), BufferOf(h, |data|))
  }

  /** After the buffer of a client has been written its next read starts, unless the reply was
      empty or its input is closed. */
  function Pushed(s: State, e: Elem, open: bool): State
    requires e.client in s.clients
  {
    if e.BufferOf? then
      var c := s.clients[e.client];
      s.(clients := s.clients[e.client := c.(reading := c.size != 0 && open)])
    else s
  }

  /** The idle callback; open tells whether the input of the client in question is open. */
  function IdleStep(s: State, open: bool): State
    requires s.queue != [] ==> s.queue[0].client in s.clients
  {
    if s.flushing || s.queue == [] then s.(idle := false)
    else
      var e := s.queue[0];
      Pushed(s.(queue := s.queue[1..], out := s.out + Bytes(s.clients, e)), e, open).(flushing := true)
  }

  function FlushStep(s: State): State { s.(flushing := false, idle := true) }

  // ---------------------------------------------------------------- sending: as the code runs

  class Mux {
    var clients: map<nat, Client>
    var queue: seq<Elem>
    var flushing: bool
    var idle: bool
    var out: seq<byte>

    ghost function View(): State
      reads this
    {
      State(clients, queue, flushing, idle, out)
    }

    constructor ()
      ensures View() == FRESH
    {
      clients, queue, flushing, idle, out := map[], [], false, false, [];
    }

    method OutputQueuePush(e: Elem)
      modifies this
      ensures View() == Push(old(View()), e)
    {
      queue := queue + [e];
      if !idle && !flushing {
        idle := true;
      }
    }

    method ServerReply(h: nat, data: seq<byte>)
      requires h in clients
      modifies this
      ensures View() == Reply(old(View()), h, data)
    {
      clients := clients[h := clients[h].(size := |data|, buf := data, reading := false)];
      OutputQueuePush(IdOf(h));
      OutputQueuePush(SizeOf(h));
      OutputQueuePush(BufferOf(h, |data|));
    }

    /** Returns whether the callback stays installed. */
    method OutputQueueIdle(open: bool) returns (stay: bool)
      requires idle && (queue != [] ==> queue[0].client in clients)
      modifies this
      ensures View() == IdleStep(old(View()), open) && stay == idle
    {
      if flushing {
        idle := false;
        return false;
      }
      if queue == [] {
        idle := false;
        return false;
      }
      var e := queue[0];
      queue := queue[1..];
      out := out + Bytes(clients, e);
      if e.BufferOf? {
        var c := clients[e.client];
        clients := clients[e.client := c.(reading := c.size != 0 && open)];
      }
      flushing := true;
      return true;
    }

    method OutputQueueFlush()
      modifies this
      ensures View() == FlushStep(old(View()))
    {
      flushing := false;
      if !idle {
        idle := true;
      }
    }
  }

  // ---------------------------------------------------------------- runs

  /** Scribble stands for the bytes that an outstanding read puts into its buffer before it completes. */
  datatype Event =
    | Start(h: nat, id: nat)
    | Scribble(h: nat, junk: seq<byte>)
    | Replies(h: nat, data: seq<byte>)
    | Idle(open: bool)
    | Flushed

  /** The state, and what the events say: the frames replied so far, the bytes that each queued element
      had when it was queued, the size of each client's last reply, the clients whose buffer was
      written after an empty reply or with their input closed, and how many elements have been
      written and flushes ended. */
  datatype Trace = Trace(s: State, frames: seq<Frame>, promised: seq<seq<byte>>, last: map<nat, nat>, stopped: set<nat>,
                         written: nat, flushed: nat)

  /** The client whose last read this write of its buffer ends. */
  function Stops(t: Trace, open: bool): set<nat> {
    if t.s.flushing || t.s.queue == [] || !t.s.queue[0].BufferOf? then {} else
    var h := t.s.queue[0].client;
    if !open || (h in t.last && t.last[h] == 0) then {h} else {}
  }

  function Exec(t: Trace, e: Event): Option<Trace> {
    var s := t.s;
    match e
    case Start(h, id) =>
      if h in s.clients || id >= U64 then None
      else Some(t.(s := s.(clients := s.clients[h := Client(id, 0, [], true)])))
    case Scribble(h, junk) =>
      if h !in s.clients || !s.clients[h].reading then None
      else Some(t.(s := s.(clients := s.clients[h := s.clients[h].(buf := junk)])))
    case Replies(h, data) =>
      if h !in s.clients || !s.clients[h].reading || |data| > MAX_MUX_SIZE then None
      else
        var id := s.clients[h].id;
        Some(t.(s := Reply(s, h, data), frames := t.frames + [Frame(id, data)],
                promised := t.promised + [Le(id, 8), Le(|data|, 2), data], last := t.last[h := |data|]))
    case Idle(open) =>
      if !s.idle || (s.queue != [] && s.queue[0].client !in s.clients) then None
      else
        var kept := s.flushing || s.queue == [] || t.promised == [];
        Some(t.(s := IdleStep(s, open), promised := if kept then t.promised else t.promised[1..],
                stopped := t.stopped + Stops(t, open), written := if s.flushing || s.queue == [] then t.written else t.written + 1))
    case Flushed =>
      if !s.flushing then None else Some(t.(s := FlushStep(s), flushed := t.flushed + 1))
  }

  function Run(events: seq<Event>): Option<Trace> {
    if events == [] then Some(Trace(FRESH, [], [], map[], {}, 0, 0)) else
    var t := Run(events[..|events| - 1]);
    if t.None? then None else Exec(t.value, events[|events| - 1])
  }

  /** What is queued still has the bytes that it had when it was queued. A client with something
      queued has no read outstanding, and nothing queued behind its buffer. */
  ghost predicate Stable(t: Trace) {
    var s := t.s;
    && |t.promised| == |s.queue|
    && (forall i :: 0 <= i < |s.queue| ==> Kept(t, i))
    && (forall i, j :: 0 <= i < j < |s.queue| && s.queue[i].BufferOf? ==> s.queue[j].client != s.queue[i].client)
  }

  ghost predicate Kept(t: Trace, i: nat)
    requires i < |t.s.queue| == |t.promised|
  {
    var h := t.s.queue[i].client;
    && h in t.s.clients && !t.s.clients[h].reading
    && Bytes(t.s.clients, t.s.queue[i]) == t.promised[i]
  }

  ghost predicate Inv(t: Trace) {
    && Stable(t)
    && t.s.out + Flatten(t.promised) == EncodeAll(t.frames)
    && (t.s.queue != [] ==> t.s.idle || t.s.flushing)
    && (forall h :: h in t.s.clients ==> t.s.clients[h].id < U64)
    && (forall i :: 0 <= i < |t.frames| ==> t.frames[i].client < U64 && |t.frames[i].data| <= MAX_MUX_SIZE)
  }

  lemma {:induction false} EncodeAllSnoc(fs: seq<Frame>, f: Frame)
    ensures EncodeAll(fs + [f]) == EncodeAll(fs) + Encode(f)
  {
    if fs == [] {
      assert fs + [f] == [f];
    } else {
      assert (fs + [f])[1..] == fs[1..] + [f];
      EncodeAllSnoc(fs[1..], f);
    }
  }

  lemma RepliesStable(t: Trace, h: nat, data: seq<byte>)
    requires Stable(t) && Exec(t, Replies(h, data)).Some?
    ensures Stable(Exec(t, Replies(h, data)).value)
  {
    var t' := Exec(t, Replies(h, data)).value;
    assert t'.s.queue == t.s.queue + [IdOf(h), SizeOf(h), BufferOf(h, |data|)];
    forall i | 0 <= i < |t.s.queue| ensures t.s.queue[i].client != h && Kept(t', i) { assert Kept(t, i); }
    NewKept(t, h, data);
    forall i | 0 <= i < |t'.s.queue| ensures Kept(t', i) {}
  }

  lemma NewKept(t: Trace, h: nat, data: seq<byte>)
    requires |t.promised| == |t.s.queue| && Exec(t, Replies(h, data)).Some?
    ensures var t' := Exec(t, Replies(h, data)).value;
            && |t'.promised| == |t'.s.queue| == |t.s.queue| + 3
            && forall i :: |t.s.queue| <= i < |t'.s.queue| ==> Kept(t', i)
  {
    assert data[..|data|] == data;
  }

  lemma RepliesInv(t: Trace, h: nat, data: seq<byte>)
    requires Inv(t) && Exec(t, Replies(h, data)).Some?
    ensures Inv(Exec(t, Replies(h, data)).value)
  {
    var id := t.s.clients[h].id;
    RepliesStable(t, h, data);
    EncodeAllSnoc(t.frames, Frame(id, data));
    Promise(t.s.out, t.promised, Le(id, 8), Le(|data|, 2), data);
  }

  lemma Promise(out: seq<byte>, promised: seq<seq<byte>>, a: seq<byte>, b: seq<byte>, c: seq<byte>)
    ensures out + Flatten(promised + [a, b, c]) == out + Flatten(promised) + (a + b + c)
  {
    FlattenAppend(promised, [a, b, c]);
    FlattenThree(a, b, c);
  }

  lemma FlattenThree(a: seq<byte>, b: seq<byte>, c: seq<byte>)
    ensures Flatten([a, b, c]) == a + b + c
  {
    assert [a, b, c] == [a] + [b] + [c];
    FlattenSnoc([a] + [b], c);
    FlattenSnoc([a], b);
    assert Flatten([a]) == a + Flatten<byte>([]);
  }

  lemma WriteStable(t: Trace, open: bool)
    requires Stable(t) && Exec(t, Idle(open)).Some? && !t.s.flushing && t.s.queue != []
    ensures Stable(Exec(t, Idle(open)).value)
    ensures Exec(t, Idle(open)).value.s.out == t.s.out + t.promised[0]
  {
    var t' := Exec(t, Idle(open)).value;
    assert Kept(t, 0);
    forall i | 0 <= i < |t'.s.queue| ensures Kept(t', i) { assert Kept(t, i + 1); }
  }

  lemma WriteInv(t: Trace, open: bool)
    requires Inv(t) && Exec(t, Idle(open)).Some? && !t.s.flushing && t.s.queue != []
    ensures Inv(Exec(t, Idle(open)).value)
  {
    WriteStable(t, open);
    Shift(t.s.out, t.promised);
  }

  lemma Shift(out: seq<byte>, promised: seq<seq<byte>>)
    requires promised != []
    ensures out + promised[0] + Flatten(promised[1..]) == out + Flatten(promised)
  {
  }

  lemma IdleInv(t: Trace, open: bool)
    requires Inv(t) && Exec(t, Idle(open)).Some?
    ensures Inv(Exec(t, Idle(open)).value)
  {
    if !t.s.flushing && t.s.queue != [] {
      WriteInv(t, open);
    } else {
      var t' := Exec(t, Idle(open)).value;
      forall i | 0 <= i < |t'.s.queue| ensures Kept(t', i) { assert Kept(t, i); }
    }
  }

  /** The queue stays, and so does the memory that it points at. */
  lemma SameQueueStable(t: Trace, t': Trace)
    requires Stable(t) && t'.s.queue == t.s.queue && t'.promised == t.promised
    requires forall i :: 0 <= i < |t.s.queue| ==> SameMemory(t, t', t.s.queue[i].client)
    ensures Stable(t')
  {
    forall i | 0 <= i < |t'.s.queue| ensures Kept(t', i) {
      assert Kept(t, i) && SameMemory(t, t', t.s.queue[i].client);
    }
  }

  predicate SameMemory(t: Trace, t': Trace, h: nat) {
    h in t.s.clients && h in t'.s.clients && t'.s.clients[h] == t.s.clients[h]
  }

  lemma StartStable(t: Trace, h: nat, id: nat)
    requires Inv(t) && Exec(t, Start(h, id)).Some?
    ensures Stable(Exec(t, Start(h, id)).value)
  {
    var t' := Exec(t, Start(h, id)).value;
    forall i | 0 <= i < |t.s.queue| ensures SameMemory(t, t', t.s.queue[i].client) { assert Kept(t, i); }
    SameQueueStable(t, t');
  }

  lemma StartInv(t: Trace, h: nat, id: nat)
    requires Inv(t) && Exec(t, Start(h, id)).Some?
    ensures Inv(Exec(t, Start(h, id)).value)
  {
    StartStable(t, h, id);
  }

  lemma ScribbleStable(t: Trace, h: nat, junk: seq<byte>)
    requires Inv(t) && Exec(t, Scribble(h, junk)).Some?
    ensures Stable(Exec(t, Scribble(h, junk)).value)
  {
    var t' := Exec(t, Scribble(h, junk)).value;
    forall i | 0 <= i < |t.s.queue| ensures SameMemory(t, t', t.s.queue[i].client) { assert Kept(t, i); }
    SameQueueStable(t, t');
  }

  lemma ScribbleInv(t: Trace, h: nat, junk: seq<byte>)
    requires Inv(t) && Exec(t, Scribble(h, junk)).Some?
    ensures Inv(Exec(t, Scribble(h, junk)).value)
  {
    ScribbleStable(t, h, junk);
  }

  lemma FlushedInv(t: Trace)
    requires Inv(t) && Exec(t, Flushed).Some?
    ensures Inv(Exec(t, Flushed).value)
  {
    var t' := Exec(t, Flushed).value;
    forall i | 0 <= i < |t.s.queue| ensures SameMemory(t, t', t.s.queue[i].client) { assert Kept(t, i); }
    SameQueueStable(t, t');
  }

  lemma StepInv(t: Trace, e: Event)
    requires Inv(t) && Exec(t, e).Some?
    ensures Inv(Exec(t, e).value)
  {
    match e
    case Start(h, id) => StartInv(t, h, id);
    case Scribble(h, junk) => ScribbleInv(t, h, junk);
    case Replies(h, data) => RepliesInv(t, h, data);
    case Idle(open) => IdleInv(t, open);
    case Flushed => FlushedInv(t);
  }

  lemma {:induction false} RunInv(events: seq<Event>)
    requires Run(events).Some?
    ensures Inv(Run(events).value)
  {
    if events != [] {
      RunInv(events[..|events| - 1]);
      StepInv(Run(events[..|events| - 1]).value, events[|events| - 1]);
    }
  }

  // ---------------------------------------------------------------- who is read

  predicate HasQueued(s: State, h: nat) { exists i :: 0 <= i < |s.queue| && s.queue[i].client == h }

  /** Header and buffer of a client are queued together. */
  predicate Together(s: State) {
    forall i :: 0 <= i < |s.queue| && !s.queue[i].BufferOf? ==> i + 1 < |s.queue| && s.queue[i + 1].client == s.queue[i].client
  }

  ghost predicate ReadOk(t: Trace, h: nat)
    requires h in t.s.clients
  {
    && (t.s.clients[h].reading <==> !HasQueued(t.s, h) && h !in t.stopped)
    && (HasQueued(t.s, h) ==> h !in t.stopped && h in t.last && t.s.clients[h].size == t.last[h])
  }

  ghost predicate Reads(t: Trace) {
    && Together(t.s)
    && (forall h :: h in t.s.clients ==> ReadOk(t, h))
    && (forall h :: h in t.stopped ==> h in t.s.clients)
    && t.written == t.flushed + if t.s.flushing then 1 else 0
  }

  lemma RepliesRead(t: Trace, h: nat, data: seq<byte>)
    requires Reads(t) && Exec(t, Replies(h, data)).Some?
    ensures Reads(Exec(t, Replies(h, data)).value)
  {
    var t' := Exec(t, Replies(h, data)).value;
    var n := |t.s.queue|;
    assert t'.s.queue == t.s.queue + [IdOf(h), SizeOf(h), BufferOf(h, |data|)];
    assert t'.s.queue[n].client == h;
    forall g | g in t'.s.clients ensures ReadOk(t', g) {
      assert ReadOk(t, g);
      if g != h { SameQueued(t.s.queue, t'.s.queue, g); }
    }
  }

  /** What other clients have queued. */
  lemma SameQueued(q: seq<Elem>, q': seq<Elem>, g: nat)
    requires q <= q' && forall i :: |q| <= i < |q'| ==> q'[i].client != g
    ensures (exists i :: 0 <= i < |q| && q[i].client == g) <==> (exists i :: 0 <= i < |q'| && q'[i].client == g)
  {
    if i :| 0 <= i < |q| && q[i].client == g { assert q'[i].client == g; }
  }

  lemma HeadQueued(q: seq<Elem>, g: nat)
    requires q != []
    ensures (exists i :: 0 <= i < |q| && q[i].client == g) <==> q[0].client == g || (exists i :: 0 <= i < |q[1..]| && q[1..][i].client == g)
  {
    if i :| 0 <= i < |q| && q[i].client == g { assert i == 0 || q[1..][i - 1].client == g; }
    if i :| 0 <= i < |q[1..]| && q[1..][i].client == g { assert q[i + 1].client == g; }
  }

  lemma WriteReadOk(t: Trace, open: bool, g: nat)
    requires Inv(t) && Reads(t) && Exec(t, Idle(open)).Some? && !t.s.flushing && t.s.queue != [] && g in t.s.clients
    ensures g in Exec(t, Idle(open)).value.s.clients && ReadOk(Exec(t, Idle(open)).value, g)
  {
    var e, t' := t.s.queue[0], Exec(t, Idle(open)).value;
    assert ReadOk(t, g);
    HeadQueued(t.s.queue, g);
    assert t'.s.queue == t.s.queue[1..];
    if e.client == g {
      assert t.s.queue[0].client == g && HasQueued(t.s, g);
      if e.BufferOf? {
        assert !HasQueued(t'.s, g);
      } else {
        assert t'.s.queue[0].client == g;
      }
    }
  }

  lemma WriteReads(t: Trace, open: bool)
    requires Inv(t) && Reads(t) && Exec(t, Idle(open)).Some? && !t.s.flushing && t.s.queue != []
    ensures Reads(Exec(t, Idle(open)).value)
  {
    var t' := Exec(t, Idle(open)).value;
    forall g | g in t'.s.clients ensures ReadOk(t', g) { WriteReadOk(t, open, g); }
    assert Kept(t, 0);
    forall i | 0 <= i < |t'.s.queue| && !t'.s.queue[i].BufferOf?
      ensures i + 1 < |t'.s.queue| && t'.s.queue[i + 1].client == t'.s.queue[i].client
    {
      assert t'.s.queue[i] == t.s.queue[i + 1];
    }
  }

  lemma StepReads(t: Trace, e: Event)
    requires Inv(t) && Reads(t) && Exec(t, e).Some?
    ensures Reads(Exec(t, e).value)
  {
    var t' := Exec(t, e).value;
    match e
    case Replies(h, data) => RepliesRead(t, h, data);
    case Idle(open) =>
      if !t.s.flushing && t.s.queue != [] {
        WriteReads(t, open);
      } else {
        forall g | g in t'.s.clients ensures ReadOk(t', g) { assert ReadOk(t, g); }
      }
    case Start(h, id) => StartReads(t, h, id);
    case Scribble(h, junk) =>
      forall g | g in t'.s.clients ensures ReadOk(t', g) { assert ReadOk(t, g); }
    case Flushed =>
      forall g | g in t'.s.clients ensures ReadOk(t', g) { assert ReadOk(t, g); }
  }

  lemma StartReads(t: Trace, h: nat, id: nat)
    requires Inv(t) && Reads(t) && Exec(t, Start(h, id)).Some?
    ensures Reads(Exec(t, Start(h, id)).value)
  {
    var t' := Exec(t, Start(h, id)).value;
    forall g | g in t'.s.clients ensures ReadOk(t', g) {
      if g == h {
        forall i | 0 <= i < |t.s.queue| ensures t.s.queue[i].client != h { assert Kept(t, i); }
      } else {
        assert ReadOk(t, g);
      }
    }
  }

  lemma {:induction false} RunReads(events: seq<Event>)
    requires Run(events).Some?
    ensures Reads(Run(events).value)
  {
    if events != [] {
      RunInv(events[..|events| - 1]);
      RunReads(events[..|events| - 1]);
      StepReads(Run(events[..|events| - 1]).value, events[|events| - 1]);
    }
  }

  /** In every run a client is being read exactly when nothing of it is queued, unless its last reply
      was empty or its input was closed when its buffer was written. */
  lemma ReadsIff(events: seq<Event>, h: nat)
    requires Run(events).Some? && h in Run(events).value.s.clients
    ensures var t := Run(events).value;
            t.s.clients[h].reading <==> !HasQueued(t.s, h) && h !in t.stopped
  {
    RunReads(events);
    assert ReadOk(Run(events).value, h);
  }

  /** Every element is flushed before the next is written. */
  lemma FlushesEach(events: seq<Event>)
    requires Run(events).Some?
    ensures var t := Run(events).value; t.written == t.flushed + if t.s.flushing then 1 else 0
  {
    RunReads(events);
  }

  /** The queue can always be drained; then the next reply of every client that has not stopped is
      possible: the multiplexer never stalls. */
  lemma {:induction false} Drains(events: seq<Event>) returns (more: seq<Event>)
    requires Run(events).Some?
    ensures events <= more && Run(more).Some? && Run(more).value.s.queue == []
    ensures forall h, data: seq<byte> :: h in Run(more).value.s.clients && h !in Run(more).value.stopped && |data| <= MAX_MUX_SIZE ==>
              Exec(Run(more).value, Replies(h, data)).Some?
    decreases 2 * |Run(events).value.s.queue| + if Run(events).value.s.flushing then 1 else 0
  {
    var t := Run(events).value;
    RunInv(events);
    if t.s.queue == [] {
      more := events;
      forall h | h in t.s.clients && h !in t.stopped ensures t.s.clients[h].reading { ReadsIff(events, h); }
    } else {
      var e := if t.s.flushing then Flushed else Idle(true);
      assert Kept(t, 0);
      assert (events + [e])[..|events|] == events;
      assert Run(events + [e]) == Exec(t, e);
      more := Drains(events + [e]);
    }
  }

  // ---------------------------------------------------------------- receiving

  /** The frames at the head of a stream, and what is left of it. */
  function Parse(s: seq<byte>): (seq<Frame>, seq<byte>)
    decreases |s|
  {
    if |s| < 10 then ([], s) else
    var n := FromLe(s[8..10]);
    if |s| < 10 + n then ([], s) else
    var (fs, rest) := Parse(s[10 + n..]);
    ([Frame(FromLe(s[..8]), s[10..10 + n])] + fs, rest)
  }

  /** A frame in bytes: eight of the client, two of the size, and the data. */
  lemma FrameFields(f: Frame)
    requires f.client < U64 && |f.data| <= 65535
    ensures var s := Encode(f);
            |s| == 10 + |f.data| && FromLe(s[..8]) == f.client && FromLe(s[8..10]) == |f.data| && s[10..] == f.data
  {
    var s := Encode(f);
    Spans();
    LeRoundTrip(f.client, 8);
    LeRoundTrip(|f.data|, 2);
    assert s[..8] == Le(f.client, 8) && s[8..10] == Le(|f.data|, 2);
  }

  /** A whole frame at the head of a stream comes first, whatever follows. */
  lemma ParseHead(a: seq<byte>, b: seq<byte>)
    requires |a| >= 10 && |a| >= 10 + FromLe(a[8..10])
    ensures var n := FromLe(a[8..10]);
            var later := Parse(a[10 + n..] + b);
            Parse(a + b) == ([Frame(FromLe(a[..8]), a[10..10 + n])] + later.0, later.1)
  {
    var n := FromLe(a[8..10]);
    assert (a + b)[..8] == a[..8] && (a + b)[8..10] == a[8..10] && (a + b)[10..10 + n] == a[10..10 + n];
    assert (a + b)[10 + n..] == a[10 + n..] + b;
  }

  /** A stream can be parsed piece by piece. */
  lemma {:induction false} ParseAppend(a: seq<byte>, b: seq<byte>)
    ensures var (fs, rest) := Parse(a);
            var (fs', rest') := Parse(rest + b);
            Parse(a + b) == (fs + fs', rest')
    decreases |a|
  {
    if |a| < 10 || |a| < 10 + FromLe(a[8..10]) {
      assert [] + Parse(a + b).0 == Parse(a + b).0;
    } else {
      var n := FromLe(a[8..10]);
      var first := [Frame(FromLe(a[..8]), a[10..10 + n])];
      var later := Parse(a[10 + n..]);
      ParseHead(a, b);
      ParseAppend(a[10 + n..], b);
      assert first + (later.0 + Parse(later.1 + b).0) == first + later.0 + Parse(later.1 + b).0;
    }
  }

  lemma ParseFrame(f: Frame, rest: seq<byte>)
    requires f.client < U64 && |f.data| <= MAX_MUX_SIZE
    ensures Parse(Encode(f) + rest) == ([f] + Parse(rest).0, Parse(rest).1)
  {
    var s := Encode(f) + rest;
    LeRoundTrip(f.client, 8);
    LeRoundTrip(|f.data|, 2);
    assert s[..8] == Le(f.client, 8) && s[8..10] == Le(|f.data|, 2);
    assert s[10..10 + |f.data|] == f.data && s[10 + |f.data|..] == rest;
  }

  /** A prefix of the stream of some frames parses to the first of them. */
  lemma {:induction false} ParsePrefix(fs: seq<Frame>, s: seq<byte>)
    requires s <= EncodeAll(fs)
    requires forall i :: 0 <= i < |fs| ==> fs[i].client < U64 && |fs[i].data| <= MAX_MUX_SIZE
    ensures Parse(s).0 <= fs
    ensures s == EncodeAll(fs) ==> Parse(s) == (fs, [])
  {
    if fs != [] {
      var f, e, later := fs[0], Encode(fs[0]), EncodeAll(fs[1..]);
      if |e| <= |s| {
        assert s[..|e|] == (e + later)[..|e|] == e;
        assert s[|e|..] <= later;
        assert s == e + s[|e|..];
        ParseFrame(f, s[|e|..]);
        ParsePrefix(fs[1..], s[|e|..]);
        assert fs == [f] + fs[1..];
      } else {
        ParseShort(f, s);
      }
    }
  }

  lemma ParseShort(f: Frame, s: seq<byte>)
    requires s < Encode(f) && f.client < U64 && |f.data| <= MAX_MUX_SIZE
    ensures Parse(s) == ([], s)
  {
    if |s| >= 10 {
      LeRoundTrip(|f.data|, 2);
      assert s[8..10] == Encode(f)[8..10] == Le(|f.data|, 2);
    }
  }

  /** However the clients interleave: what has been written parses to the first of the frames
      replied, in order; when the queue is empty it parses to all of them; and while it is not,
      the idle callback or a flush is outstanding. */
  lemma RoundTrip(events: seq<Event>)
    requires Run(events).Some?
    ensures var t := Run(events).value;
            && Parse(t.s.out).0 <= t.frames
            && (t.s.queue == [] ==> Parse(t.s.out) == (t.frames, []))
            && (t.s.queue != [] ==> t.s.idle || t.s.flushing)
  {
    RunInv(events);
    var t := Run(events).value;
    assert t.s.out <= EncodeAll(t.frames);
    if t.s.queue == [] {
      assert Flatten(t.promised) == [];
      assert t.s.out + [] == t.s.out;
    }
    ParsePrefix(t.frames, t.s.out);
  }

  /** No header and no buffer changes between being queued and being written. */
  lemma NothingOverwritten(events: seq<Event>, i: nat)
    requires Run(events).Some? && i < |Run(events).value.s.queue|
    ensures var t := Run(events).value;
            && i < |t.promised|
            && t.s.queue[i].client in t.s.clients
            && Bytes(t.s.clients, t.s.queue[i]) == t.promised[i]
  {
    RunInv(events);
    assert Kept(Run(events).value, i);
  }
}
