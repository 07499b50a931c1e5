/**
 The byte stream to and from the agent: a message is a 20-byte header and a payload, sent in
 chunks of bounded size; the receiver puts messages together from pieces cut anywhere.
 */
module AgentStream {
  import opened Common

  const MAX_DATA: nat := 2048
  const HEADER: nat := 20
  const PROTOCOL: nat := 1

  /** The header as it lies in memory: protocol, type, an opaque number, and the payload size. */
  function Header(kind: nat, size: nat): (r: seq<byte>)
    ensures |r| == HEADER && r[16..] == Le(size, 4)
  {
    var r := Le(PROTOCOL, 4) + Le(kind, 4) + Le(0, 4) + Le(0, 4) + Le(size, 4);
    assert r[16..] == Le(size, 4);
    r
  }

  lemma Words(a: seq<byte>, b: seq<byte>, c: seq<byte>, d: seq<byte>, e: seq<byte>)
    requires |a| == |b| == |c| == |d| == |e| == 4
    ensures var h := a + b + c + d + e;
            h[..4] == a && h[4..8] == b && h[8..16] == c + d && h[16..] == e
  {
    var h, ab, abcd := a + b + c + d + e, a + b, a + b + c + d;
    assert h[16..] == e && h[..16] == abcd;
    assert h[..8] == ab && h[..4] == ab[..4] == a && h[4..8] == ab[4..] == b;
    assert h[8..16] == abcd[8..] == c + d;
  }

  lemma HeaderSlices(kind: nat, size: nat)
    ensures var h := Header(kind, size);
            h[..4] == Le(PROTOCOL, 4) && h[4..8] == Le(kind, 4) && h[8..16] == Le(0, 4) + Le(0, 4) && h[16..] == Le(size, 4)
  {
    Words(Le(PROTOCOL, 4), Le(kind, 4), Le(0, 4), Le(0, 4), Le(size, 4));
  }

  /** The header read back, field by field. */
  lemma HeaderFields(kind: nat, size: nat)
    requires kind < U32 && size < U32
    ensures var h := Header(kind, size);
            |h| == 20 && FromLe(h[..4]) == 1 && FromLe(h[4..8]) == kind && FromLe(h[8..16]) == 0 && FromLe(h[16..]) == size
  {
    HeaderSlices(kind, size);
    ZeroBytes();
    Spans();
    LeRoundTrip(1, 4);
    LeRoundTrip(kind, 4);
    LeRoundTrip(0, 8);
    LeRoundTrip(size, 4);
  }

  lemma ZeroBytes()
    ensures Le(0, 4) + Le(0, 4) == Le(0, 8)
  {
    assert Le(0, 8) == [0] + Le(0, 7) && Le(0, 7) == [0] + Le(0, 6) && Le(0, 6) == [0] + Le(0, 5) && Le(0, 5) == [0] + Le(0, 4);
    assert Le(0, 4) == [0] + Le(0, 3) && Le(0, 3) == [0] + Le(0, 2) && Le(0, 2) == [0] + Le(0, 1) && Le(0, 1) == [0] + Le(0, 0);
  }

  function SizeOf(header: seq<byte>): nat
    requires |header| == HEADER
  {
    FromLe(header[16..])
  }

  /** A message on the wire. */
  function Wire(kind: nat, payload: seq<byte>): seq<byte> { Header(kind, |payload|) + payload }

  // ---------------------------------------------------------------- sending

  /** The chunks of a message. */
  function Chunks(s: seq<byte>): seq<seq<byte>> {
    if |s| <= MAX_DATA then [s] else [s[..MAX_DATA]] + Chunks(s[MAX_DATA..])
  }

  lemma {:induction false} ChunksOf(s: seq<byte>)
    ensures Flatten(Chunks(s)) == s
    ensures forall i :: 0 <= i < |Chunks(s)| ==> |Chunks(s)[i]| <= 2048
    ensures forall i :: 0 <= i < |Chunks(s)| - 1 ==> |Chunks(s)[i]| == 2048
  {
    if |s| > MAX_DATA {
      ChunksOf(s[MAX_DATA..]);
      assert s == s[..MAX_DATA] + s[MAX_DATA..];
      assert Chunks(s)[1..] == Chunks(s[MAX_DATA..]);
    } else {
      assert Flatten([s]) == s + Flatten<byte>([]);
    }
  }

  /** What the queue will hold once the message, cut off after the bytes of the open chunk, is complete. */
  function Outcome(queue: seq<seq<byte>>, open: bool, part: seq<byte>, rest: seq<byte>): seq<seq<byte>> {
    if open then queue + Chunks(part + rest) else if rest == [] then queue else queue + Chunks(rest)
  }

  class Sender {
    var queue: seq<seq<byte>>

    constructor ()
      ensures queue == []
    {
      queue := [];
    }

    /** Queues a message whose payload comes in several buffers, in chunks of at most MAX_DATA
        bytes; no chunk is left unfinished. */
    method QueueMany(kind: nat, bufs: seq<seq<byte>>)
      modifies this
      ensures queue == old(queue) + Chunks(Wire(kind, Flatten(bufs)))
    {
      var size: nat := 0;
      for i := 0 to |bufs|
        invariant size == |Flatten(bufs[..i])| && queue == old(queue)
      {
        assert bufs[..i + 1] == bufs[..i] + [bufs[i]];
        FlattenSnoc(bufs[..i], bufs[i]);
        size := size + |bufs[i]|;
      }
      assert bufs[..|bufs|] == bufs && bufs[0..] == bufs;
      var room: nat := Min(MAX_DATA, size + HEADER) - HEADER;
      var part := Header(kind, size);
      var open := true;
      ghost var goal := queue + Chunks(Wire(kind, Flatten(bufs)));
      assert part + Flatten(bufs) == Wire(kind, Flatten(bufs));
      if room == 0 {
        assert Flatten(bufs) == [] && part + [] == part;
        queue := queue + [part];
        open := false;
      }
      var i := 0;
      while size > 0
        invariant i <= |bufs| && size == |Flatten(bufs[i..])|
        invariant open ==> room > 0 && |part| + room == Min(MAX_DATA, |part| + size)
        invariant Outcome(queue, open, part, Flatten(bufs[i..])) == goal
        decreases |bufs| - i
      {
        var d := bufs[i];
        assert bufs[i..][1..] == bufs[i + 1..];
        open, part, room, size := QueueBuffer(d, open, part, room, size, Flatten(bufs[i + 1..]));
        i := i + 1;
      }
      assert Flatten(bufs[i..]) == [];
      assert !open;  // the warning at the end is never given
      assert queue == goal;
    }

    /** Copies one buffer into chunks. */
    method QueueBuffer(d: seq<byte>, open0: bool, part0: seq<byte>, room0: nat, size0: nat, ghost later: seq<byte>)
      returns (open: bool, part: seq<byte>, room: nat, size: nat)
      requires size0 == |d| + |later|
      requires open0 ==> room0 > 0 && |part0| + room0 == Min(MAX_DATA, |part0| + size0)
      modifies this
      ensures size == |later|
      ensures open ==> room > 0 && |part| + room == Min(MAX_DATA, |part| + size)
      ensures Outcome(queue, open, part, later) == old(Outcome(queue, open0, part0, d + later))
    {
      open, part, room, size := open0, part0, room0, size0;
      var s := d;
      while |s| > 0
        invariant size == |s| + |later|
        invariant open ==> room > 0 && |part| + room == Min(MAX_DATA, |part| + size)
        invariant Outcome(queue, open, part, s + later) == old(Outcome(queue, open0, part0, d + later))
        decreases |s|
      {
        if !open {
          room := Min(MAX_DATA, size);
          part := [];
          open := true;
          assert [] + (s + later) == s + later;
        }
        var n := Min(room, |s|);
        Cut(part, s, n, later);
        part := part + s[..n];
        s := s[n..];
        size := size - n;
        room := room - n;
        if room == 0 {
          ClosesChunk(queue, part, s + later);
          queue := queue + [part];
          open := false;
        }
      }
      assert s + later == later;
    }
  }

  lemma Cut(part: seq<byte>, s: seq<byte>, n: nat, later: seq<byte>)
    requires n <= |s|
    ensures part + (s + later) == (part + s[..n]) + (s[n..] + later)
  {
    assert s == s[..n] + s[n..];
  }

  /** A chunk without room is complete. */
  lemma ClosesChunk(queue: seq<seq<byte>>, part: seq<byte>, rest: seq<byte>)
    requires |part| == Min(MAX_DATA, |part| + |rest|)
    ensures Outcome(queue, true, part, rest) == Outcome(queue + [part], false, part, rest)
  {
    if rest == [] {
      assert part + rest == part;
    } else {
      assert (part + rest)[..MAX_DATA] == part && (part + rest)[MAX_DATA..] == rest;
      assert queue + ([part] + Chunks(rest)) == queue + [part] + Chunks(rest);
    }
  }

  // ---------------------------------------------------------------- what a stream contains

  datatype Message = Message(header: seq<byte>, data: seq<byte>)

  predicate Complete(s: seq<byte>) {
    |s| >= HEADER && |s| >= HEADER + SizeOf(s[..HEADER])
  }

  /** The length of the message at the head of a stream. */
  function Span(s: seq<byte>): nat
    requires |s| >= HEADER
  {
    HEADER + SizeOf(s[..HEADER])
  }

  /** The messages in a stream, in order, and the bytes of the last, incomplete one. */
  function Parse(s: seq<byte>): (seq<Message>, seq<byte>)
    decreases |s|
  {
    if !Complete(s) then ([], s) else
    var n := Span(s);
    var (ms, rest) := Parse(s[n..]);
    ([Message(s[..HEADER], s[HEADER..n])] + ms, rest)
  }

  /** A stream can be parsed piece by piece. */
  lemma {:induction false} ParseAppend(a: seq<byte>, b: seq<byte>)
    ensures var (ms, rest) := Parse(a);
            var (ms', rest') := Parse(rest + b);
            Parse(a + b) == (ms + ms', rest')
    decreases |a|
  {
    if Complete(a) {
      var n := Span(a);
      assert (a + b)[..HEADER] == a[..HEADER];
      assert (a + b)[HEADER..n] == a[HEADER..n];
      assert (a + b)[n..] == a[n..] + b;
      ParseAppend(a[n..], b);
      var first := [Message(a[..HEADER], a[HEADER..n])];
      var (ms, rest) := Parse(a[n..]);
      var (ms', rest') := Parse(rest + b);
      assert first + (ms + ms') == first + ms + ms';
    } else {
      var (ms', rest') := Parse(a + b);
      assert [] + ms' == ms';
    }
  }

  lemma ParseOne(m: seq<byte>)
    requires |m| >= HEADER && |m| == Span(m)
    ensures Parse(m) == ([Message(m[..HEADER], m[HEADER..])], [])
  {
    assert m[|m|..] == [] && m[HEADER..|m|] == m[HEADER..];
    assert Parse([]) == ([], []);
    var first := [Message(m[..HEADER], m[HEADER..])];
    assert first + [] == first;
  }

  /** Bytes that arrived after the pending ones extend the log by the messages that they complete. */
  ghost predicate Took(log: seq<Message>, before: seq<byte>, bytes: seq<byte>, log': seq<Message>, after: seq<byte>) {
    log' == log + Parse(before + bytes).0 && after == Parse(before + bytes).1
  }

  lemma TookMore(log: seq<Message>, before: seq<byte>, input: seq<byte>, from: nat, next: nat,
                 log1: seq<Message>, rest: seq<byte>, log2: seq<Message>, after: seq<byte>)
    requires from <= next <= |input|
    requires Took(log, before, input[..from], log1, rest) && Took(log1, rest, input[from..next], log2, after)
    ensures Took(log, before, input[..next], log2, after)
  {
    ParseAppend(before + input[..from], input[from..next]);
    assert before + input[..from] + input[from..next] == before + input[..next];
  }

  // ---------------------------------------------------------------- receiving

  class Receiver {
    var header: array<byte>
    var data: array?<byte>
    var pos: nat
    var handled: seq<Message>

    /** Between calls a message is incomplete, and its buffer is there once its header is. */
    ghost predicate Valid()
      reads this, header, data
    {
      && header.Length == HEADER
      && (pos < HEADER ==> data == null)
      && (pos >= HEADER ==> data != null && data as object != header && data.Length == SizeOf(header[..])
                            && pos < HEADER + data.Length)
    }

    /** The bytes of the incomplete message. */
    ghost function Pending(): seq<byte>
      reads this, header, data
      requires Valid()
    {
      if pos < HEADER then header[..pos] else header[..] + data[..pos - HEADER]
    }

    constructor ()
      ensures Valid() && Pending() == [] && handled == []
      ensures fresh(header)
    {
      header := new byte[HEADER](_ => 0);
      data, pos, handled := null, 0, [];
    }

    /** What is pending is not a complete message. */
    lemma Incomplete()
      requires Valid()
      ensures Parse(Pending()) == ([], Pending())
    {
      if pos >= HEADER { assert Pending()[..HEADER] == header[..]; }
    }

    /** Copies bytes into the header, and makes the buffer when the header is complete. */
    method FillHeader(input: seq<byte>, start: nat) returns (next: nat)
      requires Valid() && start < |input| && pos < HEADER
      modifies `pos, `data, header
      ensures header.Length == HEADER && start < next <= |input| && pos <= HEADER
      ensures header[..pos] == old(Pending()) + input[start..next]
      ensures pos < HEADER ==> next == |input| && data == null
      ensures pos == HEADER ==> data != null && fresh(data) && data.Length == SizeOf(header[..])
    {
      var n := Min(HEADER - pos, |input| - start);
      ghost var before := Pending();
      forall i | 0 <= i < n {
        header[pos + i] := input[start + i];
      }
      pos := pos + n;
      next := start + n;
      assert header[..pos] == before + input[start..next];
      if pos == HEADER {
        assert header[..pos] == header[..];
        data := new byte[SizeOf(header[..])](_ => 0);
      }
    }

    /** Copies bytes into the payload buffer. */
    method FillData(input: seq<byte>, start: nat) returns (next: nat)
      requires header.Length == HEADER && data != null && data as object != header
      requires start <= |input| && HEADER <= pos <= HEADER + data.Length
      modifies `pos, data
      ensures start <= next <= |input| && old(pos) <= pos <= HEADER + data.Length
      ensures data[..pos - HEADER] == old(data[..pos - HEADER]) + input[start..next]
      ensures pos == HEADER + data.Length || next == |input|
    {
      var n := Min(HEADER + data.Length - pos, |input| - start);
      ghost var before := data[..pos - HEADER];
      forall i | 0 <= i < n {
        data[pos - HEADER + i] := input[start + i];
      }
      pos := pos + n;
      next := start + n;
      assert data[..pos - HEADER] == before + input[start..next];
    }

    /** Hands the message over when it is complete. */
    method HandOver()
      requires header.Length == HEADER
      requires pos < HEADER ==> data == null
      requires pos >= HEADER ==> data != null && data as object != header && data.Length == SizeOf(header[..])
                                 && pos <= HEADER + data.Length
      modifies `pos, `data, `handled
      ensures Valid() && (data == null || data == old(data))
      ensures var whole := if old(pos) < HEADER then old(header[..pos]) else old(header[..] + data[..pos - HEADER]);
              Took(old(handled), whole, [], handled, Pending())
    {
      assert forall x: seq<byte> :: x + [] == x;
      if pos >= HEADER && pos == HEADER + data.Length {
        ghost var whole := header[..] + data[..];
        assert whole[..HEADER] == header[..] && whole[HEADER..] == data[..];
        assert data[..pos - HEADER] == data[..];
        ParseOne(whole);
        handled := handled + [Message(header[..], data[..])];
        data := null;
        pos := 0;
      } else {
        Incomplete();
      }
    }

    /** Takes the bytes that complete the header, the payload, or as many as there are. */
    method HandleSome(input: seq<byte>, start: nat) returns (next: nat)
      requires Valid() && start < |input|
      modifies this, header, data
      ensures Valid() && start < next <= |input|
      ensures header == old(header) && (data == null || data == old(data) || fresh(data))
      ensures Took(old(handled), old(Pending()), input[start..next], handled, Pending())
    {
      next := start;
      ghost var before := Pending();
      if pos < HEADER {
        next := FillHeader(input, start);
        assert pos == HEADER ==> header[..pos] == header[..] && header[..] + data[..0] == header[..];
      } else {
        assert before + input[start..start] == before;
      }
      if pos >= HEADER {
        next := FillRest(input, start, next, before);
      }
      ghost var whole := before + input[start..next];
      HandOver();
      assert whole + [] == whole;
    }

    /** Copies bytes into the payload buffer, the header being complete. */
    method FillRest(input: seq<byte>, ghost start: nat, mid: nat, ghost before: seq<byte>) returns (next: nat)
      requires header.Length == HEADER && data != null && data as object != header
      requires start <= mid <= |input| && HEADER <= pos <= HEADER + data.Length
      requires header[..] + data[..pos - HEADER] == before + input[start..mid]
      modifies `pos, data
      ensures mid <= next <= |input| && HEADER <= pos <= HEADER + data.Length
      ensures header[..] == old(header[..]) && header[..] + data[..pos - HEADER] == before + input[start..next]
      ensures pos == HEADER + data.Length || next == |input|
    {
      ghost var part := data[..pos - HEADER];
      next := FillData(input, mid);
      assert input[start..next] == input[start..mid] + input[mid..next];
      assert header[..] + data[..pos - HEADER] == header[..] + part + input[mid..next];
    }

    /** The loop over a piece of the stream. */
    method HandleAll(input: seq<byte>)
      requires Valid()
      modifies this, header, data
      ensures Valid() && header == old(header) && (data == null || data == old(data) || fresh(data))
      ensures Took(old(handled), old(Pending()), input, handled, Pending())
    {
      ghost var before, log := Pending(), handled;
      var next := 0;
      Incomplete();
      assert before + input[..0] == before && log + [] == log;
      while next < |input|
        invariant Valid() && next <= |input| && header == old(header)
        invariant data == null || data == old(data) || fresh(data)
        invariant Took(log, before, input[..next], handled, Pending())
      {
        ghost var from, seen, rest := next, handled, Pending();
        next := HandleSome(input, next);
        TookMore(log, before, input, from, next, seen, rest, handled, Pending());
      }
      assert input[..next] == input;
    }

    /** Handles a piece of the stream; a piece that is exactly one message takes a shortcut. */
    method HandleData(input: seq<byte>)
      requires Valid()
      modifies this, header, data
      ensures Valid() && header == old(header) && (data == null || data == old(data) || fresh(data))
      ensures Took(old(handled), old(Pending()), input, handled, Pending())
    {
      // an input below 20 bytes is shorter than any size announced, so that it cannot match
      if pos == 0 && |input| >= HEADER && SizeOf(input[..HEADER]) + HEADER == |input| {
        ParseOne(input);
        assert Pending() + input == input;
        handled := handled + [Message(input[..HEADER], input[HEADER..])];
      } else {
        HandleAll(input);
      }
    }
  }

  // ---------------------------------------------------------------- the round trip

  datatype Outgoing = Outgoing(kind: nat, bufs: seq<seq<byte>>)

  /** The chunks of a list of messages, in order. */
  function AllChunks(msgs: seq<Outgoing>): seq<seq<byte>> {
    if msgs == [] then [] else Chunks(Wire(msgs[0].kind, Flatten(msgs[0].bufs))) + AllChunks(msgs[1..])
  }

  /** What the receiver should see. */
  function Expected(msgs: seq<Outgoing>): seq<Message> {
    if msgs == [] then [] else
    var payload := Flatten(msgs[0].bufs);
    [Message(Header(msgs[0].kind, |payload|), payload)] + Expected(msgs[1..])
  }

  /** The payload sizes fit the 32-bit size field. */
  predicate Sizes(msgs: seq<Outgoing>) { forall i :: 0 <= i < |msgs| ==> |Flatten(msgs[i].bufs)| < U32 }

  /** A stream of whole messages parses back to them, and leaves nothing over. */
  lemma {:induction false} WireParses(msgs: seq<Outgoing>)
    requires Sizes(msgs)
    ensures Parse(Flatten(AllChunks(msgs))) == (Expected(msgs), [])
  {
    if msgs != [] {
      var payload := Flatten(msgs[0].bufs);
      var w := Wire(msgs[0].kind, payload);
      FlattenAppend(Chunks(w), AllChunks(msgs[1..]));
      ChunksOf(w);
      LeRoundTrip(|payload|, 4);
      assert w[..HEADER] == Header(msgs[0].kind, |payload|) && w[HEADER..] == payload;
      ParseOne(w);
      ParseAppend(w, Flatten(AllChunks(msgs[1..])));
      assert [] + Flatten(AllChunks(msgs[1..])) == Flatten(AllChunks(msgs[1..]));
      WireParses(msgs[1..]);
    }
  }

  /** Queues a list of messages. */
  method QueueAll(msgs: seq<Outgoing>) returns (queue: seq<seq<byte>>)
    ensures queue == AllChunks(msgs)
  {
    var sender := new Sender();
    for i := 0 to |msgs|
      invariant fresh(sender) && sender.queue + AllChunks(msgs[i..]) == AllChunks(msgs)
    {
      AllChunksCons(sender.queue, msgs, i);
      sender.QueueMany(msgs[i].kind, msgs[i].bufs);
    }
    assert sender.queue + [] == sender.queue;
    queue := sender.queue;
  }

  lemma AllChunksCons(queue: seq<seq<byte>>, msgs: seq<Outgoing>, i: nat)
    requires i < |msgs|
    ensures queue + AllChunks(msgs[i..])
            == queue + Chunks(Wire(msgs[i].kind, Flatten(msgs[i].bufs))) + AllChunks(msgs[i + 1..])
  {
    assert msgs[i..][1..] == msgs[i + 1..];
  }

  lemma {:induction false} ExpectedAt(msgs: seq<Outgoing>, i: nat)
    requires i < |msgs|
    ensures |Expected(msgs)| == |msgs|
    ensures var payload := Flatten(msgs[i].bufs);
            Expected(msgs)[i] == Message(Header(msgs[i].kind, |payload|), payload)
  {
    if i > 0 {
      ExpectedAt(msgs[1..], i - 1);
    } else if |msgs| > 1 {
      ExpectedAt(msgs[1..], 0);
    }
  }

  /** What the receiver sees of a message: its protocol, its type, its size and its payload. */
  predicate SeenAs(m: Message, o: Outgoing) {
    && |m.header| == 20 && m.data == Flatten(o.bufs)
    && FromLe(m.header[..4]) == 1 && FromLe(m.header[4..8]) == o.kind && FromLe(m.header[8..16]) == 0
    && FromLe(m.header[16..]) == |Flatten(o.bufs)|
  }

  /** The messages queued, fed to a fresh receiver in pieces of any size, are seen as they were. */
  method Transfer(msgs: seq<Outgoing>, cuts: seq<nat>) returns (seen: seq<Message>)
    requires Sizes(msgs) && forall i :: 0 <= i < |msgs| ==> msgs[i].kind < U32
    ensures |seen| == |msgs| && forall i :: 0 <= i < |msgs| ==> SeenAs(seen[i], msgs[i])
  {
    var queue := QueueAll(msgs);
    WireParses(msgs);
    seen := Feed(Flatten(queue), cuts);
    forall i | 0 <= i < |msgs| ensures |seen| == |msgs| && SeenAs(seen[i], msgs[i]) {
      ExpectedAt(msgs, i);
      HeaderFields(msgs[i].kind, |Flatten(msgs[i].bufs)|);
    }
  }

  /** A fresh receiver is fed a stream in pieces. */
  method Feed(stream: seq<byte>, cuts: seq<nat>) returns (seen: seq<Message>)
    ensures seen == Parse(stream).0
  {
    var receiver := new Receiver();
    var at := 0;
    assert Parse([]) == ([], []) && stream[..0] == [];
    for i := 0 to |cuts|
      invariant fresh(receiver) && receiver.Valid() && fresh(receiver.header)
      invariant receiver.data != null ==> fresh(receiver.data)
      invariant at <= |stream| && Took([], [], stream[..at], receiver.handled, receiver.Pending())
    {
      var next := Min(|stream|, at + cuts[i]);
      ghost var log, rest := receiver.handled, receiver.Pending();
      receiver.HandleData(stream[at..next]);
      TookMore([], [], stream, at, next, log, rest, receiver.handled, receiver.Pending());
      at := next;
    }
    ghost var log, rest := receiver.handled, receiver.Pending();
    receiver.HandleData(stream[at..|stream|]);
    TookMore([], [], stream, at, |stream|, log, rest, receiver.handled, receiver.Pending());
    assert [] + stream[..|stream|] == stream;
    seen := receiver.handled;
  }
}
