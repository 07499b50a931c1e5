/**
 Port forwarding: a connection carries a byte stream each way, the sender holding back once a
 window of bytes is unacknowledged. The connection code is modelled once and put at both
 ends of two first-in-first-out links.
 */
module PortForward {
  import opened Common

  const WINDOW_SIZE: nat := 10 * 1024 * 1024

  /** What fits into one agent message of 2048 bytes behind its own header and the data header. */
  const BUFFER_SIZE: nat := 2048 - 20 - 8

  datatype Msg = Data(data: seq<byte>) | Ack(size: nat)

  /** One end of a connection. readOps and writeOps count the outstanding operations. */
  datatype Conn = Conn(connecting: bool, dataSent: nat, dataReceived: nat, ackInterval: nat,
                       refs: int, readOps: nat, writeOps: int, writeBuffer: seq<seq<byte>>)

  // ---------------------------------------------------------------- the callbacks

  /** A read has completed with some bytes. */
  function ReadDone(c: Conn, data: seq<byte>): (r: (Conn, Msg))
    requires c.readOps > 0
  {
    var sent := (c.dataSent + |data|) % U32;
    if sent < WINDOW_SIZE then (c.(dataSent := sent), Data(data))
    else (c.(dataSent := sent, readOps := c.readOps - 1, refs := c.refs - 1), Data(data))
  }

  /** What is left in the queue after n bytes of its head have been written. */
  function Written(buffer: seq<seq<byte>>, n: nat): seq<seq<byte>>
    requires buffer != [] && n <= |buffer[0]|
  {
    if n < |buffer[0]| then [buffer[0][n..]] + buffer[1..] else buffer[1..]
  }

  /** A write has completed with n bytes. */
  function WriteDone(c: Conn, n: nat): (r: (Conn, Option<Msg>))
    requires c.writeBuffer != [] && n <= |c.writeBuffer[0]|
  {
    var rest := Written(c.writeBuffer, n);
    var c' := if rest != [] then c.(writeBuffer := rest)
              else c.(writeBuffer := rest, writeOps := c.writeOps - 1, refs := c.refs - 1);
    var received := (c.dataReceived + n) % U32;
    if received >= c.ackInterval then (c'.(dataReceived := 0), Some(Ack(received)))
    else (c'.(dataReceived := received), None)
  }

  /** The connection attempt of the accepting side has succeeded. */
  function ConnectDone(c: Conn): (Conn, Msg) {
    (c.(connecting := false, readOps := c.readOps + 1), Ack(WINDOW_SIZE / 2))
  }

  function HandleData(c: Conn, data: seq<byte>): Conn {
    if c.connecting then c else
    var buffer := c.writeBuffer + [data];
    if |buffer| == 1 then c.(writeBuffer := buffer, refs := c.refs + 1, writeOps := c.writeOps + 1)
    else c.(writeBuffer := buffer)
  }

  function HandleAck(c: Conn, size: nat): Conn {
    if c.connecting then
      c.(connecting := false, ackInterval := size, refs := c.refs + 1, readOps := c.readOps + 1)
    else
      var left := (c.dataSent - size) % U32;
      if left < WINDOW_SIZE && c.dataSent >= WINDOW_SIZE
      then c.(dataSent := left, refs := c.refs + 1, readOps := c.readOps + 1)
      else c.(dataSent := left)
  }

  // ---------------------------------------------------------------- as the code runs

  class Connection {
    var connecting: bool
    var dataSent: nat
    var dataReceived: nat
    var ackInterval: nat
    var refs: int
    var writeBuffer: seq<seq<byte>>
    var readOps: nat
    var writeOps: int

    ghost function View(): Conn
      reads this
    {
      Conn(connecting, dataSent, dataReceived, ackInterval, refs, readOps, writeOps, writeBuffer)
    }

    constructor (interval: nat)
      ensures View() == Conn(true, 0, 0, interval, 1, 0, 0, [])
    {
      connecting, dataSent, dataReceived, ackInterval, refs := true, 0, 0, interval, 1;
      readOps, writeOps, writeBuffer := 0, 0, [];
    }

    /** A read has completed without error and with some bytes; it is repeated while the window is open. */
    method ReadCallback(data: seq<byte>) returns (msg: Msg)
      requires readOps > 0
      modifies this
      ensures (View(), msg) == ReadDone(old(View()), data)
    {
      readOps := readOps - 1;
      msg := Data(data);
      dataSent := (dataSent + |data|) % U32;
      if dataSent < WINDOW_SIZE {
        readOps := readOps + 1;
      } else {
        refs := refs - 1;
      }
    }

    /** A write has completed without error: what is left of the chunk goes back to the head of
        the queue, and enough written bytes are acknowledged. */
    method WriteCallback(written: nat) returns (msg: Option<Msg>)
      requires writeBuffer != [] && written <= |writeBuffer[0]|
      modifies this
      ensures (View(), msg) == WriteDone(old(View()), written)
    {
      var bytes := writeBuffer[0];
      writeBuffer := writeBuffer[1..];
      writeOps := writeOps - 1;
      var remaining := |bytes| - written;
      if remaining != 0 {
        writeBuffer := [bytes[written..]] + writeBuffer;
      }
      if writeBuffer != [] {
        writeOps := writeOps + 1;
      } else {
        refs := refs - 1;
      }
      msg := None;
      dataReceived := (dataReceived + written) % U32;
      if dataReceived >= ackInterval {
        msg := Some(Ack(dataReceived));
        dataReceived := 0;
      }
    }

    method ConnectCallback() returns (msg: Msg)
      modifies this
      ensures (View(), msg) == ConnectDone(old(View()))
    {
      msg := Ack(WINDOW_SIZE / 2);
      connecting := false;
      readOps := readOps + 1;
    }

    method Receive(msg: Msg)
      modifies this
      ensures View() == if msg.Data? then HandleData(old(View()), msg.data) else HandleAck(old(View()), msg.size)
    {
      if msg.Data? {
        if !connecting {
          writeBuffer := writeBuffer + [msg.data];
          if |writeBuffer| == 1 {
            refs := refs + 1;
            writeOps := writeOps + 1;
          }
        }
      } else if connecting {
        connecting := false;
        ackInterval := msg.size;
        refs := refs + 1;
        readOps := readOps + 1;
      } else {
        var before := dataSent;
        dataSent := (dataSent - msg.size) % U32;
        if dataSent < WINDOW_SIZE && before >= WINDOW_SIZE {
          refs := refs + 1;
          readOps := readOps + 1;
        }
      }
    }
  }

  // ---------------------------------------------------------------- two ends and two links

  /** The opening end o, the accepting end c, the links, and for each end the bytes read from
      and written to its socket so far. */
  datatype Net = Net(o: Conn, c: Conn, toC: seq<Msg>, toO: seq<Msg>,
                     readO: seq<byte>, wroteC: seq<byte>, readC: seq<byte>, wroteO: seq<byte>)

  /** The opener has asked for a connection with this acknowledgement interval, and the acceptor
      is connecting; it holds a reference for the attempt. */
  function Init(interval: nat): Net {
    Net(Conn(true, 0, 0, WINDOW_SIZE / 2, 1, 0, 0, []), Conn(true, 0, 0, interval, 2, 0, 0, []), [], [], [], [], [], [])
  }

  datatype Event =
    | Connect
    | OReads(data: seq<byte>) | OWrites(n: nat) | ODelivers
    | CReads(data: seq<byte>) | CWrites(n: nat) | CDelivers

  function Deliver(c: Conn, m: Msg): Conn {
    if m.Data? then HandleData(c, m.data) else HandleAck(c, m.size)
  }

  predicate CanRead(c: Conn, data: seq<byte>) { c.readOps > 0 && 1 <= |data| <= BUFFER_SIZE }

  predicate CanWrite(c: Conn, n: nat) { c.writeOps > 0 && c.writeBuffer != [] && n <= |c.writeBuffer[0]| }

  function Sent(m: Option<Msg>): seq<Msg> { if m.Some? then [m.value] else [] }

  function Exec(s: Net, e: Event): Option<Net> {
    match e
    case Connect =>
      if !s.c.connecting then None else
      var (c, m) := ConnectDone(s.c);
      Some(s.(c := c, toO := s.toO + [m]))
    case OReads(data) =>
      if !CanRead(s.o, data) then None else
      var (o, m) := ReadDone(s.o, data);
      Some(s.(o := o, toC := s.toC + [m], readO := s.readO + data))
    case CReads(data) =>
      if !CanRead(s.c, data) then None else
      var (c, m) := ReadDone(s.c, data);
      Some(s.(c := c, toO := s.toO + [m], readC := s.readC + data))
    case OWrites(n) =>
      if !CanWrite(s.o, n) then None else
      var (o, m) := WriteDone(s.o, n);
      Some(s.(o := o, toC := s.toC + Sent(m), wroteO := s.wroteO + s.o.writeBuffer[0][..n]))
    case CWrites(n) =>
      if !CanWrite(s.c, n) then None else
      var (c, m) := WriteDone(s.c, n);
      Some(s.(c := c, toO := s.toO + Sent(m), wroteC := s.wroteC + s.c.writeBuffer[0][..n]))
    case ODelivers =>
      if s.toO == [] then None else Some(s.(o := Deliver(s.o, s.toO[0]), toO := s.toO[1..]))
    case CDelivers =>
      if s.toC == [] then None else Some(s.(c := Deliver(s.c, s.toC[0]), toC := s.toC[1..]))
  }

  function Run(interval: nat, events: seq<Event>): Option<Net> {
    if events == [] then Some(Init(interval)) else
    var s := Run(interval, events[..|events| - 1]);
    if s.None? then None else Exec(s.value, events[|events| - 1])
  }

  // ---------------------------------------------------------------- conservation

  /** The data bytes on a link, in order. */
  function Carried(link: seq<Msg>): seq<byte> {
    if link == [] then [] else (if link[0].Data? then link[0].data else []) + Carried(link[1..])
  }

  /** The sum of the acknowledgements on a link. */
  function Acked(link: seq<Msg>): nat {
    if link == [] then 0 else (if link[0].Ack? then link[0].size else 0) + Acked(link[1..])
  }

  lemma {:induction false} LinkAppend(a: seq<Msg>, b: seq<Msg>)
    ensures Carried(a + b) == Carried(a) + Carried(b) && Acked(a + b) == Acked(a) + Acked(b)
  {
    if a == [] {
      assert a + b == b;
    } else {
      assert (a + b)[1..] == a[1..] + b;
      LinkAppend(a[1..], b);
    }
  }

  lemma LinkSnoc(a: seq<Msg>, m: Msg)
    ensures Carried(a + [m]) == Carried(a) + (if m.Data? then m.data else [])
    ensures Acked(a + [m]) == Acked(a) + (if m.Ack? then m.size else 0)
  {
    LinkAppend(a, [m]);
    assert [m][1..] == [];
  }

  /** One direction of the stream. Every unacknowledged byte is on the link, in the queue of the
      receiver, written and not yet acknowledged, or in an acknowledgement on its way; the
      bytes read are those written, queued and on the link, in this order. */
  ghost predicate Flow(s: Conn, r: Conn, link: seq<Msg>, back: seq<Msg>, read: seq<byte>, wrote: seq<byte>) {
    && s.dataSent == |Carried(link)| + |Flatten(r.writeBuffer)| + r.dataReceived + Acked(back)
    && read == wrote + Flatten(r.writeBuffer) + Carried(link)
    && s.dataSent < WINDOW_SIZE + BUFFER_SIZE
    && s.readOps == (if !s.connecting && s.dataSent < WINDOW_SIZE then 1 else 0)
    && r.writeOps == (if r.writeBuffer != [] then 1 else 0)
    && (r.dataReceived == 0 || r.dataReceived < r.ackInterval)
    && (s.connecting ==> s.dataSent == 0 && link == [])
    && (r.connecting ==> r.dataReceived == 0 && r.writeBuffer == [])
  }

  /** References: the table's, one for each outstanding operation, and one for a pending attempt. */
  predicate Counted(c: Conn, attempts: nat) { c.refs == 1 + c.readOps + c.writeOps + attempts }

  /** The acknowledgement that tells the opener that the connection stands is not counted. */
  ghost predicate Inv(interval: nat, s: Net) {
    && (s.c.connecting ==> s.o.connecting && s.toO == [])
    && (s.o.connecting && !s.c.connecting ==> s.toO != [] && s.toO[0] == Ack(WINDOW_SIZE / 2))
    && (s.o.connecting ==> s.toC == [])
    && Flow(s.o, s.c, s.toC, Backlog(s), s.readO, s.wroteC)
    && Flow(s.c, s.o, s.toO, s.toC, s.readC, s.wroteO)
    && s.o.ackInterval == WINDOW_SIZE / 2 && s.c.ackInterval == interval
    && Counted(s.o, 0) && Counted(s.c, if s.c.connecting then 1 else 0)
  }

  /** The messages to the opener that are about the stream. */
  function Backlog(s: Net): seq<Msg> {
    if s.o.connecting && s.toO != [] then s.toO[1..] else s.toO
  }

  /** A read: the bytes go onto the link. */
  lemma ReadKeeps(s: Conn, r: Conn, link: seq<Msg>, back: seq<Msg>, read: seq<byte>, wrote: seq<byte>, data: seq<byte>)
    requires Flow(s, r, link, back, read, wrote) && CanRead(s, data)
    ensures ReadDone(s, data).0.dataSent == s.dataSent + |data|
    ensures Flow(ReadDone(s, data).0, r, link + [Data(data)], back, read + data, wrote)
  {
    LinkSnoc(link, Data(data));
  }

  /** A data message arrives: its bytes go into the queue. */
  lemma DataKeeps(s: Conn, r: Conn, link: seq<Msg>, back: seq<Msg>, read: seq<byte>, wrote: seq<byte>)
    requires Flow(s, r, link, back, read, wrote) && link != [] && link[0].Data? && !r.connecting
    ensures Flow(s, HandleData(r, link[0].data), link[1..], back, read, wrote)
  {
    FlattenSnoc(r.writeBuffer, link[0].data);
  }

  lemma WrittenBytes(buffer: seq<seq<byte>>, n: nat)
    requires buffer != [] && n <= |buffer[0]|
    ensures Flatten(buffer) == buffer[0][..n] + Flatten(Written(buffer, n))
  {
    var head, tail := buffer[0], buffer[1..];
    assert head == head[..n] + head[n..];
    Assoc(head[..n], head[n..], Flatten(tail));
    if n < |head| {
      FlattenCons(head[n..], tail);
    } else {
      assert head[n..] == [];
    }
  }

  lemma Assoc<T>(a: seq<T>, b: seq<T>, c: seq<T>)
    ensures a + b + c == a + (b + c)
  {
  }

  lemma FlattenCons<T>(x: seq<T>, rest: seq<seq<T>>)
    ensures Flatten([x] + rest) == x + Flatten(rest)
  {
    assert ([x] + rest)[1..] == rest;
  }

  /** A write: the bytes leave the queue, and are acknowledged when enough have gathered. */
  lemma WriteKeeps(s: Conn, r: Conn, link: seq<Msg>, back: seq<Msg>, read: seq<byte>, wrote: seq<byte>, n: nat)
    requires Flow(s, r, link, back, read, wrote) && CanWrite(r, n)
    ensures Flow(s, WriteDone(r, n).0, link, back + Sent(WriteDone(r, n).1), read, wrote + r.writeBuffer[0][..n])
  {
    var (r', m) := WriteDone(r, n);
    WrittenBytes(r.writeBuffer, n);
    assert (r.dataReceived + n) % U32 == r.dataReceived + n;
    if m.Some? { LinkSnoc(back, m.value); } else { assert back + Sent(m) == back; }
    assert wrote + r.writeBuffer[0][..n] + Flatten(r'.writeBuffer) == wrote + Flatten(r.writeBuffer);
  }

  /** An acknowledgement arrives: it never exceeds what is unacknowledged, and it restarts
      the reads of a sender that was held back. */
  lemma AckKeeps(s: Conn, r: Conn, link: seq<Msg>, back: seq<Msg>, read: seq<byte>, wrote: seq<byte>)
    requires Flow(s, r, link, back, read, wrote) && back != [] && back[0].Ack? && !s.connecting
    ensures back[0].size <= s.dataSent && HandleAck(s, back[0].size).dataSent == s.dataSent - back[0].size
    ensures Flow(HandleAck(s, back[0].size), r, link, back[1..], read, wrote)
  {
  }

  /** The flow the other way does not notice a change that leaves its own fields and messages alone. */
  lemma FlowFrame(s: Conn, r: Conn, link: seq<Msg>, back: seq<Msg>, read: seq<byte>, wrote: seq<byte>,
                  s': Conn, r': Conn, link': seq<Msg>, back': seq<Msg>)
    requires Flow(s, r, link, back, read, wrote)
    requires Carried(link') == Carried(link) && Acked(back') == Acked(back)
    requires s'.dataSent == s.dataSent && s'.readOps == s.readOps && s'.connecting == s.connecting
    requires s.connecting ==> link' == []
    requires r'.writeBuffer == r.writeBuffer && r'.dataReceived == r.dataReceived
    requires r'.ackInterval == r.ackInterval && r'.writeOps == r.writeOps && (r'.connecting ==> r.connecting)
    ensures Flow(s', r', link', back', read, wrote)
  {
  }

  /** Reads at either end. */
  lemma ReadsInv(interval: nat, s: Net, e: Event)
    requires Inv(interval, s) && (e.OReads? || e.CReads?) && Exec(s, e).Some?
    ensures Inv(interval, Exec(s, e).value)
  {
    var s' := Exec(s, e).value;
    if e.OReads? {
      ReadKeeps(s.o, s.c, s.toC, Backlog(s), s.readO, s.wroteC, e.data);
      LinkSnoc(s.toC, Data(e.data));
      FlowFrame(s.c, s.o, s.toO, s.toC, s.readC, s.wroteO, s'.c, s'.o, s'.toO, s'.toC);
    } else {
      ReadKeeps(s.c, s.o, s.toO, s.toC, s.readC, s.wroteO, e.data);
      LinkSnoc(Backlog(s), Data(e.data));
      assert Backlog(s') == Backlog(s) + [Data(e.data)];
      FlowFrame(s.o, s.c, s.toC, Backlog(s), s.readO, s.wroteC, s'.o, s'.c, s'.toC, Backlog(s'));
    }
  }

  lemma SentIsAck(c: Conn, n: nat, link: seq<Msg>)
    requires CanWrite(c, n)
    ensures Carried(link + Sent(WriteDone(c, n).1)) == Carried(link)
  {
    var m := WriteDone(c, n).1;
    if m.Some? { LinkSnoc(link, m.value); } else { assert link + Sent(m) == link; }
  }

  lemma OWritesInv(interval: nat, s: Net, n: nat)
    requires Inv(interval, s) && Exec(s, OWrites(n)).Some?
    ensures Inv(interval, Exec(s, OWrites(n)).value)
  {
    var s' := Exec(s, OWrites(n)).value;
    WriteKeeps(s.c, s.o, s.toO, s.toC, s.readC, s.wroteO, n);
    SentIsAck(s.o, n, s.toC);
    FlowFrame(s.o, s.c, s.toC, Backlog(s), s.readO, s.wroteC, s'.o, s'.c, s'.toC, Backlog(s'));
  }

  lemma CWritesInv(interval: nat, s: Net, n: nat)
    requires Inv(interval, s) && Exec(s, CWrites(n)).Some?
    ensures Inv(interval, Exec(s, CWrites(n)).value)
  {
    var s' := Exec(s, CWrites(n)).value;
    WriteKeeps(s.o, s.c, s.toC, Backlog(s), s.readO, s.wroteC, n);
    SentIsAck(s.c, n, s.toO);
    assert Backlog(s') == Backlog(s) + Sent(WriteDone(s.c, n).1);
    FlowFrame(s.c, s.o, s.toO, s.toC, s.readC, s.wroteO, s'.c, s'.o, s'.toO, s'.toC);
  }

  /** Deliveries to the accepting end. */
  lemma CDeliversInv(interval: nat, s: Net)
    requires Inv(interval, s) && Exec(s, CDelivers).Some?
    ensures Inv(interval, Exec(s, CDelivers).value)
  {
    var s' := Exec(s, CDelivers).value;
    if s.toC[0].Data? {
      DataKeeps(s.o, s.c, s.toC, s.toO, s.readO, s.wroteC);
      FlowFrame(s.c, s.o, s.toO, s.toC, s.readC, s.wroteO, s'.c, s'.o, s'.toO, s'.toC);
    } else {
      AckKeeps(s.c, s.o, s.toO, s.toC, s.readC, s.wroteO);
      FlowFrame(s.o, s.c, s.toC, s.toO, s.readO, s.wroteC, s'.o, s'.c, s'.toC, s'.toO);
    }
  }

  /** Deliveries to the opening end; the first of them opens the connection. */
  lemma ODeliversInv(interval: nat, s: Net)
    requires Inv(interval, s) && Exec(s, ODelivers).Some?
    ensures Inv(interval, Exec(s, ODelivers).value)
  {
    var s' := Exec(s, ODelivers).value;
    if s.o.connecting {
    } else if s.toO[0].Data? {
      DataKeeps(s.c, s.o, s.toO, s.toC, s.readC, s.wroteO);
      FlowFrame(s.o, s.c, s.toC, s.toO, s.readO, s.wroteC, s'.o, s'.c, s'.toC, s'.toO);
    } else {
      AckKeeps(s.o, s.c, s.toC, s.toO, s.readO, s.wroteC);
      FlowFrame(s.c, s.o, s.toO, s.toC, s.readC, s.wroteO, s'.c, s'.o, s'.toO, s'.toC);
    }
  }

  lemma StepInv(interval: nat, s: Net, e: Event)
    requires Inv(interval, s) && Exec(s, e).Some?
    ensures Inv(interval, Exec(s, e).value)
  {
    match e
    case Connect =>
      assert Exec(s, e).value.toO == [Ack(WINDOW_SIZE / 2)];
    case ODelivers => ODeliversInv(interval, s);
    case CDelivers => CDeliversInv(interval, s);
    case OReads(_) => ReadsInv(interval, s, e);
    case CReads(_) => ReadsInv(interval, s, e);
    case OWrites(n) => OWritesInv(interval, s, n);
    case CWrites(n) => CWritesInv(interval, s, n);
  }

  lemma {:induction false} RunInv(interval: nat, events: seq<Event>)
    requires Run(interval, events).Some?
    ensures Inv(interval, Run(interval, events).value)
  {
    if events != [] {
      RunInv(interval, events[..|events| - 1]);
      StepInv(interval, Run(interval, events[..|events| - 1]).value, events[|events| - 1]);
    }
  }

  // ---------------------------------------------------------------- what follows for every run

  /** In both directions: the conservation of bytes, the bound of the window, and the order of the
      stream, whatever the sizes of the reads and of the partial writes. */
  lemma Conservation(interval: nat, events: seq<Event>)
    requires Run(interval, events).Some?
    ensures var s := Run(interval, events).value;
            && s.o.dataSent == |Carried(s.toC)| + |Flatten(s.c.writeBuffer)| + s.c.dataReceived + Acked(Backlog(s))
            && s.c.dataSent == |Carried(s.toO)| + |Flatten(s.o.writeBuffer)| + s.o.dataReceived + Acked(s.toC)
            && s.o.dataSent < 10_485_760 + 2020 && s.c.dataSent < 10_485_760 + 2020
            && s.wroteC <= s.readO && s.wroteO <= s.readC
  {
    RunInv(interval, events);
    var s := Run(interval, events).value;
    IsPrefix(s.wroteC, Flatten(s.c.writeBuffer), Carried(s.toC));
    IsPrefix(s.wroteO, Flatten(s.o.writeBuffer), Carried(s.toO));
  }

  lemma IsPrefix<T>(a: seq<T>, b: seq<T>, c: seq<T>)
    ensures a <= a + b + c
  {
  }

  /** The opener acknowledges every 5 MiB, the acceptor at the interval that the opener has asked for. */
  lemma Intervals(interval: nat, events: seq<Event>)
    requires Run(interval, events).Some?
    ensures Run(interval, events).value.o.ackInterval == 5_242_880 && Run(interval, events).value.c.ackInterval == interval
  {
    RunInv(interval, events);
  }

  /** The unsigned subtraction of an acknowledgement never wraps around. */
  lemma NoUnderflow(interval: nat, events: seq<Event>)
    requires Run(interval, events).Some?
    ensures var s := Run(interval, events).value;
            && (!s.o.connecting && s.toO != [] && s.toO[0].Ack? ==>
                  HandleAck(s.o, s.toO[0].size).dataSent == s.o.dataSent - s.toO[0].size)
            && (s.toC != [] && s.toC[0].Ack? ==>
                  !s.c.connecting && HandleAck(s.c, s.toC[0].size).dataSent == s.c.dataSent - s.toC[0].size)
  {
    RunInv(interval, events);
    var s := Run(interval, events).value;
    if !s.o.connecting && s.toO != [] && s.toO[0].Ack? { AckKeeps(s.o, s.c, s.toC, s.toO, s.readO, s.wroteC); }
    if s.toC != [] && s.toC[0].Ack? { AckKeeps(s.c, s.o, s.toO, s.toC, s.readC, s.wroteO); }
  }

  /** A connected end has one read outstanding exactly while its window is open, and one write
      exactly while it has something to write; its references are those operations and the table. */
  lemma Outstanding(interval: nat, events: seq<Event>)
    requires Run(interval, events).Some?
    ensures var s := Run(interval, events).value;
            forall x :: x == s.o || x == s.c ==>
              && x.readOps == (if !x.connecting && x.dataSent < 10_485_760 then 1 else 0)
              && x.writeOps == (if x.writeBuffer != [] then 1 else 0)
              && (!x.connecting ==> x.refs == 1 + x.readOps + x.writeOps)
  {
    RunInv(interval, events);
  }

  /** Nothing is on its way and nothing waits to be written. */
  predicate Drained(s: Net) {
    s.toC == [] && s.toO == [] && s.o.writeBuffer == [] && s.c.writeBuffer == []
  }

  /** The run leads to a connection that stands, with nothing left to do for either end but read. */
  predicate Quiet(interval: nat, events: seq<Event>) {
    var s := Run(interval, events);
    s.Some? && Drained(s.value) && !s.value.c.connecting
  }

  lemma NeverStalls(interval: nat, events: seq<Event>)
    requires Quiet(interval, events) && interval <= WINDOW_SIZE
    ensures var s := Run(interval, events).value; s.o.readOps == 1 && s.c.readOps == 1
  {
    RunInv(interval, events);
  }

  function Zeros(n: nat): seq<byte> { seq(n, _ => 0) }

  /** The opener has sent t bytes, all of them written and none acknowledged. */
  function Sent0(interval: nat, t: nat): Net {
    var open := if t < WINDOW_SIZE then 1 else 0;
    Net(Conn(false, t, 0, WINDOW_SIZE / 2, 1 + open, open, 0, []), Conn(false, 0, t, interval, 2, 1, 0, []),
        [], [], Zeros(t), Zeros(t), [], [])
  }

  lemma SendMore(interval: nat, events: seq<Event>, t: nat, k: nat)
    requires interval > WINDOW_SIZE && 1 <= k <= BUFFER_SIZE && t + k <= WINDOW_SIZE
    requires Run(interval, events) == Some(Sent0(interval, t))
    ensures Run(interval, events + [OReads(Zeros(k)), CDelivers, CWrites(k)]) == Some(Sent0(interval, t + k))
  {
    var s, s' := Sent0(interval, t), Sent0(interval, t + k);
    var s1 := s.(o := s'.o, toC := [Data(Zeros(k))], readO := s'.readO);
    var s2 := s1.(c := s.c.(writeBuffer := [Zeros(k)], refs := 3, writeOps := 1), toC := []);
    assert Zeros(t) + Zeros(k) == Zeros(t + k);
    FirstRead(interval, t, k);
    assert Exec(s1, CDelivers) == Some(s2) by { FirstData(s1, Zeros(k)); }
    LastWrite(interval, t, k, s2);
    RunThree(interval, events, OReads(Zeros(k)), CDelivers, CWrites(k));
  }

  lemma FirstRead(interval: nat, t: nat, k: nat)
    requires 1 <= k <= BUFFER_SIZE && t + k <= WINDOW_SIZE
    ensures var s, s' := Sent0(interval, t), Sent0(interval, t + k);
            Exec(s, OReads(Zeros(k))) == Some(s.(o := s'.o, toC := [Data(Zeros(k))], readO := Zeros(t) + Zeros(k)))
  {
    assert [] + [Data(Zeros(k))] == [Data(Zeros(k))];
  }

  lemma FirstData(s: Net, data: seq<byte>)
    requires s.toC == [Data(data)] && s.c.writeBuffer == [] && !s.c.connecting
    ensures Exec(s, CDelivers)
            == Some(s.(c := s.c.(writeBuffer := [data], refs := s.c.refs + 1, writeOps := s.c.writeOps + 1), toC := []))
  {
    assert [Data(data)][1..] == [] && [] + [data] == [data];
  }

  lemma LastWrite(interval: nat, t: nat, k: nat, s: Net)
    requires interval > WINDOW_SIZE && 1 <= k && t + k <= WINDOW_SIZE
    requires s == Sent0(interval, t + k).(c := Sent0(interval, t).c.(writeBuffer := [Zeros(k)], refs := 3, writeOps := 1),
                                          wroteC := Zeros(t))
    ensures Exec(s, CWrites(k)) == Some(Sent0(interval, t + k))
  {
    assert Written([Zeros(k)], k) == [];
    assert Zeros(t) + Zeros(k)[..k] == Zeros(t + k);
    assert WriteDone(s.c, k) == (Sent0(interval, t + k).c, None);
    assert s.toO + Sent(None) == [];
  }

  lemma RunThree(interval: nat, events: seq<Event>, e1: Event, e2: Event, e3: Event)
    requires Run(interval, events).Some? && Exec(Run(interval, events).value, e1).Some?
    requires Exec(Exec(Run(interval, events).value, e1).value, e2).Some?
    ensures Run(interval, events + [e1, e2, e3])
            == Exec(Exec(Exec(Run(interval, events).value, e1).value, e2).value, e3)
  {
    var a, b, c := events + [e1], events + [e1, e2], events + [e1, e2, e3];
    assert a[..|a| - 1] == events && b[..|b| - 1] == a && c[..|c| - 1] == b;
    assert Run(interval, a) == Exec(Run(interval, events).value, e1);
    assert Run(interval, b) == Exec(Run(interval, a).value, e2);
  }

  lemma {:induction false} SendAll(interval: nat, t: nat) returns (events: seq<Event>)
    requires interval > WINDOW_SIZE && t <= WINDOW_SIZE
    ensures Run(interval, events) == Some(Sent0(interval, t))
  {
    if t == 0 {
      events := [Connect, ODelivers];
      assert events[..1] == [Connect] && [Connect][..0] == [];
      assert Run(interval, []) == Some(Init(interval));
      var s := Exec(Init(interval), Connect).value;
      assert Run(interval, [Connect]) == Some(s);
      assert s.toO == [Ack(WINDOW_SIZE / 2)] && s.toO[1..] == [];
      assert Zeros(0) == [];
      assert Exec(s, ODelivers) == Some(Sent0(interval, 0));
    } else {
      var k := Min(t, BUFFER_SIZE);
      var before := SendAll(interval, t - k);
      SendMore(interval, before, t - k, k);
      events := before + [OReads(Zeros(k)), CDelivers, CWrites(k)];
    }
  }

  /** The interval is harmless exactly when it does not exceed the window: with a larger one a
      whole window can be written without being acknowledged, and the sender waits for good. */
  lemma NeverStallsIff(interval: nat)
    ensures (forall events :: Quiet(interval, events) ==> Run(interval, events).value.o.readOps > 0)
            <==> interval <= 10_485_760
  {
    if interval <= WINDOW_SIZE {
      forall events | Quiet(interval, events)
        ensures Run(interval, events).value.o.readOps > 0
      {
        NeverStalls(interval, events);
      }
    } else {
      var events := SendAll(interval, WINDOW_SIZE);
      assert Quiet(interval, events);
    }
  }
}
