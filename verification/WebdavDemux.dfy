/**
 The demultiplexer of the WebDAV channel: a chain of reads takes the stream apart into frames, each
 of which is written to its client out of one buffer before the next is read. The port may open
 and close at any time.
 */
module WebdavDemux {
  import opened Common
  import W = Webdav

  datatype Part = ClientId | Size | Data

  /** An outstanding read; current tells whether the channel still has its cancellable. */
  datatype Read = Read(part: Part, current: bool)

  /** demuxing is the flag that start_demux tests; readOps and writeOps are the operations outstanding,
      buf is the buffer that both use. refused is set when the server does not take a new client.
      What has happened since demultiplexing began: the bytes of whole frames, those read of the next
      frame, the frames completed, and the frames handed to clients. */
  datatype State = State(open: bool, demuxing: bool, readOps: seq<Read>, writeOps: seq<W.Frame>,
                         client: nat, size: nat, buf: seq<byte>, clients: set<nat>, refused: bool,
                         whole: seq<byte>, partial: seq<byte>, frames: seq<W.Frame>, delivered: seq<W.Frame>)

  const FRESH: State := State(false, false, [], [], 0, 0, [], {}, false, [], [], [], [])

  // ---------------------------------------------------------------- the steps

  /** The stream refuses a read while one is outstanding. A read asked for with a cancelled
      cancellable fails at once, and then nothing more is done. */
  function Asked(s: State, part: Part): State {
    if s.readOps == [] && s.open then s.(readOps := [Read(part, true)]) else s
  }

  function Started(s: State): State {
    if s.demuxing then s else Asked(s.(demuxing := true), ClientId)
  }

  function Finished(s: State): State { Started(s.(demuxing := false)) }

  /** The frame in the buffer goes to its client. */
  function Delivered(s: State): State {
    var n := Min(s.size, |s.buf|);
    var s1 := s.(delivered := s.delivered + [W.Frame(s.client, s.buf[..n])]);
    if s.size > 0 then s1.(writeOps := s1.writeOps + [W.Frame(s.client, s.buf[..n])]) else Finished(s1)
  }

  function GotClient(s: State, bytes: seq<byte>): State
    requires s.readOps != []
  {
    Asked(s.(readOps := s.readOps[1..], client := FromLe(bytes), partial := s.partial + bytes), Size)
  }

  function GotSize(s: State, bytes: seq<byte>): State
    requires s.readOps != []
  {
    Asked(s.(readOps := s.readOps[1..], size := FromLe(bytes), partial := s.partial + bytes), Data)
  }

  /** The data has been read: the frame is complete. */
  function Taken(s: State, bytes: seq<byte>): State
    requires s.readOps != []
  {
    s.(readOps := s.readOps[1..], buf := bytes, whole := s.whole + s.partial + bytes, partial := [],
       frames := s.frames + [W.Frame(s.client, bytes)])
  }

  /** A client that is not known is started, if the server accepts it. */
  function Routed(s: State, accepted: bool): State {
    if s.client in s.clients then Delivered(s)
    else if accepted then Delivered(s.(clients := s.clients + {s.client}))
    else s.(refused := true)
  }

  function GotData(s: State, bytes: seq<byte>, accepted: bool): State
    requires s.readOps != []
  {
    Routed(Taken(s, bytes), accepted)
  }

  /** The write to a client has ended. */
  function Written(s: State, ok: bool): State
    requires s.writeOps != []
  {
    Finished(s.(writeOps := s.writeOps[1..], clients := if ok then s.clients else s.clients - {s.writeOps[0].client}))
  }

  function Aged(readOps: seq<Read>): seq<Read> {
    seq(|readOps|, i requires 0 <= i < |readOps| => readOps[i].(current := false))
  }

  function NotCurrent(readOps: seq<Read>): seq<Read> {
    if readOps == [] then [] else (if readOps[0].current then [] else [readOps[0]]) + NotCurrent(readOps[1..])
  }

  /** The port opens: a new cancellable, and demultiplexing starts unless it is going on. */
  function PortOpened(s: State): State {
    var s1 := s.(open := true, readOps := Aged(s.readOps));
    Started(if s.demuxing then s1 else Forgotten(s1))
  }

  /** The record of what has happened starts anew. */
  function Forgotten(s: State): State { s.(refused := false, whole := [], partial := [], frames := [], delivered := []) }

  /** The port closes: the reads with the present cancellable end, and so will the writes. */
  function PortClosed(s: State): State {
    s.(open := false, readOps := NotCurrent(s.readOps), demuxing := false, clients := {})
  }

  // ---------------------------------------------------------------- as the code runs

  class Demux {
    var open: bool
    var demuxing: bool
    var readOps: seq<Read>
    var writeOps: seq<W.Frame>
    var client: nat
    var size: nat
    var buf: seq<byte>
    var clients: set<nat>
    var refused: bool
    var whole: seq<byte>
    var partial: seq<byte>
    var frames: seq<W.Frame>
    var delivered: seq<W.Frame>

    ghost function View(): State
      reads this
    {
      State(open, demuxing, readOps, writeOps, client, size, buf, clients, refused, whole, partial, frames, delivered)
    }

    constructor ()
      ensures View() == FRESH
    {
      open, demuxing, readOps, writeOps := false, false, [], [];
      client, size, buf, clients, refused := 0, 0, [], {}, false;
      whole, partial, frames, delivered := [], [], [], [];
    }

    method ReadAllAsync(part: Part)
      modifies this
      ensures View() == Asked(old(View()), part)
    {
      if readOps != [] {
        return;
      }
      if open {
        readOps := [Read(part, true)];
      }
    }

    method StartDemux()
      modifies this
      ensures View() == Started(old(View()))
    {
      if demuxing {
        return;
      }
      demuxing := true;
      ReadAllAsync(ClientId);
    }

    method ClientReadCb(bytes: seq<byte>)
      requires readOps != []
      modifies this
      ensures View() == GotClient(old(View()), bytes)
    {
      readOps, partial := readOps[1..], partial + bytes;
      client := FromLe(bytes);
      ReadAllAsync(Size);
    }

    method SizeReadCb(bytes: seq<byte>)
      requires readOps != []
      modifies this
      ensures View() == GotSize(old(View()), bytes)
    {
      readOps, partial := readOps[1..], partial + bytes;
      size := FromLe(bytes);
      ReadAllAsync(Data);
    }

    method DataReadCb(bytes: seq<byte>, accepted: bool)
      requires readOps != []
      modifies this
      ensures View() == GotData(old(View()), bytes, accepted)
    {
      readOps, whole, partial := readOps[1..], whole + partial + bytes, [];
      buf := bytes;
      frames := frames + [W.Frame(client, bytes)];
      assert View() == Taken(old(View()), bytes);
      if client in clients {
        DemuxToClient();
      } else if accepted {
        clients := clients + {client};
        DemuxToClient();
      } else {
        refused := true;
      }
    }

    method DemuxToClient()
      modifies this
      ensures View() == Delivered(old(View()))
    {
      var frame := W.Frame(client, buf[..Min(size, |buf|)]);
      delivered := delivered + [frame];
      if size > 0 {
        writeOps := writeOps + [frame];
      } else {
        DemuxToClientFinish();
      }
    }

    method DemuxToClientCb(ok: bool)
      requires writeOps != []
      modifies this
      ensures View() == Written(old(View()), ok)
    {
      if !ok {
        clients := clients - {writeOps[0].client};
      }
      writeOps := writeOps[1..];
      DemuxToClientFinish();
    }

    method DemuxToClientFinish()
      modifies this
      ensures View() == Finished(old(View()))
    {
      demuxing := false;
      StartDemux();
    }

    method PortOpens()
      modifies this
      ensures View() == PortOpened(old(View()))
    {
      open := true;
      readOps := Aged(readOps);
      if !demuxing {
        Forget();
      }
      StartDemux();
    }

    /** The record starts anew. */
    method Forget()
      modifies this
      ensures View() == Forgotten(old(View()))
    {
      refused, whole, partial, frames, delivered := false, [], [], [], [];
    }

    method PortEvent(opens: bool)
      modifies this
      ensures View() == if opens then PortOpened(old(View())) else PortClosed(old(View()))
    {
      if opens {
        PortOpens();
      } else {
        open, demuxing := false, false;
        readOps := NotCurrent(readOps);
        clients := {};
      }
    }
  }

  // ---------------------------------------------------------------- runs

  /** Arrives stands for the bytes that an outstanding read puts into the buffer before it completes. */
  datatype Event =
    | Opens
    | Closes
    | ClientRead(bytes: seq<byte>)
    | SizeRead(bytes: seq<byte>)
    | Arrives(bytes: seq<byte>)
    | DataRead(bytes: seq<byte>, accepted: bool)
    | WriteEnds(ok: bool)

  predicate Awaits(s: State, part: Part) { s.readOps != [] && s.readOps[0].part == part }

  function Exec(s: State, e: Event): Option<State> {
    match e
    case Opens => Some(PortOpened(s))
    case Closes => Some(PortClosed(s))
    case ClientRead(bytes) => if Awaits(s, ClientId) && |bytes| == 8 then Some(GotClient(s, bytes)) else None
    case SizeRead(bytes) => if Awaits(s, Size) && |bytes| == 2 then Some(GotSize(s, bytes)) else None
    case Arrives(bytes) => if Awaits(s, Data) then Some(s.(buf := bytes)) else None
    case DataRead(bytes, accepted) => if Awaits(s, Data) && |bytes| == s.size then Some(GotData(s, bytes, accepted)) else None
    case WriteEnds(ok) => if s.writeOps != [] then Some(Written(s, ok)) else None
  }

  function Run(events: seq<Event>): Option<State> {
    if events == [] then Some(FRESH) else
    var s := Run(events[..|events| - 1]);
    if s.None? then None else Exec(s.value, events[|events| - 1])
  }

  /** Exactly one operation is outstanding, unless the server refused a client; the part of a frame
      that has been read is what the outstanding read follows. */
  ghost predicate Going(s: State) {
    && |s.readOps| + |s.writeOps| == (if s.refused then 0 else 1)
    && W.Parse(s.whole) == (s.frames, [])
    && (if s.readOps == [] then s.partial == [] else Follows(s, s.readOps[0].part))
    && s.delivered == (if s.refused && s.frames != [] then s.frames[..|s.frames| - 1] else s.frames)
    && (s.refused ==> s.frames != [])
    && (s.writeOps != [] ==> s.delivered != [] && s.writeOps[0] == s.delivered[|s.delivered| - 1] && InBuffer(s, s.writeOps[0]))
  }

  ghost predicate Follows(s: State, part: Part) {
    match part
    case ClientId => s.partial == []
    case Size => |s.partial| == 8 && s.client == FromLe(s.partial)
    case Data => |s.partial| == 10 && s.client == FromLe(s.partial[..8]) && s.size == FromLe(s.partial[8..])
  }

  /** The frame being written is still in the buffer, and its size is the one noted. */
  ghost predicate InBuffer(s: State, f: W.Frame) {
    s.size == |f.data| <= |s.buf| && s.buf[..s.size] == f.data && s.client == f.client
  }

  /** Demultiplexing goes on exactly while the port is open; otherwise nothing is outstanding. */
  ghost predicate Inv(s: State) {
    && s.demuxing == s.open
    && (if s.open then Going(s) else s.readOps == [] && s.writeOps == [])
  }

  /** The port is closed while a client is being written to, or while a read is outstanding that was
      started before the port opened once more. */
  predicate Disturbs(s: State, e: Event) {
    e.Closes? && (s.writeOps != [] || exists i :: 0 <= i < |s.readOps| && !s.readOps[i].current)
  }

  lemma OpensInv(s: State)
    requires Inv(s)
    ensures Inv(PortOpened(s))
  {
    if s.demuxing {
      assert |Aged(s.readOps)| == |s.readOps|;
    } else {
      assert Aged(s.readOps) == [];
      assert W.Parse([]) == ([], []);
    }
  }

  lemma {:induction false} NotCurrentNone(readOps: seq<Read>)
    ensures NotCurrent(readOps) == [] <==> forall i :: 0 <= i < |readOps| ==> readOps[i].current
  {
    if readOps != [] {
      NotCurrentNone(readOps[1..]);
      if forall i :: 0 <= i < |readOps[1..]| ==> readOps[1..][i].current {
        assert forall i :: 1 <= i < |readOps| ==> readOps[i] == readOps[1..][i - 1];
      }
    }
  }

  lemma ClosesInvIff(s: State)
    requires Inv(s)
    ensures Inv(PortClosed(s)) <==> !Disturbs(s, Closes)
  {
    NotCurrentNone(s.readOps);
  }

  lemma PartsInv(s: State, e: Event)
    requires Inv(s) && Exec(s, e).Some? && (e.ClientRead? || e.SizeRead? || e.Arrives?)
    ensures Inv(Exec(s, e).value)
  {
    assert |s.readOps| == 1;
    if e.ClientRead? {
      assert [] + e.bytes == e.bytes;
    } else if e.SizeRead? {
      var partial := s.partial + e.bytes;
      assert partial[..8] == s.partial && partial[8..] == e.bytes;
    }
  }

  lemma WholeFrame(partial: seq<byte>, data: seq<byte>)
    requires |partial| == 10 && FromLe(partial[8..]) == |data|
    ensures W.Parse(partial + data) == ([W.Frame(FromLe(partial[..8]), data)], [])
  {
    var s := partial + data;
    assert s[..8] == partial[..8] && s[8..10] == partial[8..] && s[10..10 + |data|] == data && s[10 + |data|..] == [];
    assert W.Parse([]) == ([], []);
    var first := [W.Frame(FromLe(partial[..8]), data)];
    assert first + [] == first;
  }

  lemma FrameAppends(whole: seq<byte>, frames: seq<W.Frame>, partial: seq<byte>, data: seq<byte>)
    requires W.Parse(whole) == (frames, []) && |partial| == 10 && FromLe(partial[8..]) == |data|
    ensures W.Parse(whole + partial + data) == (frames + [W.Frame(FromLe(partial[..8]), data)], [])
  {
    WholeFrame(partial, data);
    W.ParseAppend(whole, partial + data);
    assert [] + (partial + data) == partial + data;
    assert whole + (partial + data) == whole + partial + data;
  }

  lemma DataParses(s: State, bytes: seq<byte>)
    requires Inv(s) && Awaits(s, Data) && |bytes| == s.size
    ensures W.Parse(s.whole + s.partial + bytes) == (s.frames + [W.Frame(s.client, bytes)], [])
  {
    FrameAppends(s.whole, s.frames, s.partial, bytes);
  }

  /** A frame is complete, and nothing is outstanding. */
  ghost predicate Complete(s: State) {
    && s.open && s.demuxing && !s.refused && s.readOps == [] && s.writeOps == [] && s.partial == []
    && W.Parse(s.whole) == (s.frames, []) && s.frames == s.delivered + [W.Frame(s.client, s.buf)]
    && s.size == |s.buf|
  }

  lemma TakenComplete(s: State, bytes: seq<byte>)
    requires Inv(s) && Awaits(s, Data) && |bytes| == s.size
    ensures Complete(Taken(s, bytes))
  {
    DataParses(s, bytes);
    assert |s.readOps| == 1;
  }

  lemma DeliveredInv(s: State)
    requires Complete(s)
    ensures Inv(Delivered(s))
  {
    assert s.buf[..|s.buf|] == s.buf;
  }

  lemma DataInv(s: State, bytes: seq<byte>, accepted: bool)
    requires Inv(s) && Awaits(s, Data) && |bytes| == s.size
    ensures Inv(GotData(s, bytes, accepted))
  {
    var s1 := Taken(s, bytes);
    TakenComplete(s, bytes);
    if s1.client in s1.clients {
      DeliveredInv(s1);
    } else if accepted {
      DeliveredInv(s1.(clients := s1.clients + {s1.client}));
    } else {
      assert s1.frames[..|s1.frames| - 1] == s1.delivered;
    }
  }

  lemma WriteInv(s: State, ok: bool)
    requires Inv(s) && s.writeOps != []
    ensures Inv(Written(s, ok))
  {
    assert |s.writeOps| == 1 && s.readOps == [];
  }

  /** Every event keeps the invariant, but for the closing of the port at such a time. */
  lemma StepInvIff(s: State, e: Event)
    requires Inv(s) && Exec(s, e).Some?
    ensures Inv(Exec(s, e).value) <==> !Disturbs(s, e)
  {
    match e
    case Opens => OpensInv(s);
    case Closes => ClosesInvIff(s);
    case DataRead(bytes, accepted) => DataInv(s, bytes, accepted);
    case WriteEnds(ok) => WriteInv(s, ok);
    case _ => PartsInv(s, e);
  }

  predicate Undisturbed(events: seq<Event>) {
    events == [] ||
    (var s := Run(events[..|events| - 1]);
     && Undisturbed(events[..|events| - 1])
     && (s.Some? ==> !Disturbs(s.value, events[|events| - 1])))
  }

  lemma {:induction false} RunInv(events: seq<Event>)
    requires Run(events).Some? && Undisturbed(events)
    ensures Inv(Run(events).value)
  {
    if events != [] {
      RunInv(events[..|events| - 1]);
      StepInvIff(Run(events[..|events| - 1]).value, events[|events| - 1]);
    }
  }

  // ---------------------------------------------------------------- what follows for every run

  /** While the port is open and no client was refused, exactly one operation is outstanding: never
      two reads, never a read into the buffer that a client is being written from, and never none.
      The bytes being written are those in the buffer. */
  lemma OneOutstanding(events: seq<Event>)
    requires Run(events).Some? && Undisturbed(events)
    ensures var s := Run(events).value;
            && |s.readOps| + |s.writeOps| == (if s.open && !s.refused then 1 else 0)
            && (s.writeOps != [] ==> s.readOps == [] && InBuffer(s, s.writeOps[0]))
            && (s.open <==> s.demuxing)
  {
    RunInv(events);
  }

  /** Who is known as a client: whoever has been sent a frame, until a write to it fails or the port
      closes. */
  lemma StepClients(s: State, e: Event)
    requires Exec(s, e).Some?
    ensures var known := Exec(s, e).value.clients;
            match e
            case Closes => known == {}
            case DataRead(_, accepted) => known == if s.client in s.clients || accepted then s.clients + {s.client} else s.clients
            case WriteEnds(ok) => known == if ok then s.clients else s.clients - {s.writeOps[0].client}
            case _ => known == s.clients
  {
    if e.DataRead? && s.client in s.clients { assert s.clients + {s.client} == s.clients; }
  }

  /** A client that is being written to is known. */
  lemma {:induction false} WriterKnown(events: seq<Event>)
    requires Run(events).Some? && Undisturbed(events)
    ensures var s := Run(events).value; s.writeOps != [] ==> s.writeOps[0].client in s.clients
  {
    if events != [] {
      var front, e := events[..|events| - 1], events[|events| - 1];
      WriterKnown(front);
      RunInv(front);
      StepClients(Run(front).value, e);
      StepWriter(Run(front).value, e);
    }
  }

  lemma StepWriter(s: State, e: Event)
    requires Inv(s) && !Disturbs(s, e) && Exec(s, e).Some? && (s.writeOps != [] ==> s.writeOps[0].client in s.clients)
    ensures var s' := Exec(s, e).value; s'.writeOps != [] ==> s'.writeOps[0].client in s'.clients
  {
    match e
    case DataRead(bytes, accepted) =>
      assert s.writeOps == [];
      assert Taken(s, bytes).writeOps == [];
    case WriteEnds(ok) => assert |s.writeOps| == 1;
    case _ =>
  }

  /** After a write that succeeds its client stays known, after one that fails it is not. */
  lemma WriteEndsKnown(events: seq<Event>, ok: bool)
    requires Run(events).Some? && Undisturbed(events) && Run(events).value.writeOps != []
    ensures var s := Run(events).value;
            var s' := Exec(s, WriteEnds(ok));
            && s'.Some? && (s.writeOps[0].client in s'.value.clients <==> ok)
            && forall c :: c != s.writeOps[0].client ==> (c in s'.value.clients <==> c in s.clients)
  {
    WriterKnown(events);
    StepClients(Run(events).value, WriteEnds(ok));
  }

  /** What is handed to the clients is what the stream parses to, in order, without the last frame
      if its client was refused. */
  lemma DeliversParse(events: seq<Event>)
    requires Run(events).Some? && Undisturbed(events) && Run(events).value.open
    ensures var s := Run(events).value;
            && W.Parse(s.whole) == (s.frames, [])
            && s.frames <= W.Parse(s.whole + s.partial).0
            && s.delivered <= s.frames
            && |s.frames| - |s.delivered| == (if s.refused then 1 else 0)
  {
    RunInv(events);
    var s := Run(events).value;
    W.ParseAppend(s.whole, s.partial);
  }

  /** The stream of some frames, read to its end, is delivered as these frames. */
  lemma DeliversSent(events: seq<Event>, fs: seq<W.Frame>)
    requires Run(events).Some? && Undisturbed(events) && Run(events).value.open && !Run(events).value.refused
    requires Run(events).value.whole == W.EncodeAll(fs)
    requires forall i :: 0 <= i < |fs| ==> fs[i].client < U64 && |fs[i].data| <= W.MAX_MUX_SIZE
    ensures Run(events).value.delivered == fs
  {
    DeliversParse(events);
    W.ParsePrefix(fs, W.EncodeAll(fs));
  }

  // ---------------------------------------------------------------- closing during a write

  const ID: seq<byte> := [5, 0, 0, 0, 0, 0, 0, 0]

  /** A frame of one byte is on its way to its client when the port closes. */
  const CUT_SHORT: seq<Event> := [Opens, ClientRead(ID), SizeRead([1, 0]), DataRead([9], true), Closes]

  const FRAME: W.Frame := W.Frame(5, [9])

  lemma RunSnoc(events: seq<Event>, s: State, e: Event, s': State)
    requires Run(events) == Some(s) && Exec(s, e) == Some(s')
    ensures Run(events + [e]) == Some(s')
  {
    assert (events + [e])[..|events|] == events;
  }

  lemma Header()
    ensures FromLe(ID) == 5 && FromLe([1, 0]) == 1
  {
    assert ID[1..] == seq(7, _ => 0);
    Zeros(7);
    assert [1, 0][1..] == [0] == seq(1, _ => 0);
    Zeros(1);
  }

  lemma {:induction false} Zeros(n: nat)
    ensures FromLe(seq(n, _ => 0)) == 0
  {
    if n > 0 {
      assert seq(n, _ => 0 as byte)[1..] == seq(n - 1, _ => 0);
      Zeros(n - 1);
    }
  }

  function AwaitingSize(): State {
    FRESH.(open := true, demuxing := true, readOps := [Read(Size, true)], client := 5, partial := ID)
  }

  function Writing(): State {
    FRESH.(open := true, demuxing := true, client := 5, size := 1, buf := [9], clients := {5}, whole := ID + [1, 0] + [9],
           frames := [FRAME], delivered := [FRAME], writeOps := [FRAME])
  }

  function ClosedEarly(): State { Writing().(open := false, demuxing := false, clients := {}) }

  function Opened0(): State { FRESH.(open := true, demuxing := true, readOps := [Read(ClientId, true)]) }

  function AwaitingData(): State {
    AwaitingSize().(readOps := [Read(Data, true)], size := 1, partial := ID + [1, 0])
  }

  lemma FirstParts()
    ensures Exec(FRESH, Opens) == Some(Opened0())
    ensures Exec(Opened0(), ClientRead(ID)) == Some(AwaitingSize())
  {
    Header();
    assert Aged([]) == [] && [] + [Read(ClientId, true)] == [Read(ClientId, true)];
    assert [] + ID == ID && [Read(ClientId, true)][1..] + [Read(Size, true)] == [Read(Size, true)];
  }

  lemma SecondPart()
    ensures Exec(AwaitingSize(), SizeRead([1, 0])) == Some(AwaitingData())
  {
    Header();
    assert [Read(Size, true)][1..] + [Read(Data, true)] == [Read(Data, true)];
  }

  lemma ThirdPart()
    ensures Exec(AwaitingData(), DataRead([9], true)) == Some(Writing())
  {
    assert [] + (ID + [1, 0]) == ID + [1, 0] && [9][..1] == [9] && [Read(Data, true)][1..] == [];
    assert Taken(AwaitingData(), [9]) == Writing().(clients := {}, delivered := [], writeOps := []);
    assert GotData(AwaitingData(), [9], true) == Writing();
  }

  function HeaderRead(): seq<Event> { [Opens] + [ClientRead(ID)] + [SizeRead([1, 0])] }

  lemma BeforeData()
    ensures Run(HeaderRead()) == Some(AwaitingData())
  {
    var one: seq<Event> := [] + [Opens];
    FirstParts();
    RunSnoc([], FRESH, Opens, Opened0());
    RunSnoc(one, Opened0(), ClientRead(ID), AwaitingSize());
    SecondPart();
    RunSnoc(one + [ClientRead(ID)], AwaitingSize(), SizeRead([1, 0]), AwaitingData());
    assert [] + [Opens] == [Opens];
  }

  lemma Parts()
    ensures CUT_SHORT == HeaderRead() + [DataRead([9], true)] + [Closes]
  {
  }

  lemma CutShort()
    ensures Run(CUT_SHORT) == Some(ClosedEarly())
  {
    BeforeData();
    ThirdPart();
    RunSnoc(HeaderRead(), AwaitingData(), DataRead([9], true), Writing());
    RunSnoc(HeaderRead() + [DataRead([9], true)], Writing(), Closes, ClosedEarly());
    Parts();
  }

  /** A client that the server does not take: nothing is outstanding from then on. */
  lemma Refusal() returns (s: State)
    ensures Run(HeaderRead() + [DataRead([9], false)]) == Some(s)
    ensures s.open && s.refused && s.readOps == [] && s.writeOps == []
  {
    s := GotData(AwaitingData(), [9], false);
    BeforeData();
    RunSnoc(HeaderRead(), AwaitingData(), DataRead([9], false), s);
  }

  predicate NeverCloses(events: seq<Event>) { Closes !in events }

  /** A run in which the port never closes is undisturbed. */
  lemma {:induction false} NeverClosesUndisturbed(events: seq<Event>)
    requires NeverCloses(events)
    ensures Undisturbed(events)
  {
    if events != [] {
      assert events[|events| - 1] in events;
      NeverClosesUndisturbed(events[..|events| - 1]);
    }
  }

  /** Only closing the port ends that. */
  lemma RefusedStays(s: State, e: Event)
    requires Inv(s) && s.open && s.refused && Exec(s, e).Some? && !e.Closes?
    ensures Inv(Exec(s, e).value) && Exec(s, e).value.open && Exec(s, e).value.refused
  {
    StepInvIff(s, e);
  }

  /** The port is open, and yet nothing is outstanding and nothing will be. */
  predicate Dead(s: State) { s.open && s.demuxing && s.readOps == [] && s.writeOps == [] && !s.refused }

  /** The write ends before the port opens again: demultiplexing is taken to go on, and is dead. */
  lemma DeadAfterClose() returns (s: State)
    ensures Run(CUT_SHORT + [WriteEnds(false)] + [Opens]) == Some(s) && Dead(s)
  {
    var s1 := Written(ClosedEarly(), false);
    s := PortOpened(s1);
    CutShort();
    RunSnoc(CUT_SHORT, ClosedEarly(), WriteEnds(false), s1);
    RunSnoc(CUT_SHORT + [WriteEnds(false)], s1, Opens, s);
  }

  lemma DeadStays(s: State, e: Event)
    requires Dead(s) && Exec(s, e).Some? && !e.Closes?
    ensures Dead(Exec(s, e).value)
  {
  }

  /** The write ends after the port has opened again: start_demux runs while a read is outstanding,
      the stream refuses the second one, and all is as after the opening. */
  lemma LateEnd() returns (s: State)
    ensures Run(CUT_SHORT + [Opens]) == Some(PortOpened(ClosedEarly())) && !Inv(PortOpened(ClosedEarly()))
    ensures Run(CUT_SHORT + [Opens] + [WriteEnds(false)]) == Some(s)
    ensures s.readOps == [Read(ClientId, true)] && Inv(s)
  {
    var s1 := PortOpened(ClosedEarly());
    s := Written(s1, false);
    CutShort();
    RunSnoc(CUT_SHORT, ClosedEarly(), Opens, s1);
    RunSnoc(CUT_SHORT + [Opens], s1, WriteEnds(false), s);
    assert Aged([]) == [];
    assert W.Parse([]) == ([], []);
  }

  // ---------------------------------------------------------------- every run at all

  lemma NotCurrentShrinks(s: State)
    requires |s.readOps| <= 1
    ensures |NotCurrent(s.readOps)| <= 1
  {
    if s.readOps != [] { assert s.readOps[1..] == []; }
  }

  lemma StepOneRead(s: State, e: Event)
    requires |s.readOps| <= 1 && Exec(s, e).Some?
    ensures |Exec(s, e).value.readOps| <= 1
  {
    match e
    case Opens => assert |PortOpened(s).readOps| <= 1;
    case Closes => NotCurrentShrinks(s);
    case DataRead(bytes, accepted) => assert Taken(s, bytes).readOps == [];
    case _ =>
  }

  /** Never are two reads outstanding, whatever the port does. */
  lemma {:induction false} OneRead(events: seq<Event>)
    requires Run(events).Some?
    ensures |Run(events).value.readOps| <= 1
  {
    if events != [] {
      OneRead(events[..|events| - 1]);
      StepOneRead(Run(events[..|events| - 1]).value, events[|events| - 1]);
    }
  }
}
