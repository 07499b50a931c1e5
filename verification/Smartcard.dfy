/**
 The smartcard channel: one command at a time is with the server, the others wait in a queue,
 and the answer to a "reader added" command says under which id the server knows the reader.
 */
module Smartcard {
  import opened Common

  /** A reader is known by its address. */
  type Reader = nat

  /** The id of a reader that the server has not been told about, (vreader_id_t) -1. */
  const UNDEFINED: nat := 0xffff_ffff

  datatype Kind = ReaderAdd | ReaderRemove | CardRemove | Atr

  /** A command about a reader, with the id in its header. */
  datatype Message = Message(kind: Kind, reader: Reader, id: nat)

  /** sent records the commands sent, in order. The ids are those kept by the readers themselves. */
  datatype State = State(inFlight: Option<Message>, queue: seq<Message>, additions: seq<Reader>,
                         removals: set<Reader>, insertions: set<Reader>, ids: map<Reader, nat>,
                         readOnly: bool, sent: seq<Message>)

  const INIT := State(None, [], [], {}, {}, map[], false, [])

  function Id(s: State, r: Reader): nat { if r in s.ids then s.ids[r] else UNDEFINED }

  predicate Attached(s: State, r: Reader) { Id(s, r) != UNDEFINED }

  // ---------------------------------------------------------------- what the callbacks compute

  function Sent(s: State, m: Message): State {
    if s.readOnly then s
    else if s.inFlight.Some? then s.(queue := s.queue + [m])
    else if s.queue != [] then s
    else s.(inFlight := Some(m), sent := s.sent + [m])
  }

  function SentFor(s: State, r: Reader, kind: Kind): State { Sent(s, Message(kind, r, Id(s, r))) }

  function AtrSent(s: State, r: Reader): State { if Attached(s, r) then SentFor(s, r, Atr) else s }

  function Added(s: State, r: Reader): State {
    if Attached(s, r) || r in s.additions then s
    else SentFor(s.(additions := s.additions + [r]), r, ReaderAdd)
  }

  function Removed(s: State, r: Reader): State {
    if Attached(s, r) then SentFor(s, r, ReaderRemove) else s.(removals := s.removals + {r})
  }

  function Inserted(s: State, r: Reader): State {
    if Attached(s, r) then AtrSent(s, r) else s.(insertions := s.insertions + {r})
  }

  function Ejected(s: State, r: Reader): State {
    if Attached(s, r) then SentFor(s, r, CardRemove) else s.(insertions := s.insertions - {r})
  }

  /** The command in flight is done; the next one is sent. */
  function Completed(s: State): State {
    if s.inFlight.None? then s
    else if s.queue == [] then s.(inFlight := None)
    else s.(inFlight := Some(s.queue[0]), queue := s.queue[1..], sent := s.sent + [s.queue[0]])
  }

  /** What has been kept back for a reader is sent. */
  function CaughtInsertion(s: State, r: Reader): State {
    if r in s.insertions then AtrSent(s, r).(insertions := s.insertions - {r}) else s
  }

  function CaughtRemoval(s: State, r: Reader): State {
    if r in s.removals then SentFor(s, r, CardRemove).(removals := s.removals - {r}) else s
  }

  function CaughtUp(s: State, r: Reader): State { CaughtRemoval(CaughtInsertion(s, r), r) }

  function Named(s: State, id: nat): State
    requires s.additions != []
  {
    s.(additions := s.additions[1..], ids := s.ids[s.additions[0] := id])
  }

  function AckedReader(s: State, id: nat): State
    requires s.additions != []
  {
    CaughtUp(Named(s, id), s.additions[0])
  }

  /** An answer from the server that names the reader `id`. */
  function Acked(s: State, id: nat): State {
    if s.inFlight.None? then s
    else if s.inFlight.value.kind != ReaderAdd then Completed(s)
    else if s.additions == [] || Attached(s, s.additions[0]) then s
    else Completed(AckedReader(s, id))
  }

  // ---------------------------------------------------------------- as the code runs

  class Channel {
    var inFlight: Option<Message>
    var queue: seq<Message>
    var additions: seq<Reader>
    var removals: set<Reader>
    var insertions: set<Reader>
    var ids: map<Reader, nat>
    var readOnly: bool
    var sent: seq<Message>

    ghost function View(): State
      reads this
    {
      State(inFlight, queue, additions, removals, insertions, ids, readOnly, sent)
    }

    constructor ()
      ensures View() == INIT
    {
      inFlight, queue, additions, removals, insertions := None, [], [], {}, {};
      ids, readOnly, sent := map[], false, [];
    }

    method GetId(r: Reader) returns (id: nat)
      ensures id == Id(View(), r)
    {
      id := if r in ids then ids[r] else UNDEFINED;
    }

    method MessageSend(m: Message)
      modifies this
      ensures View() == Sent(old(View()), m)
    {
      if readOnly {
        return;
      }
      if inFlight == None {
        if queue != [] {
          return;
        }
        inFlight := Some(m);
        sent := sent + [m];
      } else {
        queue := queue + [m];
      }
    }

    method SendGeneric(r: Reader, kind: Kind)
      modifies this
      ensures View() == SentFor(old(View()), r, kind)
    {
      var id := GetId(r);
      MessageSend(Message(kind, r, id));
    }

    method SendAtr(r: Reader)
      modifies this
      ensures View() == AtrSent(old(View()), r)
    {
      var id := GetId(r);
      if id != UNDEFINED {
        SendGeneric(r, Atr);
      }
    }

    method ReaderAdded(r: Reader)
      modifies this
      ensures View() == Added(old(View()), r)
    {
      var id := GetId(r);
      if id != UNDEFINED || r in additions {
        return;
      }
      additions := additions + [r];
      SendGeneric(r, ReaderAdd);
    }

    method ReaderRemoved(r: Reader)
      modifies this
      ensures View() == Removed(old(View()), r)
    {
      var id := GetId(r);
      if id != UNDEFINED {
        SendGeneric(r, ReaderRemove);
      } else {
        removals := removals + {r};
      }
    }

    method CardInserted(r: Reader)
      modifies this
      ensures View() == Inserted(old(View()), r)
    {
      var id := GetId(r);
      if id != UNDEFINED {
        SendAtr(r);
      } else {
        insertions := insertions + {r};
      }
    }

    method CardRemoved(r: Reader)
      modifies this
      ensures View() == Ejected(old(View()), r)
    {
      var id := GetId(r);
      if id != UNDEFINED {
        SendGeneric(r, CardRemove);
      } else {
        insertions := insertions - {r};
      }
    }

    method CompleteInFlight()
      modifies this
      ensures View() == Completed(old(View()))
    {
      if inFlight == None {
        return;
      }
      inFlight := None;
      if queue != [] {
        inFlight, queue := Some(queue[0]), queue[1..];
        sent := sent + [inFlight.value];
      }
    }

    method HandleAnswer(id: nat)
      modifies this
      ensures View() == Acked(old(View()), id)
    {
      if inFlight == None {
        return;
      }
      if inFlight.value.kind == ReaderAdd {
        if additions == [] {
          return;
        }
        var reader := additions[0];
        var was := GetId(reader);
        if was != UNDEFINED {
          return;
        }
        additions := additions[1..];
        ids := ids[reader := id];
        if reader in insertions {
          SendAtr(reader);
          insertions := insertions - {reader};
        }
        if reader in removals {
          SendGeneric(reader, CardRemove);
          removals := removals - {reader};
        }
      }
      CompleteInFlight();
    }
  }

  // ---------------------------------------------------------------- runs

  datatype Event =
    | ReaderIn(reader: Reader)
    | ReaderOut(reader: Reader)
    | CardIn(reader: Reader)
    | CardOut(reader: Reader)
    | Answer(id: nat)
    | SetReadOnly(on: bool)

  function Exec(s: State, e: Event): State {
    match e
    case ReaderIn(r) => Added(s, r)
    case ReaderOut(r) => Removed(s, r)
    case CardIn(r) => Inserted(s, r)
    case CardOut(r) => Ejected(s, r)
    case Answer(id) => Acked(s, id)
    case SetReadOnly(on) => s.(readOnly := on)
  }

  function Run(events: seq<Event>): State {
    if events == [] then INIT else Exec(Run(events[..|events| - 1]), events[|events| - 1])
  }

  /** Everything queued so far, in order. */
  function Log(s: State): seq<Message> { s.sent + s.queue }

  /** The commands that the server has not answered, in order. */
  function Open(s: State): seq<Message> {
    (if s.inFlight.Some? then [s.inFlight.value] else []) + s.queue
  }

  /** The commands that the server has answered, in order. */
  function Past(s: State): seq<Message> {
    if s.inFlight.Some? && s.sent != [] then s.sent[..|s.sent| - 1] else s.sent
  }

  function ReadersOf(m: Message): seq<Reader> { if m.kind == ReaderAdd then [m.reader] else [] }

  /** The readers that a list of commands adds, in order. */
  function Adding(ms: seq<Message>): seq<Reader> {
    if ms == [] then [] else ReadersOf(ms[0]) + Adding(ms[1..])
  }

  predicate NoDuplicates(rs: seq<Reader>) { forall i, j :: 0 <= i < j < |rs| ==> rs[i] != rs[j] }

  /** The command in flight is the last one sent, and nothing waits behind an empty slot. */
  predicate OneInFlight(s: State) {
    && (s.inFlight.None? ==> s.queue == [])
    && (s.inFlight.Some? ==> s.sent != [] && s.sent[|s.sent| - 1] == s.inFlight.value)
  }

  /** The pending readers are those of the commands not answered, in order, each once, and none
      of them is attached. */
  predicate PendingMatch(s: State) {
    && s.additions == Adding(Open(s))
    && NoDuplicates(s.additions)
    && (forall r :: r in s.additions ==> !Attached(s, r))
  }

  predicate Inv(s: State) { OneInFlight(s) && PendingMatch(s) }

  lemma LogGrown(s: State, s': State, ms: seq<Message>)
    requires OneInFlight(s) && OneInFlight(s')
    requires Past(s') == Past(s) && Open(s') == Open(s) + ms
    ensures Log(s') == Log(s) + ms
  {
    assert Log(s) == Past(s) + Open(s) && Log(s') == Past(s') + Open(s');
    assert Past(s) + (Open(s) + ms) == Past(s) + Open(s) + ms;
  }

  lemma LogAnswered(s: State, s': State, m: Message, ms: seq<Message>)
    requires OneInFlight(s) && OneInFlight(s')
    requires Past(s') == Past(s) + [m] && [m] + Open(s') == Open(s) + ms
    ensures Log(s') == Log(s) + ms
  {
    assert Log(s) == Past(s) + Open(s) && Log(s') == Past(s') + Open(s');
    assert Past(s) + [m] + Open(s') == Past(s) + ([m] + Open(s')) == Past(s) + (Open(s) + ms);
  }

  lemma {:induction false} AddingAppend(a: seq<Message>, b: seq<Message>)
    ensures Adding(a + b) == Adding(a) + Adding(b)
  {
    if a == [] {
      assert a + b == b;
    } else {
      assert (a + b)[1..] == a[1..] + b;
      AddingAppend(a[1..], b);
    }
  }

  lemma AddingOne(m: Message)
    ensures Adding([m]) == ReadersOf(m)
  {
    assert Adding([m]) == ReadersOf(m) + Adding([]);
  }

  /** From s to s' some commands have been queued and none has been answered; whatever is not a
      matter of the queue has the same value in s' and in t. */
  predicate Grown(s: State, s': State, ms: seq<Message>, t: State) {
    && OneInFlight(s')
    && Past(s') == Past(s) && Open(s') == Open(s) + ms
    && (s.inFlight.Some? ==> s'.inFlight == s.inFlight)
    && s'.additions == t.additions && s'.removals == t.removals && s'.insertions == t.insertions
    && s'.ids == t.ids && s'.readOnly == t.readOnly
  }

  lemma SentGrown(s: State, m: Message)
    requires OneInFlight(s)
    ensures Grown(s, Sent(s, m), if s.readOnly then [] else [m], s)
  {
    if s.readOnly {
      assert Open(s) + [] == Open(s);
    } else if s.inFlight.Some? {
      assert Open(Sent(s, m)) == Open(s) + [m];
    } else {
      assert Open(s) + [m] == [m] + [];
    }
  }

  lemma CompletedLog(s: State)
    requires OneInFlight(s) && s.inFlight.Some?
    ensures var s' := Completed(s);
            && OneInFlight(s') && Open(s) == [s.inFlight.value] + Open(s')
            && Past(s') == Past(s) + [s.inFlight.value]
            && Adding(Open(s)) == ReadersOf(s.inFlight.value) + Adding(Open(s'))
  {
    var s' := Completed(s);
    if s.queue != [] {
      assert s.queue == [s.queue[0]] + s.queue[1..];
      assert s'.sent[..|s.sent|] == s.sent;
    }
    assert Open(s)[1..] == Open(s');
  }

  /** What catching up queues: the report of a pending insertion, unless the server has given no
      id, and then a removal of the card for a pending removal of the reader. */
  function Catching(s: State, r: Reader, id: nat): seq<Message> { CatchInsertion(s, r, id) + CatchRemoval(s, r, id) }

  function CatchInsertion(s: State, r: Reader, id: nat): seq<Message> {
    if !s.readOnly && r in s.insertions && id != UNDEFINED then [Message(Atr, r, id)] else []
  }

  function CatchRemoval(s: State, r: Reader, id: nat): seq<Message> {
    if !s.readOnly && r in s.removals then [Message(CardRemove, r, id)] else []
  }

  lemma CaughtInsertionGrown(s: State, r: Reader)
    requires OneInFlight(s)
    ensures Grown(s, CaughtInsertion(s, r), CatchInsertion(s, r, Id(s, r)), s.(insertions := s.insertions - {r}))
  {
    SentGrown(s, Message(Atr, r, Id(s, r)));
    assert Open(s) + [] == Open(s);
    if r !in s.insertions { assert s.insertions - {r} == s.insertions; }
  }

  lemma CaughtRemovalGrown(s: State, r: Reader)
    requires OneInFlight(s)
    ensures Grown(s, CaughtRemoval(s, r), CatchRemoval(s, r, Id(s, r)), s.(removals := s.removals - {r}))
  {
    SentGrown(s, Message(CardRemove, r, Id(s, r)));
    assert Open(s) + [] == Open(s);
    if r !in s.removals { assert s.removals - {r} == s.removals; }
  }

  lemma CaughtUpGrown(s: State, r: Reader)
    requires OneInFlight(s)
    ensures Grown(s, CaughtUp(s, r), Catching(s, r, Id(s, r)),
                  s.(insertions := s.insertions - {r}, removals := s.removals - {r}))
  {
    var s1, id := CaughtInsertion(s, r), Id(s, r);
    CaughtInsertionGrown(s, r);
    CaughtRemovalGrown(s1, r);
    assert CatchRemoval(s1, r, id) == CatchRemoval(s, r, id);
    assert Open(s) + CatchInsertion(s, r, id) + CatchRemoval(s, r, id) == Open(s) + Catching(s, r, id);
  }

  lemma CatchingAddsNone(s: State, r: Reader, id: nat)
    ensures Adding(Catching(s, r, id)) == []
  {
    AddingAppend(CatchInsertion(s, r, id), CatchRemoval(s, r, id));
    AddingOne(Message(Atr, r, id));
    AddingOne(Message(CardRemove, r, id));
  }

  /** The reader of the command in flight is the first pending one. */
  lemma InFlightIsFirst(s: State)
    requires Inv(s) && s.inFlight.Some? && s.inFlight.value.kind == ReaderAdd
    ensures s.additions != [] && s.additions[0] == s.inFlight.value.reader && !Attached(s, s.additions[0])
  {
    CompletedLog(s);
    assert s.additions[0] in s.additions;
  }

  lemma NamedIsOpen(s: State, id: nat)
    requires Inv(s) && s.additions != []
    ensures var r, s1 := s.additions[0], AckedReader(s, id);
            Grown(s, s1, Catching(s, r, id),
                  Named(s, id).(insertions := s.insertions - {r}, removals := s.removals - {r}))
  {
    var r, s0 := s.additions[0], Named(s, id);
    assert Catching(s0, r, id) == Catching(s, r, id) && Id(s0, r) == id;
    assert Open(s0) == Open(s) && Past(s0) == Past(s);
    CaughtUpGrown(s0, r);
  }

  /** An answer to a "reader added" command gives the id to the reader that the command is about,
      and to no other, and queues what has been kept back for that reader. */
  lemma AckAttaches(s: State, id: nat)
    requires Inv(s) && s.inFlight.Some? && s.inFlight.value.kind == ReaderAdd
    ensures var r, s' := s.inFlight.value.reader, Acked(s, id);
            && Inv(s') && s'.ids == s.ids[r := id]
            && s.additions == [r] + s'.additions
            && s'.insertions == s.insertions - {r} && s'.removals == s.removals - {r}
            && s'.readOnly == s.readOnly
            && [s.inFlight.value] + Open(s') == Open(s) + Catching(s, r, id)
            && Past(s') == Past(s) + [s.inFlight.value]
  {
    InFlightIsFirst(s);
    var r, s2 := s.additions[0], AckedReader(s, id);
    NamedIsOpen(s, id);
    assert Acked(s, id) == Completed(s2);
    CompletedLog(s2);
    AddingAppend(Open(s), Catching(s, r, id));
    CatchingAddsNone(s, r, id);
    assert s.additions == [r] + s2.additions;
    PendingShrinks(s, Completed(s2), id);
  }

  lemma PendingShrinks(s: State, s': State, id: nat)
    requires PendingMatch(s) && s.additions != [] && s.additions == [s.additions[0]] + s'.additions
    requires s'.ids == s.ids[s.additions[0] := id]
    requires ReadersOf(Message(ReaderAdd, s.additions[0], 0)) + Adding(Open(s')) == s.additions
    ensures PendingMatch(s')
  {
    var r := s.additions[0];
    assert s'.additions == s.additions[1..];
    assert Adding(Open(s')) == s.additions[1..];
    forall r' | r' in s'.additions ensures !Attached(s', r') {
      var i :| 0 <= i < |s'.additions| && s'.additions[i] == r';
      assert s.additions[i + 1] == r' && s.additions[i + 1] in s.additions;
      assert s.additions[0] != s.additions[i + 1];
    }
  }

  lemma OtherAck(s: State, id: nat)
    requires Inv(s) && s.inFlight.Some? && s.inFlight.value.kind != ReaderAdd
    ensures var s' := Acked(s, id);
            && Inv(s') && Open(s) == [s.inFlight.value] + Open(s')
            && Past(s') == Past(s) + [s.inFlight.value]
            && s'.ids == s.ids && s'.insertions == s.insertions && s'.readOnly == s.readOnly
  {
    CompletedLog(s);
  }

  lemma AckLog(s: State, id: nat)
    requires Inv(s) && s.inFlight.Some? && s.inFlight.value.kind == ReaderAdd
    ensures Log(Acked(s, id)) == Log(s) + Catching(s, s.inFlight.value.reader, id)
  {
    AckAttaches(s, id);
    LogAnswered(s, Acked(s, id), s.inFlight.value, Catching(s, s.inFlight.value.reader, id));
  }

  /** A card inserted before the answer is reported after it, exactly once, unless the channel is
      read-only or the answer names no id: then the insertion is forgotten and no report is ever
      made. */
  lemma KeptInsertionIff(s: State, id: nat)
    requires Inv(s) && s.inFlight.Some? && s.inFlight.value.kind == ReaderAdd
    requires s.inFlight.value.reader in s.insertions
    ensures var r, s' := s.inFlight.value.reader, Acked(s, id);
            && r !in s'.insertions
            && (Attached(s', r) <==> id != UNDEFINED)
            && Count(Log(s'), Atr, r) == Count(Log(s), Atr, r) + if id != UNDEFINED && !s.readOnly then 1 else 0
  {
    var r := s.inFlight.value.reader;
    AckAttaches(s, id);
    AckLog(s, id);
    CountAppend(Log(s), Catching(s, r, id), Atr, r);
    CountCatching(s, r, id, Atr, r);
  }

  /** A card inserted before an answer that names no id: no report is sent, and none is kept. */
  lemma LostInsertion()
    ensures var s := Run([ReaderIn(1), CardIn(1), Answer(UNDEFINED)]);
            Log(s) == [Message(ReaderAdd, 1, UNDEFINED)] && s.insertions == {}
  {
    var e := [ReaderIn(1), CardIn(1), Answer(UNDEFINED)];
    assert e[..2] == [ReaderIn(1), CardIn(1)] && e[..2][..1] == [ReaderIn(1)] && e[..2][..1][..0] == [];
    var m := Message(ReaderAdd, 1, UNDEFINED);
    var s := INIT.(additions := [1], inFlight := Some(m), sent := [m]);
    assert Run(e[..2][..1]) == s;
    assert Run(e[..2]) == s.(insertions := {1});
    var s1 := s.(additions := [], ids := map[1 := UNDEFINED], insertions := {1});
    assert Named(s.(insertions := {1}), UNDEFINED) == s1;
    assert CaughtUp(s1, 1) == s1.(insertions := {});
  }

  /** A reader removed before the answer is reported after it as the removal of a card, and not as
      that of the reader. */
  lemma KeptRemovalIsOfCard(s: State, id: nat)
    requires Inv(s) && s.inFlight.Some? && s.inFlight.value.kind == ReaderAdd && !s.readOnly
    requires s.inFlight.value.reader in s.removals
    ensures var r, s' := s.inFlight.value.reader, Acked(s, id);
            && r !in s'.removals
            && Count(Log(s'), CardRemove, r) == Count(Log(s), CardRemove, r) + 1
            && Count(Log(s'), ReaderRemove, r) == Count(Log(s), ReaderRemove, r)
  {
    var r := s.inFlight.value.reader;
    AckAttaches(s, id);
    AckLog(s, id);
    forall kind ensures Count(Log(Acked(s, id)), kind, r) == Count(Log(s), kind, r) + Count(Catching(s, r, id), kind, r) {
      CountAppend(Log(s), Catching(s, r, id), kind, r);
    }
    CountCatching(s, r, id, CardRemove, r);
    CountCatching(s, r, id, ReaderRemove, r);
  }

  /** A reader that is added and removed, and then acknowledged: its removal is never sent. */
  lemma LostRemoval()
    ensures Log(Run([ReaderIn(1), ReaderOut(1), Answer(7)]))
            == [Message(ReaderAdd, 1, UNDEFINED), Message(CardRemove, 1, 7)]
  {
    var e := [ReaderIn(1), ReaderOut(1), Answer(7)];
    assert e[..2] == [ReaderIn(1), ReaderOut(1)] && e[..2][..1] == [ReaderIn(1)] && e[..2][..1][..0] == [];
    var m, m' := Message(ReaderAdd, 1, UNDEFINED), Message(CardRemove, 1, 7);
    var s := INIT.(additions := [1], inFlight := Some(m), sent := [m]);
    assert Run(e[..2][..1]) == s;
    assert Run(e[..2]) == s.(removals := {1});
    var s1 := s.(additions := [], ids := map[1 := 7], removals := {1});
    assert Named(s.(removals := {1}), 7) == s1;
    assert CaughtUp(s1, 1) == s1.(queue := [m'], removals := {});
    assert Run(e) == s1.(queue := [], removals := {}, inFlight := Some(m'), sent := [m, m']);
  }

  /** Adding a reader keeps the invariant, except on a read-only channel, where a reader is noted
      as pending although nothing is sent. */
  lemma AddKeepsIff(s: State, r: Reader)
    requires Inv(s)
    ensures Inv(Added(s, r)) <==> !s.readOnly || Attached(s, r) || r in s.additions
  {
    var s1, m := s.(additions := s.additions + [r]), Message(ReaderAdd, r, Id(s, r));
    if Attached(s, r) || r in s.additions {
      assert Added(s, r) == s;
    } else if s.readOnly {
      assert Added(s, r) == s1 && |s1.additions| == |s.additions| + 1;
    } else {
      SentGrown(s1, m);
      AddingAppend(Open(s), [m]);
      AddingOne(m);
      assert Added(s, r) == Sent(s1, m);
      assert PendingMatch(Added(s, r));
    }
  }

  /** A reader that came while the channel was read-only takes the id meant for the next one. */
  lemma WrongReader()
    ensures var s := Run([SetReadOnly(true), ReaderIn(1), SetReadOnly(false), ReaderIn(2), Answer(7)]);
            && s.sent == [Message(ReaderAdd, 2, UNDEFINED)]
            && Id(s, 1) == 7 && !Attached(s, 2)
  {
    var e := [SetReadOnly(true), ReaderIn(1), SetReadOnly(false), ReaderIn(2), Answer(7)];
    assert e[..4] == [SetReadOnly(true), ReaderIn(1), SetReadOnly(false), ReaderIn(2)];
    assert e[..4][..3] == [SetReadOnly(true), ReaderIn(1), SetReadOnly(false)];
    assert e[..4][..3][..2] == [SetReadOnly(true), ReaderIn(1)];
    assert e[..4][..3][..2][..1] == [SetReadOnly(true)];
    assert [SetReadOnly(true)][..0] == [];
    var m := Message(ReaderAdd, 2, UNDEFINED);
    assert Run([SetReadOnly(true)]) == INIT.(readOnly := true);
    assert Run(e[..4][..3][..2]) == INIT.(readOnly := true, additions := [1]);
    assert Run(e[..4][..3]) == INIT.(additions := [1]);
    assert Run(e[..4]) == INIT.(additions := [1, 2], inFlight := Some(m), sent := [m]);
    assert Run(e) == INIT.(additions := [2], ids := map[1 := 7], sent := [m]);
  }

  // ---------------------------------------------------------------- over all runs

  /** Whether a command is in flight for the event to answer. */
  predicate Answers(s: State, e: Event) { e.Answer? && s.inFlight.Some? }

  /** The ids in the answers that the channel has accepted, in order. */
  function AnswersOf(events: seq<Event>): seq<nat> {
    if events == [] then [] else
    var front, e := events[..|events| - 1], events[|events| - 1];
    AnswersOf(front) + if Answers(Run(front), e) then [e.id] else []
  }

  /** The ids that the server gives when its n-th answer is to the n-th command. */
  function Given(ms: seq<Message>, answers: seq<nat>): map<Reader, nat>
    requires |ms| == |answers|
  {
    if ms == [] then map[] else
    var n := |ms| - 1;
    var before := Given(ms[..n], answers[..n]);
    NewIds(before, ms[n], answers[n])
  }

  /** What an answer to a command says about the ids. */
  function NewIds(ids: map<Reader, nat>, m: Message, id: nat): map<Reader, nat> {
    if m.kind == ReaderAdd then ids[m.reader := id] else ids
  }

  /** A new reader comes while the channel is read-only. */
  predicate Disturbs(s: State, e: Event) {
    e.ReaderIn? && s.readOnly && !Attached(s, e.reader) && e.reader !in s.additions
  }

  predicate Undisturbed(events: seq<Event>) {
    events == [] ||
    (Undisturbed(events[..|events| - 1]) && !Disturbs(Run(events[..|events| - 1]), events[|events| - 1]))
  }

  /** What an event queues. */
  function Queued(s: State, e: Event): seq<Message> {
    if e.SetReadOnly? then [] else
    if e.Answer? then QueuedByAnswer(s, e.id) else
    if e.ReaderIn? then QueuedByReader(s, e.reader) else QueuedForAttached(s, e)
  }

  function QueuedByAnswer(s: State, id: nat): seq<Message> {
    if s.inFlight.Some? && s.inFlight.value.kind == ReaderAdd then Catching(s, s.inFlight.value.reader, id) else []
  }

  function QueuedByReader(s: State, r: Reader): seq<Message> {
    if Attached(s, r) || r in s.additions || s.readOnly then [] else [Message(ReaderAdd, r, UNDEFINED)]
  }

  function CommandOf(s: State, e: Event): Message
    requires e.ReaderOut? || e.CardIn? || e.CardOut?
  {
    Message(if e.ReaderOut? then ReaderRemove else if e.CardIn? then Atr else CardRemove, e.reader, Id(s, e.reader))
  }

  function QueuedForAttached(s: State, e: Event): seq<Message>
    requires e.ReaderOut? || e.CardIn? || e.CardOut?
  {
    if Attached(s, e.reader) && !s.readOnly then [CommandOf(s, e)] else []
  }

  lemma SentPlain(s: State, m: Message)
    requires Inv(s) && !s.readOnly && m.kind != ReaderAdd
    ensures Inv(Sent(s, m)) && Grown(s, Sent(s, m), [m], s)
  {
    SentGrown(s, m);
    AddingAppend(Open(s), [m]);
    AddingOne(m);
  }

  lemma QuietEvent(s: State, e: Event)
    requires Inv(s) && (e.ReaderOut? || e.CardIn? || e.CardOut?)
    ensures var s' := Exec(s, e);
            && Inv(s') && s'.ids == s.ids && s'.readOnly == s.readOnly && Past(s') == Past(s)
            && Open(s') == Open(s) + QueuedForAttached(s, e)
            && s'.insertions == if Attached(s, e.reader) || e.ReaderOut? then s.insertions
                                else if e.CardIn? then s.insertions + {e.reader} else s.insertions - {e.reader}
  {
    if Attached(s, e.reader) && !s.readOnly {
      assert Exec(s, e) == Sent(s, CommandOf(s, e));
      SentPlain(s, CommandOf(s, e));
    } else {
      NothingSent(s, e);
    }
  }

  lemma NothingSent(s: State, e: Event)
    requires Inv(s) && (e.ReaderOut? || e.CardIn? || e.CardOut?) && (!Attached(s, e.reader) || s.readOnly)
    ensures var s' := Exec(s, e);
            && s' == s.(removals := s'.removals, insertions := s'.insertions)
            && Inv(s') && Past(s') == Past(s) && Open(s') == Open(s) + QueuedForAttached(s, e)
  {
    var s' := Exec(s, e);
    assert QueuedForAttached(s, e) == [] && Open(s) + [] == Open(s);
    assert s' == s.(removals := s'.removals, insertions := s'.insertions);
    assert Open(s') == Open(s);
  }

  lemma ReaderEvent(s: State, r: Reader)
    requires Inv(s) && !Disturbs(s, ReaderIn(r))
    ensures var s' := Added(s, r);
            && Inv(s') && s'.ids == s.ids && s'.readOnly == s.readOnly && s'.insertions == s.insertions
            && Past(s') == Past(s) && Open(s') == Open(s) + QueuedByReader(s, r)
  {
    AddKeepsIff(s, r);
    if Attached(s, r) || r in s.additions {
      assert Added(s, r) == s && Open(s) + [] == Open(s);
    } else {
      SentGrown(s.(additions := s.additions + [r]), Message(ReaderAdd, r, UNDEFINED));
    }
  }

  lemma StepInv(s: State, e: Event)
    requires Inv(s) && !Disturbs(s, e)
    ensures var s' := Exec(s, e);
            && Inv(s')
            && Past(s') == Past(s) + (if Answers(s, e) then [s.inFlight.value] else [])
            && s'.ids == if Answers(s, e) then NewIds(s.ids, s.inFlight.value, e.id) else s.ids
  {
    assert Past(s) + [] == Past(s);
    if e.ReaderIn? {
      ReaderEvent(s, e.reader);
    } else if e.Answer? && s.inFlight.Some? {
      if s.inFlight.value.kind == ReaderAdd { AckAttaches(s, e.id); } else { OtherAck(s, e.id); }
    } else if !e.Answer? && !e.SetReadOnly? {
      QuietEvent(s, e);
    }
  }

  /** Every event keeps the invariant, on a read-only channel too, but for a new reader there. */
  lemma StepInvIff(s: State, e: Event)
    requires Inv(s)
    ensures Inv(Exec(s, e)) <==> !Disturbs(s, e)
  {
    if Disturbs(s, e) { AddKeepsIff(s, e.reader); } else { StepInv(s, e); }
  }

  lemma AnswerLog(s: State, id: nat)
    requires Inv(s)
    ensures Log(Acked(s, id)) == Log(s) + QueuedByAnswer(s, id)
  {
    assert Log(s) + [] == Log(s);
    if s.inFlight.Some? {
      if s.inFlight.value.kind == ReaderAdd {
        AckLog(s, id);
      } else {
        OtherAck(s, id);
        LogAnswered(s, Acked(s, id), s.inFlight.value, []);
      }
    }
  }

  lemma ReaderLog(s: State, r: Reader)
    requires Inv(s) && !Disturbs(s, ReaderIn(r))
    ensures Log(Added(s, r)) == Log(s) + QueuedByReader(s, r)
  {
    ReaderEvent(s, r);
    LogGrown(s, Added(s, r), QueuedByReader(s, r));
  }

  lemma QuietLog(s: State, e: Event)
    requires Inv(s) && (e.ReaderOut? || e.CardIn? || e.CardOut?)
    ensures Log(Exec(s, e)) == Log(s) + QueuedForAttached(s, e)
  {
    QuietEvent(s, e);
    LogGrown(s, Exec(s, e), QueuedForAttached(s, e));
  }

  /** Commands are queued at the end and leave in order. */
  lemma StepLog(s: State, e: Event)
    requires Inv(s) && !Disturbs(s, e)
    ensures Log(Exec(s, e)) == Log(s) + Queued(s, e)
  {
    match e
    case ReaderIn(r) => ReaderLog(s, r);
    case Answer(id) => AnswerLog(s, id);
    case SetReadOnly(on) => assert Log(s) + [] == Log(s);
    case _ => QuietLog(s, e);
  }

  /** An empty slot means an empty queue, the pending readers are those of the commands not yet
      answered, and the readers have exactly the ids that the server gave to them: each answer
      goes to the reader it belongs to. */
  lemma {:induction false} RunInv(events: seq<Event>)
    requires Undisturbed(events)
    ensures var s := Run(events);
            && Inv(s)
            && |AnswersOf(events)| == |Past(s)|
            && s.ids == Given(Past(s), AnswersOf(events))
  {
    if events != [] {
      var front, e := events[..|events| - 1], events[|events| - 1];
      RunInv(front);
      var s := Run(front);
      StepInv(s, e);
      if Answers(s, e) {
        GivenSnoc(Past(s), AnswersOf(front), s.inFlight.value, e.id);
      } else {
        assert Past(s) + [] == Past(s) && AnswersOf(front) + [] == AnswersOf(front);
      }
    }
  }

  lemma GivenSnoc(ms: seq<Message>, answers: seq<nat>, m: Message, id: nat)
    requires |ms| == |answers|
    ensures Given(ms + [m], answers + [id]) == NewIds(Given(ms, answers), m, id)
  {
    var ms', answers' := ms + [m], answers + [id];
    assert ms'[..|ms|] == ms && answers'[..|ms|] == answers;
  }

  // ---------------------------------------------------------------- card reports

  /** How many commands of a kind about a reader a list holds. */
  function Count(ms: seq<Message>, kind: Kind, r: Reader): nat {
    if ms == [] then 0
    else Count(ms[..|ms| - 1], kind, r) + if ms[|ms| - 1].kind == kind && ms[|ms| - 1].reader == r then 1 else 0
  }

  lemma {:induction false} CountAppend(a: seq<Message>, b: seq<Message>, kind: Kind, r: Reader)
    ensures Count(a + b, kind, r) == Count(a, kind, r) + Count(b, kind, r)
  {
    if b == [] {
      assert a + b == a;
    } else {
      assert (a + b)[..|a + b| - 1] == a + b[..|b| - 1];
      CountAppend(a, b[..|b| - 1], kind, r);
    }
  }

  lemma CountOne(m: Message, kind: Kind, r: Reader)
    ensures Count([m], kind, r) == if m.kind == kind && m.reader == r then 1 else 0
  {
    assert [m][..0] == [];
  }

  lemma CountCatching(s: State, r: Reader, id: nat, kind: Kind, other: Reader)
    ensures Count(Catching(s, r, id), kind, other)
            == if s.readOnly || other != r then 0
               else if kind == Atr then (if r in s.insertions && id != UNDEFINED then 1 else 0)
               else if kind == CardRemove && r in s.removals then 1 else 0
  {
    CountAppend(CatchInsertion(s, r, id), CatchRemoval(s, r, id), kind, other);
    CountOne(Message(Atr, r, id), kind, other);
    CountOne(Message(CardRemove, r, id), kind, other);
  }

  /** Whether the last thing that happened to the reader's card is that it was inserted. */
  predicate CardPresent(events: seq<Event>, r: Reader) {
    events != [] &&
    var e := events[|events| - 1];
    if e == CardIn(r) then true else if e == CardOut(r) then false
    else CardPresent(events[..|events| - 1], r)
  }

  /** No answer to a "reader added" command names the undefined id. */
  predicate AllNamed(events: seq<Event>) { Answer(UNDEFINED) !in events }

  /** How many reports are due: one for each card inserted into an attached reader, and one for
      the card that is in the reader when the reader becomes attached; none while read-only. */
  function Due(events: seq<Event>, r: Reader): nat {
    if events == [] then 0 else
    var front := events[..|events| - 1];
    Due(front, r) + Fresh(Run(front), events[|events| - 1], CardPresent(front, r), r)
  }

  function Fresh(s: State, e: Event, present: bool, r: Reader): nat {
    if s.readOnly then 0
    else if Attached(s, r) then (if e == CardIn(r) then 1 else 0)
    else if Attached(Exec(s, e), r) && present then 1 else 0
  }

  predicate Reported(s: State, present: bool, due: nat, r: Reader) {
    && Count(Log(s), Atr, r) == due
    && (Attached(s, r) ==> r !in s.insertions)
    && (!Attached(s, r) ==> (r in s.insertions <==> present))
  }

  function NowPresent(present: bool, e: Event, r: Reader): bool {
    if e == CardIn(r) then true else if e == CardOut(r) then false else present
  }

  lemma AnswerReports(s: State, id: nat, present: bool, due: nat, r: Reader)
    requires Inv(s) && Reported(s, present, due, r) && id != UNDEFINED
    requires s.inFlight.Some? && s.inFlight.value.kind == ReaderAdd
    ensures var s' := Acked(s, id);
            Reported(s', present, due + if !s.readOnly && !Attached(s, r) && Attached(s', r) && present then 1 else 0, r)
  {
    var r' := s.inFlight.value.reader;
    AckAttaches(s, id);
    AckLog(s, id);
    InFlightIsFirst(s);
    CountAppend(Log(s), Catching(s, r', id), Atr, r);
    CountCatching(s, r', id, Atr, r);
  }

  lemma QuietReports(s: State, e: Event, present: bool, due: nat, r: Reader)
    requires Inv(s) && Reported(s, present, due, r)
    requires e.ReaderOut? || e.CardIn? || e.CardOut?
    ensures Reported(Exec(s, e), NowPresent(present, e, r),
                     due + if !s.readOnly && e == CardIn(r) && Attached(s, r) then 1 else 0, r)
  {
    var ms := QueuedForAttached(s, e);
    QuietEvent(s, e);
    LogGrown(s, Exec(s, e), ms);
    CountAppend(Log(s), ms, Atr, r);
    CountOne(CommandOf(s, e), Atr, r);
  }

  lemma OtherReports(s: State, e: Event, present: bool, due: nat, r: Reader)
    requires Inv(s) && Reported(s, present, due, r) && !Disturbs(s, e)
    requires e.ReaderIn? || e.SetReadOnly? || (e.Answer? && (s.inFlight.None? || s.inFlight.value.kind != ReaderAdd))
    ensures Reported(Exec(s, e), present, due, r)
  {
    StepLog(s, e);
    if e.ReaderIn? {
      ReaderEvent(s, e.reader);
      CountAppend(Log(s), Queued(s, e), Atr, r);
      CountOne(Message(ReaderAdd, e.reader, UNDEFINED), Atr, r);
    } else if e.Answer? && s.inFlight.Some? {
      OtherAck(s, e.id);
      assert Queued(s, e) == [] && Log(s) + [] == Log(s);
    } else {
      assert Queued(s, e) == [] && Log(s) + [] == Log(s);
    }
  }

  lemma StepReports(s: State, e: Event, present: bool, due: nat, r: Reader)
    requires Inv(s) && Reported(s, present, due, r) && e != Answer(UNDEFINED) && !Disturbs(s, e)
    ensures Reported(Exec(s, e), NowPresent(present, e, r), due + Fresh(s, e, present, r), r)
  {
    StepInv(s, e);
    if e.ReaderOut? || e.CardIn? || e.CardOut? {
      QuietReports(s, e, present, due, r);
    } else if Answers(s, e) && s.inFlight.value.kind == ReaderAdd {
      AnswerReports(s, e.id, present, due, r);
    } else {
      OtherReports(s, e, present, due, r);
    }
  }

  /** The reports queued for a reader are exactly those due: none before the reader is attached,
      one on attachment exactly if its card was then inserted, and one for each later card. */
  lemma {:induction false} ReportsDue(events: seq<Event>, r: Reader)
    requires Undisturbed(events) && AllNamed(events)
    ensures Reported(Run(events), CardPresent(events, r), Due(events, r), r)
    ensures !Attached(Run(events), r) ==> Due(events, r) == 0
  {
    if events != [] {
      var front, e := events[..|events| - 1], events[|events| - 1];
      var s := Run(front);
      RunInv(front);
      ReportsDue(front, r);
      StepReports(s, e, CardPresent(front, r), Due(front, r), r);
      if Attached(s, r) { StaysAttached(s, e, r); }
    }
  }

  /** An id once given is not changed. */
  lemma StaysAttached(s: State, e: Event, r: Reader)
    requires Inv(s) && !Disturbs(s, e) && Attached(s, r)
    ensures Id(Exec(s, e), r) == Id(s, r)
  {
    StepInv(s, e);
    if Answers(s, e) && s.inFlight.value.kind == ReaderAdd {
      InFlightIsFirst(s);
    }
  }

  // ---------------------------------------------------------------- removals

  /** The event is the removal of a reader that the server knows. */
  predicate RemovesKnown(s: State, e: Event, r: Reader) { e == ReaderOut(r) && Attached(s, r) && !s.readOnly }

  /** How often the reader was removed while the server knew it. */
  function KnownRemovals(events: seq<Event>, r: Reader): nat {
    if events == [] then 0 else
    var front := events[..|events| - 1];
    KnownRemovals(front, r) + if RemovesKnown(Run(front), events[|events| - 1], r) then 1 else 0
  }

  lemma RemovalsQueued(s: State, e: Event, r: Reader)
    requires Inv(s) && !Disturbs(s, e)
    ensures Count(Queued(s, e), ReaderRemove, r) == if RemovesKnown(s, e, r) then 1 else 0
  {
    match e
    case ReaderIn(r') => CountOne(Message(ReaderAdd, r', UNDEFINED), ReaderRemove, r);
    case Answer(id) =>
      if s.inFlight.Some? { CountCatching(s, s.inFlight.value.reader, id, ReaderRemove, r); }
    case SetReadOnly(on) =>
    case _ => CountOne(CommandOf(s, e), ReaderRemove, r);
  }

  /** The removal of a reader is queued exactly when the server knows the reader at that time. */
  lemma StepRemovals(s: State, e: Event, r: Reader)
    requires Inv(s) && !Disturbs(s, e)
    ensures Count(Log(Exec(s, e)), ReaderRemove, r)
            == Count(Log(s), ReaderRemove, r) + if RemovesKnown(s, e, r) then 1 else 0
  {
    StepLog(s, e);
    CountAppend(Log(s), Queued(s, e), ReaderRemove, r);
    RemovalsQueued(s, e, r);
  }

  /** In every run the removals queued are exactly those of readers known at the time; a removal
      that comes before the answer is not among them, whatever is answered later. */
  lemma {:induction false} RemovalsSent(events: seq<Event>, r: Reader)
    requires Undisturbed(events)
    ensures Count(Log(Run(events)), ReaderRemove, r) == KnownRemovals(events, r)
  {
    if events != [] {
      var front := events[..|events| - 1];
      RunInv(front);
      RemovalsSent(front, r);
      StepRemovals(Run(front), events[|events| - 1], r);
    }
  }

  /** The reader becomes attached. */
  predicate Attaches(s: State, e: Event, r: Reader) { !Attached(s, r) && Attached(Exec(s, e), r) }

  /** The reader was removed before the server knew it, and it does not know it yet. */
  predicate KeptRemoval(events: seq<Event>, r: Reader) {
    events != [] &&
    var front := events[..|events| - 1];
    NowKept(Run(front), events[|events| - 1], KeptRemoval(front, r), r)
  }

  predicate NowKept(s: State, e: Event, kept: bool, r: Reader) {
    if e == ReaderOut(r) && !Attached(s, r) then true else kept && !Attaches(s, e, r)
  }

  /** How many removals of a card are due: one for each card taken out of an attached reader, and one for
      a reader that was removed before it became attached; none while read-only. */
  function EjectionsDue(events: seq<Event>, r: Reader): nat {
    if events == [] then 0 else
    var front := events[..|events| - 1];
    EjectionsDue(front, r) + Ejections(Run(front), events[|events| - 1], KeptRemoval(front, r), r)
  }

  function Ejections(s: State, e: Event, kept: bool, r: Reader): nat {
    if s.readOnly then 0
    else if e == CardOut(r) && Attached(s, r) then 1
    else if Attaches(s, e, r) && kept then 1 else 0
  }

  lemma EjectionsQueued(s: State, e: Event, r: Reader)
    requires Inv(s) && !Disturbs(s, e) && e != Answer(UNDEFINED)
    ensures Count(Queued(s, e), CardRemove, r) == Ejections(s, e, r in s.removals, r)
  {
    StepInv(s, e);
    match e
    case ReaderIn(r') => CountOne(Message(ReaderAdd, r', UNDEFINED), CardRemove, r);
    case Answer(id) =>
      if s.inFlight.Some? && s.inFlight.value.kind == ReaderAdd {
        InFlightIsFirst(s);
        CountCatching(s, s.inFlight.value.reader, id, CardRemove, r);
      }
    case SetReadOnly(on) =>
    case _ => CountOne(CommandOf(s, e), CardRemove, r);
  }

  lemma RemovalsKept(s: State, e: Event, r: Reader)
    requires Inv(s) && !Disturbs(s, e) && e != Answer(UNDEFINED) && (Attached(s, r) ==> r !in s.removals)
    ensures r in Exec(s, e).removals <==> NowKept(s, e, r in s.removals, r)
    ensures Attached(Exec(s, e), r) ==> r !in Exec(s, e).removals
  {
    StepInv(s, e);
    match e
    case ReaderIn(r') => ReaderRemovals(s, r');
    case Answer(id) =>
      if s.inFlight.Some? {
        if s.inFlight.value.kind == ReaderAdd { AckAttaches(s, id); InFlightIsFirst(s); } else { OtherRemovals(s, id); }
      }
    case _ =>
  }

  lemma ReaderRemovals(s: State, r: Reader)
    ensures Added(s, r).removals == s.removals
  {
  }

  lemma OtherRemovals(s: State, id: nat)
    requires s.inFlight.Some? && s.inFlight.value.kind != ReaderAdd
    ensures Acked(s, id).removals == s.removals && Acked(s, id).ids == s.ids
  {
  }

  /** In every run the removals of cards queued are exactly those due. */
  lemma {:induction false} EjectionsSent(events: seq<Event>, r: Reader)
    requires Undisturbed(events) && AllNamed(events)
    ensures var s := Run(events);
            && Count(Log(s), CardRemove, r) == EjectionsDue(events, r)
            && (r in s.removals <==> KeptRemoval(events, r)) && (Attached(s, r) ==> r !in s.removals)
  {
    if events != [] {
      var front, e := events[..|events| - 1], events[|events| - 1];
      var s := Run(front);
      RunInv(front);
      EjectionsSent(front, r);
      StepLog(s, e);
      CountAppend(Log(s), Queued(s, e), CardRemove, r);
      EjectionsQueued(s, e, r);
      RemovalsKept(s, e, r);
    }
  }

  // ---------------------------------------------------------------- additions

  /** The reader is new to the channel, which is not read-only. */
  predicate Announces(s: State, e: Event, r: Reader) {
    e == ReaderIn(r) && !Attached(s, r) && r !in s.additions && !s.readOnly
  }

  function Announcements(events: seq<Event>, r: Reader): nat {
    if events == [] then 0 else
    var front := events[..|events| - 1];
    Announcements(front, r) + if Announces(Run(front), events[|events| - 1], r) then 1 else 0
  }

  lemma AdditionsQueued(s: State, e: Event, r: Reader)
    requires Inv(s) && !Disturbs(s, e)
    ensures Count(Queued(s, e), ReaderAdd, r) == if Announces(s, e, r) then 1 else 0
  {
    match e
    case ReaderIn(r') => CountOne(Message(ReaderAdd, r', UNDEFINED), ReaderAdd, r);
    case Answer(id) =>
      if s.inFlight.Some? { CountCatching(s, s.inFlight.value.reader, id, ReaderAdd, r); }
    case SetReadOnly(on) =>
    case _ => CountOne(CommandOf(s, e), ReaderAdd, r);
  }

  /** In every run a reader is announced exactly when it comes and is neither attached nor pending. */
  lemma {:induction false} AdditionsSent(events: seq<Event>, r: Reader)
    requires Undisturbed(events)
    ensures Count(Log(Run(events)), ReaderAdd, r) == Announcements(events, r)
  {
    if events != [] {
      var front, e := events[..|events| - 1], events[|events| - 1];
      RunInv(front);
      AdditionsSent(front, r);
      StepLog(Run(front), e);
      CountAppend(Log(Run(front)), Queued(Run(front), e), ReaderAdd, r);
      AdditionsQueued(Run(front), e, r);
    }
  }

  // ---------------------------------------------------------------- ids in commands

  /** A command carries the undefined id when it adds a reader, and else the id of its reader. */
  predicate RightId(s: State, m: Message) {
    if m.kind == ReaderAdd then m.id == 0xffff_ffff else Attached(s, m.reader) && m.id == Id(s, m.reader)
  }

  lemma QueuedIds(s: State, e: Event, m: Message)
    requires Inv(s) && !Disturbs(s, e) && e != Answer(UNDEFINED) && m in Queued(s, e)
    ensures RightId(Exec(s, e), m)
  {
    StepInv(s, e);
  }

  /** In every run all commands carry the right ids. */
  lemma {:induction false} RightIds(events: seq<Event>)
    requires Undisturbed(events) && AllNamed(events)
    ensures forall m :: m in Log(Run(events)) ==> RightId(Run(events), m)
  {
    if events != [] {
      var front, e := events[..|events| - 1], events[|events| - 1];
      var s := Run(front);
      RunInv(front);
      RightIds(front);
      StepLog(s, e);
      forall m | m in Log(Exec(s, e)) ensures RightId(Exec(s, e), m) {
        if m in Queued(s, e) {
          QueuedIds(s, e, m);
        } else if m.kind != ReaderAdd {
          assert RightId(s, m);
          StaysAttached(s, e, m.reader);
        }
      }
    }
  }
}
