/**
 Sending to the agent: every message costs a token, messages wait in a queue while there is
 none, and flush tasks wait for the message that is last in the queue when they are made.
 A message is known by its serial number, as the C code knows it by its address.
 */
module AgentTokens {
  import opened Common

  datatype Out = Out(serial: nat, payload: seq<byte>)

  type Task = nat

  /** sent and completed record, in order, the messages sent and the tasks that returned. */
  datatype State = State(tokens: nat, queue: seq<Out>, flushing: map<nat, Task>, serial: nat,
                         sent: seq<Out>, completed: seq<Task>)

  function Pushed(s: State, payload: seq<byte>): State {
    s.(queue := s.queue + [Out(s.serial, payload)], serial := s.serial + 1)
  }

  function Tail(s: State): nat
    requires s.queue != []
  {
    s.queue[|s.queue| - 1].serial
  }

  /** A task with nothing to wait for returns at once; otherwise it is filed under the tail. */
  function Flushed(s: State, task: Task): State {
    if s.queue == [] then s.(completed := s.completed + [task])
    else s.(flushing := s.flushing[Tail(s) := task])
  }

  function Serials(msgs: seq<Out>): set<nat> { set m | m in msgs :: m.serial }

  /** The first message is sent for a token, and the task filed under it returns. */
  function SendOne(s: State): State
    requires s.tokens > 0 && s.queue != []
  {
    var out := s.queue[0];
    State(s.tokens - 1, s.queue[1..], s.flushing - {out.serial}, s.serial, s.sent + [out],
          if out.serial in s.flushing then s.completed + [s.flushing[out.serial]] else s.completed)
  }

  function Pumped(s: State): State
    decreases |s.queue|
  {
    if s.tokens > 0 && s.queue != [] then Pumped(SendOne(s)) else s
  }

  function Granted(s: State, n: nat): State { Pumped(s.(tokens := s.tokens + n)) }

  lemma FiledLeft(s: State)
    requires s.tokens > 0 && s.queue != [] && s.flushing.Keys <= Serials(s.queue)
    ensures SendOne(s).flushing.Keys <= Serials(SendOne(s).queue)
  {
    forall k | k in s.flushing && k != s.queue[0].serial ensures k in Serials(s.queue[1..]) {
      var m :| m in s.queue && m.serial == k;
      assert m in s.queue[1..];
    }
  }

  // ---------------------------------------------------------------- as the code runs

  class AgentQueue {
    var agentTokens: int
    var queue: seq<Out>
    var flushing: map<nat, Task>
    var serial: nat
    var sent: seq<Out>
    var completed: seq<Task>

    /** Every task is filed under a queued message. */
    ghost predicate Valid()
      reads this
    {
      agentTokens >= 0 && flushing.Keys <= Serials(queue)
    }

    ghost function View(): State
      requires Valid()
      reads this
    {
      State(agentTokens, queue, flushing, serial, sent, completed)
    }

    constructor (tokens: nat)
      ensures Valid() && View() == State(tokens, [], map[], 0, [], [])
    {
      agentTokens, queue, flushing, serial, sent, completed := tokens, [], map[], 0, [], [];
    }

    method Push(payload: seq<byte>)
      requires Valid()
      modifies this
      ensures Valid() && View() == Pushed(old(View()), payload)
    {
      queue := queue + [Out(serial, payload)];
      serial := serial + 1;
      assert forall m :: m in old(queue) ==> m in queue;
    }

    method FlushAsync(task: Task)
      requires Valid()
      modifies this
      ensures Valid() && View() == Flushed(old(View()), task)
    {
      if queue == [] {
        completed := completed + [task];
      } else {
        var tail := queue[|queue| - 1];
        assert tail in queue;
        flushing := flushing[tail.serial := task];
      }
    }

    /** Sends while there are tokens. No task is left behind in an empty queue, so that the
        clearing with a warning at the end of the function is never reached. */
    method SendQueue()
      requires Valid()
      modifies this
      ensures Valid() && View() == Pumped(old(View()))
      ensures queue == [] || agentTokens == 0
    {
      while agentTokens > 0 && queue != []
        invariant Valid() && Pumped(View()) == Pumped(old(View()))
        decreases |queue|
      {
        ghost var s := View();
        agentTokens := agentTokens - 1;
        var out := queue[0];
        queue := queue[1..];
        sent := sent + [out];
        if out.serial in flushing {
          completed := completed + [flushing[out.serial]];
        }
        flushing := flushing - {out.serial};
        FiledLeft(s);
        assert View() == SendOne(s);
      }
      if queue == [] && flushing != map[] {
        assert false;
      }
    }

    method HandleToken(n: nat)
      requires Valid()
      modifies this
      ensures Valid() && View() == Granted(old(View()), n)
    {
      agentTokens := agentTokens + n;
      SendQueue();
    }
  }

  // ---------------------------------------------------------------- runs

  datatype Event = Queue(payload: seq<byte>) | FlushBy(task: Task) | Tokens(n: nat) | Send

  function Exec(s: State, e: Event): State {
    match e
    case Queue(p) => Pushed(s, p)
    case FlushBy(t) => Flushed(s, t)
    case Tokens(n) => Granted(s, n)
    case Send => Pumped(s)
  }

  function Init(tokens: nat): State { State(tokens, [], map[], 0, [], []) }

  function Run(tokens: nat, events: seq<Event>): State {
    if events == [] then Init(tokens) else Exec(Run(tokens, events[..|events| - 1]), events[|events| - 1])
  }

  /** All tokens ever granted. */
  function GrantedBy(tokens: nat, events: seq<Event>): nat {
    if events == [] then tokens
    else GrantedBy(tokens, events[..|events| - 1]) + if events[|events| - 1].Tokens? then events[|events| - 1].n else 0
  }

  /** The payloads ever queued, in order. */
  function QueuedBy(events: seq<Event>): seq<seq<byte>> {
    if events == [] then []
    else QueuedBy(events[..|events| - 1]) + if events[|events| - 1].Queue? then [events[|events| - 1].payload] else []
  }

  function Payloads(msgs: seq<Out>): seq<seq<byte>> {
    seq(|msgs|, i requires 0 <= i < |msgs| => msgs[i].payload)
  }

  /** Messages are numbered in the order in which they were queued, and leave in that order. */
  ghost predicate InOrder(s: State) {
    && |s.sent| + |s.queue| == s.serial
    && (forall i :: 0 <= i < |s.sent| ==> s.sent[i].serial == i)
    && (forall i :: 0 <= i < |s.queue| ==> s.queue[i].serial == |s.sent| + i)
    && s.flushing.Keys <= Serials(s.queue)
  }

  lemma {:induction false} PumpKeeps(s: State)
    requires InOrder(s)
    ensures var s' := Pumped(s);
            && InOrder(s') && s'.sent + s'.queue == s.sent + s.queue && s'.serial == s.serial
            && |s'.sent| + s'.tokens == |s.sent| + s.tokens
            && (s'.queue == [] || s'.tokens == 0)
    decreases |s.queue|
  {
    if s.tokens > 0 && s.queue != [] {
      FiledLeft(s);
      PumpKeeps(SendOne(s));
    }
  }

  lemma StepKeeps(s: State, e: Event)
    requires InOrder(s)
    ensures InOrder(Exec(s, e))
  {
    match e
    case Queue(p) =>
      forall k | k in s.flushing ensures k in Serials(Pushed(s, p).queue) {
        var m :| m in s.queue && m.serial == k;
        assert m in Pushed(s, p).queue;
      }
    case FlushBy(t) =>
      if s.queue != [] { assert s.queue[|s.queue| - 1] in s.queue; }
    case Tokens(n) => PumpKeeps(s.(tokens := s.tokens + n));
    case Send => PumpKeeps(s);
  }

  lemma StepConserves(s: State, e: Event)
    requires InOrder(s)
    ensures var s' := Exec(s, e);
            && |s'.sent| + s'.tokens == |s.sent| + s.tokens + (if e.Tokens? then e.n else 0)
            && Payloads(s'.sent + s'.queue) == Payloads(s.sent + s.queue) + (if e.Queue? then [e.payload] else [])
            && (e.Tokens? || e.Send? ==> s'.queue == [] || s'.tokens == 0)
  {
    var none: seq<seq<byte>> := [];
    assert Payloads(s.sent + s.queue) + none == Payloads(s.sent + s.queue);
    match e
    case Queue(p) =>
      assert s.sent + (s.queue + [Out(s.serial, p)]) == s.sent + s.queue + [Out(s.serial, p)];
    case FlushBy(t) =>
    case Tokens(n) => PumpKeeps(s.(tokens := s.tokens + n));
    case Send => PumpKeeps(s);
  }

  /** Tokens are conserved, messages are sent first in first out, and after a pump either the
      queue is empty or the tokens are used up. */
  lemma {:induction false} TokensConserved(tokens: nat, events: seq<Event>)
    ensures var s := Run(tokens, events);
            && InOrder(s)
            && |s.sent| + s.tokens == GrantedBy(tokens, events)
            && Payloads(s.sent + s.queue) == QueuedBy(events)
            && (events != [] && (events[|events| - 1].Tokens? || events[|events| - 1].Send?) ==> s.queue == [] || s.tokens == 0)
  {
    if events != [] {
      var front, e := events[..|events| - 1], events[|events| - 1];
      TokensConserved(tokens, front);
      StepKeeps(Run(tokens, front), e);
      StepConserves(Run(tokens, front), e);
    }
  }

  // ---------------------------------------------------------------- flush waiters

  /** A flush task filed under the message that was last when it was made. */
  datatype Waiter = Waiter(task: Task, key: nat)

  function NewWaiters(s: State, e: Event): seq<Waiter> {
    if e.FlushBy? && s.queue != [] then [Waiter(e.task, Tail(s))] else []
  }

  function NewTasks(e: Event): set<Task> { if e.FlushBy? then {e.task} else {} }

  /** The waiters of a run, in order. */
  function Waiters(tokens: nat, events: seq<Event>): seq<Waiter> {
    if events == [] then [] else
    var front := events[..|events| - 1];
    Waiters(tokens, front) + NewWaiters(Run(tokens, front), events[|events| - 1])
  }

  function Tasks(events: seq<Event>): set<Task> {
    if events == [] then {} else Tasks(events[..|events| - 1]) + NewTasks(events[|events| - 1])
  }

  /** No task flushes twice. */
  predicate FreshTasks(events: seq<Event>) {
    events == [] ||
    (&& FreshTasks(events[..|events| - 1])
     && (events[|events| - 1].FlushBy? ==> events[|events| - 1].task !in Tasks(events[..|events| - 1])))
  }

  /** No later waiter is filed under the same message. */
  predicate Last(ws: seq<Waiter>, i: nat)
    requires i < |ws|
  {
    forall j :: i < j < |ws| ==> ws[j].key != ws[i].key
  }

  ghost predicate Filed(ws: seq<Waiter>, tasks: set<Task>, s: State) {
    && InOrder(s)
    && (forall i :: 0 <= i < |ws| ==> ws[i].task in tasks && ws[i].key < s.serial)
    && (forall i, j :: 0 <= i < j < |ws| ==> ws[i].task != ws[j].task)
    && (forall t :: t in s.completed ==> t in tasks)
    && (forall i :: 0 <= i < |ws| && Last(ws, i) && ws[i].key >= |s.sent| ==>
          ws[i].key in s.flushing && s.flushing[ws[i].key] == ws[i].task)
    && (forall k :: k in s.flushing ==> exists i :: 0 <= i < |ws| && Last(ws, i) && ws[i] == Waiter(s.flushing[k], k))
    && (forall i :: 0 <= i < |ws| ==> Answered(ws, s, i))
  }

  /** A waiter has returned exactly when its message has been sent and nobody else waits for it. */
  ghost predicate Answered(ws: seq<Waiter>, s: State, i: nat)
    requires i < |ws|
  {
    ws[i].task in s.completed <==> ws[i].key < |s.sent| && Last(ws, i)
  }

  /** The task filed under the message that is sent is that of waiter w alone. */
  lemma FiledUnderFirst(ws: seq<Waiter>, tasks: set<Task>, s: State) returns (w: nat)
    requires Filed(ws, tasks, s) && s.queue != [] && s.queue[0].serial in s.flushing
    ensures w < |ws| && Last(ws, w) && ws[w] == Waiter(s.flushing[|s.sent|], |s.sent|)
    ensures s.queue[0].serial == |s.sent|
    ensures forall i :: 0 <= i < |ws| && i != w ==> ws[i].task != ws[w].task
  {
    var k := s.queue[0].serial;
    w :| 0 <= w < |ws| && Last(ws, w) && ws[w] == Waiter(s.flushing[k], k);
  }

  lemma SendOneAnswered(ws: seq<Waiter>, tasks: set<Task>, s: State, i: nat)
    requires Filed(ws, tasks, s) && s.tokens > 0 && s.queue != [] && i < |ws|
    ensures Answered(ws, SendOne(s), i)
  {
    var k, s' := |s.sent|, SendOne(s);
    assert s.queue[0].serial == k;
    assert ws[i].task in s.completed <==> ws[i].key < k && Last(ws, i) by { assert Answered(ws, s, i); }
    if k in s.flushing {
      var w := FiledUnderFirst(ws, tasks, s);
      assert s'.completed == s.completed + [ws[w].task];
      assert ws[i].task in s'.completed <==> ws[i].task in s.completed || i == w;
    } else {
      assert s'.completed == s.completed;
    }
  }

  lemma SendOneFiled(ws: seq<Waiter>, tasks: set<Task>, s: State)
    requires Filed(ws, tasks, s) && s.tokens > 0 && s.queue != []
    ensures Filed(ws, tasks, SendOne(s))
  {
    FiledLeft(s);
    forall i | 0 <= i < |ws| ensures Answered(ws, SendOne(s), i) { SendOneAnswered(ws, tasks, s, i); }
  }

  lemma {:induction false} PumpFiled(ws: seq<Waiter>, tasks: set<Task>, s: State)
    requires Filed(ws, tasks, s)
    ensures Filed(ws, tasks, Pumped(s))
    decreases |s.queue|
  {
    if s.tokens > 0 && s.queue != [] {
      SendOneFiled(ws, tasks, s);
      PumpFiled(ws, tasks, SendOne(s));
    }
  }

  lemma LastAppend(ws: seq<Waiter>, w: Waiter, i: nat)
    requires i <= |ws|
    ensures Last(ws + [w], i) <==> i == |ws| || (Last(ws, i) && ws[i].key != w.key)
  {
    var ws' := ws + [w];
    if i < |ws| {
      assert ws'[|ws|] == w && ws'[i] == ws[i];
      forall j | i < j < |ws| ensures ws'[j] == ws[j] {}
      if Last(ws', i) {
        forall j | i < j < |ws| ensures ws[j].key != ws[i].key { assert ws'[j] == ws[j]; }
      }
    }
  }

  lemma FlushFiled(ws: seq<Waiter>, tasks: set<Task>, s: State, t: Task)
    requires Filed(ws, tasks, s) && t !in tasks && s.queue != []
    ensures Filed(ws + [Waiter(t, Tail(s))], tasks + {t}, Flushed(s, t))
  {
    var w, s' := Waiter(t, Tail(s)), Flushed(s, t);
    var ws' := ws + [w];
    StepKeeps(s, FlushBy(t));
    forall i | 0 <= i < |ws'| ensures Last(ws', i) <==> i == |ws| || (Last(ws, i) && ws[i].key != w.key) {
      LastAppend(ws, w, i);
    }
    forall i | 0 <= i < |ws'| ensures Answered(ws', s', i) {
      if i < |ws| { assert Answered(ws, s, i); }
    }
    forall k | k in s'.flushing
      ensures exists i :: 0 <= i < |ws'| && Last(ws', i) && ws'[i] == Waiter(s'.flushing[k], k)
    {
      if k == Tail(s) {
        assert ws'[|ws|] == Waiter(s'.flushing[k], k);
      } else {
        var i :| 0 <= i < |ws| && Last(ws, i) && ws[i] == Waiter(s.flushing[k], k);
        assert ws'[i] == Waiter(s'.flushing[k], k);
      }
    }
  }

  lemma FlushAtOnce(ws: seq<Waiter>, tasks: set<Task>, s: State, t: Task)
    requires Filed(ws, tasks, s) && t !in tasks && s.queue == []
    ensures Filed(ws, tasks + {t}, Flushed(s, t))
  {
    forall i | 0 <= i < |ws| ensures Answered(ws, Flushed(s, t), i) { assert Answered(ws, s, i); }
  }

  lemma QueueFiled(ws: seq<Waiter>, tasks: set<Task>, s: State, p: seq<byte>)
    requires Filed(ws, tasks, s)
    ensures Filed(ws, tasks, Pushed(s, p))
  {
    StepKeeps(s, Queue(p));
    forall i | 0 <= i < |ws| ensures Answered(ws, Pushed(s, p), i) { assert Answered(ws, s, i); }
  }

  lemma TokensFiled(ws: seq<Waiter>, tasks: set<Task>, s: State, n: nat)
    requires Filed(ws, tasks, s)
    ensures Filed(ws, tasks, Granted(s, n))
  {
    var s1 := s.(tokens := s.tokens + n);
    forall i | 0 <= i < |ws| ensures Answered(ws, s1, i) { assert Answered(ws, s, i); }
    PumpFiled(ws, tasks, s1);
  }

  lemma StepFiled(ws: seq<Waiter>, tasks: set<Task>, s: State, e: Event)
    requires Filed(ws, tasks, s) && (e.FlushBy? ==> e.task !in tasks)
    ensures Filed(ws + NewWaiters(s, e), tasks + NewTasks(e), Exec(s, e))
  {
    match e
    case Queue(p) =>
      assert ws + [] == ws && tasks + {} == tasks;
      QueueFiled(ws, tasks, s, p);
    case FlushBy(t) =>
      if s.queue == [] {
        assert ws + [] == ws;
        FlushAtOnce(ws, tasks, s, t);
      } else {
        FlushFiled(ws, tasks, s, t);
      }
    case Tokens(n) =>
      assert ws + [] == ws && tasks + {} == tasks;
      TokensFiled(ws, tasks, s, n);
    case Send =>
      assert ws + [] == ws && tasks + {} == tasks;
      PumpFiled(ws, tasks, s);
  }

  lemma {:induction false} RunFiled(tokens: nat, events: seq<Event>)
    requires FreshTasks(events)
    ensures Filed(Waiters(tokens, events), Tasks(events), Run(tokens, events))
  {
    if events != [] {
      var front := events[..|events| - 1];
      RunFiled(tokens, front);
      StepFiled(Waiters(tokens, front), Tasks(front), Run(tokens, front), events[|events| - 1]);
    }
  }

  /** A waiter returns exactly when the message that was last at the time, and with it all before
      it, has been sent, and no other task has been filed under that message since. */
  lemma WaiterReturnsIff(tokens: nat, events: seq<Event>, i: nat)
    requires FreshTasks(events) && i < |Waiters(tokens, events)|
    ensures var w, s := Waiters(tokens, events)[i], Run(tokens, events);
            && (w.task in s.completed <==> w.key < |s.sent| && Last(Waiters(tokens, events), i))
            && (w.key < |s.sent| ==> forall k: nat :: k <= w.key ==> s.sent[k].serial == k)
  {
    RunFiled(tokens, events);
    assert Answered(Waiters(tokens, events), Run(tokens, events), i);
  }

  /** No flush finds the tail with a task filed under it already. */
  ghost predicate Unshared(tokens: nat, events: seq<Event>) {
    events == [] ||
    (var s := Run(tokens, events[..|events| - 1]);
     && Unshared(tokens, events[..|events| - 1])
     && (events[|events| - 1].FlushBy? && s.queue != [] ==> Tail(s) !in s.flushing))
  }

  /** In a run without shared tails nobody is forgotten: every waiter returns exactly when its
      message has been sent. */
  lemma {:induction false} UnsharedReturn(tokens: nat, events: seq<Event>, i: nat)
    requires FreshTasks(events) && Unshared(tokens, events) && i < |Waiters(tokens, events)|
    ensures var w, s := Waiters(tokens, events)[i], Run(tokens, events);
            w.task in s.completed <==> w.key < |s.sent|
  {
    UnsharedLast(tokens, events, i);
    WaiterReturnsIff(tokens, events, i);
  }

  lemma {:induction false} UnsharedLast(tokens: nat, events: seq<Event>, i: nat)
    requires FreshTasks(events) && Unshared(tokens, events) && i < |Waiters(tokens, events)|
    ensures Last(Waiters(tokens, events), i)
  {
    var front, e := events[..|events| - 1], events[|events| - 1];
    var ws, s := Waiters(tokens, front), Run(tokens, front);
    if i < |ws| {
      UnsharedLast(tokens, front, i);
      RunFiled(tokens, front);
    }
  }

  /** Since the last message was queued there have only been pumps. */
  predicate Primed(events: seq<Event>) {
    events != [] &&
    var e := events[|events| - 1];
    e.Queue? || ((e.Tokens? || e.Send?) && Primed(events[..|events| - 1]))
  }

  /** Whoever flushes has just queued a message, as the one caller of the function has; there may
      have been pumps in between. */
  predicate FlushesFollow(events: seq<Event>) {
    events == [] ||
    (&& FlushesFollow(events[..|events| - 1])
     && (events[|events| - 1].FlushBy? ==> Primed(events[..|events| - 1])))
  }

  lemma {:induction false} PumpUnfiles(s: State)
    ensures Pumped(s).flushing.Keys <= s.flushing.Keys
    decreases |s.queue|
  {
    if s.tokens > 0 && s.queue != [] { PumpUnfiles(SendOne(s)); }
  }

  /** No task waits for the message queued last, which is the tail while it is there. */
  ghost predicate NewTail(s: State) {
    && InOrder(s) && s.serial > 0 && s.serial - 1 !in s.flushing
  }

  lemma PumpNewTail(s: State)
    requires NewTail(s)
    ensures NewTail(Pumped(s))
  {
    PumpKeeps(s);
    PumpUnfiles(s);
  }

  lemma PushNewTail(s: State, p: seq<byte>)
    requires InOrder(s)
    ensures NewTail(Pushed(s, p))
  {
    StepKeeps(s, Queue(p));
    assert s.serial !in Serials(s.queue);
  }

  lemma {:induction false} TailIsNew(tokens: nat, events: seq<Event>)
    requires Primed(events)
    ensures NewTail(Run(tokens, events))
  {
    var front, e := events[..|events| - 1], events[|events| - 1];
    var s := Run(tokens, front);
    if e.Queue? {
      TokensConserved(tokens, front);
      PushNewTail(s, e.payload);
    } else {
      TailIsNew(tokens, front);
      PumpNewTail(if e.Tokens? then s.(tokens := s.tokens + e.n) else s);
    }
  }

  lemma {:induction false} FollowingUnshared(tokens: nat, events: seq<Event>)
    requires FlushesFollow(events)
    ensures Unshared(tokens, events)
  {
    if events != [] {
      var front := events[..|events| - 1];
      FollowingUnshared(tokens, front);
      if events[|events| - 1].FlushBy? { TailIsNew(tokens, front); }
    }
  }

  /** In every run in which a flush follows a message of its own, nobody is forgotten: a waiter
      has returned exactly when its message, and with it all before it, has been sent. */
  lemma FlushReturnsIff(tokens: nat, events: seq<Event>, i: nat)
    requires FreshTasks(events) && FlushesFollow(events) && i < |Waiters(tokens, events)|
    ensures var w, s := Waiters(tokens, events)[i], Run(tokens, events);
            && (w.task in s.completed <==> w.key < |s.sent|)
            && (w.key < |s.sent| ==> forall k: nat :: k <= w.key ==> s.sent[k].serial == k)
  {
    FollowingUnshared(tokens, events);
    UnsharedReturn(tokens, events, i);
    WaiterReturnsIff(tokens, events, i);
  }

  // ---------------------------------------------------------------- every flush

  /** Task t was flushed when n messages had been queued: it has returned, once, exactly if these are
      sent, and is filed under the last of them until then. */
  ghost predicate Tracks(s: State, t: Task, n: nat) {
    && InOrder(s) && n <= s.serial
    && multiset(s.completed)[t] == (if n <= |s.sent| then 1 else 0)
    && (|s.sent| < n ==> n - 1 in s.flushing && s.flushing[n - 1] == t)
    && (forall k :: k in s.flushing && s.flushing[k] == t ==> k == n - 1 && |s.sent| < n)
  }

  /** Task t has never been heard of. */
  ghost predicate Unknown(s: State, t: Task) {
    InOrder(s) && t !in s.completed && forall k :: k in s.flushing ==> s.flushing[k] != t
  }

  lemma SendOneTracks(s: State, t: Task, n: nat)
    requires Tracks(s, t, n) && s.tokens > 0 && s.queue != []
    ensures Tracks(SendOne(s), t, n)
  {
    FiledLeft(s);
    assert s.queue[0].serial == |s.sent|;
  }

  lemma {:induction false} PumpTracks(s: State, t: Task, n: nat)
    requires Tracks(s, t, n)
    ensures Tracks(Pumped(s), t, n)
    decreases |s.queue|
  {
    if s.tokens > 0 && s.queue != [] {
      SendOneTracks(s, t, n);
      PumpTracks(SendOne(s), t, n);
    }
  }

  lemma {:induction false} PumpUnknown(s: State, t: Task)
    requires Unknown(s, t)
    ensures Unknown(Pumped(s), t)
    decreases |s.queue|
  {
    if s.tokens > 0 && s.queue != [] {
      FiledLeft(s);
      PumpUnknown(SendOne(s), t);
    }
  }

  lemma StepUnknown(s: State, e: Event, t: Task)
    requires Unknown(s, t) && e != FlushBy(t)
    ensures Unknown(Exec(s, e), t)
  {
    StepKeeps(s, e);
    if e.Tokens? { PumpUnknown(s.(tokens := s.tokens + e.n), t); }
    if e.Send? { PumpUnknown(s, t); }
  }

  lemma StepTracks(s: State, e: Event, t: Task, n: nat)
    requires Tracks(s, t, n) && e != FlushBy(t)
    requires e.FlushBy? && |s.sent| < n ==> NewTail(s)
    ensures Tracks(Exec(s, e), t, n)
  {
    StepKeeps(s, e);
    if e.Tokens? { PumpTracks(s.(tokens := s.tokens + e.n), t, n); }
    if e.Send? { PumpTracks(s, t, n); }
  }

  /** A flush is tracked from its beginning. */
  lemma FlushTracks(s: State, t: Task)
    requires Unknown(s, t)
    ensures Tracks(Flushed(s, t), t, s.serial)
  {
    StepKeeps(s, FlushBy(t));
    if s.queue == [] {
      assert multiset(s.completed)[t] == 0;
    }
  }

  lemma {:induction false} NotYetFlushed(tokens: nat, events: seq<Event>, t: Task)
    requires t !in Tasks(events)
    ensures Unknown(Run(tokens, events), t)
  {
    if events != [] {
      NotYetFlushed(tokens, events[..|events| - 1], t);
      StepUnknown(Run(tokens, events[..|events| - 1]), events[|events| - 1], t);
    }
  }

  lemma {:induction false} FlushedAt(events: seq<Event>, i: nat)
    requires i < |events| && events[i].FlushBy? && FreshTasks(events)
    ensures events[i].task in Tasks(events) && events[i].task !in Tasks(events[..i])
  {
    var front := events[..|events| - 1];
    if i < |front| {
      FlushedAt(front, i);
      assert front[..i] == events[..i];
    }
  }

  lemma QueuedSerial(tokens: nat, events: seq<Event>)
    ensures Run(tokens, events).serial == |QueuedBy(events)| && InOrder(Run(tokens, events))
  {
    TokensConserved(tokens, events);
  }

  /** Every flush is tracked, with the number of messages queued before it. */
  lemma {:induction false} RunTracks(tokens: nat, events: seq<Event>, i: nat)
    requires FreshTasks(events) && i < |events| && events[i].FlushBy?
    requires FlushesFollow(events) || Run(tokens, events[..i]).queue == []
    ensures Tracks(Run(tokens, events), events[i].task, |QueuedBy(events[..i])|)
    ensures Run(tokens, events[..i]).queue == [] ==> |QueuedBy(events[..i])| <= |Run(tokens, events).sent|
  {
    var front, e, t := events[..|events| - 1], events[|events| - 1], events[i].task;
    var s := Run(tokens, front);
    QueuedSerial(tokens, events[..i]);
    FlushedAt(events, i);
    if i == |front| {
      NotYetFlushed(tokens, front, t);
      FlushTracks(s, t);
    } else {
      assert front[..i] == events[..i];
      RunTracks(tokens, front, i);
      FlushedAt(front, i);
      if e.FlushBy? && FlushesFollow(events) { TailIsNew(tokens, front); }
      StepTracks(s, e, t, |QueuedBy(events[..i])|);
      SentGrows(s, e);
    }
  }

  lemma SentGrows(s: State, e: Event)
    requires InOrder(s)
    ensures |s.sent| <= |Exec(s, e).sent|
  {
    if e.Tokens? { PumpGrows(s.(tokens := s.tokens + e.n)); }
    if e.Send? { PumpGrows(s); }
  }

  lemma {:induction false} PumpGrows(s: State)
    ensures |s.sent| <= |Pumped(s).sent|
    decreases |s.queue|
  {
    if s.tokens > 0 && s.queue != [] { PumpGrows(SendOne(s)); }
  }

  /** In every run in which a flush follows a message of its own: a task has returned exactly if at
      least the messages queued before its flush have been sent, and it has returned once only. */
  lemma EveryFlushReturnsIff(tokens: nat, events: seq<Event>, i: nat)
    requires FreshTasks(events) && FlushesFollow(events) && i < |events| && events[i].FlushBy?
    ensures var s, n := Run(tokens, events), |QueuedBy(events[..i])|;
            && (events[i].task in s.completed <==> n <= |s.sent|)
            && multiset(s.completed)[events[i].task] <= 1
  {
    RunTracks(tokens, events, i);
  }

  /** In every run a task that flushes when nothing is queued has returned, once, from then on. */
  lemma FlushAtEmptyReturns(tokens: nat, events: seq<Event>, i: nat)
    requires FreshTasks(events) && i < |events| && events[i].FlushBy? && Run(tokens, events[..i]).queue == []
    ensures events[i].task in Run(tokens, events).completed
    ensures multiset(Run(tokens, events).completed)[events[i].task] == 1
  {
    RunTracks(tokens, events, i);
  }

  /** What the function does with two tasks that flush with the same message last: only the second
      ever returns. */
  lemma SharedTail(p: seq<byte>)
    ensures Run(0, [Queue(p), FlushBy(1), FlushBy(2), Tokens(1)]).completed == [2]
  {
    var e := [Queue(p), FlushBy(1), FlushBy(2), Tokens(1)];
    assert e[..3] == [Queue(p), FlushBy(1), FlushBy(2)] && e[..3][..2] == [Queue(p), FlushBy(1)];
    assert e[..3][..2][..1] == [Queue(p)] && [Queue(p)][..0] == [];
    var s := State(0, [Out(0, p)], map[], 1, [], []);
    assert Run(0, [Queue(p)]) == s;
    assert Run(0, [Queue(p), FlushBy(1)]) == s.(flushing := map[0 := 1]);
    assert Run(0, [Queue(p), FlushBy(1), FlushBy(2)]) == s.(flushing := map[0 := 2]);
    var s1 := s.(flushing := map[0 := 2], tokens := 1);
    assert Pumped(s1) == Pumped(SendOne(s1)) == SendOne(s1);
  }
}
