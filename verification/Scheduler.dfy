/**
 The display of decoded video frames. Frames wait in the decoding queue; a decoded sample is
 matched with its frame by timestamp; the frame to display next waits for its timer. The main
 loop and a streaming thread share this state under a lock.
 */
module Scheduler {
  import opened Common

  /** A frame, numbered in the order of arrival. */
  datatype Frame = Frame(serial: nat, timestamp: nat, mmTime: nat)

  /** What each thread is about to do outside the lock. */
  datatype Main = MainIdle | Showing(frame: Frame) | Removing(timer: nat) | MainSchedules

  datatype Streaming = StreamIdle | StreamSchedules

  /** timer is 0 or the number of the timer set; timers are the timers of the main loop that have
      not fired nor been removed, delay the time given for the last one set. freed and displayed
      record frames, late those dropped as late, queued all that ever arrived; pulls counts how
      often the sink was asked for a sample, and got how often it had one. */
  datatype State = State(decoding: seq<Frame>, display: Option<Frame>, timer: nat, pending: nat,
                         timers: set<nat>, lastTimer: nat, main: Main, streaming: Streaming,
                         queued: seq<Frame>, freed: seq<Frame>, displayed: seq<Frame>,
                         delay: nat, late: seq<Frame>, pulls: nat, got: nat)

  const FRESH: State := State([], None, 0, 0, {}, 0, MainIdle, StreamIdle, [], [], [], 0, [], 0, 0)

  /** The signed difference of two 32-bit times. */
  function TimeDiff(a: nat, b: nat): int {
    var d := (a - b) % U32;
    if d >= U32 / 2 then d - U32 else d
  }

  // ---------------------------------------------------------------- the steps under the lock

  /** The position of the first frame with this timestamp, or the length. */
  function Find(frames: seq<Frame>, timestamp: nat): (i: nat)
    ensures i <= |frames| && (i < |frames| ==> frames[i].timestamp == timestamp)
    ensures forall j :: 0 <= j < i ==> frames[j].timestamp != timestamp
  {
    if frames == [] || frames[0].timestamp == timestamp then 0 else 1 + Find(frames[1..], timestamp)
  }

  /** The sink is asked for a sample; when it has none, none is pending any more. */
  function Pulled(s: State, sample: Option<nat>): State
    requires s.pending > 0
  {
    if sample.None? then s.(pending := 0, pulls := s.pulls + 1)
    else s.(pending := s.pending - 1, pulls := s.pulls + 1, got := s.got + 1)
  }

  /** One sample is pulled: the timestamp of its buffer, or nothing. */
  function Fetch(s: State, sample: Option<nat>): State
    requires s.pending > 0
  {
    match sample
    case None => Pulled(s, sample)
    case Some(pts) =>
      var i := Find(s.decoding, pts);
      if i == |s.decoding| then Pulled(s, sample)
      else Pulled(s, sample).(display := Some(s.decoding[i]), freed := s.freed + s.decoding[..i], decoding := s.decoding[i + 1..])
  }

  function SetTimer(s: State, delay: nat): State {
    s.(timer := s.lastTimer + 1, lastTimer := s.lastTimer + 1, timers := s.timers + {s.lastTimer + 1}, delay := delay)
  }

  function Drop(s: State): State
    requires s.display.Some?
  {
    s.(display := None, freed := s.freed + [s.display.value], late := s.late + [s.display.value])
  }

  function Head(samples: seq<Option<nat>>): Option<nat> { if samples == [] then None else samples[0] }

  function Rest(samples: seq<Option<nat>>): seq<Option<nat>> { if samples == [] then [] else samples[1..] }

  /** The scheduling loop; samples are what the sink yields, and nothing when they are used up. */
  function Schedule(s: State, now: nat, samples: seq<Option<nat>>): State
    decreases 2 * s.pending + (if s.display.Some? then 1 else 0)
  {
    if s.timer != 0 then s
    else if s.display.None? then
      if s.pending == 0 then s else Schedule(Fetch(s, Head(samples)), now, Rest(samples))
    else if TimeDiff(now, s.display.value.mmTime) < 0 then SetTimer(s, (s.display.value.mmTime - now) % U32)
    else if s.pending == 0 then SetTimer(s, 0)
    else Schedule(Drop(s), now, samples)
  }

  // ---------------------------------------------------------------- as the code runs

  class Decoder {
    var decoding: seq<Frame>
    var display: Option<Frame>
    var timer: nat
    var pending: nat
    var timers: set<nat>
    var lastTimer: nat
    var freed: seq<Frame>
    var delay: nat
    var late: seq<Frame>
    var pulls: nat
    var got: nat

    ghost function View(s: State): State
      reads this
    {
      s.(decoding := decoding, display := display, timer := timer, pending := pending,
         timers := timers, lastTimer := lastTimer, freed := freed, delay := delay, late := late, pulls := pulls, got := got)
    }

    constructor ()
      ensures View(FRESH) == FRESH
    {
      decoding, display, timer, pending, timers, lastTimer, freed := [], None, 0, 0, {}, 0, [];
      delay, late, pulls, got := 0, [], 0, 0;
    }

    /** Looks for the frame of the sample and, only when there is one, removes it and the
        older ones from the queue. */
    method FetchPendingSample(sample: Option<nat>, ghost s: State)
      requires pending > 0 && display.None?
      modifies this
      ensures View(s) == Fetch(old(View(s)), sample)
    {
      pulls := pulls + 1;
      if sample.None? {
        pending := 0;
        return;
      }
      var pts := sample.value;
      pending := pending - 1;
      got := got + 1;
      var i := Search(pts);
      if i < |decoding| {
        display := Some(decoding[i]);
        RemoveThrough(pts, i, s);
      }
    }

    /** The search through the queue. */
    method Search(pts: nat) returns (i: nat)
      ensures i == Find(decoding, pts)
    {
      i := 0;
      while i < |decoding| && decoding[i].timestamp != pts
        invariant i <= |decoding| && Find(decoding, pts) == i + Find(decoding[i..], pts)
      {
        assert decoding[i..][1..] == decoding[i + 1..];
        i := i + 1;
      }
    }

    /** Pops and frees frames up to the one with the timestamp, which is kept. */
    method RemoveThrough(pts: nat, ghost i: nat, ghost s: State)
      requires i < |decoding| && i == Find(decoding, pts)
      modifies `decoding, `freed
      ensures View(s) == old(View(s)).(freed := old(freed) + old(decoding)[..i], decoding := old(decoding)[i + 1..])
    {
      ghost var was := decoding;
      ghost var k := 0;
      assert freed + was[..0] == freed;
      while true
        invariant k <= i && decoding == was[k..] && freed == old(freed) + was[..k]
        decreases |decoding|
      {
        var frame := decoding[0];
        decoding := decoding[1..];
        if frame.timestamp == pts {
          break;
        }
        freed := freed + [frame];
        k := k + 1;
      }
    }

    /** Sets a timer for the next frame, fetching samples and dropping late frames as needed. It
        returns with a timer set, or with nothing to display and nothing pending. */
    method ScheduleFrame(now: nat, samples: seq<Option<nat>>, ghost s: State)
      modifies this
      ensures View(s) == Schedule(old(View(s)), now, samples)
      ensures timer != 0 || (display.None? && pending == 0)
    {
      var left := samples;
      while timer == 0
        invariant Schedule(View(s), now, left) == Schedule(old(View(s)), now, samples)
        decreases timer == 0, 2 * pending + if display.Some? then 1 else 0
      {
        left := FetchPending(now, left, s);
        if display.None? {
          break;
        }
        var frame := display.value;
        if TimeDiff(now, frame.mmTime) < 0 {
          AddTimer((frame.mmTime - now) % U32, s);
        } else if pending == 0 {
          AddTimer(0, s);
        } else {
          late := late + [frame];
          display := None;
          freed := freed + [frame];
        }
      }
    }

    /** Fetches samples until one of them brings a frame. */
    method FetchPending(ghost now: nat, samples: seq<Option<nat>>, ghost s: State) returns (left: seq<Option<nat>>)
      requires timer == 0
      modifies this
      ensures timer == 0 && Schedule(View(s), now, left) == Schedule(old(View(s)), now, samples)
      ensures display.None? ==> pending == 0
      ensures 2 * pending + (if display.Some? then 1 else 0) <= old(2 * pending + (if display.Some? then 1 else 0))
    {
      left := samples;
      while display.None? && pending > 0
        invariant timer == 0 && Schedule(View(s), now, left) == Schedule(old(View(s)), now, samples)
        invariant 2 * pending + (if display.Some? then 1 else 0) <= old(2 * pending + (if display.Some? then 1 else 0))
        decreases pending
      {
        FetchPendingSample(Head(left), s);
        left := Rest(left);
      }
    }

    method AddTimer(d: nat, ghost s: State)
      modifies `timer, `timers, `lastTimer, `delay
      ensures View(s) == SetTimer(old(View(s)), d)
    {
      delay := d;
      lastTimer := lastTimer + 1;
      timer := lastTimer;
      timers := timers + {timer};
    }
  }

  // ---------------------------------------------------------------- interleavings

  datatype Event =
    | QueueFrame(timestamp: nat, mmTime: nat)
    | NewSample
    | StreamSchedule(now: nat, samples: seq<Option<nat>>)
    | TimerFires(id: nat)
    | Shown(success: bool)
    | MainSchedule(now: nat, samples: seq<Option<nat>>)
    | Reschedule
    | TimerRemoved

  function Exec(s: State, e: Event): Option<State> {
    match e
    case QueueFrame(ts, mm) =>
      if !s.main.MainIdle? then None
      else
        var f := Frame(|s.queued|, ts, mm);
        Some(s.(queued := s.queued + [f], decoding := s.decoding + [f]))
    case NewSample =>
      if !s.streaming.StreamIdle? then None
      else if s.timer != 0 && s.display.Some? then Some(s.(pending := s.pending + 1))
      else Some(s.(pending := s.pending + 1, streaming := StreamSchedules))
    case StreamSchedule(now, samples) =>
      if !s.streaming.StreamSchedules? then None
      else Some(Schedule(s.(streaming := StreamIdle), now, samples))
    case TimerFires(id) =>
      if !s.main.MainIdle? || id !in s.timers then None
      else
        var s1 := s.(timers := s.timers - {id}, timer := 0, display := None);
        Some(if s.display.None? then s1 else s1.(main := Showing(s.display.value)))
    case Shown(success) =>
      if !s.main.Showing? then None
      else Some(s.(displayed := if success then s.displayed + [s.main.frame] else s.displayed,
                   freed := s.freed + [s.main.frame], main := MainSchedules))
    case MainSchedule(now, samples) =>
      if !s.main.MainSchedules? then None
      else Some(Schedule(s.(main := MainIdle), now, samples))
    case Reschedule =>
      if !s.main.MainIdle? then None else Some(s.(timer := 0, main := Removing(s.timer)))
    case TimerRemoved =>
      if !s.main.Removing? then None
      else Some(s.(timers := s.timers - {s.main.timer}, main := MainSchedules))
  }

  function Run(events: seq<Event>): Option<State> {
    if events == [] then Some(FRESH) else
    var s := Run(events[..|events| - 1]);
    if s.None? then None else Exec(s.value, events[|events| - 1])
  }

  /** How many frames have left the decoding queue. */
  function Gone(s: State): int { |s.queued| - |s.decoding| }

  /** The frame has been queued and has left the decoding queue. */
  predicate IsGone(s: State, f: Frame) { f.serial < Gone(s) <= |s.queued| && f == s.queued[f.serial] }

  /** The frame is being shown, or is the next to display. */
  predicate IsHeld(s: State, f: Frame) { s.main == Showing(f) || s.display == Some(f) }

  /** The decoding queue holds the youngest frames. */
  ghost predicate Queued(s: State) {
    && (forall i :: 0 <= i < |s.queued| ==> s.queued[i].serial == i)
    && 0 <= Gone(s) && s.decoding == s.queued[Gone(s)..]
  }

  /** Every frame that has left the queue is held, or has been freed once. */
  ghost predicate Accounted(s: State) {
    && (forall f :: f in s.freed ==> IsGone(s, f) && !IsHeld(s, f))
    && (forall i, j :: 0 <= i < j < |s.freed| ==> s.freed[i] != s.freed[j])
    && (forall i :: 0 <= i < Gone(s) <= |s.queued| ==> s.queued[i] in s.freed || IsHeld(s, s.queued[i]))
  }

  /** Displayed, shown and next frames are in the order of arrival. */
  ghost predicate Ordered(s: State) {
    && (forall i, j :: 0 <= i < j < |s.displayed| ==> s.displayed[i].serial < s.displayed[j].serial)
    && (forall f :: f in s.displayed ==> IsGone(s, f) && forall g :: IsHeld(s, g) ==> f.serial < g.serial)
    && (forall f :: IsHeld(s, f) ==> IsGone(s, f))
    && (s.main.Showing? && s.display.Some? ==> s.main.frame.serial < s.display.value.serial)
  }

  ghost predicate Placed(s: State) { Queued(s) && Accounted(s) && Ordered(s) }

  /** A timer is set only for a frame, and the main loop has it; no other timer is left, but for
      the one about to be removed. */
  ghost predicate Timed(s: State) {
    && (s.timer != 0 ==> s.display.Some?)
    && s.timer <= s.lastTimer
    && (forall t :: t in s.timers ==> 0 < t <= s.lastTimer)
    && (s.main.Removing? && s.main.timer != 0 ==> s.main.timer != s.timer)
    && s.timers == (if s.timer != 0 then {s.timer} else {}) + (if s.main.Removing? && s.main.timer != 0 then {s.main.timer} else {})
  }

  predicate Settled(s: State) { s.timer != 0 || (s.display.None? && s.pending == 0) }

  ghost predicate Inv(s: State) {
    && Placed(s) && Timed(s)
    && (s.main.MainIdle? && s.streaming.StreamIdle? ==> Settled(s))
  }

  // ---------------------------------------------------------------- the steps keep the invariant

  lemma FetchPlaced(s: State, sample: Option<nat>)
    requires Placed(s) && s.pending > 0 && s.display.None?
    ensures Placed(Fetch(s, sample))
  {
    var s1 := Pulled(s, sample);
    SamePlaced(s, s1);
    if sample.Some? {
      var i := Find(s.decoding, sample.value);
      if i < |s.decoding| {
        var s2 := s1.(display := Some(s.decoding[i]), freed := s.freed + s.decoding[..i], decoding := s.decoding[i + 1..]);
        TakePlaced(s1, s2, i);
        assert Fetch(s, sample) == s2;
      } else {
        assert Fetch(s, sample) == s1;
      }
    } else {
      assert Fetch(s, sample) == s1;
    }
  }

  /** The queue gives up its first i frames, which are freed, and the one after them, which becomes
      the next to display. */
  lemma TakePlaced(s: State, s': State, i: nat)
    requires Placed(s) && s.display.None? && i < |s.decoding|
    requires s' == s.(display := Some(s.decoding[i]), freed := s.freed + s.decoding[..i], decoding := s.decoding[i + 1..])
    ensures Placed(s')
  {
    assert Gone(s') == Gone(s) + i + 1;
    TakeAccounted(s, s', i);
    if s.main.Showing? { assert IsHeld(s, s.main.frame); }
    forall f | IsHeld(s', f) ensures IsGone(s', f) {
      assert IsHeld(s, f) || f == s.queued[Gone(s) + i];
    }
    forall f, g | f in s'.displayed && IsHeld(s', g) ensures f.serial < g.serial {
      assert IsHeld(s, g) || g == s.queued[Gone(s) + i];
    }
  }

  lemma TakeAccounted(s: State, s': State, i: nat)
    requires Placed(s) && s.display.None? && i < |s.decoding|
    requires s' == s.(display := Some(s.decoding[i]), freed := s.freed + s.decoding[..i], decoding := s.decoding[i + 1..])
    ensures Accounted(s')
  {
    var lo := Gone(s);
    forall f | f in s'.freed ensures IsGone(s', f) && !IsHeld(s', f) {
      if f in s.freed {
        assert IsGone(s, f);
      } else {
        var k :| 0 <= k < i && s.decoding[k] == f;
        assert f == s.queued[lo + k];
        assert !IsHeld(s, f);
      }
    }
    forall a, b | 0 <= a < b < |s'.freed| ensures s'.freed[a] != s'.freed[b] {
      if b >= |s.freed| {
        assert s'.freed[b] == s.queued[lo + b - |s.freed|];
        if a < |s.freed| { assert s.freed[a] in s.freed; } else { assert s'.freed[a] == s.queued[lo + a - |s.freed|]; }
      }
    }
    forall k | 0 <= k < Gone(s') ensures s.queued[k] in s'.freed || IsHeld(s', s.queued[k]) {
      if k < lo {
        assert s.queued[k] in s.freed || IsHeld(s, s.queued[k]);
      } else if k < lo + i {
        assert s'.freed[|s.freed| + k - lo] == s.queued[k];
      }
    }
  }

  lemma DropPlaced(s: State)
    requires Placed(s) && s.display.Some?
    ensures Placed(Drop(s))
  {
    var s', d := Drop(s), s.display.value;
    assert IsHeld(s, d) && d !in s.freed;
    FreeOne(s, s', d);
  }

  /** A held frame is freed. */
  lemma FreeOne(s: State, s': State, d: Frame)
    requires Placed(s) && IsHeld(s, d) && s'.freed == s.freed + [d]
    requires s'.queued == s.queued && s'.decoding == s.decoding
    requires forall f :: IsHeld(s', f) <==> IsHeld(s, f) && f != d
    ensures Accounted(s')
  {
    assert IsGone(s, d) && s'.freed[|s.freed|] == d;
    forall i | 0 <= i < Gone(s) ensures s.queued[i] in s'.freed || IsHeld(s', s.queued[i]) {
      assert s.queued[i] in s.freed || IsHeld(s, s.queued[i]);
    }
  }

  lemma {:induction false} SchedulePlaced(s: State, now: nat, samples: seq<Option<nat>>)
    requires Placed(s)
    ensures Placed(Schedule(s, now, samples))
    decreases 2 * s.pending + (if s.display.Some? then 1 else 0)
  {
    if s.timer != 0 {
    } else if s.display.None? {
      if s.pending > 0 {
        FetchPlaced(s, Head(samples));
        SchedulePlaced(Fetch(s, Head(samples)), now, Rest(samples));
      }
    } else if TimeDiff(now, s.display.value.mmTime) < 0 {
      SamePlaced(s, SetTimer(s, (s.display.value.mmTime - now) % U32));
    } else if s.pending == 0 {
      SamePlaced(s, SetTimer(s, 0));
    } else {
      DropPlaced(s);
      SchedulePlaced(Drop(s), now, samples);
    }
  }

  /** Scheduling sets a timer or leaves nothing to do, and does not touch the threads. */
  lemma {:induction false} ScheduleSettles(s: State, now: nat, samples: seq<Option<nat>>)
    requires Timed(s)
    ensures var s' := Schedule(s, now, samples);
            Timed(s') && Settled(s') && s'.main == s.main && s'.streaming == s.streaming && s'.queued == s.queued
    decreases 2 * s.pending + (if s.display.Some? then 1 else 0)
  {
    if s.timer != 0 {
    } else if s.display.None? {
      if s.pending > 0 { ScheduleSettles(Fetch(s, Head(samples)), now, Rest(samples)); }
    } else if TimeDiff(now, s.display.value.mmTime) < 0 {
      SetTimerTimed(s, (s.display.value.mmTime - now) % U32);
    } else if s.pending == 0 {
      SetTimerTimed(s, 0);
    } else {
      ScheduleSettles(Drop(s), now, samples);
    }
  }

  lemma SetTimerTimed(s: State, delay: nat)
    requires Timed(s) && s.timer == 0 && s.display.Some?
    ensures Timed(SetTimer(s, delay))
  {
    if s.main.Removing? && s.main.timer != 0 { assert s.main.timer in s.timers; }
  }

  lemma ScheduleInv(s: State, now: nat, samples: seq<Option<nat>>)
    requires Placed(s) && Timed(s)
    ensures Inv(Schedule(s, now, samples))
  {
    SchedulePlaced(s, now, samples);
    ScheduleSettles(s, now, samples);
  }

  lemma QueuePlaced(s: State, ts: nat, mm: nat)
    requires Placed(s) && Exec(s, QueueFrame(ts, mm)).Some?
    ensures Placed(Exec(s, QueueFrame(ts, mm)).value)
  {
    var s' := Exec(s, QueueFrame(ts, mm)).value;
    forall f ensures IsGone(s', f) <==> IsGone(s, f) {}
    forall i | 0 <= i < Gone(s) ensures s'.queued[i] in s'.freed || IsHeld(s', s'.queued[i]) {
      assert s.queued[i] in s.freed || IsHeld(s, s.queued[i]);
    }
  }

  lemma ShownPlaced(s: State, success: bool)
    requires Placed(s) && Exec(s, Shown(success)).Some?
    ensures Placed(Exec(s, Shown(success)).value)
  {
    var s', f := Exec(s, Shown(success)).value, s.main.frame;
    assert IsHeld(s, f);
    forall g ensures IsHeld(s', g) <==> IsHeld(s, g) && g != f {}
    FreeOne(s, s', f);
    forall g | g in s'.displayed ensures IsGone(s', g) { assert g in s.displayed || g == f; }
    forall i, j | 0 <= i < j < |s'.displayed| ensures s'.displayed[i].serial < s'.displayed[j].serial {
      if j == |s.displayed| { assert s.displayed[i] in s.displayed; }
    }
  }

  lemma SamePlaced(s: State, s': State)
    requires Placed(s) && s'.queued == s.queued && s'.decoding == s.decoding && s'.freed == s.freed
    requires s'.displayed == s.displayed && forall f :: IsHeld(s', f) <==> IsHeld(s, f)
    requires !(s'.main.Showing? && s'.display.Some?) || (s'.main == s.main && s'.display == s.display)
    ensures Placed(s')
  {
  }

  lemma StepInv(s: State, e: Event)
    requires Inv(s) && Exec(s, e).Some?
    ensures Inv(Exec(s, e).value)
  {
    var s' := Exec(s, e).value;
    match e
    case QueueFrame(ts, mm) => QueuePlaced(s, ts, mm);
    case NewSample => SamePlaced(s, s');
    case StreamSchedule(now, samples) =>
      SamePlaced(s, s.(streaming := StreamIdle));
      ScheduleInv(s.(streaming := StreamIdle), now, samples);
    case TimerFires(id) => SamePlaced(s, s');
    case Shown(success) => ShownPlaced(s, success);
    case MainSchedule(now, samples) =>
      SamePlaced(s, s.(main := MainIdle));
      ScheduleInv(s.(main := MainIdle), now, samples);
    case Reschedule => SamePlaced(s, s');
    case TimerRemoved => SamePlaced(s, s');
  }

  lemma {:induction false} RunInv(events: seq<Event>)
    requires Run(events).Some?
    ensures Inv(Run(events).value)
  {
    if events != [] {
      RunInv(events[..|events| - 1]);
      StepInv(Run(events[..|events| - 1]).value, events[|events| - 1]);
    }
  }

  // ---------------------------------------------------------------- what follows for every run

  /** However the threads interleave, every frame is freed at most once, and not while it is queued,
      shown or next; and the frames displayed are some of those queued, in the order of arrival. */
  lemma FreedOnceShownInOrder(events: seq<Event>)
    requires Run(events).Some?
    ensures var s := Run(events).value;
            && (forall i, j :: 0 <= i < j < |s.freed| ==> s.freed[i] != s.freed[j])
            && (forall f :: f in s.freed ==> f in s.queued && f !in s.decoding && !IsHeld(s, f))
            && (forall i, j :: 0 <= i < j < |s.displayed| ==> s.displayed[i].serial < s.displayed[j].serial)
            && (forall f :: f in s.displayed ==> f.serial < |s.queued| && s.queued[f.serial] == f)
  {
    RunInv(events);
  }

  /** When neither thread is about to schedule, nothing waits to be displayed, or a timer that the
      main loop has will display a frame: the picture never freezes. */
  lemma NeverFrozen(events: seq<Event>)
    requires Run(events).Some?
    requires Run(events).value.main.MainIdle? && Run(events).value.streaming.StreamIdle?
    ensures var s := Run(events).value;
            (s.display.None? && s.pending == 0) || (s.timer in s.timers && s.display.Some?)
  {
    RunInv(events);
  }

  // ---------------------------------------------------------------- which frame, and when

  /** The time of a frame is still to come, times being 32-bit numbers that wrap around. */
  predicate Early(now: nat, mmTime: nat) { 1 <= (mmTime - now) % 0x1_0000_0000 <= 0x8000_0000 }

  lemma TimeDiffIs(a: nat, b: nat)
    ensures -0x8000_0000 <= TimeDiff(a, b) < 0x8000_0000 && (a - b - TimeDiff(a, b)) % 0x1_0000_0000 == 0
    ensures TimeDiff(a, b) < 0 <==> Early(a, b)
  {
  }

  /** A sample brings the first frame with its timestamp; the frames before it are freed, and when there
      is no such frame nothing changes. */
  lemma FetchTakes(s: State, pts: nat, i: nat)
    requires s.pending > 0 && i <= |s.decoding| && (i < |s.decoding| ==> s.decoding[i].timestamp == pts)
    requires forall j :: 0 <= j < i ==> s.decoding[j].timestamp != pts
    ensures var s' := Fetch(s, Some(pts));
            && s'.pending == s.pending - 1 && s'.got == s.got + 1
            && (i < |s.decoding| ==>
                  s'.display == Some(s.decoding[i]) && s'.freed == s.freed + s.decoding[..i] && s'.decoding == s.decoding[i + 1..])
            && (i == |s.decoding| ==> s'.display == s.display && s'.freed == s.freed && s'.decoding == s.decoding)
  {
    var k := Find(s.decoding, pts);
    assert k == i;
  }

  /** What scheduling says of time: a timer is set for the time of a frame that is early, and at once
      for the last frame there is; frames are dropped only when their time has come, and for each
      of them the sink is asked for another one. */
  predicate OnTime(s: State, s': State, now: nat) {
    && (s'.timer != 0 ==>
          && s'.display.Some?
          && (if Early(now, s'.display.value.mmTime) then s'.delay == (s'.display.value.mmTime - now) % 0x1_0000_0000
              else s'.delay == 0 && s'.pending == 0))
    && s.late <= s'.late
    && (forall i :: |s.late| <= i < |s'.late| ==> !Early(now, s'.late[i].mmTime))
    && |s'.late| - |s.late| <= s'.pulls - s.pulls
  }

  lemma {:induction false} ScheduleOnTime(s: State, now: nat, samples: seq<Option<nat>>)
    requires s.timer == 0
    ensures OnTime(s, Schedule(s, now, samples), now)
    decreases 2 * s.pending + (if s.display.Some? then 1 else 0)
  {
    if s.display.None? {
      if s.pending > 0 { ScheduleOnTime(Fetch(s, Head(samples)), now, Rest(samples)); }
    } else {
      TimeDiffIs(now, s.display.value.mmTime);
      if !Early(now, s.display.value.mmTime) && s.pending > 0 { DropOnTime(s, now, samples); }
    }
  }

  /** After a drop the sink is asked at once. */
  lemma DropOnTime(s: State, now: nat, samples: seq<Option<nat>>)
    requires s.timer == 0 && s.display.Some? && s.pending > 0 && !Early(now, s.display.value.mmTime)
    ensures OnTime(s, Schedule(s, now, samples), now)
    decreases 2 * s.pending + (if s.display.Some? then 1 else 0), 0
  {
    TimeDiffIs(now, s.display.value.mmTime);
    var s1 := Fetch(Drop(s), Head(samples));
    assert Schedule(s, now, samples) == Schedule(Drop(s), now, samples) == Schedule(s1, now, Rest(samples));
    ScheduleOnTime(s1, now, Rest(samples));
    var s' := Schedule(s1, now, Rest(samples));
    assert s1.late == s.late + [s.display.value];
    forall i | |s.late| <= i < |s'.late| ensures !Early(now, s'.late[i].mmTime) {
      if i == |s.late| { assert s'.late[i] == s1.late[i]; }
    }
  }

  /** A frame that is early, or the last there is, is not dropped: its timer is set. */
  lemma ScheduleKeeps(s: State, now: nat, samples: seq<Option<nat>>)
    requires s.timer == 0 && s.display.Some? && (Early(now, s.display.value.mmTime) || s.pending == 0)
    ensures var s' := Schedule(s, now, samples);
            && s'.display == s.display && s'.timer == s.lastTimer + 1 && s'.late == s.late && s'.freed == s.freed
            && s'.delay == if Early(now, s.display.value.mmTime) then (s.display.value.mmTime - now) % 0x1_0000_0000 else 0
  {
    TimeDiffIs(now, s.display.value.mmTime);
  }

  /** The state when the main loop has removed the old timer. */
  function Restarted(s: State): State { s.(timer := 0, timers := s.timers - {s.timer}, main := MainSchedules) }

  lemma RescheduleRemoves(s: State)
    requires s.main.MainIdle?
    ensures Exec(s, Reschedule).Some? && Exec(Exec(s, Reschedule).value, TimerRemoved) == Some(Restarted(s))
  {
  }

  /** Rescheduling sets the timer of the next frame anew, by the time that it is then; the old timer
      is gone. */
  lemma RescheduleRestarts(s: State, now: nat, samples: seq<Option<nat>>)
    requires Inv(s) && s.main.MainIdle?
    ensures var s' := Exec(Restarted(s), MainSchedule(now, samples));
            && s'.Some? && s'.value.main.MainIdle? && (s.timer != 0 ==> s.timer !in s'.value.timers)
            && (s.display.Some? && Early(now, s.display.value.mmTime) ==>
                  && s'.value.display == s.display && s'.value.timer in s'.value.timers
                  && s'.value.delay == (s.display.value.mmTime - now) % 0x1_0000_0000)
  {
    var idle := Restarted(s).(main := MainIdle);
    ScheduleTimers(idle, now, samples);
    if s.display.Some? && Early(now, s.display.value.mmTime) { ScheduleKeeps(idle, now, samples); }
  }

  /** Scheduling sets new timers only. */
  lemma {:induction false} ScheduleTimers(s: State, now: nat, samples: seq<Option<nat>>)
    ensures var s' := Schedule(s, now, samples);
            && s'.main == s.main && s.lastTimer <= s'.lastTimer
            && (forall t :: t in s'.timers ==> t in s.timers || t > s.lastTimer)
            && (s.timer == 0 && s'.timer != 0 ==> s'.timer in s'.timers)
    decreases 2 * s.pending + (if s.display.Some? then 1 else 0)
  {
    if s.timer == 0 {
      if s.display.None? {
        if s.pending > 0 { ScheduleTimers(Fetch(s, Head(samples)), now, Rest(samples)); }
      } else if TimeDiff(now, s.display.value.mmTime) >= 0 && s.pending > 0 {
        ScheduleTimers(Drop(s), now, samples);
      }
    }
  }

  /** How often a frame was shown. */
  function ShownIn(events: seq<Event>): nat {
    if events == [] then 0
    else ShownIn(events[..|events| - 1]) + if events[|events| - 1] == Shown(true) then 1 else 0
  }

  lemma {:induction false} ScheduleShowsNone(s: State, now: nat, samples: seq<Option<nat>>)
    ensures Schedule(s, now, samples).displayed == s.displayed
    decreases 2 * s.pending + (if s.display.Some? then 1 else 0)
  {
    if s.timer == 0 {
      if s.display.None? {
        if s.pending > 0 { ScheduleShowsNone(Fetch(s, Head(samples)), now, Rest(samples)); }
      } else if TimeDiff(now, s.display.value.mmTime) >= 0 && s.pending > 0 {
        ScheduleShowsNone(Drop(s), now, samples);
      }
    }
  }

  /** A frame is displayed each time that one is shown, and at no other time; it is the frame that
      was next when the timer fired. */
  lemma {:induction false} ShownCounted(events: seq<Event>)
    requires Run(events).Some?
    ensures |Run(events).value.displayed| == ShownIn(events)
  {
    if events != [] {
      var front, e := events[..|events| - 1], events[|events| - 1];
      ShownCounted(front);
      StepShows(Run(front).value, e);
    }
  }

  lemma StepShows(s: State, e: Event)
    requires Exec(s, e).Some?
    ensures Exec(s, e).value.displayed == s.displayed + (if e == Shown(true) && s.main.Showing? then [s.main.frame] else [])
    ensures e == Shown(true) ==> s.main.Showing?
    ensures e.TimerFires? && s.display.Some? ==> Exec(s, e).value.main == Showing(s.display.value)
  {
    match e
    case StreamSchedule(now, samples) => ScheduleShowsNone(s.(streaming := StreamIdle), now, samples);
    case MainSchedule(now, samples) => ScheduleShowsNone(s.(main := MainIdle), now, samples);
    case _ => assert s.displayed + [] == s.displayed;
  }

  // ---------------------------------------------------------------- no sample is forgotten

  /** How many samples the streaming thread has announced. */
  function Announced(events: seq<Event>): nat {
    if events == [] then 0
    else Announced(events[..|events| - 1]) + if events[|events| - 1].NewSample? then 1 else 0
  }

  /** Samples are pending that were announced and not pulled, unless the sink had none when asked. */
  predicate Counts(s: State, announced: nat) {
    && s.got <= s.pulls && s.pending + s.got <= announced
    && (s.got == s.pulls ==> s.pending + s.got == announced)
  }

  lemma {:induction false} ScheduleCounts(s: State, now: nat, samples: seq<Option<nat>>, announced: nat)
    requires Counts(s, announced)
    ensures Counts(Schedule(s, now, samples), announced)
    decreases 2 * s.pending + (if s.display.Some? then 1 else 0)
  {
    if s.timer == 0 {
      if s.display.None? {
        if s.pending > 0 { ScheduleCounts(Fetch(s, Head(samples)), now, Rest(samples), announced); }
      } else if TimeDiff(now, s.display.value.mmTime) >= 0 && s.pending > 0 {
        ScheduleCounts(Drop(s), now, samples, announced);
      }
    }
  }

  lemma {:induction false} SamplesCounted(events: seq<Event>)
    requires Run(events).Some?
    ensures Counts(Run(events).value, Announced(events))
  {
    if events != [] {
      var front, e := events[..|events| - 1], events[|events| - 1];
      var s := Run(front).value;
      SamplesCounted(front);
      StepCounts(s, e, Announced(front));
    }
  }

  lemma StepCounts(s: State, e: Event, announced: nat)
    requires Counts(s, announced) && Exec(s, e).Some?
    ensures Counts(Exec(s, e).value, announced + if e.NewSample? then 1 else 0)
  {
    match e
    case StreamSchedule(now, samples) => ScheduleCounts(s.(streaming := StreamIdle), now, samples, announced);
    case MainSchedule(now, samples) => ScheduleCounts(s.(main := MainIdle), now, samples, announced);
    case _ => assert Exec(s, e).value.pulls == s.pulls && Exec(s, e).value.got == s.got;
  }

  // ---------------------------------------------------------------- the end

  /** All frames freed, once the decoder has been destroyed: the queue is freed in order, and
      then the next frame to display. */
  function Destroyed(s: State): seq<Frame> {
    s.freed + s.decoding + if s.display.Some? then [s.display.value] else []
  }

  /** Destroying a decoder whose main thread is idle frees what is left: every frame that ever
      arrived has then been freed exactly once. */
  lemma DestroyFreesTheRest(events: seq<Event>)
    requires Run(events).Some? && Run(events).value.main.MainIdle?
    ensures var s := Run(events).value;
            && (forall f :: f in Destroyed(s) <==> f in s.queued)
            && (forall i, j :: 0 <= i < j < |Destroyed(s)| ==> Destroyed(s)[i] != Destroyed(s)[j])
  {
    RunInv(events);
    var s := Run(events).value;
    forall f ensures f in Destroyed(s) <==> f in s.queued { WhereIs(s, f); }
    forall i, j | 0 <= i < j < |Destroyed(s)| ensures Destroyed(s)[i] != Destroyed(s)[j] {
      Apart(s, i, j);
    }
  }

  /** A frame that arrived is freed, queued or next; a frame is in one of these places only. */
  lemma WhereIs(s: State, f: Frame)
    requires Placed(s) && s.main.MainIdle?
    ensures f in s.queued <==> f in s.freed || f in s.decoding || s.display == Some(f)
    ensures f in s.decoding ==> f !in s.freed && s.display != Some(f)
    ensures f in s.freed ==> s.display != Some(f)
  {
    assert IsHeld(s, f) <==> s.display == Some(f);
    if f in s.queued {
      var k :| 0 <= k < |s.queued| && s.queued[k] == f;
      if k >= Gone(s) { assert s.decoding[k - Gone(s)] == f; }
    }
    if f in s.decoding {
      var k :| 0 <= k < |s.decoding| && s.decoding[k] == f;
      assert s.queued[k + Gone(s)] == f && f.serial == k + Gone(s);
      assert !IsGone(s, f);
    }
  }

  lemma Apart(s: State, i: nat, j: nat)
    requires Placed(s) && s.main.MainIdle? && i < j < |Destroyed(s)|
    ensures Destroyed(s)[i] != Destroyed(s)[j]
  {
    var n, m := |s.freed|, |s.freed| + |s.decoding|;
    WhereIs(s, Destroyed(s)[i]);
    WhereIs(s, Destroyed(s)[j]);
    if n <= i && j < m {
      assert s.decoding[i - n].serial == i - n + Gone(s) && s.decoding[j - n].serial == j - n + Gone(s);
    }
  }
}
