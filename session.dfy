/**
  The recorder's global state and the operations that drive it: the five
  capture callbacks the hooks call, the ESC handling that ends a recording
  or requests a stop, a recording session, and replay.

  The input hooks become method calls, the wall clock an abstract clock
  field that only moves forward (Wait), the controllers the sequence of
  actions a replay returns, and the background ESC observer of a replay the
  parameter escAfter.
*/
module Session {
  import opened KeyCodec
  import opened Events
  import opened Replay
  import opened Capture

  class MacroRecorder {
    /** The event log. */
    var events: seq<Event>
    var recording: bool
    var playback: bool
    var stopPlayback: bool
    /** The clock reading when the current recording started. */
    var startTime: nat
    /** The wall clock, in abstract units. */
    var clock: nat
    /** Whether the mouse listener is running. */
    var mouseHooked: bool
    /** Whether a keyboard listener (the recording one, or replay's ESC observer) is running. */
    var keyHooked: bool

    /** The log is in time order and its last entry was stamped no later than now. */
    ghost predicate Valid()
      reads this`events, this`clock, this`startTime
    {
      startTime <= clock && Chronological(events) &&
      (events != [] ==> events[|events| - 1].offset <= clock - startTime)
    }

    /** The state at program start: empty log, every flag down, no listener. */
    constructor (now: nat)
      ensures Valid()
      ensures events == [] && clock == now && startTime == 0
      ensures !recording && !playback && !stopPlayback && !mouseHooked && !keyHooked
    {
      events := [];
      recording, playback, stopPlayback := false, false, false;
      startTime := 0;
      clock := now;
      mouseHooked, keyHooked := false, false;
    }

    /** Time passes. */
    method Wait(d: nat)
      modifies this`clock
      ensures clock == old(clock) + d
    {
      clock := clock + d;
    }

    /** Appends an entry stamped with the time since the recording started. */
    method Record(p: Payload)
      requires Valid()
      modifies this`events
      ensures Valid()
      ensures events == old(events) + [Event(clock - startTime, p)]
    {
      ChronologicalSnoc(events, Event(clock - startTime, p));
      events := events + [Event(clock - startTime, p)];
    }

    method OnMove(x: int, y: int)
      requires Valid()
      modifies this`events
      ensures Valid()
      ensures events == if recording then old(events) + [Event(clock - startTime, Move(x, y))] else old(events)
    {
      if recording {
        Record(Move(x, y));
      }
    }

    method OnClick(x: int, y: int, button: Button, pressed: bool)
      requires Valid()
      modifies this`events
      ensures Valid()
      ensures events == if recording then old(events) + [Event(clock - startTime, Click(x, y, button, pressed))] else old(events)
    {
      if recording {
        Record(Click(x, y, button, pressed));
      }
    }

    method OnScroll(x: int, y: int, dx: int, dy: int)
      requires Valid()
      modifies this`events
      ensures Valid()
      ensures events == if recording then old(events) + [Event(clock - startTime, Scroll(x, y, dx, dy))] else old(events)
    {
      if recording {
        Record(Scroll(x, y, dx, dy));
      }
    }

    /**
      A key press.  ESC while recording ends the recording and stops both
      listeners; ESC otherwise, during a replay, requests a stop and stops
      the keyboard listener.  The recording flag is checked again only after
      that, so the ESC press that ends a recording is not logged.  Any other
      key changes no flag and is logged exactly when recording.
    */
    method OnPress(key: Key)
      requires Valid()
      modifies this`events, this`recording, this`stopPlayback, this`mouseHooked, this`keyHooked
      ensures Valid()
      ensures key == Special(Esc) && old(recording) ==>
        !recording && !mouseHooked && !keyHooked && stopPlayback == old(stopPlayback)
      ensures key == Special(Esc) && !old(recording) && playback ==>
        !recording && stopPlayback && !keyHooked && mouseHooked == old(mouseHooked)
      ensures key != Special(Esc) || (!old(recording) && !playback) ==>
        recording == old(recording) && stopPlayback == old(stopPlayback) &&
        mouseHooked == old(mouseHooked) && keyHooked == old(keyHooked)
      ensures key == Special(Esc) ==> events == old(events)
      ensures events == if recording then old(events) + [Event(clock - startTime, Press(Encode(key)))] else old(events)
    {
      if key == Special(Esc) {
        if recording {
          recording := false;
          mouseHooked := false;
          keyHooked := false;
        } else if playback {
          stopPlayback := true;
          keyHooked := false;
        }
      }
      if recording {
        Record(Press(Encode(key)));
      }
    }

    method OnRelease(key: Key)
      requires Valid()
      modifies this`events
      ensures Valid()
      ensures events == if recording then old(events) + [Event(clock - startTime, Release(Encode(key)))] else old(events)
    {
      if recording {
        Record(Release(Encode(key)));
      }
    }

    /**
      The listeners of a recording route a notification to its callback.
      While recording, the ESC press ends the recording and logs nothing;
      any other notification is logged with the payload Stored gives it.
    */
    method Deliver(input: Input)
      requires Valid() && recording
      modifies this`events, this`recording, this`stopPlayback, this`mouseHooked, this`keyHooked
      ensures Valid()
      ensures stopPlayback == old(stopPlayback)
      ensures input.IsEscPress() ==> !recording && !mouseHooked && !keyHooked && events == old(events)
      ensures !input.IsEscPress() ==>
        recording && mouseHooked == old(mouseHooked) && keyHooked == old(keyHooked) &&
        events == old(events) + [Event(clock - startTime, Stored(input))]
    {
      match input {
        case MouseMove(x, y) => OnMove(x, y);
        case MouseClick(x, y, b, p) => OnClick(x, y, b, p);
        case MouseScroll(x, y, dx, dy) => OnScroll(x, y, dx, dy);
        case KeyDown(k) => OnPress(k);
        case KeyUp(k) => OnRelease(k);
      }
    }

    /**
      One notification of a recording session: the clock advances by its
      wait, then the hooks deliver it.  Stated over what is left of the
      stream: the log plus what the rest of the stream will add is unchanged.
    */
    method Attend(ns: seq<Notification>, i: nat)
      requires Valid() && recording && i < |ns|
      modifies this`events, this`recording, this`clock, this`stopPlayback, this`mouseHooked, this`keyHooked
      ensures Valid() && stopPlayback == old(stopPlayback)
      ensures recording == !ns[i].input.IsEscPress()
      ensures !recording ==> !mouseHooked && !keyHooked
      ensures recording ==> mouseHooked == old(mouseHooked) && keyHooked == old(keyHooked)
      ensures recording ==>
        CaptureFrom(ns[i + 1..], events, clock - startTime) == CaptureFrom(ns[i..], old(events), old(clock) - startTime) &&
        clock - startTime + WaitUntilStop(ns[i + 1..]) == old(clock) - startTime + WaitUntilStop(ns[i..]) &&
        |BeforeEsc(ns[i..])| == 1 + |BeforeEsc(ns[i + 1..])|
      ensures !recording ==>
        events == CaptureFrom(ns[i..], old(events), old(clock) - startTime) &&
        clock - startTime == old(clock) - startTime + WaitUntilStop(ns[i..]) &&
        |BeforeEsc(ns[i..])| == 0
    {
      var note := ns[i];
      CaptureStep(ns, i, events, clock - startTime);
      Wait(note.wait);
      Deliver(note.input);
    }

    /**
      A recording session over the notification stream ns: the log is
      cleared, the clock reading becomes the recording's start, and the
      hooks deliver notifications to the callbacks until the ESC press
      stops both listeners.  The log is then exactly Captured(ns, 0); when ns
      holds no ESC press the session is still recording when the stream ends.
    */
    method RecordEvents(ns: seq<Notification>)
      requires Valid()
      modifies this`events, this`recording, this`startTime, this`clock, this`stopPlayback, this`mouseHooked, this`keyHooked
      ensures Valid()
      ensures startTime == old(clock) && clock == old(clock) + WaitUntilStop(ns)
      ensures events == Captured(ns, 0)
      ensures recording == mouseHooked == keyHooked == (|BeforeEsc(ns)| == |ns|)
      ensures stopPlayback == old(stopPlayback)
    {
      events := [];
      recording := true;
      startTime := clock;
      mouseHooked, keyHooked := true, true;
      var i := 0;
      while i < |ns| && recording
        invariant 0 <= i <= |ns|
        invariant Valid() && startTime == old(clock)
        invariant mouseHooked == recording && keyHooked == recording
        invariant stopPlayback == old(stopPlayback) && playback == old(playback)
        invariant recording ==> CaptureFrom(ns[i..], events, clock - startTime) == CaptureFrom(ns, [], 0)
        invariant recording ==> clock - startTime + WaitUntilStop(ns[i..]) == WaitUntilStop(ns)
        invariant recording ==> |BeforeEsc(ns)| == i + |BeforeEsc(ns[i..])|
        invariant !recording ==> events == CaptureFrom(ns, [], 0) && clock - startTime == WaitUntilStop(ns)
        invariant !recording ==> 0 < i && |BeforeEsc(ns)| == i - 1
      {
        Attend(ns, i);
        i := i + 1;
      }
      if recording {
        assert ns[i..] == [];
      }
      CaptureFromIsCaptured(ns, [], 0);
      assert [] + Captured(ns, 0) == Captured(ns, 0);
    }

    /** Replay's background observer: ESC requests a stop and ends this listener. */
    method OnPressStop(key: Key)
      modifies this`stopPlayback, this`keyHooked
      ensures key == Special(Esc) ==> stopPlayback && !keyHooked
      ensures key != Special(Esc) ==> stopPlayback == old(stopPlayback) && keyHooked == old(keyHooked)
    {
      if key == Special(Esc) {
        stopPlayback := true;
        keyHooked := false;
      }
    }

    /**
      The ESC observer of a replay, seen from the replay loop: while it
      runs, its ESC press arrives once escAfter entries have been dispatched.
    */
    method Observe(count: nat, escAfter: nat)
      modifies this`stopPlayback, this`keyHooked
      ensures old(keyHooked) && escAfter <= count ==> stopPlayback && !keyHooked
      ensures !(old(keyHooked) && escAfter <= count) ==>
        stopPlayback == old(stopPlayback) && keyHooked == old(keyHooked)
    {
      if keyHooked && count >= escAfter {
        OnPressStop(Special(Esc));
      }
    }

    /**
      Lines up one entry in a pass that started at passStart: an entry
      whose offset is still ahead of the time elapsed in the pass waits for
      exactly the difference, then the entry is dispatched.
    */
    method DispatchEntry(e: Event, pass: nat, index: nat, passStart: nat) returns (acts: seq<Action>, s: Slot)
      requires passStart <= clock
      modifies this`clock
      ensures acts == HandleEvent(e)
      ensures s == Slot(pass, index, passStart, old(clock), clock) && SleepRule(s, e.offset)
    {
      var checkedAt := clock;
      var elapsed := clock - passStart;
      if e.offset > elapsed {
        Wait(e.offset - elapsed);
      }
      s := Slot(pass, index, passStart, checkedAt, clock);
      acts := HandleEvent(e);
    }

    /**
      Entry i of a pass, after the stop check: it is dispatched by the sleep
      rule, and the dispatch and the loop around it take lag(k) more, where
      k counts the dispatches before it.
    */
    method DispatchNext(log: seq<Event>, pass: nat, passStart: nat, count0: nat, i: nat, count: nat, lag: nat -> nat,
                        ghost t0: nat, ghost done0: seq<Event>, actions0: seq<Action>, slots0: seq<Slot>)
      returns (ghost done: seq<Event>, actions: seq<Action>, slots: seq<Slot>)
      requires |log| > 0 && i < |log| && PassBoundary(|log|, count0) && count == count0 + i && |slots0| == count
      requires done0 == Cycle(log, count) && actions0 == DispatchAll(done0)
      requires Ready(slots0, log, lag, t0, pass, passStart, i, clock)
      modifies this`clock
      ensures old(clock) <= clock
      ensures done == Cycle(log, count + 1) && actions == DispatchAll(done)
      ensures |slots| == |slots0| + 1 && Ready(slots, log, lag, t0, pass, passStart, i + 1, clock)
    {
      var e := log[i];
      var acts, s := DispatchEntry(e, pass, i, passStart);
      ReadyNext(slots0, log, lag, t0, pass, passStart, i, s.checkedAt, s);
      CycleStep(log, count0, i);
      DispatchAllSnoc(done0, e);
      done := done0 + [e];
      actions := actions0 + acts;
      slots := slots0 + [s];
      Wait(lag(count));
    }

    /**
      One pass over the log (the for loop of a replay), continuing a replay
      that has dispatched count0 entries in `pass` complete passes.  Before
      each entry the stop flag is checked; an early entry waits out the rest
      of its offset, measured from the start of this pass.  The pass ends
      with the last entry or at the first check that finds the flag set.
    */
    method PlayPass(log: seq<Event>, pass: nat, count0: nat, escAfter: nat, lag: nat -> nat, ghost t0: nat,
                    actions0: seq<Action>, slots0: seq<Slot>)
      returns (count: nat, actions: seq<Action>, slots: seq<Slot>, i: nat, passStart: nat)
      requires |log| > 0
      requires PassBoundary(|log|, count0) && count0 <= escAfter && keyHooked && !stopPlayback
      requires |slots0| == count0 && Ready(slots0, log, lag, t0, pass, clock, 0, clock)
      requires actions0 == DispatchAll(Cycle(log, count0))
      modifies this`clock, this`stopPlayback, this`keyHooked
      ensures old(clock) <= clock
      ensures count <= escAfter && keyHooked == !stopPlayback && (stopPlayback ==> escAfter <= count)
      ensures count == count0 + i && |slots| == count && (!stopPlayback ==> i == |log|)
      ensures Ready(slots, log, lag, t0, pass, passStart, i, clock)
      ensures actions == DispatchAll(Cycle(log, count))
    {
      var n := |log|;
      count, actions, slots := count0, actions0, slots0;
      ghost var done := Cycle(log, count0);
      passStart := clock;
      i := 0;
      while i < n
        invariant 0 <= i <= n && count == count0 + i && |slots| == count
        invariant done == Cycle(log, count) && actions == DispatchAll(done)
        invariant old(clock) <= clock
        invariant count <= escAfter && keyHooked && !stopPlayback
        invariant Ready(slots, log, lag, t0, pass, passStart, i, clock)
      {
        Observe(count, escAfter);
        if stopPlayback {
          break;
        }
        done, actions, slots := DispatchNext(log, pass, passStart, count0, i, count, lag, t0, done, actions, slots);
        count := count + 1;
        i := i + 1;
      }
    }

    /**
      The passes of a replay (the while loop), from the first one on: each
      pass runs, the observer is consulted, and the loop ends at a stop
      request or, when not looping, after one pass.  It ends with exactly
      the entries Replayed lists dispatched.
    */
    method RunPasses(loop: bool, escAfter: nat, lag: nat -> nat) returns (actions: seq<Action>, slots: seq<Slot>)
      requires events != [] && keyHooked && !stopPlayback
      modifies this`clock, this`stopPlayback, this`keyHooked
      ensures old(clock) <= clock
      ensures actions == DispatchAll(Replayed(events, loop, escAfter))
      ensures |slots| == |Replayed(events, loop, escAfter)|
      ensures Timeline(slots, events, lag, old(clock)) && clock == Resume(slots, lag, old(clock))
      ensures stopPlayback <==> escAfter <= |slots|
    {
      ghost var t0 := clock;
      var n := |events|;
      var count := 0;
      var pass := 0;
      actions, slots := [], [];
      while true
        invariant old(clock) <= clock && PassBoundary(n, count) && (!loop ==> pass == 0)
        invariant count <= escAfter && keyHooked && !stopPlayback
        invariant |slots| == count && Ready(slots, events, lag, t0, pass, clock, 0, clock)
        invariant actions == DispatchAll(Cycle(events, count))
        decreases escAfter - count
      {
        var at, passStart;
        count, actions, slots, at, passStart := PlayPass(events, pass, count, escAfter, lag, t0, actions, slots);
        Observe(count, escAfter);
        if stopPlayback {
          assert count == DispatchCount(n, loop, escAfter);
          ReadyTimeline(slots, events, lag, t0, pass, passStart, at, clock);
          break;
        }
        ReadyNewPass(slots, events, lag, t0, pass, passStart, clock);
        if !loop {
          assert count == DispatchCount(n, loop, escAfter);
          break;
        }
        PassBoundaryNext(n, count - n);
        pass := pass + 1;
      }
      assert Replayed(events, loop, escAfter) == Cycle(events, count);
    }

    /**
      Replays the log, looping when asked to, with the ESC observer's stop
      request arriving once escAfter entries have been dispatched and with
      lag(k) the time the k-th dispatch and its loop iteration take.

      An empty log returns at once: nothing dispatched and no flag touched.
      Otherwise the stop flag is reset, the observer started, and the
      entries Replayed lists are dispatched in that order, each after the
      sleep rule and at the moments Timeline fixes; on exit playback is
      off, the observer stopped, and the log as it was.
    */
    method PlayEvents(loop: bool, escAfter: nat, lag: nat -> nat) returns (actions: seq<Action>, slots: seq<Slot>)
      requires Valid()
      modifies this`clock, this`playback, this`stopPlayback, this`keyHooked
      ensures Valid()
      ensures old(events) == [] ==>
        actions == [] && slots == [] && clock == old(clock) && playback == old(playback) &&
        stopPlayback == old(stopPlayback) && keyHooked == old(keyHooked)
      ensures old(events) != [] ==>
        actions == DispatchAll(Replayed(events, loop, escAfter)) &&
        |slots| == |Replayed(events, loop, escAfter)| &&
        Timeline(slots, events, lag, old(clock)) &&
        clock == Resume(slots, lag, old(clock)) &&
        !playback && !keyHooked && (stopPlayback <==> escAfter <= |slots|)
    {
      if events == [] {
        return [], [];
      }
      playback := true;
      stopPlayback := false;
      keyHooked := true;
      actions, slots := RunPasses(loop, escAfter, lag);
      playback := false;
      keyHooked := false;
    }
  }
}
