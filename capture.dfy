/**
  What a recording session writes into the log.

  While recording, the mouse and keyboard hooks report every notification;
  each one is stamped with the time since the recording started and appended.
  The ESC press ends the recording before the press is considered for the
  log, so it is not recorded, and the hooks are torn down with it: nothing
  after it (its release included) reaches the log.
*/
module Capture {
  import opened Maybe
  import opened KeyCodec
  import opened Events

  /** A raw notification from the hooks. */
  datatype Input =
    | MouseMove(x: int, y: int)
    | MouseClick(x: int, y: int, button: Button, pressed: bool)
    | MouseScroll(x: int, y: int, dx: int, dy: int)
    | KeyDown(key: Key)
    | KeyUp(key: Key)
  {
    predicate IsEscPress() { this == KeyDown(Special(Esc)) }
  }

  /** A notification arriving wait clock units after the previous one (or after the start). */
  datatype Notification = Notification(wait: nat, input: Input)

  /**
    The payload a capture callback stores for an input: mouse inputs keep
    their fields, and a key's stored text is one replay decodes back to it.
  */
  function Stored(i: Input): (r: Payload)
    ensures r.IsMouse() <==> !(i.KeyDown? || i.KeyUp?)
    ensures i.KeyDown? <==> r.Press?
    ensures i.KeyUp? <==> r.Release?
  {
    match i
    case MouseMove(x, y) => Move(x, y)
    case MouseClick(x, y, b, p) => Click(x, y, b, p)
    case MouseScroll(x, y, dx, dy) => Scroll(x, y, dx, dy)
    case KeyDown(k) => Press(Encode(k))
    case KeyUp(k) => Release(Encode(k))
  }

  /** The log entries a recording session appends for ns, elapsed units after it began. */
  function Captured(ns: seq<Notification>, elapsed: nat): seq<Event>
  {
    if ns == [] then []
    else
      var t := elapsed + ns[0].wait;
      if ns[0].input.IsEscPress() then []
      else [Event(t, Stored(ns[0].input))] + Captured(ns[1..], t)
  }

  /** The notifications before the first ESC press. */
  function BeforeEsc(ns: seq<Notification>): seq<Notification>
  {
    if ns == [] || ns[0].input.IsEscPress() then [] else [ns[0]] + BeforeEsc(ns[1..])
  }

  /** The clock time a recording session spends in ns: all the waits up to and including the first ESC press. */
  function WaitUntilStop(ns: seq<Notification>): nat
  {
    if ns == [] then 0
    else ns[0].wait + if ns[0].input.IsEscPress() then 0 else WaitUntilStop(ns[1..])
  }

  /**
    The log a session ends with when the log already holds log, elapsed
    units after the recording began, and ns is still to come: each
    notification before the ESC press is appended where it arrives.
  */
  function CaptureFrom(ns: seq<Notification>, log: seq<Event>, elapsed: nat): seq<Event>
  {
    if ns == [] then log
    else
      var t := elapsed + ns[0].wait;
      if ns[0].input.IsEscPress() then log
      else CaptureFrom(ns[1..], log + [Event(t, Stored(ns[0].input))], t)
  }

  /** Appending as the notifications arrive ends with the log followed by what Captured lists. */
  lemma {:induction false} CaptureFromIsCaptured(ns: seq<Notification>, log: seq<Event>, elapsed: nat)
    ensures CaptureFrom(ns, log, elapsed) == log + Captured(ns, elapsed)
  {
    if ns == [] || ns[0].input.IsEscPress() {
      assert log + [] == log;
    } else {
      var t := elapsed + ns[0].wait;
      var e := Event(t, Stored(ns[0].input));
      CaptureFromIsCaptured(ns[1..], log + [e], t);
      assert (log + [e]) + Captured(ns[1..], t) == log + ([e] + Captured(ns[1..], t));
    }
  }

  /** One notification of a session: how the three readings of ns[i..] continue into ns[i + 1..]. */
  lemma CaptureStep(ns: seq<Notification>, i: nat, log: seq<Event>, elapsed: nat)
    requires i < |ns|
    ensures var n := ns[i]; var t := elapsed + n.wait;
      CaptureFrom(ns[i..], log, elapsed) == (if n.input.IsEscPress() then log else CaptureFrom(ns[i + 1..], log + [Event(t, Stored(n.input))], t)) &&
      WaitUntilStop(ns[i..]) == n.wait + (if n.input.IsEscPress() then 0 else WaitUntilStop(ns[i + 1..])) &&
      |BeforeEsc(ns[i..])| == (if n.input.IsEscPress() then 0 else 1 + |BeforeEsc(ns[i + 1..])|)
  {
    assert ns[i..][0] == ns[i] && ns[i..][1..] == ns[i + 1..];
  }

  /** The controller calls that reproduce an input. */
  function Reenact(i: Input): seq<Action>
  {
    match i
    case MouseMove(x, y) => [SetPosition(x, y)]
    case MouseClick(x, y, b, p) => [SetPosition(x, y), if p then PressButton(b) else ReleaseButton(b)]
    case MouseScroll(x, y, dx, dy) => [SetPosition(x, y), ScrollBy(dx, dy)]
    case KeyDown(k) => [PressKey(TargetOf(k))]
    case KeyUp(k) => [ReleaseKey(TargetOf(k))]
  }

  function ReenactAll(ns: seq<Notification>): seq<Action>
  {
    if ns == [] then [] else Reenact(ns[0].input) + ReenactAll(ns[1..])
  }

  /** BeforeEsc is the longest prefix without an ESC press; what follows it, if anything, is that press. */
  lemma {:induction false} BeforeEscIsPrefix(ns: seq<Notification>)
    ensures var b := BeforeEsc(ns);
      |b| <= |ns| && b == ns[..|b|] &&
      (forall k :: 0 <= k < |b| ==> !b[k].input.IsEscPress()) &&
      (|b| < |ns| ==> ns[|b|].input.IsEscPress())
  {
    if ns != [] && !ns[0].input.IsEscPress() {
      BeforeEscIsPrefix(ns[1..]);
    }
  }

  /**
    The log holds one entry per notification before the first ESC press, in
    the order they arrived, each with the payload its callback stores; the
    ESC press and everything after it are absent.
  */
  lemma {:induction false} CaptureIsBeforeEsc(ns: seq<Notification>, elapsed: nat)
    ensures var log := Captured(ns, elapsed); var b := BeforeEsc(ns);
      |log| == |b| && forall k :: 0 <= k < |log| ==> log[k].payload == Stored(b[k].input)
  {
    if ns != [] && !ns[0].input.IsEscPress() {
      CaptureIsBeforeEsc(ns[1..], elapsed + ns[0].wait);
    }
  }

  /** Offsets of a captured log never decrease and are never earlier than the moment capture resumed. */
  lemma {:induction false} CaptureChronological(ns: seq<Notification>, elapsed: nat)
    ensures Chronological(Captured(ns, elapsed))
    ensures forall e :: e in Captured(ns, elapsed) ==> elapsed <= e.offset
  {
    if ns != [] && !ns[0].input.IsEscPress() {
      var t := elapsed + ns[0].wait;
      var e := Event(t, Stored(ns[0].input));
      var rest := Captured(ns[1..], t);
      assert Captured(ns, elapsed) == [e] + rest;
      CaptureChronological(ns[1..], t);
      ChronologicalCons(e, rest);
    }
  }

  /** Replaying the entry a callback stored for an input reenacts that input. */
  lemma HandleStored(t: nat, i: Input)
    ensures HandleEvent(Event(t, Stored(i))) == Reenact(i)
  {
    match i
    case KeyDown(k) => KeyRoundTrip(k);
    case KeyUp(k) => KeyRoundTrip(k);
    case _ =>
  }

  /**
    Capture round trip: replaying a captured log issues exactly the
    controller calls that reproduce the notifications before the ESC press,
    in order -- same count, same kinds, same payloads.
  */
  lemma {:induction false} ReplayReproducesCapture(ns: seq<Notification>, elapsed: nat)
    ensures DispatchAll(Captured(ns, elapsed)) == ReenactAll(BeforeEsc(ns))
  {
    if ns != [] && !ns[0].input.IsEscPress() {
      var t := elapsed + ns[0].wait;
      var e := Event(t, Stored(ns[0].input));
      ReplayReproducesCapture(ns[1..], t);
      assert ([e] + Captured(ns[1..], t))[1..] == Captured(ns[1..], t);
      assert ([ns[0]] + BeforeEsc(ns[1..]))[1..] == BeforeEsc(ns[1..]);
      HandleStored(t, ns[0].input);
    }
  }
}
