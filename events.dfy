/**
  The entries of the event log and what replaying one of them asks of the
  mouse and keyboard controllers.

  A log entry is (offset, kind, payload): the offset is the time since the
  recording started, in the model's abstract clock units; the payload holds
  what the hook reported.  Key payloads hold the stored key text (see
  KeyCodec.Encode), not the key itself.
*/
module Events {
  import opened Maybe
  import opened KeyCodec

  /** A mouse button as the hook reports it; replay passes it through unchanged. */
  datatype Button = LeftButton | MiddleButton | RightButton | OtherButton(code: nat)

  datatype Payload =
    | Move(x: int, y: int)
    | Click(x: int, y: int, button: Button, pressed: bool)
    | Scroll(x: int, y: int, dx: int, dy: int)
    | Press(key: string)
    | Release(key: string)
  {
    predicate IsMouse() { Move? || Click? || Scroll? }
  }

  datatype Event = Event(offset: nat, payload: Payload)

  /** Offsets never decrease along the log: insertion order is time order. */
  predicate Chronological(log: seq<Event>)
  {
    forall i, j :: 0 <= i < j < |log| ==> log[i].offset <= log[j].offset
  }

  /** Appending an entry no earlier than every logged one keeps the log in time order. */
  lemma ChronologicalSnoc(log: seq<Event>, e: Event)
    requires Chronological(log)
    requires log != [] ==> log[|log| - 1].offset <= e.offset
    ensures Chronological(log + [e])
  {
    var r := log + [e];
    forall i, j | 0 <= i < j < |r| ensures r[i].offset <= r[j].offset {
      if j == |log| && i < |log| - 1 {
        assert r[i].offset <= log[|log| - 1].offset;
      }
    }
  }

  /** Putting an entry no later than every logged one in front keeps the log in time order. */
  lemma ChronologicalCons(e: Event, log: seq<Event>)
    requires Chronological(log)
    requires forall x :: x in log ==> e.offset <= x.offset
    ensures Chronological([e] + log)
  {
    var r := [e] + log;
    forall i, j | 0 <= i < j < |r| ensures r[i].offset <= r[j].offset {
      assert r[j] == log[j - 1];
      if i > 0 {
        assert r[i] == log[i - 1];
      } else {
        assert log[j - 1] in log;
      }
    }
  }

  /** One call on the mouse or keyboard controller. */
  datatype Action =
    | SetPosition(x: int, y: int)
    | PressButton(button: Button)
    | ReleaseButton(button: Button)
    | ScrollBy(dx: int, dy: int)
    | PressKey(target: Target)
    | ReleaseKey(target: Target)
  {
    predicate IsKeyboard() { PressKey? || ReleaseKey? }
  }

  /**
    The controller calls replay issues for one log entry (handle_event): at
    most two; a mouse entry starts by positioning the cursor, and a key
    entry touches only the keyboard.
  */
  function HandleEvent(e: Event): (r: seq<Action>)
    ensures |r| <= 2
    ensures e.payload.IsMouse() ==> r != [] && r[0].SetPosition?
    ensures !e.payload.IsMouse() ==> forall a :: a in r ==> a.IsKeyboard()
  {
    match e.payload
    case Move(x, y) => [SetPosition(x, y)]
    case Click(x, y, button, pressed) =>
      [SetPosition(x, y), if pressed then PressButton(button) else ReleaseButton(button)]
    case Scroll(x, y, dx, dy) => [SetPosition(x, y), ScrollBy(dx, dy)]
    case Press(text) =>
      (match Decode(text)
       case Some(t) => [PressKey(t)]
       case None => [])
    case Release(text) =>
      match Decode(text)
      case Some(t) => [ReleaseKey(t)]
      case None => []
  }

  /** The controller calls for a run of log entries, in order. */
  function DispatchAll(evs: seq<Event>): seq<Action>
  {
    if evs == [] then [] else HandleEvent(evs[0]) + DispatchAll(evs[1..])
  }

  /**
    Replaying a mouse entry first puts the cursor at the entry's (x, y) and
    moves it nowhere else; a click presses exactly when `pressed` holds and
    otherwise releases, and a scroll passes (dx, dy) through unchanged.
  */
  lemma MouseDispatch(e: Event)
    requires e.payload.IsMouse()
    ensures var r := HandleEvent(e);
      1 <= |r| <= 2 && r[0] == SetPosition(e.payload.x, e.payload.y) &&
      (forall i :: 1 <= i < |r| ==> !r[i].SetPosition?) &&
      (e.payload.Move? ==> |r| == 1) &&
      (e.payload.Click? ==> |r| == 2 && (r[1] == PressButton(e.payload.button) <==> e.payload.pressed)
                                     && (r[1] == ReleaseButton(e.payload.button) <==> !e.payload.pressed)) &&
      (e.payload.Scroll? ==> r == [SetPosition(e.payload.x, e.payload.y), ScrollBy(e.payload.dx, e.payload.dy)])
  {
  }

  /**
    Replaying a key entry touches only the keyboard: at most one press or
    release of the decoded key, and none at all when the stored text names a
    symbolic key the enumeration lacks.
  */
  lemma KeyDispatch(e: Event)
    requires e.payload.Press? || e.payload.Release?
    ensures var r := HandleEvent(e);
      |r| <= 1 &&
      (r == [] <==> Decode(e.payload.key).None?) &&
      (e.payload.Press? && r != [] ==> r == [PressKey(Decode(e.payload.key).value)]) &&
      (e.payload.Release? && r != [] ==> r == [ReleaseKey(Decode(e.payload.key).value)])
  {
  }

  /** Dispatching two runs back to back is dispatching their concatenation. */
  lemma {:induction false} DispatchAllAppend(a: seq<Event>, b: seq<Event>)
    ensures DispatchAll(a + b) == DispatchAll(a) + DispatchAll(b)
  {
    if a == [] {
      assert a + b == b;
    } else {
      assert (a + b)[1..] == a[1..] + b;
      DispatchAllAppend(a[1..], b);
    }
  }

  lemma DispatchAllSnoc(a: seq<Event>, e: Event)
    ensures DispatchAll(a + [e]) == DispatchAll(a) + HandleEvent(e)
  {
    DispatchAllAppend(a, [e]);
    assert DispatchAll([e]) == HandleEvent(e) + DispatchAll([]);
  }
}
