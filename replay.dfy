/**
  What a replay dispatches and when.

  A replay walks the log pass by pass.  Without a stop request a single
  replay makes one pass; a looping replay starts a new pass from the first
  entry each time the previous one completes.  The stop request comes from a
  background ESC observer; the model fixes the moment it arrives as the
  number of entries dispatched by then (escAfter), and the replay dispatches
  no entry once it has seen the request.

  Time is measured from the start of each pass: an entry found early is
  dispatched after sleeping exactly the difference between its offset and the
  time elapsed in the pass, an entry found due or late is dispatched at once.
*/
module Replay {
  import opened Events

  function Min(a: nat, b: nat): nat { if a <= b then a else b }

  /** Log entries in the order consecutive passes visit them, d of them in all. */
  function Cycle(log: seq<Event>, d: nat): (r: seq<Event>)
    requires |log| > 0
    decreases d
    ensures |r| == d
  {
    if d <= |log| then log[..d] else log + Cycle(log, d - |log|)
  }

  /** How many entries a replay dispatches: none for an empty log; otherwise up to the stop request, and at most one pass unless looping. */
  function DispatchCount(n: nat, loop: bool, escAfter: nat): nat
  {
    if n == 0 then 0 else if loop then escAfter else Min(n, escAfter)
  }

  /** The entries a replay hands to the dispatcher, in order. */
  function Replayed(log: seq<Event>, loop: bool, escAfter: nat): seq<Event>
  {
    if |log| == 0 then [] else Cycle(log, DispatchCount(|log|, loop, escAfter))
  }

  /** c is the number of entries in some number of complete passes over n entries. */
  predicate PassBoundary(n: nat, c: nat)
    decreases c
  {
    c == 0 || (0 < n <= c && PassBoundary(n, c - n))
  }

  /** One more complete pass ends at a pass boundary again. */
  lemma PassBoundaryNext(n: nat, c: nat)
    requires PassBoundary(n, c) && n > 0
    ensures PassBoundary(n, c + n)
  {
    assert c + n - n == c;
  }

  /** Position p * n + i of the visiting order is entry i of the log: every pass restarts at the first entry. */
  lemma {:induction false} CycleAt(log: seq<Event>, d: nat, p: nat, i: nat)
    requires i < |log| && p * |log| + i < d
    decreases p
    ensures Cycle(log, d)[p * |log| + i] == log[i]
  {
    var n := |log|;
    if p > 0 {
      var k := (p - 1) * n + i;
      assert p * n + i == k + n;
      CycleAt(log, d - n, p - 1, i);
      assert Cycle(log, d) == log + Cycle(log, d - n);
    }
  }

  /** Visiting one more entry after complete passes and i entries appends entry i of the log. */
  lemma {:induction false} CycleStep(log: seq<Event>, base: nat, i: nat)
    requires i < |log| && PassBoundary(|log|, base)
    decreases base
    ensures Cycle(log, base + i + 1) == Cycle(log, base + i) + [log[i]]
  {
    var n := |log|;
    if base == 0 {
      assert log[..i + 1] == log[..i] + [log[i]];
    } else if base + i == n {
      assert Cycle(log, 1) == [log[0]];
    } else {
      CycleStep(log, base - n, i);
    }
  }

  /** Without a stop request, a single replay dispatches every entry exactly once, in log order. */
  lemma ReplayOnceIsLog(log: seq<Event>, escAfter: nat)
    requires escAfter >= |log|
    ensures Replayed(log, false, escAfter) == log
  {
    if |log| > 0 {
      assert log[..|log|] == log;
    }
  }

  /** Every complete pass of a looping replay dispatches the whole log again, from its first entry. */
  lemma {:induction false} LoopPassIsLog(log: seq<Event>, escAfter: nat, p: nat)
    requires |log| > 0
    requires (p + 1) * |log| <= escAfter
    ensures |Replayed(log, true, escAfter)| == escAfter
    ensures Replayed(log, true, escAfter)[p * |log|..(p + 1) * |log|] == log
  {
    var n := |log|;
    var r := Replayed(log, true, escAfter);
    assert (p + 1) * n == p * n + n;
    forall k | 0 <= k < n
      ensures r[p * n..(p + 1) * n][k] == log[k]
    {
      CycleAt(log, escAfter, p, k);
    }
  }

  /**
    The stop request bounds a replay: it dispatches no more entries than
    had been dispatched when the request came, and a single replay never
    more than the log holds.  A looping one over a non-empty log dispatches
    exactly up to the request.
  */
  lemma StopBoundsReplay(log: seq<Event>, loop: bool, escAfter: nat)
    ensures |Replayed(log, loop, escAfter)| <= escAfter
    ensures !loop ==> |Replayed(log, loop, escAfter)| <= |log|
    ensures loop && |log| > 0 ==> |Replayed(log, loop, escAfter)| == escAfter
    ensures escAfter <= |log| && |log| > 0 ==> |Replayed(log, loop, escAfter)| == escAfter
  {
  }

  /** What the scheduler recorded about one dispatch: which pass, which entry, and three instants. */
  datatype Slot = Slot(pass: nat, index: nat, passStart: nat, checkedAt: nat, dispatchedAt: nat)

  /**
    The sleep rule: with elapsed = checkedAt - passStart, an entry with
    offset > elapsed is dispatched after sleeping offset - elapsed, that is
    at passStart + offset; any other entry is dispatched at checkedAt.
  */
  predicate SleepRule(s: Slot, offset: nat)
  {
    s.passStart <= s.checkedAt &&
    s.dispatchedAt == if offset > s.checkedAt - s.passStart then s.passStart + offset else s.checkedAt
  }

  /**
    How a dispatch follows the previous one, lagged time units after it
    finished: the next entry of the same pass, or the first entry of a new
    pass that starts at that moment.
  */
  predicate Follows(prev: Slot, next: Slot, n: nat, lagged: nat)
  {
    next.checkedAt == prev.dispatchedAt + lagged &&
    if prev.index + 1 == n then
      next.pass == prev.pass + 1 && next.index == 0 && next.passStart == next.checkedAt
    else
      next.pass == prev.pass && next.index == prev.index + 1 && next.passStart == prev.passStart
  }

  /** Dispatch k obeys the sleep rule for the entry it dispatched. */
  predicate SlotOk(slots: seq<Slot>, log: seq<Event>, k: nat)
  {
    k < |slots| && slots[k].index < |log| && SleepRule(slots[k], log[slots[k].index].offset)
  }

  /** Dispatch k (k > 0) follows dispatch k - 1. */
  predicate StepOk(slots: seq<Slot>, log: seq<Event>, lag: nat -> nat, k: nat)
  {
    0 < k < |slots| && Follows(slots[k - 1], slots[k], |log|, lag(k - 1))
  }

  /**
    The schedule of a replay that starts at t0 over log, where lag(k) is
    the time the k-th dispatch and the loop around it take.
  */
  predicate Timeline(slots: seq<Slot>, log: seq<Event>, lag: nat -> nat, t0: nat)
  {
    (forall k :: 0 <= k < |slots| ==> SlotOk(slots, log, k)) &&
    (|slots| > 0 ==> slots[0].pass == 0 && slots[0].index == 0 && slots[0].passStart == t0 && slots[0].checkedAt == t0) &&
    (forall k :: 0 < k < |slots| ==> StepOk(slots, log, lag, k))
  }

  /** When the scheduler is ready for the next dispatch: t0 before the first, lag(k) after dispatch k finished. */
  function Resume(slots: seq<Slot>, lag: nat -> nat, t0: nat): nat
  {
    if |slots| == 0 then t0 else slots[|slots| - 1].dispatchedAt + lag(|slots| - 1)
  }

  /** A schedule extended by a dispatch that obeys the sleep rule and follows the last one. */
  lemma TimelineSnoc(slots: seq<Slot>, s: Slot, log: seq<Event>, lag: nat -> nat, t0: nat)
    requires Timeline(slots, log, lag, t0)
    requires s.index < |log| && SleepRule(s, log[s.index].offset)
    requires |slots| == 0 ==> s.pass == 0 && s.index == 0 && s.passStart == t0 && s.checkedAt == t0
    requires |slots| > 0 ==> Follows(slots[|slots| - 1], s, |log|, lag(|slots| - 1))
    ensures Timeline(slots + [s], log, lag, t0)
  {
    var r := slots + [s];
    forall k | 0 <= k < |r| ensures SlotOk(r, log, k) {
      if k < |slots| {
        assert SlotOk(slots, log, k);
        assert r[k] == slots[k];
      }
    }
    forall k | 0 < k < |r| ensures StepOk(r, log, lag, k) {
      if k < |slots| {
        assert StepOk(slots, log, lag, k);
        assert r[k - 1] == slots[k - 1] && r[k] == slots[k];
      }
    }
  }

  /**
    At moment now the scheduler is ready to dispatch entry i of pass `pass`,
    which started at passStart, after the dispatches slots lists.
  */
  predicate Ready(slots: seq<Slot>, log: seq<Event>, lag: nat -> nat, t0: nat, pass: nat, passStart: nat, i: nat, now: nat)
  {
    Timeline(slots, log, lag, t0) && now == Resume(slots, lag, t0) && i <= |log| && passStart <= now &&
    (i == 0 ==> passStart == now) &&
    (|slots| == 0 ==> pass == 0 && i == 0) &&
    (|slots| > 0 && i == 0 ==> slots[|slots| - 1].index + 1 == |log| && slots[|slots| - 1].pass + 1 == pass) &&
    (|slots| > 0 && i > 0 ==> slots[|slots| - 1].index + 1 == i && slots[|slots| - 1].pass == pass &&
                              slots[|slots| - 1].passStart == passStart) &&
    (i > 0 ==> |slots| > 0)
  }

  /** Dispatching entry i by the sleep rule, then lagging, readies the scheduler for entry i + 1. */
  lemma ReadyNext(slots: seq<Slot>, log: seq<Event>, lag: nat -> nat, t0: nat, pass: nat, passStart: nat, i: nat, now: nat, s: Slot)
    requires Ready(slots, log, lag, t0, pass, passStart, i, now) && i < |log|
    requires s.pass == pass && s.index == i && s.passStart == passStart && s.checkedAt == now
    requires SleepRule(s, log[i].offset)
    ensures Ready(slots + [s], log, lag, t0, pass, passStart, i + 1, s.dispatchedAt + lag(|slots|))
  {
    if |slots| > 0 {
      assert Follows(slots[|slots| - 1], s, |log|, lag(|slots| - 1));
    }
    TimelineSnoc(slots, s, log, lag, t0);
  }

  /** A scheduler that is ready somewhere has dispatched by a schedule and resumes at now. */
  lemma ReadyTimeline(slots: seq<Slot>, log: seq<Event>, lag: nat -> nat, t0: nat, pass: nat, passStart: nat, i: nat, now: nat)
    requires Ready(slots, log, lag, t0, pass, passStart, i, now)
    ensures Timeline(slots, log, lag, t0) && now == Resume(slots, lag, t0)
  {
  }

  /** After the last entry of a pass the next pass starts at once, from the first entry. */
  lemma ReadyNewPass(slots: seq<Slot>, log: seq<Event>, lag: nat -> nat, t0: nat, pass: nat, passStart: nat, now: nat)
    requires Ready(slots, log, lag, t0, pass, passStart, |log|, now) && |log| > 0
    ensures Ready(slots, log, lag, t0, pass + 1, now, 0, now)
  {
  }

  /** The k-th dispatch of a schedule is entry k mod n of pass k div n. */
  lemma {:induction false} TimelinePositions(slots: seq<Slot>, log: seq<Event>, lag: nat -> nat, t0: nat, k: nat)
    requires Timeline(slots, log, lag, t0)
    requires k < |slots|
    ensures slots[k].pass * |log| + slots[k].index == k
  {
    if k > 0 {
      TimelinePositions(slots, log, lag, t0, k - 1);
      assert StepOk(slots, log, lag, k);
      if slots[k - 1].index + 1 == |log| {
        assert (slots[k - 1].pass + 1) * |log| == slots[k - 1].pass * |log| + |log|;
      }
    }
  }

  /** A schedule visits exactly the entries Cycle lists, in that order. */
  lemma TimelineOrder(slots: seq<Slot>, log: seq<Event>, lag: nat -> nat, t0: nat, k: nat)
    requires Timeline(slots, log, lag, t0) && |log| > 0
    requires k < |slots|
    ensures SlotOk(slots, log, k) && log[slots[k].index] == Cycle(log, |slots|)[k]
  {
    assert SlotOk(slots, log, k);
    TimelinePositions(slots, log, lag, t0, k);
    CycleAt(log, |slots|, slots[k].pass, slots[k].index);
  }

  /**
    No entry is dispatched early: every dispatch comes at least the entry's
    offset after its pass began and never before the check that found it;
    an entry already due when checked is dispatched at once, and an early
    one exactly at its offset.
  */
  lemma TimelineNotEarly(slots: seq<Slot>, log: seq<Event>, lag: nat -> nat, t0: nat, k: nat)
    requires Timeline(slots, log, lag, t0)
    requires k < |slots|
    ensures SlotOk(slots, log, k)
    ensures slots[k].passStart + log[slots[k].index].offset <= slots[k].dispatchedAt
    ensures slots[k].checkedAt <= slots[k].dispatchedAt
    ensures slots[k].passStart + log[slots[k].index].offset <= slots[k].checkedAt ==> slots[k].dispatchedAt == slots[k].checkedAt
    ensures slots[k].checkedAt < slots[k].passStart + log[slots[k].index].offset ==>
      slots[k].dispatchedAt == slots[k].passStart + log[slots[k].index].offset
  {
  }

  /**
    Lateness never accumulates: for a log in recording order, when
    dispatching takes no time every entry is dispatched exactly its offset
    after the start of its pass.
  */
  lemma {:induction false} TimelineExact(slots: seq<Slot>, log: seq<Event>, lag: nat -> nat, t0: nat, k: nat)
    requires Timeline(slots, log, lag, t0) && Chronological(log)
    requires forall j :: 0 <= j < |slots| ==> lag(j) == 0
    requires k < |slots|
    ensures SlotOk(slots, log, k) && slots[k].dispatchedAt == slots[k].passStart + log[slots[k].index].offset
  {
    assert SlotOk(slots, log, k);
    if k > 0 {
      TimelineExact(slots, log, lag, t0, k - 1);
      assert StepOk(slots, log, lag, k);
    }
  }
}
