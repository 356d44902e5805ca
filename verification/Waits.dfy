/** metrics.go: the time a task spent waiting on a decision inside a window. */
module Waits {
  import opened Common
  import opened Vocabulary

  /** The length of [a0, a1) inside [b0, b1). */
  function Overlap(a0: Tick, a1: Tick, b0: Tick, b1: Tick): (d: Tick)
    ensures d == Max(0, Min(a1, b1) - Max(a0, b0))
  {
    var lo := if b0 > a0 then b0 else a0;
    var hi := if b1 < a1 then b1 else a1;
    if hi > lo then hi - lo else 0
  }

  // ---- the direct definition: replay, then count the ticks that wait

  /** Whether the task waits at tick x: the events at or before x, applied in order. */
  predicate Replay(events: seq<TaskEvent>, waiting: bool, x: Tick) {
    if events == [] then waiting
    else
      Replay(events[1..], Moved(events[0], waiting, x), x)
  }

  /** Whether the task waits after one event, seen from tick x. */
  function Moved(e: TaskEvent, waiting: bool, x: Tick): bool {
    if e.at > x then waiting
    else if StartsWait(e) then true
    else if EndsWait(e) then false
    else waiting
  }

  /** How many ticks of [from, until) wait. */
  function WaitingTicks(events: seq<TaskEvent>, waiting: bool, from: Tick, until: Tick): nat
    decreases until - from
  {
    if from >= until then 0
    else (if Replay(events, waiting, from) then 1 else 0) + WaitingTicks(events, waiting, from + 1, until)
  }

  // ---- what the loop accumulates, for events in any order

  function Spans(events: seq<TaskEvent>, enter: Option<Tick>, from: Tick, until: Tick): Tick {
    if events == [] then
      if enter.Some? then Overlap(enter.value, until, from, until) else 0
    else
      var e := events[0];
      if StartsWait(e) && enter.None? then Spans(events[1..], Some(e.at), from, until)
      else if EndsWait(e) && enter.Some? then
        Overlap(enter.value, e.at, from, until) + Spans(events[1..], None, from, until)
      else Spans(events[1..], enter, from, until)
  }

  method WaitTime(events: seq<TaskEvent>, from: Tick, until: Tick) returns (total: Tick)
    ensures InTimeOrder(events) ==> total == WaitingTicks(events, false, from, until)
    ensures total == Spans(events, None, from, until)
  {
    total := 0;
    var enter: Option<Tick> := None;
    for i := 0 to |events|
      invariant total + Spans(events[i..], enter, from, until) == Spans(events, None, from, until)
    {
      var e := events[i];
      assert events[i..][0] == e && events[i..][1..] == events[i + 1..];
      if StartsWait(e) && enter.None? {
        enter := Some(e.at);
      } else if EndsWait(e) && enter.Some? {
        total := total + Overlap(enter.value, e.at, from, until);
        enter := None;
      }
    }
    if enter.Some? {
      total := total + Overlap(enter.value, until, from, until);
    }
    if InTimeOrder(events) {
      SpansAreWaitingTicks(events, from, until);
    }
  }

  // ---- counting lemmas

  lemma {:induction false} ReplayBefore(events: seq<TaskEvent>, waiting: bool, x: Tick)
    requires forall e :: e in events ==> x < e.at
    ensures Replay(events, waiting, x) == waiting
  {
    if events != [] {
      assert events[0] in events;
      ReplayBefore(events[1..], waiting, x);
    }
  }

  lemma {:induction false} ConstantTicks(events: seq<TaskEvent>, waiting: bool, from: Tick, until: Tick)
    requires forall e :: e in events ==> until <= e.at
    ensures WaitingTicks(events, waiting, from, until) == (if waiting then Max(0, until - from) else 0)
    decreases until - from
  {
    if from < until {
      ReplayBefore(events, waiting, from);
      ConstantTicks(events, waiting, from + 1, until);
    }
  }

  lemma {:induction false} TicksSplit(events: seq<TaskEvent>, waiting: bool, from: Tick, mid: Tick, until: Tick)
    requires from <= mid <= until
    ensures WaitingTicks(events, waiting, from, until)
         == WaitingTicks(events, waiting, from, mid) + WaitingTicks(events, waiting, mid, until)
    decreases mid - from
  {
    if from < mid {
      TicksSplit(events, waiting, from + 1, mid, until);
    }
  }

  lemma {:induction false} SameTicks(events: seq<TaskEvent>, w: bool, others: seq<TaskEvent>, v: bool,
                                   from: Tick, until: Tick)
    requires forall x :: from <= x < until ==> Replay(events, w, x) == Replay(others, v, x)
    ensures WaitingTicks(events, w, from, until) == WaitingTicks(others, v, from, until)
    decreases until - from
  {
    if from < until {
      SameTicks(events, w, others, v, from + 1, until);
    }
  }

  /** Ticks before the first event of a list count for its starting value only. */
  lemma TicksFrom(events: seq<TaskEvent>, first: Tick, from: Tick, until: Tick)
    requires forall e :: e in events ==> first <= e.at
    ensures WaitingTicks(events, false, from, until) == WaitingTicks(events, false, Max(from, first), until)
  {
    if from < first && from < until {
      var cut := Min(first, until);
      ConstantTicks(events, false, from, cut);
      TicksSplit(events, false, from, cut, until);
    }
  }

  // ---- the loop computes the direct definition

  /** The accumulated overlaps count exactly the waiting ticks of the window. */
  lemma {:induction false} SpansAreWaitingTicks(events: seq<TaskEvent>, from: Tick, until: Tick)
    requires InTimeOrder(events)
    ensures Spans(events, None, from, until) == WaitingTicks(events, false, from, until)
    decreases |events|
  {
    if events == [] {
      ConstantTicks(events, false, from, until);
    } else {
      var e, rest := events[0], events[1..];
      if StartsWait(e) {
        OpenSpan(rest, e.at, from, until);
        TicksFrom(events, e.at, from, until);
        SameTicks(events, false, rest, true, Max(from, e.at), until);
      } else {
        SpansAreWaitingTicks(rest, from, until);
        SameTicks(events, false, rest, false, from, until);
      }
    }
  }

  /** A wait that the first event ends: the ticks up to it, then what the rest counts. */
  lemma ClosedTicks(events: seq<TaskEvent>, lo: Tick, until: Tick)
    requires events != [] && EndsWait(events[0]) && InTimeOrder(events)
    ensures WaitingTicks(events, true, lo, until)
         == Max(0, Min(events[0].at, until) - lo) + WaitingTicks(events[1..], false, Max(lo, events[0].at), until)
  {
    var e := events[0];
    if lo < until {
      var cut := Max(lo, Min(e.at, until));
      TicksSplit(events, true, lo, cut, until);
      if lo < cut { ConstantTicks(events, true, lo, cut); }
      SameTicks(events, true, events[1..], false, cut, until);
    }
  }

  /** With a wait open since enter, the ticks from enter on are counted. */
  lemma {:induction false} OpenSpan(events: seq<TaskEvent>, enter: Tick, from: Tick, until: Tick)
    requires InTimeOrder(events)
    requires forall e :: e in events ==> enter <= e.at
    ensures Spans(events, Some(enter), from, until) == WaitingTicks(events, true, Max(from, enter), until)
    decreases |events|
  {
    var lo := Max(from, enter);
    if events == [] {
      ConstantTicks(events, true, lo, until);
    } else {
      var e, rest := events[0], events[1..];
      if EndsWait(e) {
        SpansAreWaitingTicks(rest, from, until);
        TicksFrom(rest, e.at, from, until);
        ClosedTicks(events, lo, until);
      } else {
        OpenSpan(rest, enter, from, until);
        SameTicks(events, true, rest, true, lo, until);
      }
    }
  }

  // ---- consequences

  /** A wait is never longer than the window. */
  lemma {:induction false} WaitWithinWindow(events: seq<TaskEvent>, from: Tick, until: Tick)
    requires InTimeOrder(events)
    ensures 0 <= Spans(events, None, from, until) <= Max(0, until - from)
  {
    SpansAreWaitingTicks(events, from, until);
    TicksBounded(events, false, from, until);
  }

  lemma {:induction false} TicksBounded(events: seq<TaskEvent>, waiting: bool, from: Tick, until: Tick)
    ensures WaitingTicks(events, waiting, from, until) <= Max(0, until - from)
    decreases until - from
  {
    if from < until {
      TicksBounded(events, waiting, from + 1, until);
    }
  }

  /** Splitting the window splits the wait. */
  lemma WaitIsAdditive(events: seq<TaskEvent>, from: Tick, mid: Tick, until: Tick)
    requires InTimeOrder(events)
    requires from <= mid <= until
    ensures Spans(events, None, from, until) == Spans(events, None, from, mid) + Spans(events, None, mid, until)
  {
    SpansAreWaitingTicks(events, from, until);
    SpansAreWaitingTicks(events, from, mid);
    SpansAreWaitingTicks(events, mid, until);
    TicksSplit(events, false, from, mid, until);
  }

  /** The awaiting flag was set, or a typed transition led into needs_decision. */
  ghost predicate Enters(e: TaskEvent) {
    || (e.kind == Awaiting && e.flag == Some(true))
    || (e.kind == Transition && e.to == OldNeedsDecision)
  }

  /** The flag was cleared, or a transition, typed or not, led out of needs_decision. */
  ghost predicate Leaves(e: TaskEvent) {
    || (e.kind == Awaiting && e.flag == Some(false))
    || ((e.kind == Transition || e.kind == Untyped) && e.from == OldNeedsDecision && e.to != OldNeedsDecision)
  }

  /** Event i began a wait by x, and nothing by x has ended it. */
  ghost predicate WaitsSince(events: seq<TaskEvent>, i: int, x: Tick) {
    && 0 <= i < |events| && events[i].at <= x && Enters(events[i])
    && forall k :: i < k < |events| && events[k].at <= x ==> !Leaves(events[k])
  }

  /** A task waits exactly when some event began a wait that no later one has ended. */
  lemma {:induction false} WaitingExactly(events: seq<TaskEvent>, x: Tick)
    ensures Replay(events, false, x) <==> exists i :: WaitsSince(events, i, x)
    decreases |events|
  {
    if |events| > 0 {
      var init, e := events[..|events| - 1], events[|events| - 1];
      assert events == init + [e];
      WaitingExactly(init, x);
      ReplayAppend(init, e, false, x);
      assert forall i :: 0 <= i < |init| ==> events[i] == init[i];
      if e.at <= x && Enters(e) { assert WaitsSince(events, |init|, x); }
      if (e.at > x || !Leaves(e)) && Replay(init, false, x) {
        var i :| WaitsSince(init, i, x);
        assert WaitsSince(events, i, x);
      }
      forall i | WaitsSince(events, i, x) && i < |init| ensures WaitsSince(init, i, x) && (e.at > x || !Leaves(e)) {}
    }
  }

  /** The history with every row that has no kind read as a transition. */
  function Typed(events: seq<TaskEvent>): (r: seq<TaskEvent>)
    ensures |r| == |events|
  {
    if events == [] then []
    else [WithKind(events[0])] + Typed(events[1..])
  }

  function WithKind(e: TaskEvent): TaskEvent {
    if e.kind.Untyped? then e.(kind := Transition) else e
  }

  predicate UntypedEntry(e: TaskEvent) {
    e.kind.Untyped? && e.to.OldNeedsDecision?
  }

  predicate StartsOrEnds(e: TaskEvent) { StartsWait(e) || EndsWait(e) }

  /** At x a wait begun by event i is missed: the row has no kind, no wait was open before it,
      and nothing has started or ended one since. */
  ghost predicate MissedBy(events: seq<TaskEvent>, waiting: bool, x: Tick, i: int) {
    && 0 <= i < |events| && UntypedEntry(events[i]) && events[i].at <= x
    && !Replay(events[..i], waiting, x)
    && forall k :: i < k < |events| && events[k].at <= x ==> !StartsOrEnds(events[k])
  }

  ghost predicate Missed(events: seq<TaskEvent>, waiting: bool, x: Tick) {
    exists i :: MissedBy(events, waiting, x, i)
  }

  lemma {:induction false} ReplayAppend(events: seq<TaskEvent>, e: TaskEvent, waiting: bool, x: Tick)
    ensures Replay(events + [e], waiting, x) == Moved(e, Replay(events, waiting, x), x)
  {
    if events == [] {
      assert ([e])[1..] == [] && events + [e] == [e];
    } else {
      assert (events + [e])[1..] == events[1..] + [e];
      ReplayAppend(events[1..], e, Moved(events[0], waiting, x), x);
    }
  }

  lemma {:induction false} TypedAppend(events: seq<TaskEvent>, e: TaskEvent)
    ensures Typed(events + [e]) == Typed(events) + [WithKind(e)]
  {
    if events == [] {
      assert ([e])[1..] == [] && events + [e] == [e];
    } else {
      assert (events + [e])[1..] == events[1..] + [e];
      TypedAppend(events[1..], e);
    }
  }

  lemma MissedAppend(events: seq<TaskEvent>, e: TaskEvent, waiting: bool, x: Tick)
    ensures e.at > x || !StartsOrEnds(e) ==>
              (Missed(events + [e], waiting, x) <==>
               Missed(events, waiting, x) || MissedBy(events + [e], waiting, x, |events|))
    ensures e.at <= x && StartsOrEnds(e) ==>
              (Missed(events + [e], waiting, x) <==> MissedBy(events + [e], waiting, x, |events|))
  {
    var all := events + [e];
    assert all[|events|] == e;
    forall i | 0 <= i < |events| && (e.at > x || !StartsOrEnds(e))
      ensures MissedBy(all, waiting, x, i) <==> MissedBy(events, waiting, x, i)
    {
      assert all[..i] == events[..i] && all[i] == events[i];
      if MissedBy(all, waiting, x, i) {
        forall k | i < k < |events| && events[k].at <= x ensures !StartsOrEnds(events[k]) {
          assert all[k] == events[k];
        }
      }
    }
  }

  /** Reading rows without a kind as transitions changes what is replayed at a tick exactly
      when the wait such a row begins is missed there; it never removes a wait. */
  lemma {:induction false} KindMattersExactly(events: seq<TaskEvent>, waiting: bool, x: Tick)
    ensures Replay(Typed(events), waiting, x) == (Replay(events, waiting, x) || Missed(events, waiting, x))
    ensures !(Replay(events, waiting, x) && Missed(events, waiting, x))
    decreases |events|
  {
    if events != [] {
      var init, e := events[..|events| - 1], events[|events| - 1];
      assert events == init + [e] && events[..|init|] == init;
      KindMattersExactly(init, waiting, x);
      ReplayAppend(init, e, waiting, x);
      TypedAppend(init, e);
      ReplayAppend(Typed(init), WithKind(e), waiting, x);
      MissedAppend(init, e, waiting, x);
    }
  }

  // ---- over a window

  /** How many ticks of [from, until) are missed. */
  ghost function MissedTicks(events: seq<TaskEvent>, from: Tick, until: Tick): nat
    decreases until - from
  {
    if from >= until then 0
    else (if Missed(events, false, from) then 1 else 0) + MissedTicks(events, from + 1, until)
  }

  lemma {:induction false} TypedInOrder(events: seq<TaskEvent>)
    ensures forall i :: 0 <= i < |events| ==> Typed(events)[i].at == events[i].at
    ensures InTimeOrder(events) ==> InTimeOrder(Typed(events))
  {
    if events != [] {
      TypedInOrder(events[1..]);
      forall i | 0 <= i < |events| ensures Typed(events)[i].at == events[i].at {
        if i > 0 { assert Typed(events)[i] == Typed(events[1..])[i - 1]; }
      }
    }
  }

  lemma {:induction false} TypedTicks(events: seq<TaskEvent>, from: Tick, until: Tick)
    ensures WaitingTicks(Typed(events), false, from, until)
         == WaitingTicks(events, false, from, until) + MissedTicks(events, from, until)
    ensures MissedTicks(events, from, until) == 0 <==> forall x :: from <= x < until ==> !Missed(events, false, x)
    decreases until - from
  {
    if from < until {
      TypedTicks(events, from + 1, until);
      KindMattersExactly(events, false, from);
    }
  }

  /** The wait of a window falls short of what the same rows with a kind would give by the
      missed ticks, and agrees with it exactly when no tick of the window is missed. */
  lemma WaitMissesExactly(events: seq<TaskEvent>, from: Tick, until: Tick)
    requires InTimeOrder(events)
    ensures Spans(Typed(events), None, from, until)
         == Spans(events, None, from, until) + MissedTicks(events, from, until)
    ensures Spans(Typed(events), None, from, until) == Spans(events, None, from, until)
       <==> forall x :: from <= x < until ==> !Missed(events, false, x)
  {
    TypedInOrder(events);
    SpansAreWaitingTicks(events, from, until);
    SpansAreWaitingTicks(Typed(events), from, until);
    TypedTicks(events, from, until);
  }

  /** A row written before events had a kind counts as a transition for every other reader,
      but one into needs_decision begins no wait: the history below waits for 60 ticks and
      is measured as 0, where the same rows with a kind are measured as 60. */
  lemma UntypedEntryIsNotCounted()
    ensures var into := TaskEvent(Untyped, OldInProgress, OldNeedsDecision, None, 0);
            var out := TaskEvent(Untyped, OldNeedsDecision, OldInProgress, None, 60);
            && StateEvent(into) && EndsWait(out)
            && Spans([into, out], None, 0, 100) == 0
            && Spans([into.(kind := Transition), out], None, 0, 100) == 60
  {
    var into := TaskEvent(Untyped, OldInProgress, OldNeedsDecision, None, 0);
    var out := TaskEvent(Untyped, OldNeedsDecision, OldInProgress, None, 60);
    var typed := into.(kind := Transition);
    assert [into, out][1..] == [out] && [typed, out][1..] == [out] && [out][1..] == [];
    assert Spans([out], Some(0), 0, 100) == 60 && Spans([out], None, 0, 100) == 0;
  }
}
