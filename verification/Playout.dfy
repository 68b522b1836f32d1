/** The playout cursor: a slot scheduler that skips late slots, never bursts and outlives changes of rate. */
module Playout {
  import opened Arithmetic
  import opened Clock
  import opened Common

  datatype Emission = Emission(pts: int, skipped: nat)

  datatype Cursor = Cursor(rate: Rate, idx: nat)

  // ----- what one call does -----

  /** A rate change continues at the wall clock, but never at or before the slot it left. */
  function Retimed(c: Cursor, now: int, rate: Rate): Cursor
    requires c.rate.Valid() && rate.Valid()
  {
    if c.rate == rate then c
    else if c.idx == 0 then Cursor(rate, rate.SlotAt(Ticks(now)))
    else Cursor(rate, Max(rate.SlotAt(Ticks(now)), FirstSlotPast(rate, c.rate.Start(c.idx - 1))))
  }

  function FirstSlotPast(rate: Rate, last: int): nat
    requires rate.Valid()
  {
    if last < 0 then 0
    else
      SlotSpacing(rate, 0);
      DivAtLeast(last, rate.IntervalTicks(), 0);
      last / rate.IntervalTicks() + 1
  }

  /** A poll emits the slot that is running, once, and reports the slots it passed over. */
  function Polled(c: Cursor, now: int): (Cursor, Option<Emission>)
    requires c.rate.Valid()
  {
    var slot := c.rate.SlotAt(Ticks(now));
    if 0 <= now && c.idx <= slot then
      (Cursor(c.rate, slot + 1), Some(Emission(c.rate.Start(slot), slot - c.idx)))
    else
      (c, None)
  }

  // ----- what they mean on the time line -----

  /** Slot `k` is the one that runs at `now`. */
  predicate Runs(rate: Rate, k: nat, now: int) {
    rate.Start(k) * 100 <= now < rate.Start(k + 1) * 100
  }

  /** After a rate change the next slot is the running one, and that is past the slot that `last` falls in. */
  predicate Resumes(rate: Rate, k: nat, now: int, last: int) {
    Runs(rate, k, now) && last < k * rate.IntervalTicks()
  }

  /** Or the next slot is the one after the whole intervals in `last`, which has not started yet or runs now. */
  predicate Waits(rate: Rate, k: nat, now: int, last: int) {
    now < rate.Start(k + 1) * 100 && (k - 1) * rate.IntervalTicks() <= last < k * rate.IntervalTicks()
  }

  lemma RunsIff(rate: Rate, k: nat, now: int)
    requires rate.Valid()
    ensures 0 <= now && k == rate.SlotAt(Ticks(now)) <==> Runs(rate, k, now)
  {
    StartFromZero(rate, k);
    if 0 <= now {
      Adjoint(rate, k, Ticks(now));
      Adjoint(rate, k + 1, Ticks(now));
    }
  }

  /** The slot after the whole intervals in `last`, by products. */
  lemma FirstSlotPastMeans(rate: Rate, last: int)
    requires rate.Valid() && 0 <= last
    ensures
      var (k, i) := (FirstSlotPast(rate, last), rate.IntervalTicks());
      0 < k && (k - 1) * i <= last < k * i
  {
    SlotSpacing(rate, 0);
    var i := rate.IntervalTicks();
    DivAtLeast(last, i, last / i);
    DivAtMost(last, i, last / i);
  }

  /** Slot `k` of `rate` is where `c` goes on after a change at `now`. */
  predicate GoesOn(c: Cursor, now: int, rate: Rate, k: nat)
    requires c.rate.Valid() && rate.Valid()
  {
    if c.idx == 0 then Runs(rate, k, now)
    else
      var last := c.rate.Start(c.idx - 1);
      last < rate.Start(k) && (Resumes(rate, k, now, last) || Waits(rate, k, now, last))
  }

  lemma RetimedMeans(c: Cursor, now: int, rate: Rate)
    requires c.rate.Valid() && rate.Valid()
    ensures Retimed(c, now, rate).rate == rate
    ensures c.rate == rate ==> Retimed(c, now, rate) == c
    ensures c.rate != rate ==> GoesOn(c, Max(now, 0), rate, Retimed(c, now, rate).idx)
  {
    var (k, wall) := (Retimed(c, now, rate).idx, rate.SlotAt(Ticks(now)));
    RunsIff(rate, wall, Max(now, 0));
    if c.rate != rate && c.idx != 0 {
      var last := c.rate.Start(c.idx - 1);
      var past := FirstSlotPast(rate, last);
      StartFromZero(c.rate, c.idx - 1);
      SlotSpacing(rate, 0);
      FirstSlotPastMeans(rate, last);
      FirstSlotPastIsPast(rate, last);
      StartMonotone(rate, past, k);
      StartMonotone(rate, wall + 1, k + 1);
      MulMono(past, k, rate.IntervalTicks());
    }
  }

  lemma PolledMeans(c: Cursor, now: int)
    requires c.rate.Valid()
    ensures
      var (c', due) := Polled(c, now);
      && c'.rate == c.rate
      && (due.Some? <==> c.rate.Start(c.idx) * 100 <= now)
      && (due.None? ==> c' == c)
      && (due.Some? ==>
            && c.idx <= c'.idx - 1 && Runs(c.rate, c'.idx - 1, now)
            && due.value == Emission(c.rate.Start(c'.idx - 1), c'.idx - 1 - c.idx))
  {
    var slot := c.rate.SlotAt(Ticks(now));
    RunsIff(c.rate, slot, now);
    StartFromZero(c.rate, c.idx);
    if 0 <= now {
      Adjoint(c.rate, c.idx, Ticks(now));
    }
  }

  class PlayoutCursor {
    var rate: Rate
    var idx: nat

    constructor (rate: Rate)
      ensures View() == Cursor(rate, 0)
    {
      this.rate := rate;
      idx := 0;
    }

    ghost function View(): Cursor
      reads this
    {
      Cursor(rate, idx)
    }

    method SetRate(now: int, rate: Rate)
      requires this.rate.Valid() && rate.Valid() && Ticks(now) <= I64_MAX && InRange(rate, Ticks(now))
      requires 0 < idx ==> this.rate.Start(idx - 1) <= I64_MAX
      modifies this
      ensures View() == Retimed(old(View()), now, rate)
      ensures old(this.rate) != rate ==> rate.SlotAt(Ticks(now)) <= idx
      ensures this.rate == rate && (old(this.rate) == rate ==> idx == old(idx))
      ensures old(this.rate) != rate ==> GoesOn(old(View()), Max(now, 0), rate, idx)
    {
      RetimedMeans(View(), now, rate);
      if this.rate == rate {
        return;
      }
      var last := -1;
      if idx != 0 {
        Fits(this.rate, idx - 1);
        StartFromZero(this.rate, idx - 1);
        last := this.rate.Pts(idx - 1);
      }
      this.rate := rate;
      var wall := FramesElapsed(rate, Max(now, 0));
      if last < 0 {
        idx := wall;
        return;
      }
      SlotSpacing(rate, 0);
      DivAtLeast(last, rate.IntervalTicks(), 0);
      var least := last / Max(rate.IntervalTicks(), 1) + 1;
      FirstSlotPastIsPast(rate, last);
      StartMonotone(rate, least, Max(wall, least));
      idx := Max(wall, least);
    }

    method DueWithSkip(now: int) returns (due: Option<Emission>)
      requires rate.Valid() && now < U64_MAX && rate.Start(idx) <= I64_MAX
      modifies this
      ensures (View(), due) == Polled(old(View()), now)
      ensures rate == old(rate)
      ensures due.Some? <==> rate.Start(old(idx)) * 100 <= now
      ensures due.None? ==> idx == old(idx)
      ensures due.Some? ==>
        && old(idx) <= idx - 1 && Runs(rate, idx - 1, now)
        && due.value == Emission(rate.Start(idx - 1), idx - 1 - old(idx))
    {
      PolledMeans(View(), now);
      InRangeUpTo(rate, Ticks(now));
      var ideal := FramesElapsed(rate, Max(now, 0));
      var skipped := Max(ideal - idx, 0);
      Adjoint(rate, ideal, Ticks(now));
      Adjoint(rate, idx, Ticks(now));
      StartFromZero(rate, Max(ideal, idx));
      if ideal > idx {
        idx := ideal;
      }
      Fits(rate, idx);
      if now < rate.Deadline(idx) {
        return None;
      }
      var pts := rate.Pts(idx);
      idx := idx + 1;
      due := Some(Emission(pts, skipped));
    }

    method NextDeadline() returns (at: int)
      requires rate.Valid() && rate.Start(idx) <= I64_MAX
      ensures at == Min(rate.Start(idx) * 100, U64_MAX)
    {
      Fits(rate, idx);
      at := rate.Deadline(idx);
    }
  }

  // ----- runs -----

  datatype Event = ChangeRate(now: int, rate: Rate) | Poll(now: int)

  /** Calls arrive in time order and carry rates that `Rate::new` made. */
  ghost predicate InOrder(events: seq<Event>, from: int) {
    |events| == 0 ||
    (from <= events[0].now &&
     (events[0].ChangeRate? ==> events[0].rate.Valid()) &&
     InOrder(events[1..], events[0].now))
  }

  function After(c: Cursor, e: Event): Cursor
    requires c.rate.Valid() && (e.ChangeRate? ==> e.rate.Valid())
  {
    match e
    case ChangeRate(now, rate) => Retimed(c, now, rate)
    case Poll(now) => Polled(c, now).0
  }

  function Out(c: Cursor, e: Event): seq<Emission>
    requires c.rate.Valid()
  {
    if e.Poll? && Polled(c, e.now).1.Some? then [Polled(c, e.now).1.value] else []
  }

  /** Everything a run emits. */
  function Emitted(c: Cursor, events: seq<Event>, from: int): seq<Emission>
    requires c.rate.Valid() && InOrder(events, from)
    decreases |events|
  {
    if |events| == 0 then []
    else Out(c, events[0]) + Emitted(After(c, events[0]), events[1..], events[0].now)
  }

  function Final(c: Cursor, events: seq<Event>, from: int): Cursor
    requires c.rate.Valid() && InOrder(events, from)
    decreases |events|
  {
    if |events| == 0 then c
    else Final(After(c, events[0]), events[1..], events[0].now)
  }

  ghost predicate Increasing(out: seq<Emission>) {
    forall i, j :: 0 <= i < j < |out| ==> out[i].pts < out[j].pts
  }

  ghost predicate AllPast(out: seq<Emission>, last: int) {
    forall i :: 0 <= i < |out| ==> last < out[i].pts
  }

  /** A cursor that has emitted nothing yet takes up the running slot of a new rate, with no skip. */
  lemma FirstChangeResumesAtOnce(c: Cursor, now: int, rate: Rate, k: nat, from: int)
    requires c.rate.Valid() && rate.Valid() && c.rate != rate && c.idx == 0
    requires from <= now && Runs(rate, k, now)
    ensures InOrder([ChangeRate(now, rate), Poll(now)], from)
    ensures Emitted(c, [ChangeRate(now, rate), Poll(now)], from) == [Emission(rate.Start(k), 0)]
    ensures Final(c, [ChangeRate(now, rate), Poll(now)], from) == Cursor(rate, k + 1)
  {
    RunsIff(rate, k, now);
    var (events, c') := ([ChangeRate(now, rate), Poll(now)], Retimed(c, now, rate));
    assert events[1..] == [Poll(now)] && [Poll(now)][1..] == [];
    assert c' == Cursor(rate, k) && Out(c', Poll(now)) == [Emission(rate.Start(k), 0)];
    assert Emitted(c', [Poll(now)], now) == Out(c', Poll(now)) + Emitted(After(c', Poll(now)), [], now);
    assert Final(c', [Poll(now)], now) == After(c', Poll(now));
  }

  // ----- order of timestamps across rate changes -----

  /** The next slot starts after `last`, so whatever is emitted next does too. */
  ghost predicate Ahead(c: Cursor, last: int)
    requires c.rate.Valid()
  {
    last < c.rate.Start(c.idx)
  }

  /** The slot just left is the one whose timestamp was emitted last, or nothing was emitted yet. */
  ghost predicate Fresh(c: Cursor, last: int)
    requires c.rate.Valid()
  {
    if last < 0 then true else 0 < c.idx && c.rate.Start(c.idx - 1) == last
  }

  /** Decidable before the call: a change to `rate` cannot repeat or rewind the timestamp `last`. */
  predicate SafeChange(c: Cursor, last: int, now: int, rate: Rate)
    requires c.rate.Valid() && rate.Valid()
  {
    || c.rate == rate
    || last < 0
    || rate.SlotAt(last) < rate.SlotAt(Ticks(now))
    || (0 < c.idx && rate.SlotAt(last) < FirstSlotPast(rate, c.rate.Start(c.idx - 1)))
  }

  /** The key step: the slot after `last / interval` starts after `last`. */
  lemma FirstSlotPastIsPast(rate: Rate, last: int)
    requires rate.Valid() && 0 <= last
    ensures last < rate.Start(FirstSlotPast(rate, last))
    ensures rate.SlotAt(last) < FirstSlotPast(rate, last)
  {
    SlotSpacing(rate, 0);
    var i := rate.IntervalTicks();
    var m := FirstSlotPast(rate, last);
    DivAtMost(last, i, last / i);
    StartForm(rate, m);
    DivAtLeast(rate.Span(), rate.num, i);
    MulMono(i * rate.num, rate.Span(), m);
    assert m * i * rate.num == m * (i * rate.num) && m * rate.Span() == rate.Span() * m;
    DivAtLeast(m * rate.Span(), rate.num, m * i);
    Adjoint(rate, m, last);
  }

  /** A change made right after an emission, or before any, is always safe. */
  lemma FreshChangeIsSafe(c: Cursor, last: int, now: int, rate: Rate)
    requires c.rate.Valid() && rate.Valid() && Fresh(c, last)
    ensures SafeChange(c, last, now, rate)
  {
    if 0 <= last {
      FirstSlotPastIsPast(rate, last);
    }
  }

  /** The guard is exact: with it the cursor stays ahead; without it polling on the spot breaks the order. */
  lemma SafeChangeIsExact(c: Cursor, last: int, now: int, rate: Rate)
    requires c.rate.Valid() && rate.Valid() && -1 <= last
    requires Ahead(c, last) && 0 <= now && last <= Ticks(now)
    requires 0 <= last ==> 0 < c.idx
    ensures SafeChange(c, last, now, rate) <==> Ahead(Retimed(c, now, rate), last)
    ensures SafeChange(c, last, now, rate) <==>
      AllPast(Out(Retimed(c, now, rate), Poll(now)), last)
  {
    var c' := Retimed(c, now, rate);
    StartFromZero(rate, c'.idx);
    if 0 <= last {
      Adjoint(rate, c'.idx, last);
      SlotMonotone(rate, last, Ticks(now));
    }
    if Ahead(c', last) {
      PolledIsAhead(c', last, now);
    } else {
      StalePollRepeats(c', last, now);
    }
  }

  /** A cursor that is not ahead of `last` emits, at once, a timestamp that is not past `last`. */
  lemma StalePollRepeats(c: Cursor, last: int, now: int)
    requires c.rate.Valid() && 0 <= last <= Ticks(now) && 0 <= now && !Ahead(c, last)
    requires c.rate.SlotAt(last) == c.rate.SlotAt(Ticks(now))
    ensures |Out(c, Poll(now))| == 1 && Out(c, Poll(now))[0].pts <= last
  {
    Adjoint(c.rate, c.idx, last);
    Adjoint(c.rate, c.rate.SlotAt(last), last);
  }

  lemma PolledIsAhead(c: Cursor, last: int, now: int)
    requires c.rate.Valid() && Ahead(c, last)
    ensures AllPast(Out(c, Poll(now)), last)
    ensures Polled(c, now).1.Some? ==>
      var pts := Polled(c, now).1.value.pts;
      0 <= pts <= Ticks(now) && Ahead(Polled(c, now).0, pts) && Fresh(Polled(c, now).0, pts)
  {
    var slot := c.rate.SlotAt(Ticks(now));
    Adjoint(c.rate, slot, Ticks(now));
    StartFromZero(c.rate, slot);
    SlotSpacing(c.rate, slot);
    if c.idx <= slot {
      StartMonotone(c.rate, c.idx, slot);
    }
  }

  /** Every rate change of a run passes the guard; `last` is the timestamp emitted most recently. */
  ghost predicate AllChangesSafe(c: Cursor, events: seq<Event>, from: int, last: int)
    requires c.rate.Valid() && InOrder(events, from)
    decreases |events|
  {
    |events| == 0 ||
    ((events[0].ChangeRate? ==> SafeChange(c, last, events[0].now, events[0].rate)) &&
     AllChangesSafe(After(c, events[0]), events[1..], events[0].now, LastPts(Out(c, events[0]), last)))
  }

  function LastPts(out: seq<Emission>, last: int): int {
    if |out| == 0 then last else out[|out| - 1].pts
  }

  /** Between any two effective rate changes there is an emission; `settled` if none is pending one. */
  ghost predicate Spaced(c: Cursor, events: seq<Event>, from: int, settled: bool)
    requires c.rate.Valid() && InOrder(events, from)
    decreases |events|
  {
    |events| == 0 ||
    (var changes := events[0].ChangeRate? && events[0].rate != c.rate;
     (changes ==> settled) &&
     Spaced(After(c, events[0]), events[1..], events[0].now,
            !changes && (settled || |Out(c, events[0])| == 1)))
  }

  /** Timestamps increase over every run, across all rates, whose rate changes all pass the guard. */
  lemma {:induction false} SafeRunIncreases(c: Cursor, events: seq<Event>, from: int, last: int)
    requires c.rate.Valid() && InOrder(events, from) && 0 <= from
    requires -1 <= last <= Ticks(from) && Ahead(c, last) && (0 <= last ==> 0 < c.idx)
    requires AllChangesSafe(c, events, from, last)
    ensures Increasing(Emitted(c, events, from))
    ensures AllPast(Emitted(c, events, from), last)
    decreases |events|
  {
    if |events| != 0 {
      var e := events[0];
      var c' := After(c, e);
      var out := Out(c, e);
      match e {
        case ChangeRate(now, rate) =>
          SafeChangeIsExact(c, last, now, rate);
          if 0 <= last {
            StartFromZero(rate, 0);
          }
        case Poll(now) =>
          PolledIsAhead(c, last, now);
      }
      SafeRunIncreases(c', events[1..], e.now, LastPts(out, last));
    }
  }

  lemma {:induction false} SpacedRunIsSafe(c: Cursor, events: seq<Event>, from: int, last: int, settled: bool)
    requires c.rate.Valid() && InOrder(events, from) && 0 <= from
    requires -1 <= last <= Ticks(from) && Ahead(c, last) && (0 <= last ==> 0 < c.idx)
    requires Spaced(c, events, from, settled) && (settled ==> Fresh(c, last))
    ensures AllChangesSafe(c, events, from, last)
    decreases |events|
  {
    if |events| != 0 {
      var e := events[0];
      var c' := After(c, e);
      var last' := LastPts(Out(c, e), last);
      match e {
        case ChangeRate(now, rate) =>
          if rate != c.rate {
            FreshChangeIsSafe(c, last, now, rate);
          }
          SafeChangeIsExact(c, last, now, rate);
          if 0 <= last {
            StartFromZero(rate, 0);
          }
        case Poll(now) =>
          PolledIsAhead(c, last, now);
      }
      var changes := e.ChangeRate? && e.rate != c.rate;
      SpacedRunIsSafe(c', events[1..], e.now, last', !changes && (settled || |Out(c, e)| == 1));
    }
  }

  /**
   From a new cursor, every run of polls and rate changes in time order, with an emission between
   any two rate changes, emits strictly increasing timestamps across all its rates.
   */
  lemma TimestampsIncreaseAcrossRates(rate: Rate, events: seq<Event>, from: int)
    requires rate.Valid() && 0 <= from && InOrder(events, from)
    requires Spaced(Cursor(rate, 0), events, from, true)
    ensures Increasing(Emitted(Cursor(rate, 0), events, from))
  {
    StartFromZero(rate, 0);
    SpacedRunIsSafe(Cursor(rate, 0), events, from, -1, true);
    SafeRunIncreases(Cursor(rate, 0), events, from, -1);
  }

  const TWO_FPS: Rate := Rate(2, 1)
  const ONE_FPS: Rate := Rate(1, 1)
  const AT_1500_MS: int := 1_500_000_000

  /** At 1.5 s: a poll at 2 fps, a change to 1 fps and back, and another poll. */
  function ThereAndBack(n: nat): seq<Event>
    requires n <= 4
  {
    [Poll(AT_1500_MS), ChangeRate(AT_1500_MS, ONE_FPS), ChangeRate(AT_1500_MS, TWO_FPS), Poll(AT_1500_MS)][4 - n..]
  }

  /** One step of a run, for concrete events. */
  lemma EmittedStep(c: Cursor, e: Event, rest: seq<Event>, from: int)
    requires c.rate.Valid() && from <= e.now && (e.ChangeRate? ==> e.rate.Valid()) && InOrder(rest, e.now)
    ensures InOrder([e] + rest, from)
    ensures Emitted(c, [e] + rest, from) == Out(c, e) + Emitted(After(c, e), rest, e.now)
  {
    assert ([e] + rest)[1..] == rest;
  }

  /** What the two rates give at 1.5 s, by slot and by rate change. */
  lemma At1500Ms()
    ensures TWO_FPS.SlotAt(Ticks(AT_1500_MS)) == 3 && TWO_FPS.Start(3) == 15_000_000
    ensures Retimed(Cursor(TWO_FPS, 4), AT_1500_MS, ONE_FPS) == Cursor(ONE_FPS, 2)
    ensures Retimed(Cursor(ONE_FPS, 2), AT_1500_MS, TWO_FPS) == Cursor(TWO_FPS, 3)
  {
    assert TWO_FPS.SlotAt(15_000_000) == 3 && ONE_FPS.SlotAt(15_000_000) == 1;
    assert TWO_FPS.Start(3) == 15_000_000;
  }

  /** The last three events, with no emission before the poll: the cursor is back at slot 3. */
  lemma BackToSlotThree()
    ensures InOrder(ThereAndBack(3), AT_1500_MS)
    ensures Emitted(Cursor(TWO_FPS, 4), ThereAndBack(3), AT_1500_MS) == [Emission(15_000_000, 0)]
  {
    var now := AT_1500_MS;
    At1500Ms();
    assert ThereAndBack(1) == [Poll(now)] + ThereAndBack(0);
    assert ThereAndBack(2) == [ChangeRate(now, TWO_FPS)] + ThereAndBack(1);
    assert ThereAndBack(3) == [ChangeRate(now, ONE_FPS)] + ThereAndBack(2);
    EmittedStep(Cursor(TWO_FPS, 3), Poll(now), ThereAndBack(0), now);
    EmittedStep(Cursor(ONE_FPS, 2), ChangeRate(now, TWO_FPS), ThereAndBack(1), now);
    EmittedStep(Cursor(TWO_FPS, 4), ChangeRate(now, ONE_FPS), ThereAndBack(2), now);
  }

  /** Two changes with no emission between them can repeat a timestamp. */
  lemma UnspacedChangesRepeat()
    ensures InOrder(ThereAndBack(4), 0)
    ensures Emitted(Cursor(TWO_FPS, 0), ThereAndBack(4), 0) == [Emission(15_000_000, 3), Emission(15_000_000, 0)]
  {
    At1500Ms();
    BackToSlotThree();
    assert ThereAndBack(4) == [Poll(AT_1500_MS)] + ThereAndBack(3);
    EmittedStep(Cursor(TWO_FPS, 0), Poll(AT_1500_MS), ThereAndBack(3), 0);
  }

  // ----- slot conservation -----

  predicate OnlyPolls(events: seq<Event>) {
    forall i :: 0 <= i < |events| ==> events[i].Poll?
  }

  function Skipped(out: seq<Emission>): nat {
    if |out| == 0 then 0 else out[0].skipped + Skipped(out[1..])
  }

  /** At a fixed rate every slot the cursor moves past was either emitted or counted as skipped. */
  lemma {:induction false} SlotsAreConserved(c: Cursor, events: seq<Event>, from: int)
    requires c.rate.Valid() && InOrder(events, from) && OnlyPolls(events)
    ensures
      var out := Emitted(c, events, from);
      Final(c, events, from) == Cursor(c.rate, c.idx + |out| + Skipped(out))
    decreases |events|
  {
    if |events| != 0 {
      SlotsAreConserved(After(c, events[0]), events[1..], events[0].now);
      var rest := Emitted(After(c, events[0]), events[1..], events[0].now);
      var out := Out(c, events[0]) + rest;
      if |Out(c, events[0])| == 1 {
        assert out[1..] == rest;
      } else {
        assert out == rest;
      }
    }
  }

  /** No burst: polls between `from` and `until` emit at most one frame per slot that runs in between. */
  lemma {:induction false} NoBurst(c: Cursor, events: seq<Event>, from: int, until: int)
    requires c.rate.Valid() && InOrder(events, from) && OnlyPolls(events)
    requires forall i :: 0 <= i < |events| ==> events[i].now <= until
    ensures |Emitted(c, events, from)| <=
            Max(0, c.rate.SlotAt(Ticks(until)) + 1 - Max(c.idx, c.rate.SlotAt(Ticks(from))))
    decreases |events|
  {
    if |events| != 0 {
      var t := events[0].now;
      NoBurst(After(c, events[0]), events[1..], t, until);
      SlotMonotone(c.rate, Ticks(from), Ticks(t));
      SlotMonotone(c.rate, Ticks(t), Ticks(until));
    }
  }

  /** The polls of a loop that sleeps until `next_deadline` each time. */
  function DeadlinePolls(c: Cursor, n: nat): seq<Event>
    decreases n
  {
    if n == 0 then []
    else [Poll(c.rate.Start(c.idx) * 100)] + DeadlinePolls(Cursor(c.rate, c.idx + 1), n - 1)
  }

  /** Polling at every deadline emits every slot, in order, and skips none. */
  lemma {:induction false} DeadlinePollsMissNothing(c: Cursor, n: nat, from: int)
    requires c.rate.Valid() && from <= c.rate.Start(c.idx) * 100
    ensures InOrder(DeadlinePolls(c, n), from)
    ensures Emitted(c, DeadlinePolls(c, n), from) ==
            seq(n, i requires 0 <= i < n => Emission(c.rate.Start(c.idx + i), 0))
    decreases n
  {
    if n != 0 {
      var next := Cursor(c.rate, c.idx + 1);
      var at := c.rate.Start(c.idx) * 100;
      var events := DeadlinePolls(c, n);
      assert events[0] == Poll(at) && events[1..] == DeadlinePolls(next, n - 1);
      StartFromZero(c.rate, c.idx);
      SlotSpacing(c.rate, c.idx);
      Adjoint(c.rate, c.idx, Ticks(at));
      Adjoint(c.rate, c.idx + 1, Ticks(at));
      DeadlinePollsMissNothing(next, n - 1, at);
      assert After(c, events[0]) == next;
    }
  }

  // ----- how far a rate change can push the next slot -----

  /** Ticks per slot lost to rounding when a timestamp is divided by the truncated interval. */
  function Slack(rate: Rate, m: nat): int
    requires rate.Valid()
  {
    m * (rate.Span() % rate.num) / rate.num
  }

  lemma StartSplit(rate: Rate, m: nat)
    requires rate.Valid()
    ensures rate.Start(m) == m * rate.IntervalTicks() + Slack(rate, m)
  {
    StartForm(rate, m);
    var (i, rem) := (rate.IntervalTicks(), rate.Span() % rate.num);
    assert rate.Span() == i * rate.num + rem;
    assert m * (i * rate.num + rem) == m * rem + (m * i) * rate.num;
    DivShift(m * rem, rate.num, m * i);
  }

  /** After leaving timestamp `last` the next slot starts by `now`, or one interval and the slack past `last`. */
  lemma RateChangeBound(c: Cursor, now: int, rate: Rate)
    requires c.rate.Valid() && rate.Valid() && c.rate != rate && 0 < c.idx && 0 <= now
    ensures
      var last := c.rate.Start(c.idx - 1);
      var m := FirstSlotPast(rate, last);
      rate.Start(Retimed(c, now, rate).idx) <=
      Max(Ticks(now), last + rate.IntervalTicks() + Slack(rate, m))
  {
    var last := c.rate.Start(c.idx - 1);
    var m := FirstSlotPast(rate, last);
    StartFromZero(c.rate, c.idx - 1);
    Adjoint(rate, rate.SlotAt(Ticks(now)), Ticks(now));
    StartSplit(rate, m);
    SlotSpacing(rate, 0);
    DivAtLeast(last, rate.IntervalTicks(), last / rate.IntervalTicks());
    assert m * rate.IntervalTicks() == last / rate.IntervalTicks() * rate.IntervalTicks() + rate.IntervalTicks();
  }

  /** Rates whose period is a whole number of ticks resume within one period. */
  lemma WholePeriodsResumeInOnePeriod(c: Cursor, now: int, rate: Rate)
    requires c.rate.Valid() && rate.Valid() && c.rate != rate && 0 < c.idx && 0 <= now
    requires c.rate.Start(c.idx - 1) <= Ticks(now) && rate.Span() % rate.num == 0
    ensures rate.Start(Retimed(c, now, rate).idx) <= Ticks(now) + rate.IntervalTicks()
  {
    RateChangeBound(c, now, rate);
    var m := FirstSlotPast(rate, c.rate.Start(c.idx - 1));
    assert m * 0 == 0;
    DivAtMost(0, rate.num, 0);
    SlotSpacing(rate, 0);
  }

  /** For any lead time, the exact condition under which the next slot comes within it. */
  lemma NextSlotWithinIff(c: Cursor, now: int, rate: Rate, lead: nat)
    requires c.rate.Valid() && rate.Valid() && c.rate != rate && 0 < c.idx && 0 <= now
    ensures rate.Start(Retimed(c, now, rate).idx) <= Ticks(now) + lead <==>
            FirstSlotPast(rate, c.rate.Start(c.idx - 1)) <= rate.SlotAt(Ticks(now) + lead)
  {
    Adjoint(rate, Retimed(c, now, rate).idx, Ticks(now) + lead);
    SlotMonotone(rate, Ticks(now), Ticks(now) + lead);
  }

  /**
   The "within two frames" promise fails on long sessions: after 24 hours at 50 fps, a change to
   59.94 fps leaves more than ten frame periods without a slot.
   */
  lemma LongSessionStallsOnRateChange()
    ensures
      var (fifty, ntsc) := (Rate(50, 1), Rate(60_000, 1_001));
      var c := Cursor(fifty, 24 * 3600 * 50 + 1);
      Polled(Cursor(fifty, 0), 24 * 3600 * 1_000_000_000).0 == c &&
      fifty.Start(c.idx - 1) == 24 * 3600 * TICKS_PER_SEC &&
      ntsc.Start(Retimed(c, 24 * 3600 * 1_000_000_000, ntsc).idx) >
      24 * 3600 * TICKS_PER_SEC + 10 * ntsc.IntervalTicks()
  {
    var (fifty, ntsc) := (Rate(50, 1), Rate(60_000, 1_001));
    assert fifty.SlotAt(864_000_000_000) == 4_320_000;
    assert fifty.Start(4_320_000) == 864_000_000_000 && ntsc.IntervalTicks() == 166_833;
    assert FirstSlotPast(ntsc, 864_000_000_000) == 5_178_832;
    assert ntsc.Start(5_178_832) == 864_001_805_333;
    assert ntsc.SlotAt(864_000_000_000) == 5_178_821;
  }
}
