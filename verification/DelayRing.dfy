/**
 The frame delay in front of the displays (mixer/src/delay.rs).

 A picture is an identity. `UnitRing` and `DelayState` are values, as the struct is stored by value
 in the map of units; `FrameDelay` is the mutable object.
 */
module DelayRing {
  import opened Arithmetic
  import opened Common

  type UnitId = nat

  const EPOCH_MODULUS: int := 0x1_0000_0000_0000_0000

  /** Pictures of a unit as the composer has them now. */
  datatype Source = Source(width: nat, height: nat, picture: nat)

  datatype Slot = Slot(picture: nat, pts: int)

  datatype UnitRing = UnitRing(
    slots: seq<Slot>, write: nat, read: nat, queued: nat, width: nat, height: nat, depth: nat)
  {
    /** Every reachable ring: one slot more than the depth, and `write` follows the queue. */
    ghost predicate Valid() {
      && 1 <= depth && |slots| == depth + 1
      && read < |slots| && queued <= depth
      && write == Place(queued)
    }

    /** The queued frames, oldest first. */
    ghost function Queue(): seq<Slot>
      requires Valid()
    {
      seq(queued, i requires 0 <= i < queued => At(i))
    }

    /** The index of the `i`-th slot from the read position on, around the end. */
    function Place(i: nat): (k: nat)
      requires read < |slots| && i <= |slots|
      ensures k < |slots| && k == (read + i) % |slots|
    {
      Wrap(read + i, |slots|);
      if read + i < |slots| then read + i else read + i - |slots|
    }

    function At(i: nat): Slot
      requires read < |slots| && i <= |slots|
    {
      slots[Place(i)]
    }

    function DisplaySlot(): Option<Slot>
      requires read < |slots|
    {
      if queued == 0 then None else Some(slots[read])
    }
  }

  // ----- one ring refines a bounded queue -----

  /** The body of `capture` for one ring. */
  function Captured(r: UnitRing, frame: Slot): UnitRing
    requires |r.slots| != 0 && r.write < |r.slots|
  {
    var cap := |r.slots|;
    if r.queued >= cap - 1 then r
    else r.(slots := r.slots[r.write := frame], write := (r.write + 1) % cap, queued := Min(r.queued + 1, cap - 1))
  }

  /** The body of `consume_display` for one ring. */
  function Consumed(r: UnitRing, drain: bool): UnitRing
    requires |r.slots| != 0
  {
    if r.queued == 0 then r
    else if r.queued >= r.depth || (drain && r.queued > 1) then
      r.(read := (r.read + 1) % |r.slots|, queued := r.queued - 1)
    else r
  }

  function Discarded(r: UnitRing): UnitRing {
    if r.queued == 0 then r else r.(write := 0, read := 0, queued := 0)
  }

  lemma Wrap(a: nat, n: nat)
    requires 0 < n && a < 2 * n
    ensures a % n == if a < n then a else a - n
  {
    if n <= a {
      DivShift(a - n, n, 1);
    }
  }

  /** A capture appends to the queue, or is dropped when `depth` frames wait. */
  lemma CaptureRefines(r: UnitRing, frame: Slot)
    requires r.Valid()
    ensures Captured(r, frame).Valid()
    ensures Captured(r, frame).Queue() == if |r.Queue()| >= r.depth then r.Queue() else r.Queue() + [frame]
  {
    if r.queued < r.depth {
      PushRefines(r, frame);
    }
  }

  lemma PushRefines(r: UnitRing, frame: Slot)
    requires r.Valid() && r.queued < r.depth
    ensures
      var q := r.(slots := r.slots[r.write := frame], write := (r.write + 1) % |r.slots|, queued := r.queued + 1);
      q.Valid() && q.Queue() == r.Queue() + [frame]
  {
    var n := |r.slots|;
    var q := r.(slots := r.slots[r.write := frame], write := (r.write + 1) % n, queued := r.queued + 1);
    Wrap(r.read + r.queued, n);
    Wrap(r.write + 1, n);
    Wrap(r.read + r.queued + 1, n);
    var longer := r.Queue() + [frame];
    forall i | 0 <= i <= r.queued
      ensures q.At(i) == longer[i]
    {
      Wrap(r.read + i, n);
    }
    assert forall i :: 0 <= i < |longer| ==> q.Queue()[i] == q.At(i);
  }

  /** A consume removes the oldest frame when the queue is full, or when draining one of several. */
  lemma ConsumeRefines(r: UnitRing, drain: bool)
    requires r.Valid()
    ensures Consumed(r, drain).Valid()
    ensures
      var queue := r.Queue();
      Consumed(r, drain).Queue() ==
        if |queue| >= r.depth || (drain && |queue| > 1) then queue[1..] else queue
  {
    if r.queued != 0 && (r.queued >= r.depth || (drain && r.queued > 1)) {
      PopRefines(r);
    }
  }

  lemma PopRefines(r: UnitRing)
    requires r.Valid() && 0 < r.queued
    ensures
      var q := r.(read := (r.read + 1) % |r.slots|, queued := r.queued - 1);
      q.Valid() && q.Queue() == r.Queue()[1..]
  {
    var n := |r.slots|;
    var q := r.(read := (r.read + 1) % n, queued := r.queued - 1);
    Wrap(r.read + 1, n);
    Wrap(r.read + r.queued, n);
    Wrap(q.read + q.queued, n);
    forall i | 0 <= i < q.queued
      ensures q.At(i) == r.At(i + 1)
    {
      Wrap(q.read + i, n);
      Wrap(r.read + i + 1, n);
    }
    var rest := r.Queue()[1..];
    forall i | 0 <= i < |rest|
      ensures q.Queue()[i] == rest[i]
    {
      assert rest[i] == r.At(i + 1);
    }
  }

  lemma DiscardRefines(r: UnitRing)
    requires r.Valid()
    ensures Discarded(r).Valid() && Discarded(r).Queue() == []
  {
  }

  /** What is shown is the oldest queued frame. */
  lemma DisplayIsOldest(r: UnitRing)
    requires r.Valid()
    ensures r.DisplaySlot() == if r.Queue() == [] then None else Some(r.Queue()[0])
  {
    if r.queued != 0 {
      Wrap(r.read, |r.slots|);
      assert r.Queue()[0] == r.slots[r.read];
    }
  }

  /** A capture writes neither the slot on display nor the one that was on display before the last consume. */
  lemma CaptureSparesShownSlots(r: UnitRing)
    requires r.Valid() && r.queued < r.depth
    ensures 0 < r.queued ==> r.write != r.read
    ensures r.write != (r.read + r.depth) % |r.slots|
  {
    Wrap(r.read + r.queued, |r.slots|);
    Wrap(r.read + r.depth, |r.slots|);
  }

  /** The slot that a consume leaves is the one `CaptureSparesShownSlots` protects. */
  lemma ConsumeLeavesSlotBehind(r: UnitRing, drain: bool)
    requires r.Valid()
    ensures
      var q := Consumed(r, drain);
      q != r ==> (q.read + q.depth) % |q.slots| == r.read
  {
    var q := Consumed(r, drain);
    if q != r {
      Wrap(r.read + 1, |r.slots|);
      Wrap(q.read + q.depth, |r.slots|);
    }
  }

  // ----- operations -----

  datatype Op = Capture(frame: Slot) | Consume(drain: bool) | Discard

  /** The bounded queue that a ring stands for. */
  function Queued(queue: seq<Slot>, depth: nat, op: Op): seq<Slot> {
    match op
    case Capture(frame) => if |queue| >= depth then queue else queue + [frame]
    case Consume(drain) =>
      if |queue| != 0 && (|queue| >= depth || (drain && |queue| > 1)) then queue[1..] else queue
    case Discard => []
  }

  function Applied(r: UnitRing, op: Op): (q: UnitRing)
    requires r.Valid()
    ensures q.Valid() && q.depth == r.depth
  {
    AppliedRefines(r, op);
    match op
    case Capture(frame) => Captured(r, frame)
    case Consume(drain) => Consumed(r, drain)
    case Discard => Discarded(r)
  }

  lemma AppliedRefines(r: UnitRing, op: Op)
    requires r.Valid()
    ensures
      var q := match op
        case Capture(frame) => Captured(r, frame)
        case Consume(drain) => Consumed(r, drain)
        case Discard => Discarded(r);
      q.Valid() && q.depth == r.depth && q.Queue() == Queued(r.Queue(), r.depth, op)
  {
    match op
    case Capture(frame) => CaptureRefines(r, frame);
    case Consume(drain) => ConsumeRefines(r, drain);
    case Discard => DiscardRefines(r);
  }

  // ----- captures between two consumes -----

  /** The frames captured one after the other, with no consume between them. */
  function CapturedAll(r: UnitRing, frames: seq<Slot>): (q: UnitRing)
    requires r.Valid()
    ensures q.Valid() && q.depth == r.depth && |q.slots| == |r.slots| && q.read == r.read && q.queued >= r.queued
  {
    if |frames| == 0 then r
    else Applied(CapturedAll(r, frames[..|frames| - 1]), Capture(frames[|frames| - 1]))
  }

  /** However many frames are captured, the slot on display and the one `depth` places after it stay as they are. */
  lemma {:induction false} CapturesSpareShownSlots(r: UnitRing, frames: seq<Slot>)
    requires r.Valid()
    ensures
      var q := CapturedAll(r, frames);
      && (0 < r.queued ==> q.slots[r.read] == r.slots[r.read] && q.DisplaySlot() == r.DisplaySlot())
      && q.slots[(r.read + r.depth) % |r.slots|] == r.slots[(r.read + r.depth) % |r.slots|]
  {
    if |frames| != 0 {
      CapturesSpareShownSlots(r, frames[..|frames| - 1]);
      var before := CapturedAll(r, frames[..|frames| - 1]);
      if before.queued < before.depth {
        CaptureSparesShownSlots(before);
      }
    }
  }

  /**
   The slot that was on display when a consume took effect keeps its picture until the next consume: no
   sequence of captures writes it, and none changes what is displayed.
   */
  lemma ConsumedSlotSurvives(r: UnitRing, drain: bool, frames: seq<Slot>)
    requires r.Valid() && Consumed(r, drain) != r
    ensures
      var shown := Applied(r, Consume(drain));
      var q := CapturedAll(shown, frames);
      && Some(q.slots[r.read]) == r.DisplaySlot()
      && (r.queued > 1 ==> q.DisplaySlot() == shown.DisplaySlot())
  {
    var shown := Applied(r, Consume(drain));
    ConsumeLeavesSlotBehind(r, drain);
    assert shown.slots == r.slots && shown.queued == r.queued - 1;
    CapturesSpareShownSlots(shown, frames);
  }

  // ----- the steady loop: show, consume, capture -----

  /** The last `k` frames, or all of them. */
  function Last(frames: seq<Slot>, k: nat): seq<Slot> {
    frames[Max(|frames| - k, 0)..]
  }

  lemma LastAppend(frames: seq<Slot>, frame: Slot, k: nat)
    ensures Last(frames, k) + [frame] == Last(frames + [frame], k + 1)
    ensures |frames| >= k ==> Last(frames + [frame], k + 1)[1..] == Last(frames + [frame], k)
    ensures |frames| < k ==> Last(frames + [frame], k + 1) == Last(frames + [frame], k)
    ensures |Last(frames, k)| == Min(|frames|, k)
  {
  }

  /** One round of the loop on a queue that holds the last `depth - 1` frames. */
  lemma SteadyStep(frames: seq<Slot>, frame: Slot, depth: nat)
    requires 1 <= depth
    ensures
      var filled := Queued(Last(frames, depth - 1), depth, Capture(frame));
      && filled == Last(frames + [frame], depth)
      && Queued(filled, depth, Consume(false)) == Last(frames + [frame], depth - 1)
  {
    LastAppend(frames, frame, depth - 1);
    LastAppend(frames, frame, depth);
  }

  // ----- runs -----

  function RunQueue(depth: nat, ops: seq<Op>): seq<Slot> {
    if |ops| == 0 then [] else Queued(RunQueue(depth, ops[..|ops| - 1]), depth, ops[|ops| - 1])
  }

  function RunRing(r: UnitRing, ops: seq<Op>): (q: UnitRing)
    requires r.Valid()
    ensures q.Valid() && q.depth == r.depth
  {
    if |ops| == 0 then r else Applied(RunRing(r, ops[..|ops| - 1]), ops[|ops| - 1])
  }

  /** Over every run the ring is the bounded queue, never longer than the depth, and shows its head. */
  lemma {:induction false} RunRefines(r: UnitRing, ops: seq<Op>)
    requires r.Valid() && r.queued == 0
    ensures RunRing(r, ops).Queue() == RunQueue(r.depth, ops)
    ensures |RunQueue(r.depth, ops)| <= r.depth
    ensures RunRing(r, ops).DisplaySlot() ==
            if RunQueue(r.depth, ops) == [] then None else Some(RunQueue(r.depth, ops)[0])
  {
    if |ops| != 0 {
      RunRefines(r, ops[..|ops| - 1]);
      AppliedRefines(RunRing(r, ops[..|ops| - 1]), ops[|ops| - 1]);
    }
    DisplayIsOldest(RunRing(r, ops));
  }

  /** Each of the frames captured, and each capture followed by one consume that does not drain. */
  function Cycle(frames: seq<Slot>): seq<Op> {
    if |frames| == 0 then [] else Cycle(frames[..|frames| - 1]) + [Capture(frames[|frames| - 1]), Consume(false)]
  }

  lemma RunQueuePush(depth: nat, ops: seq<Op>, op: Op)
    ensures RunQueue(depth, ops + [op]) == Queued(RunQueue(depth, ops), depth, op)
  {
    assert (ops + [op])[..|ops|] == ops;
  }

  /** No capture of the loop is dropped, and after its consume the last `depth - 1` frames wait. */
  lemma {:induction false} SteadyQueue(depth: nat, frames: seq<Slot>)
    requires 1 <= depth
    ensures RunQueue(depth, Cycle(frames)) == Last(frames, depth - 1)
    decreases |frames|
  {
    if |frames| != 0 {
      var (before, last) := (frames[..|frames| - 1], frames[|frames| - 1]);
      SteadyQueue(depth, before);
      SteadyStep(before, last, depth);
      RunQueuePush(depth, Cycle(before), Capture(last));
      RunQueuePush(depth, Cycle(before) + [Capture(last)], Consume(false));
      assert Cycle(frames) == Cycle(before) + [Capture(last)] + [Consume(false)];
      assert frames == before + [last];
    }
  }

  /**
   A fixed delay: once `depth - 1` frames were captured, the frame shown after a capture is the one
   captured exactly `depth - 1` captures earlier. Until then it is the first frame.
   */
  lemma FixedDelay(r: UnitRing, frames: seq<Slot>, frame: Slot)
    requires r.Valid() && r.queued == 0
    ensures RunRing(r, Cycle(frames) + [Capture(frame)]).DisplaySlot() ==
            Some((frames + [frame])[Max(|frames| - (r.depth - 1), 0)])
  {
    SteadyQueue(r.depth, frames);
    SteadyStep(frames, frame, r.depth);
    RunQueuePush(r.depth, Cycle(frames), Capture(frame));
    RunRefines(r, Cycle(frames) + [Capture(frame)]);
  }

  // ----- the map of units -----

  datatype DelayState = DelayState(depth: nat, units: map<UnitId, UnitRing>, epoch: nat) {
    ghost predicate Valid() {
      1 <= depth <= 8 && epoch < EPOCH_MODULUS &&
      forall u :: u in units ==> units[u].Valid() && units[u].depth == depth
    }

    function Bumped(): DelayState {
      this.(epoch := (epoch + 1) % EPOCH_MODULUS)
    }
  }

  function EmptyRing(depth: nat, src: Source): (ring: UnitRing)
    ensures 1 <= depth ==> ring.Valid() && ring.queued == 0
  {
    UnitRing(seq(depth + 1, _ => Slot(0, 0)), 0, 0, 0, src.width, src.height, depth)
  }

  /** The unit has a ring for pictures of this size. */
  predicate HasRing(s: DelayState, id: UnitId, src: Source) {
    id in s.units && s.units[id].width == src.width && s.units[id].height == src.height &&
    s.units[id].depth == s.depth && |s.units[id].slots| == s.depth + 1
  }

  /** The ring that pictures of this size go to: the unit's own if it fits, otherwise an empty one. */
  function RingFor(s: DelayState, id: UnitId, src: Source): (ring: UnitRing)
    requires s.Valid()
    ensures ring.Valid() && ring.depth == s.depth && ring.width == src.width && ring.height == src.height
  {
    if HasRing(s, id, src) then s.units[id] else EmptyRing(s.depth, src)
  }

  /** `ensure_unit` */
  function Ensured(s: DelayState, id: UnitId, src: Source): DelayState {
    if HasRing(s, id, src) then s else s.(units := s.units[id := EmptyRing(s.depth, src)]).Bumped()
  }

  function CaptureUnit(s: DelayState, id: UnitId, composer: map<UnitId, Source>, pts: int): (q: DelayState)
    requires s.Valid()
    ensures q.Valid() && q.depth == s.depth
  {
    if id !in composer then s
    else
      var e := Ensured(s, id, composer[id]);
      var ring := e.units[id];
      CaptureRefines(ring, Slot(composer[id].picture, pts));
      if ring.queued >= |ring.slots| - 1 then e
      else e.(units := e.units[id := Captured(ring, Slot(composer[id].picture, pts))]).Bumped()
  }

  function CaptureUnits(s: DelayState, ids: seq<UnitId>, composer: map<UnitId, Source>, pts: int): (q: DelayState)
    requires s.Valid()
    ensures q.Valid() && q.depth == s.depth
  {
    if |ids| == 0 then s
    else CaptureUnit(CaptureUnits(s, ids[..|ids| - 1], composer, pts), ids[|ids| - 1], composer, pts)
  }

  // ----- what a capture does to each unit -----

  /** The same frame captured `n` times. */
  function CapturedTimes(r: UnitRing, frame: Slot, n: nat): (q: UnitRing)
    requires r.Valid()
    ensures q.Valid() && q.depth == r.depth && q.width == r.width && q.height == r.height
    ensures q.queued == Min(r.queued + n, r.depth)
  {
    if n == 0 then r else Applied(CapturedTimes(r, frame, n - 1), Capture(frame))
  }

  /** The epoch after `n` changes. */
  function EpochAfter(epoch: nat, n: nat): nat {
    if n == 0 then epoch else (EpochAfter(epoch, n - 1) + 1) % EPOCH_MODULUS
  }

  /** How often the epoch moves when `id`, captured `k` times since `s`, is captured once more. */
  function MovesAt(s: DelayState, id: UnitId, k: nat, composer: map<UnitId, Source>): nat
    requires s.Valid()
  {
    if id !in composer then 0
    else
      (if k == 0 && !HasRing(s, id, composer[id]) then 1 else 0) +
      (if RingFor(s, id, composer[id]).queued + k < s.depth then 1 else 0)
  }

  /** One move for each ring that is replaced and one for each frame that is not dropped. */
  function Moves(s: DelayState, ids: seq<UnitId>, composer: map<UnitId, Source>): nat
    requires s.Valid()
  {
    if |ids| == 0 then 0
    else
      var (front, id) := (ids[..|ids| - 1], ids[|ids| - 1]);
      Moves(s, front, composer) + MovesAt(s, id, multiset(front)[id], composer)
  }

  /** `q` has for `u` what `s` has for it. */
  ghost predicate SameRing(s: DelayState, q: DelayState, u: UnitId) {
    if u in s.units then u in q.units && q.units[u] == s.units[u] else u !in q.units
  }

  /** What `n` captures of the composer's picture leave for unit `u`. */
  ghost predicate RingAfter(s: DelayState, q: DelayState, u: UnitId, n: nat, composer: map<UnitId, Source>, pts: int)
    requires s.Valid()
  {
    if n == 0 || u !in composer then SameRing(s, q, u)
    else
      u in q.units && q.units[u] == CapturedTimes(RingFor(s, u, composer[u]), Slot(composer[u].picture, pts), n)
  }

  /** The ring of the unit takes the frame. */
  lemma CaptureUnitRings(s: DelayState, id: UnitId, composer: map<UnitId, Source>, pts: int)
    requires s.Valid() && id in composer
    ensures
      var q := CaptureUnit(s, id, composer, pts);
      && id in q.units
      && q.units[id] == Applied(RingFor(s, id, composer[id]), Capture(Slot(composer[id].picture, pts)))
  {
  }

  lemma CaptureUnitSpares(s: DelayState, id: UnitId, composer: map<UnitId, Source>, pts: int, u: UnitId)
    requires s.Valid() && u != id
    ensures SameRing(s, CaptureUnit(s, id, composer, pts), u)
  {
  }

  lemma CaptureUnitMoves(s: DelayState, id: UnitId, composer: map<UnitId, Source>, pts: int)
    requires s.Valid()
    ensures CaptureUnit(s, id, composer, pts).epoch == EpochAfter(s.epoch, MovesAt(s, id, 0, composer))
  {
    var once := EpochAfter(s.epoch, 1);
    assert EpochAfter(s.epoch, 0) == s.epoch;
    assert once == (s.epoch + 1) % EPOCH_MODULUS;
    assert EpochAfter(s.epoch, 2) == (once + 1) % EPOCH_MODULUS;
  }

  /** What `RingAfter` tells about the ring that the next capture goes to. */
  lemma RingForAfter(s: DelayState, q: DelayState, id: UnitId, k: nat, composer: map<UnitId, Source>, pts: int)
    requires s.Valid() && q.Valid() && q.depth == s.depth && RingAfter(s, q, id, k, composer, pts)
    requires id in composer
    ensures
      && RingFor(q, id, composer[id]) ==
         CapturedTimes(RingFor(s, id, composer[id]), Slot(composer[id].picture, pts), k)
      && (HasRing(q, id, composer[id]) <==> k != 0 || HasRing(s, id, composer[id]))
  {
  }

  /** One more capture of `id` moves its own ring on by one frame, and the epoch as `MovesAt` says. */
  lemma CaptureUnitStep(s: DelayState, q: DelayState, id: UnitId, k: nat, composer: map<UnitId, Source>, pts: int)
    requires s.Valid() && q.Valid() && q.depth == s.depth && RingAfter(s, q, id, k, composer, pts)
    ensures RingAfter(s, CaptureUnit(q, id, composer, pts), id, k + 1, composer, pts)
    ensures MovesAt(q, id, 0, composer) == MovesAt(s, id, k, composer)
  {
    if id in composer {
      CaptureUnitRings(q, id, composer, pts);
      RingForAfter(s, q, id, k, composer, pts);
    }
  }

  lemma RingAfterStep(
      s: DelayState, q: DelayState, id: UnitId, composer: map<UnitId, Source>, pts: int, u: UnitId, k: nat)
    requires s.Valid() && q.Valid() && q.depth == s.depth && RingAfter(s, q, u, k, composer, pts)
    ensures RingAfter(s, CaptureUnit(q, id, composer, pts), u, if u == id then k + 1 else k, composer, pts)
  {
    if u == id {
      CaptureUnitStep(s, q, id, k, composer, pts);
    } else {
      CaptureUnitSpares(q, id, composer, pts, u);
    }
  }

  /**
   A capture of any list of ids: a unit that is not listed or not composed keeps its ring; any other unit
   has captured its picture once for each time it is listed, into the ring it had or a new one.
   */
  lemma {:induction false} CaptureUnitsEach(
      s: DelayState, ids: seq<UnitId>, composer: map<UnitId, Source>, pts: int, u: UnitId)
    requires s.Valid()
    ensures RingAfter(s, CaptureUnits(s, ids, composer, pts), u, multiset(ids)[u], composer, pts)
  {
    if |ids| != 0 {
      var (front, id) := (ids[..|ids| - 1], ids[|ids| - 1]);
      CaptureUnitsEach(s, front, composer, pts, u);
      var k := multiset(front)[u];
      assert multiset(ids)[u] == if u == id then k + 1 else k by {
        assert ids == front + [id];
      }
      RingAfterStep(s, CaptureUnits(s, front, composer, pts), id, composer, pts, u, k);
    }
  }

  lemma CaptureUnitMovesOn(
      s: DelayState, q: DelayState, id: UnitId, k: nat, composer: map<UnitId, Source>, pts: int, moves: nat)
    requires s.Valid() && q.Valid() && q.depth == s.depth && RingAfter(s, q, id, k, composer, pts)
    requires q.epoch == EpochAfter(s.epoch, moves)
    ensures CaptureUnit(q, id, composer, pts).epoch == EpochAfter(s.epoch, moves + MovesAt(s, id, k, composer))
  {
    var now := MovesAt(s, id, k, composer);
    CaptureUnitMoves(q, id, composer, pts);
    CaptureUnitStep(s, q, id, k, composer, pts);
    EpochAdds(s.epoch, moves, now);
  }

  /** The epoch counts every ring replaced and every frame taken, as they can be told from the state before. */
  lemma {:induction false} CaptureUnitsMoves(
      s: DelayState, ids: seq<UnitId>, composer: map<UnitId, Source>, pts: int)
    requires s.Valid()
    ensures CaptureUnits(s, ids, composer, pts).epoch == EpochAfter(s.epoch, Moves(s, ids, composer))
  {
    if |ids| != 0 {
      var (front, id) := (ids[..|ids| - 1], ids[|ids| - 1]);
      var (q, k) := (CaptureUnits(s, front, composer, pts), multiset(front)[id]);
      CaptureUnitsMoves(s, front, composer, pts);
      CaptureUnitsEach(s, front, composer, pts, id);
      var moves := Moves(s, front, composer);
      CaptureUnitMovesOn(s, q, id, k, composer, pts, moves);
      assert CaptureUnits(s, ids, composer, pts) == CaptureUnit(q, id, composer, pts);
      assert Moves(s, ids, composer) == moves + MovesAt(s, id, k, composer);
    }
  }

  /** All units and the epoch at once. */
  ghost predicate CapturedEach(
      s: DelayState, q: DelayState, ids: seq<UnitId>, composer: map<UnitId, Source>, pts: int)
    requires s.Valid()
  {
    && (forall u :: RingAfter(s, q, u, multiset(ids)[u], composer, pts))
    && q.epoch == (s.epoch + Moves(s, ids, composer)) % EPOCH_MODULUS
    && q.depth == s.depth
  }

  lemma CaptureUnitsAll(s: DelayState, ids: seq<UnitId>, composer: map<UnitId, Source>, pts: int)
    requires s.Valid()
    ensures CapturedEach(s, CaptureUnits(s, ids, composer, pts), ids, composer, pts)
  {
    CaptureUnitsMoves(s, ids, composer, pts);
    EpochIsSum(s.epoch, Moves(s, ids, composer));
    forall u {
      CaptureUnitsEach(s, ids, composer, pts, u);
    }
  }

  /** With no id listed twice, each listed unit that is composed takes exactly one step of `RunRing`. */
  lemma CaptureOnce(s: DelayState, ids: seq<UnitId>, composer: map<UnitId, Source>, pts: int, u: UnitId)
    requires s.Valid() && NoDuplicates(ids)
    ensures
      var q := CaptureUnits(s, ids, composer, pts);
      if u in ids && u in composer then
        u in q.units &&
        q.units[u] == RunRing(RingFor(s, u, composer[u]), [Capture(Slot(composer[u].picture, pts))])
      else SameRing(s, q, u)
  {
    CaptureUnitsEach(s, ids, composer, pts, u);
    if u in ids && u in composer {
      CountOnce(ids, u);
      var (ring, ops) := (RingFor(s, u, composer[u]), [Capture(Slot(composer[u].picture, pts))]);
      assert CapturedTimes(ring, Slot(composer[u].picture, pts), 0) == ring == RunRing(ring, ops[..0]);
    }
  }

  lemma CountOnce(ids: seq<UnitId>, u: UnitId)
    requires NoDuplicates(ids) && u in ids
    ensures multiset(ids)[u] == 1
  {
    var i :| 0 <= i < |ids| && ids[i] == u;
    assert ids == ids[..i] + [u] + ids[i + 1..];
    assert u !in ids[..i] && u !in ids[i + 1..];
  }

  lemma {:induction false} EpochAdds(epoch: nat, a: nat, b: nat)
    ensures EpochAfter(EpochAfter(epoch, a), b) == EpochAfter(epoch, a + b)
  {
    if b != 0 {
      EpochAdds(epoch, a, b - 1);
    }
  }

  lemma {:induction false} EpochIsSum(epoch: nat, n: nat)
    requires epoch < EPOCH_MODULUS
    ensures EpochAfter(epoch, n) == (epoch + n) % EPOCH_MODULUS
  {
    if n != 0 {
      EpochIsSum(epoch, n - 1);
      var (e, q) := (EpochAfter(epoch, n - 1), (epoch + n - 1) / EPOCH_MODULUS);
      assert epoch + n == e + 1 + q * EPOCH_MODULUS;
      DivShift(e + 1, EPOCH_MODULUS, q);
    }
  }

  class FrameDelay {
    var depth: nat
    var units: map<UnitId, UnitRing>
    var epoch: nat

    constructor (depth: nat)
      ensures View().Valid() && View() == DelayState(Max(1, Min(depth, 8)), map[], 1)
    {
      this.depth := Max(1, Min(depth, 8));
      units := map[];
      epoch := 1;
    }

    ghost function View(): DelayState
      reads this
    {
      DelayState(depth, units, epoch)
    }

    method SetDepth(depth: nat)
      requires View().Valid()
      modifies this
      ensures View().Valid()
      ensures
        var d := Max(1, Min(depth, 8));
        if d == old(this.depth) then View() == old(View())
        else this.depth == d && units == map[] && epoch == (old(epoch) + 1) % 0x1_0000_0000_0000_0000
    {
      var d := Max(1, Min(depth, 8));
      if d == this.depth {
        return;
      }
      this.depth := d;
      units := map[];
      epoch := (epoch + 1) % EPOCH_MODULUS;
    }

    /** Empties the queues of the named units, leaves the others, and counts a change only if there was one. */
    method Discard(ids: seq<UnitId>)
      requires View().Valid()
      modifies this
      ensures View().Valid() && depth == old(depth)
      ensures units.Keys == old(units).Keys
      ensures forall u :: u in units ==>
        units[u] == if u in ids then Discarded(old(units)[u]) else old(units)[u]
      ensures epoch == if units == old(units) then old(epoch) else (old(epoch) + 1) % 0x1_0000_0000_0000_0000
    {
      var changed := false;
      for i := 0 to |ids|
        invariant View().Valid() && depth == old(depth) && epoch == old(epoch)
        invariant units.Keys == old(units).Keys
        invariant forall u :: u in units ==>
          units[u] == if u in ids[..i] then Discarded(old(units)[u]) else old(units)[u]
        invariant changed <==> units != old(units)
      {
        assert ids[..i + 1] == ids[..i] + [ids[i]];
        var emptied := DiscardOne(ids[i]);
        changed := changed || emptied;
      }
      assert ids[..|ids|] == ids;
      if changed {
        epoch := (epoch + 1) % EPOCH_MODULUS;
      }
    }

    /** The loop body of `discard`. */
    method DiscardOne(id: UnitId) returns (changed: bool)
      requires View().Valid()
      modifies this`units
      ensures View().Valid() && units.Keys == old(units).Keys
      ensures forall u :: u in units ==> units[u] == if u == id then Discarded(old(units)[u]) else old(units)[u]
      ensures changed <==> id in old(units) && old(units)[id].queued != 0
      ensures changed ==> units[id].queued == 0
    {
      if id !in units || units[id].queued == 0 {
        return false;
      }
      DiscardRefines(units[id]);
      units := units[id := units[id].(write := 0, read := 0, queued := 0)];
      changed := true;
    }

    method Capture(composer: map<UnitId, Source>, ids: seq<UnitId>, pts: int)
      requires View().Valid()
      modifies this
      ensures View() == CaptureUnits(old(View()), ids, composer, pts) && View().Valid()
      ensures CapturedEach(old(View()), View(), ids, composer, pts)
    {
      for i := 0 to |ids|
        invariant View().Valid()
        invariant View() == CaptureUnits(old(View()), ids[..i], composer, pts)
      {
        assert ids[..i + 1][..i] == ids[..i];
        CaptureOne(composer, ids[i], pts);
      }
      assert ids[..|ids|] == ids;
      CaptureUnitsAll(old(View()), ids, composer, pts);
    }

    /** The loop body of `capture`. */
    method CaptureOne(composer: map<UnitId, Source>, id: UnitId, pts: int)
      requires View().Valid()
      modifies this
      ensures View() == CaptureUnit(old(View()), id, composer, pts) && View().Valid()
    {
      if id !in composer {
        return;
      }
      var src := composer[id];
      EnsureUnit(id, src);
      PushFrame(id, src.picture, pts);
    }

    /** The part of the loop body after `ensure_unit`. */
    method PushFrame(id: UnitId, picture: nat, pts: int)
      requires View().Valid() && id in units
      modifies this
      ensures
        var ring := old(units)[id];
        if ring.queued >= |ring.slots| - 1 then View() == old(View())
        else View() == old(View()).(units := old(units)[id := Captured(ring, Slot(picture, pts))]).Bumped()
    {
      var ring := units[id];
      var cap := |ring.slots|;
      if ring.queued >= cap - 1 {
        return;
      }
      ring := ring.(slots := ring.slots[ring.write := Slot(picture, pts)]);
      ring := ring.(write := (ring.write + 1) % cap);
      ring := ring.(queued := Min(ring.queued + 1, cap - 1));
      units := units[id := ring];
      epoch := (epoch + 1) % EPOCH_MODULUS;
    }

    method EnsureUnit(id: UnitId, src: Source)
      requires View().Valid()
      modifies this
      ensures View() == Ensured(old(View()), id, src) && View().Valid()
      ensures depth == old(depth)
      ensures HasRing(View(), id, src) && units[id] == RingFor(old(View()), id, src)
      ensures if id in old(units) && old(units)[id].width == src.width && old(units)[id].height == src.height
              then units == old(units) && epoch == old(epoch)
              else units[id].queued == 0 && units[id].width == src.width && units[id].height == src.height
      ensures units.Keys == old(units).Keys + {id}
      ensures forall u :: u in old(units) && u != id ==> units[u] == old(units)[u]
      ensures epoch == if HasRing(old(View()), id, src) then old(epoch) else (old(epoch) + 1) % EPOCH_MODULUS
    {
      var cap := depth + 1;
      var recreate := id !in units || units[id].width != src.width || units[id].height != src.height ||
                      units[id].depth != depth || |units[id].slots| != cap;
      if recreate {
        units := units[id := EmptyRing(depth, src)];
        epoch := (epoch + 1) % EPOCH_MODULUS;
      }
    }

    /** Every ring consumes once, in whatever order the map yields them. */
    method ConsumeDisplay(drain: bool)
      requires View().Valid()
      modifies this
      ensures View().Valid() && depth == old(depth) && epoch == old(epoch)
      ensures units.Keys == old(units).Keys
      ensures forall u :: u in units ==> units[u] == Consumed(old(units)[u], drain)
    {
      var todo := units.Keys;
      while todo != {}
        invariant View().Valid() && depth == old(depth) && epoch == old(epoch)
        invariant units.Keys == old(units).Keys && todo <= units.Keys
        invariant forall u :: u in units ==>
          units[u] == if u in todo then old(units)[u] else Consumed(old(units)[u], drain)
        decreases todo
      {
        var u :| u in todo;
        todo := todo - {u};
        ConsumeUnit(u, drain);
      }
    }

    /** The loop body of `consume_display`. */
    method ConsumeUnit(u: UnitId, drain: bool)
      requires View().Valid() && u in units
      modifies this`units
      ensures View().Valid() && units == old(units)[u := Consumed(old(units)[u], drain)]
    {
      var ring := units[u];
      ConsumeRefines(ring, drain);
      if ring.queued == 0 {
        assert units == units[u := ring];
        return;
      }
      var catchUp := drain && ring.queued > 1;
      if ring.queued >= ring.depth || catchUp {
        ring := ring.(read := (ring.read + 1) % |ring.slots|);
        ring := ring.(queued := Max(ring.queued - 1, 0));
        units := units[u := ring];
      } else {
        assert units == units[u := ring];
      }
    }
  }
}
