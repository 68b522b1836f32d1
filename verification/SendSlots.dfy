/**
 The life of a GPU send slot (mixer/src/omt.rs:485-527,587-680, mixer/src/frame_hub.rs:78-110,
 mixer/src/output.rs:127-137,156-239,311-373, mixer/src/render.rs:848-987).

 The render thread copies a picture into a free slot of a three-slot ring and publishes it in a
 mailbox that keeps only the latest picture. The worker takes it into its hand, sends it, and keeps
 its slot until the encoder has moved on to the next picture.

 `Pipe` is that state as a value, `Next` one step of either thread. The module
 `OutputLine` holds the mutable objects and does each step on them.
 */
module SendSlots {
  import opened Common
  import opened SendCommands

  const SEND_SLOTS: nat := 3

  datatype Slot = Slot(texture: nat, shape: Shape, busy: BusyFlag)

  datatype Pipe = Pipe(
    slots: seq<Slot>,
    next: nat,
    on: set<BusyFlag>,            // the flags that read true
    producer: Option<SendCmd>,    // copied, not published yet
    mailbox: Option<SendCmd>,
    drops: nat,
    lastCpu: Option<SendCmd>,
    hand: Option<SendCmd>,        // taken by the worker, being sent
    pending: Option<BusyFlag>,    // sent, the encoder may still read it
    late: Option<BusyFlag>,       // the second store of a failed send is outstanding
    stopped: bool)

  datatype Step =
    | Copy(shape: Shape, texture: nat, flag: BusyFlag)  // texture and flag: those of a slot allocated now
    | Publish(pts: int, fpsN: nat, fpsD: nat)
    | PublishCpu(cmd: SendCmd)
    | Take
    | SendOk
    | SendFails
    | SendFailsFirst    // a failed send, up to and with its first store
    | SendFailsSecond   // its second store
    | Stop

  // ----- holders -----

  /** The flag that a command in some place keeps set, if it is a GPU picture. */
  function FlagsIn(cmd: Option<SendCmd>): set<BusyFlag> {
    if cmd.Some? && cmd.value.GpuVideo? then {cmd.value.busy} else {}
  }

  function PendingFlags(pending: Option<BusyFlag>): set<BusyFlag> {
    if pending.Some? then {pending.value} else {}
  }

  ghost predicate RingOk(slots: seq<Slot>, next: nat) {
    && |slots| == SEND_SLOTS && next < SEND_SLOTS
    && (forall i, j :: 0 <= i < j < |slots| ==> slots[i].busy != slots[j].busy && slots[i].texture != slots[j].texture)
  }

  ghost predicate FlagInRing(slots: seq<Slot>, f: BusyFlag) {
    exists i :: 0 <= i < |slots| && slots[i].busy == f
  }

  ghost predicate TextureOk(slots: seq<Slot>, cmd: Option<SendCmd>) {
    cmd.Some? && cmd.value.GpuVideo? ==>
      exists i :: 0 <= i < |slots| && slots[i].busy == cmd.value.busy && slots[i].texture == cmd.value.texture
  }

  /** Each busy slot has exactly one of the four holders, each free slot has none. */
  ghost predicate OneHolder(p: Pipe) {
    var (producer, mailbox, hand, pending) :=
      (FlagsIn(p.producer), FlagsIn(p.mailbox), FlagsIn(p.hand), PendingFlags(p.pending));
    && p.on == producer + mailbox + hand + pending
    && producer !! mailbox !! hand !! pending
  }

  ghost predicate Inv(p: Pipe) {
    && RingOk(p.slots, p.next)
    && OneHolder(p)
    && (forall f :: f in p.on ==> FlagInRing(p.slots, f))
    && TextureOk(p.slots, p.producer) && TextureOk(p.slots, p.mailbox) && TextureOk(p.slots, p.hand)
    && (p.lastCpu.Some? ==> p.lastCpu.value.Video?)
    && (p.producer.Some? ==> p.producer.value.GpuVideo?)
    && (p.mailbox.Some? ==> p.mailbox.value.Picture())
    && (p.hand.Some? ==> p.hand.value.Picture())
    && (p.stopped ==> p.hand.None? && p.pending.None?)
  }

  // ----- steps -----

  /** The `i`-th slot that a copy looks at. */
  function At(p: Pipe, i: nat): nat {
    (p.next + i) % SEND_SLOTS
  }

  function Free(p: Pipe, i: nat): (free: Option<nat>)
    requires |p.slots| == SEND_SLOTS
    ensures free.Some? ==> free.value < SEND_SLOTS && p.slots[free.value].busy !in p.on
    decreases SEND_SLOTS - i
  {
    if i >= SEND_SLOTS then None
    else if p.slots[At(p, i)].busy in p.on then Free(p, i + 1)
    else Some(At(p, i))
  }

  ghost predicate Enabled(p: Pipe, s: Step) {
    match s
    case Copy(_, texture, flag) =>
      p.producer.None? && |p.slots| == SEND_SLOTS && flag !in p.on && p.late != Some(flag) &&
      (forall i :: 0 <= i < |p.slots| ==> p.slots[i].busy != flag && p.slots[i].texture != texture)
    case Publish(_, _, _) => p.producer.Some?
    case PublishCpu(cmd) => cmd.Video?
    case Take => p.hand.None? && p.late.None? && !p.stopped
    case SendOk => p.hand.Some? && p.late.None?
    case SendFails => p.hand.Some? && p.late.None?
    case SendFailsFirst => p.hand.Some? && p.late.None?
    case SendFailsSecond => p.late.Some?
    case Stop => p.hand.None? && p.late.None?
  }

  function Copying(p: Pipe, shape: Shape, texture: nat, flag: BusyFlag): Pipe
    requires |p.slots| == SEND_SLOTS
  {
    var free := Free(p, 0);
    if free.None? || shape.width < 16 || shape.height < 16 then p
    else
      var found := p.slots[free.value];
      var slot := if found.shape == shape then found else Slot(texture, shape, flag);
      p.(slots := p.slots[free.value := slot],
         next := (free.value + 1) % SEND_SLOTS,
         on := p.on + {slot.busy},
         producer := Some(GpuVideo(slot.texture, shape.width, shape.height, 0, 0, 0, slot.busy)))
  }

  function Publishing(p: Pipe, cmd: SendCmd): Pipe {
    p.(on := p.on - FlagsIn(p.mailbox),
       mailbox := Some(cmd),
       drops := if p.mailbox.Some? then p.drops + 1 else p.drops)
  }

  ghost function Next(p: Pipe, s: Step): Pipe
    requires Enabled(p, s)
  {
    match s
    case Copy(shape, texture, flag) =>
      Copying(p, shape, texture, flag)
    case Publish(pts, fpsN, fpsD) =>
      Publishing(p, Retimestamp(p.producer.value, pts, fpsN, fpsD)).(producer := None)
    case PublishCpu(cmd) =>
      Publishing(p, cmd)
    case Take =>
      var cmd := if p.mailbox.Some? then p.mailbox else p.lastCpu;
      p.(mailbox := None,
         hand := cmd,
         lastCpu := if cmd.Some? && cmd.value.Video? then cmd else p.lastCpu)
    case SendOk =>
      if p.hand.value.GpuVideo? then
        p.(on := p.on - PendingFlags(p.pending), pending := Some(p.hand.value.busy), hand := None)
      else p.(hand := None)
    case SendFails =>
      if p.hand.value.GpuVideo? then
        p.(on := p.on - PendingFlags(p.pending) - FlagsIn(p.hand), pending := None, hand := None)
      else p.(hand := None)
    case SendFailsFirst =>
      if p.hand.value.GpuVideo? then
        p.(on := p.on - PendingFlags(p.pending) - FlagsIn(p.hand), pending := None, hand := None,
           late := Some(p.hand.value.busy))
      else p.(hand := None)
    case SendFailsSecond =>
      p.(on := p.on - {p.late.value}, late := None)
    case Stop =>
      p.(on := p.on - PendingFlags(p.pending) - FlagsIn(p.mailbox),
         pending := None, mailbox := None, stopped := true)
  }

  // ----- every step keeps one holder per busy slot -----

  /** A slot whose flag is clear can be replaced under everyone's feet. */
  lemma HeldElsewhere(p: Pipe, slots: seq<Slot>, i: nat, cmd: Option<SendCmd>)
    requires |p.slots| == |slots| == SEND_SLOTS && i < SEND_SLOTS && p.slots[i].busy !in p.on
    requires forall k :: 0 <= k < SEND_SLOTS && k != i ==> slots[k] == p.slots[k]
    requires FlagsIn(cmd) <= p.on && TextureOk(p.slots, cmd)
    ensures TextureOk(slots, cmd)
  {
    if cmd.Some? && cmd.value.GpuVideo? {
      var k :| 0 <= k < |p.slots| && p.slots[k].busy == cmd.value.busy && p.slots[k].texture == cmd.value.texture;
      assert slots[k] == p.slots[k];
    }
  }

  lemma FlagsElsewhere(p: Pipe, slots: seq<Slot>, i: nat)
    requires |p.slots| == |slots| == SEND_SLOTS && i < SEND_SLOTS && p.slots[i].busy !in p.on
    requires forall k :: 0 <= k < SEND_SLOTS && k != i ==> slots[k] == p.slots[k]
    requires forall f :: f in p.on ==> FlagInRing(p.slots, f)
    ensures forall f :: f in p.on ==> FlagInRing(slots, f)
  {
    forall f | f in p.on
      ensures FlagInRing(slots, f)
    {
      var k :| 0 <= k < |p.slots| && p.slots[k].busy == f;
      assert slots[k] == p.slots[k];
    }
  }

  /** What a copy that finds a free slot `i` does to the ring. */
  lemma CopyKeepsRing(p: Pipe, i: nat, slot: Slot)
    requires RingOk(p.slots, p.next) && i < SEND_SLOTS
    requires (slot.busy == p.slots[i].busy && slot.texture == p.slots[i].texture) ||
             (forall k :: 0 <= k < |p.slots| ==> p.slots[k].busy != slot.busy && p.slots[k].texture != slot.texture)
    ensures RingOk(p.slots[i := slot], (i + 1) % SEND_SLOTS)
  {
  }

  lemma CopyKeepsInv(p: Pipe, s: Step)
    requires s.Copy? && Enabled(p, s) && Inv(p)
    ensures Inv(Next(p, s))
  {
    CopyingKeepsInv(p, s.shape, s.texture, s.flag);
  }

  /** The flag matters only if the slot found has another shape and is replaced. */
  lemma CopyingKeepsInv(p: Pipe, shape: Shape, texture: nat, flag: BusyFlag)
    requires Inv(p) && p.producer.None?
    requires forall i :: 0 <= i < |p.slots| ==> p.slots[i].texture != texture
    requires
      (forall i :: 0 <= i < |p.slots| ==> p.slots[i].busy != flag) ||
      (Free(p, 0).Some? ==> p.slots[Free(p, 0).value].shape == shape)
    ensures Inv(Copying(p, shape, texture, flag))
  {
    var q := Copying(p, shape, texture, flag);
    var free := Free(p, 0);
    if free.Some? && shape.width >= 16 && shape.height >= 16 {
      var i := free.value;
      CopyKeepsRing(p, i, q.slots[i]);
      CopyKeepsOneHolder(p, shape, texture, flag);
      FlagsElsewhere(p, q.slots, i);
      HeldElsewhere(p, q.slots, i, p.mailbox);
      HeldElsewhere(p, q.slots, i, p.hand);
      assert q.slots[i].busy == q.producer.value.busy && q.slots[i].texture == q.producer.value.texture;
      assert FlagInRing(q.slots, q.slots[i].busy);
    }
  }

  lemma CopyKeepsOneHolder(p: Pipe, shape: Shape, texture: nat, flag: BusyFlag)
    requires RingOk(p.slots, p.next) && OneHolder(p) && p.producer.None?
    requires forall f :: f in p.on ==> FlagInRing(p.slots, f)
    requires
      (forall i :: 0 <= i < |p.slots| ==> p.slots[i].busy != flag) ||
      (Free(p, 0).Some? ==> p.slots[Free(p, 0).value].shape == shape)
    ensures OneHolder(Copying(p, shape, texture, flag))
  {
    var free := Free(p, 0);
    if free.Some? && shape.width >= 16 && shape.height >= 16 {
      var slot := Copying(p, shape, texture, flag).slots[free.value];
      assert slot.busy !in p.on;
    }
  }

  // ----- when a copy succeeds, and what it may overwrite -----

  lemma {:induction false} FreeNone(p: Pipe, i: nat)
    requires |p.slots| == SEND_SLOTS && i <= SEND_SLOTS
    ensures Free(p, i).None? <==> forall k :: i <= k < SEND_SLOTS ==> p.slots[At(p, k)].busy in p.on
    decreases SEND_SLOTS - i
  {
    if i < SEND_SLOTS {
      FreeNone(p, i + 1);
    }
  }

  lemma {:induction false} FreeFound(p: Pipe, i: nat, found: nat)
    requires |p.slots| == SEND_SLOTS && i <= found < SEND_SLOTS
    requires forall k :: i <= k < found ==> p.slots[At(p, k)].busy in p.on
    requires p.slots[At(p, found)].busy !in p.on
    ensures Free(p, i) == Some(At(p, found))
    decreases SEND_SLOTS - i
  {
    if i < found {
      FreeFound(p, i + 1, found);
    }
  }

  /** The three flags of the ring. */
  function RingFlags(slots: seq<Slot>): set<BusyFlag>
    requires |slots| == SEND_SLOTS
  {
    {slots[0].busy, slots[1].busy, slots[2].busy}
  }

  lemma RingFlagsAreThree(slots: seq<Slot>, next: nat)
    requires RingOk(slots, next)
    ensures |RingFlags(slots)| == SEND_SLOTS
  {
    var (x, y, z) := (slots[0].busy, slots[1].busy, slots[2].busy);
    assert x != y && x != z && y != z;
    assert {x, y} == {x} + {y} && RingFlags(slots) == {x, y} + {z};
  }

  /** No slot is free exactly when every flag of the ring is set. */
  lemma FreeNoneIff(p: Pipe)
    requires RingOk(p.slots, p.next)
    ensures Free(p, 0).None? <==> RingFlags(p.slots) <= p.on
  {
    FreeNone(p, 0);
    if Free(p, 0).None? {
      assert {At(p, 0), At(p, 1), At(p, 2)} == {0, 1, 2};
      assert p.slots[At(p, 0)].busy in p.on && p.slots[At(p, 1)].busy in p.on && p.slots[At(p, 2)].busy in p.on;
    } else {
      assert p.slots[Free(p, 0).value].busy in RingFlags(p.slots);
    }
  }

  lemma RingBound(p: Pipe)
    requires RingOk(p.slots, p.next) && forall f :: f in p.on ==> FlagInRing(p.slots, f)
    ensures p.on <= RingFlags(p.slots)
    ensures |p.on| <= SEND_SLOTS
    ensures |p.on| == SEND_SLOTS <==> RingFlags(p.slots) <= p.on
  {
    RingFlagsAreThree(p.slots, p.next);
    var ring := RingFlags(p.slots);
    assert p.on <= ring;
    SubsetSize(p.on, ring);
  }

  lemma SubsetSize(a: set<BusyFlag>, b: set<BusyFlag>)
    requires a <= b
    ensures |a| <= |b| && (|a| == |b| <==> b <= a)
  {
    assert |b - a| == |b| - |a|;
    if |a| == |b| {
      assert b - a == {};
    }
    if b <= a {
      assert a == b;
    }
  }

  lemma RingCardinality(p: Pipe)
    requires RingOk(p.slots, p.next) && forall f :: f in p.on ==> FlagInRing(p.slots, f)
    ensures |p.on| <= SEND_SLOTS
    ensures |p.on| == SEND_SLOTS <==> Free(p, 0).None?
  {
    RingBound(p);
    FreeNoneIff(p);
  }

  /** A copy finds a slot unless mailbox, worker hand and pending encode all hold one. */
  lemma CopyFailsIff(p: Pipe)
    requires Inv(p) && p.producer.None?
    ensures Free(p, 0).None? <==>
            FlagsIn(p.mailbox) != {} && FlagsIn(p.hand) != {} && PendingFlags(p.pending) != {}
  {
    RingCardinality(p);
    var (m, h, d) := (FlagsIn(p.mailbox), FlagsIn(p.hand), PendingFlags(p.pending));
    assert p.on == m + h + d;
    assert |m + h| == |m| + |h| && |m + h + d| == |m + h| + |d|;
  }

  /** A copy never writes to a texture that a command in flight refers to. */
  lemma CopyOverwritesNothing(p: Pipe, s: Step, cmd: Option<SendCmd>)
    requires Inv(p) && s.Copy? && Enabled(p, s) && Next(p, s).producer.Some?
    requires cmd in {p.mailbox, p.hand} && cmd.Some? && cmd.value.GpuVideo?
    ensures Next(p, s).producer.value.texture != cmd.value.texture
  {
    var k :| 0 <= k < |p.slots| && p.slots[k].busy == cmd.value.busy && p.slots[k].texture == cmd.value.texture;
    assert cmd.value.busy in p.on;
  }

  /** Nor to the texture of the slot whose encode is pending. */
  lemma CopySparesPending(p: Pipe, s: Step, k: nat)
    requires Inv(p) && s.Copy? && Enabled(p, s) && Next(p, s).producer.Some?
    requires k < SEND_SLOTS && p.pending == Some(p.slots[k].busy)
    ensures Next(p, s).producer.value.texture != p.slots[k].texture
    ensures Next(p, s).producer.value.busy != p.slots[k].busy
    ensures Next(p, s).slots[k] == p.slots[k]
  {
    assert p.slots[k].busy in p.on;
  }

  /** A worker that stops holds nothing; only what the producer has not published yet is still busy. */
  lemma StopReleasesAll(p: Pipe)
    requires Inv(p) && Enabled(p, Stop)
    ensures
      var q := Next(p, Stop);
      q.on == FlagsIn(p.producer) && q.mailbox.None? && q.hand.None? && q.pending.None?
  {
    assert FlagsIn(p.producer) !! FlagsIn(p.mailbox) !! PendingFlags(p.pending);
  }

  /** Only pictures in CPU memory are repeated: a GPU picture leaves the mailbox once. */
  lemma GpuPictureTakenOnce(p: Pipe)
    requires Inv(p) && Enabled(p, Take)
    ensures
      var q := Next(p, Take);
      && FlagsIn(q.hand) == FlagsIn(p.mailbox)
      && (p.mailbox.None? ==> q.hand == p.lastCpu)
      && (q.late.None? && q.hand.Some? ==> FlagsIn(Next(Next(q, SendOk), Take).hand) == {})
  {
  }

  lemma FlagsStayInRing(p: Pipe, q: Pipe)
    requires q.slots == p.slots && q.on <= p.on && forall f :: f in p.on ==> FlagInRing(p.slots, f)
    ensures forall f :: f in q.on ==> FlagInRing(q.slots, f)
  {
  }

  lemma PublishKeepsInv(p: Pipe, s: Step)
    requires (s.Publish? || s.PublishCpu?) && Enabled(p, s) && Inv(p)
    ensures Inv(Next(p, s))
  {
    PublishKeepsOneHolder(p, s);
    FlagsStayInRing(p, Next(p, s));
  }

  lemma PublishKeepsOneHolder(p: Pipe, s: Step)
    requires (s.Publish? || s.PublishCpu?) && Enabled(p, s) && OneHolder(p)
    requires p.producer.Some? ==> p.producer.value.GpuVideo?
    ensures OneHolder(Next(p, s))
  {
  }

  lemma TakeKeepsInv(p: Pipe)
    requires Inv(p) && Enabled(p, Take)
    ensures Inv(Next(p, Take))
  {
  }

  lemma SendOkKeepsInv(p: Pipe)
    requires Inv(p) && Enabled(p, SendOk)
    ensures Inv(Next(p, SendOk))
  {
    SendOkKeepsOneHolder(p);
    FlagsStayInRing(p, Next(p, SendOk));
  }

  lemma SendOkKeepsOneHolder(p: Pipe)
    requires OneHolder(p) && Enabled(p, SendOk)
    ensures OneHolder(Next(p, SendOk))
  {
  }

  lemma SendFailsKeepsInv(p: Pipe)
    requires Inv(p) && Enabled(p, SendFails)
    ensures Inv(Next(p, SendFails))
  {
    SendFailsKeepsOneHolder(p);
    FlagsStayInRing(p, Next(p, SendFails));
  }

  lemma SendFailsKeepsOneHolder(p: Pipe)
    requires OneHolder(p) && Enabled(p, SendFails)
    ensures OneHolder(Next(p, SendFails))
  {
  }

  /** After the first store of a failed send the state is that after the whole, but for the store to come. */
  lemma SendFailsFirstKeepsInv(p: Pipe)
    requires Inv(p) && Enabled(p, SendFailsFirst)
    ensures Inv(Next(p, SendFailsFirst))
  {
    SendFailsKeepsInv(p);
    assert Next(p, SendFailsFirst).(late := None) == Next(p, SendFails);
  }

  lemma StopKeepsInv(p: Pipe)
    requires Inv(p) && Enabled(p, Stop)
    ensures Inv(Next(p, Stop))
  {
  }

  lemma WorkerKeepsInv(p: Pipe, s: Step)
    requires s.Take? || s.SendOk? || s.SendFails? || s.SendFailsFirst? || s.Stop?
    requires Enabled(p, s) && Inv(p)
    ensures Inv(Next(p, s))
  {
    match s {
      case Take => TakeKeepsInv(p);
      case Stop => StopKeepsInv(p);
      case SendOk => SendOkKeepsInv(p);
      case SendFails => SendFailsKeepsInv(p);
      case SendFailsFirst => SendFailsFirstKeepsInv(p);
    }
  }

  /** The second store of a failed send is harmless exactly while nobody took the slot again. */
  lemma LateStoreKeepsInvIff(p: Pipe)
    requires Inv(p) && p.late.Some?
    ensures Inv(Next(p, SendFailsSecond)) <==> p.late.value !in p.on
  {
  }

  // ----- runs -----

  ghost predicate EnabledRun(p: Pipe, steps: seq<Step>)
    decreases |steps|
  {
    |steps| == 0 || (Enabled(p, steps[0]) && EnabledRun(Next(p, steps[0]), steps[1..]))
  }

  ghost function Run(p: Pipe, steps: seq<Step>): Pipe
    requires EnabledRun(p, steps)
    decreases |steps|
  {
    if |steps| == 0 then p else Run(Next(p, steps[0]), steps[1..])
  }

  /** No second store of a failed send hits a slot that is in use again. */
  ghost predicate NoLateHit(p: Pipe, steps: seq<Step>)
    requires EnabledRun(p, steps)
    decreases |steps|
  {
    |steps| == 0 ||
    ((steps[0].SendFailsSecond? ==> p.late.value !in p.on) && NoLateHit(Next(p, steps[0]), steps[1..]))
  }

  /** The invariant holds before the run and after every step of it. */
  ghost predicate InvThroughout(p: Pipe, steps: seq<Step>)
    requires EnabledRun(p, steps)
    decreases |steps|
  {
    Inv(p) && (|steps| == 0 || InvThroughout(Next(p, steps[0]), steps[1..]))
  }

  /** Every step but the second store of a failed send keeps the invariant; that one does iff the slot is free. */
  lemma StepKeepsInvIff(p: Pipe, s: Step)
    requires Inv(p) && Enabled(p, s)
    ensures Inv(Next(p, s)) <==> (s.SendFailsSecond? ==> p.late.value !in p.on)
  {
    match s {
      case Copy(_, _, _) => CopyKeepsInv(p, s);
      case Publish(_, _, _) => PublishKeepsInv(p, s);
      case PublishCpu(_) => PublishKeepsInv(p, s);
      case SendFailsSecond => LateStoreKeepsInvIff(p);
      case _ => WorkerKeepsInv(p, s);
    }
  }

  /**
   In every interleaving, at every moment, each busy slot has exactly one holder and each free slot none,
   if and only if no second store of a failed send hits a slot that is in use again.
   */
  lemma {:induction false} RunKeepsInv(p: Pipe, steps: seq<Step>)
    requires Inv(p) && EnabledRun(p, steps)
    ensures InvThroughout(p, steps) <==> NoLateHit(p, steps)
    ensures NoLateHit(p, steps) ==> Inv(Run(p, steps))
    decreases |steps|
  {
    if |steps| != 0 {
      var q := Next(p, steps[0]);
      StepKeepsInvIff(p, steps[0]);
      if Inv(q) {
        RunKeepsInv(q, steps[1..]);
      }
    }
  }

  // ----- which picture the worker gets -----

  /** The step neither delivers a picture nor empties the mailbox. */
  predicate Quiet(s: Step) {
    !s.Publish? && !s.PublishCpu? && !s.Take? && !s.Stop?
  }

  lemma {:induction false} MailboxWaits(p: Pipe, steps: seq<Step>)
    requires EnabledRun(p, steps) && forall i :: 0 <= i < |steps| ==> Quiet(steps[i])
    ensures Run(p, steps).mailbox == p.mailbox
    decreases |steps|
  {
    if |steps| != 0 {
      assert Quiet(steps[0]);
      MailboxWaits(Next(p, steps[0]), steps[1..]);
    }
  }

  /** The worker gets the picture published last, whatever copies and sends lie between. */
  lemma LatestIsTaken(p: Pipe, s: Step, between: seq<Step>)
    requires Enabled(p, s) && (s.Publish? || s.PublishCpu?) && EnabledRun(Next(p, s), between)
    requires forall i :: 0 <= i < |between| ==> Quiet(between[i])
    requires Enabled(Run(Next(p, s), between), Take)
    ensures
      var q := Next(Run(Next(p, s), between), Take);
      && q.mailbox.None? && q.hand.Some?
      && (s.PublishCpu? ==> q.hand.value == s.cmd)
      && (s.Publish? ==> Restamped(p.producer.value, q.hand.value, s.pts, s.fpsN, s.fpsD))
  {
    MailboxWaits(Next(p, s), between);
  }

  ghost predicate GpuOnly(p: Pipe) {
    (p.producer.Some? ==> p.producer.value.GpuVideo?) && (p.mailbox.Some? ==> p.mailbox.value.GpuVideo?)
  }

  lemma {:induction false} LastCpuStays(p: Pipe, steps: seq<Step>)
    requires EnabledRun(p, steps) && GpuOnly(p) && (p.lastCpu.Some? ==> p.lastCpu.value.Video?)
    requires forall i :: 0 <= i < |steps| ==> !steps[i].PublishCpu?
    ensures GpuOnly(Run(p, steps)) && Run(p, steps).lastCpu == p.lastCpu
    decreases |steps|
  {
    if |steps| != 0 {
      assert !steps[0].PublishCpu?;
      LastCpuStays(Next(p, steps[0]), steps[1..]);
    }
  }

  /** A CPU picture that was taken is repeated while nothing waits, until another CPU picture is published. */
  lemma CpuPictureRepeats(p: Pipe, steps: seq<Step>)
    requires Inv(p) && Enabled(p, Take) && Next(p, Take).hand.Some? && Next(p, Take).hand.value.Video?
    requires EnabledRun(Next(p, Take), steps) && forall i :: 0 <= i < |steps| ==> !steps[i].PublishCpu?
    ensures
      var q := Run(Next(p, Take), steps);
      Enabled(q, Take) && q.mailbox.None? ==> Next(q, Take).hand == Next(p, Take).hand
  {
    LastCpuStays(Next(p, Take), steps);
  }

  function One(b: bool): nat {
    if b then 1 else 0
  }

  function Published(steps: seq<Step>): nat {
    if |steps| == 0 then 0 else One(steps[0].Publish? || steps[0].PublishCpu?) + Published(steps[1..])
  }

  /** Pictures that left the mailbox for the worker, or were released with it when the worker stopped. */
  ghost function Collected(p: Pipe, steps: seq<Step>): nat
    requires EnabledRun(p, steps)
    decreases |steps|
  {
    if |steps| == 0 then 0
    else One((steps[0].Take? || steps[0].Stop?) && p.mailbox.Some?) + Collected(Next(p, steps[0]), steps[1..])
  }

  /** Every picture published was taken once, released at the stop, counted as dropped, or waits. */
  lemma {:induction false} PicturesAreConserved(p: Pipe, steps: seq<Step>)
    requires EnabledRun(p, steps)
    ensures One(p.mailbox.Some?) + Published(steps) ==
            Collected(p, steps) + (Run(p, steps).drops - p.drops) + One(Run(p, steps).mailbox.Some?)
    decreases |steps|
  {
    if |steps| != 0 {
      PicturesAreConserved(Next(p, steps[0]), steps[1..]);
    }
  }

  ghost predicate Initial(p: Pipe) {
    && RingOk(p.slots, p.next) && p.on == {}
    && p.producer.None? && p.mailbox.None? && p.lastCpu.None? && p.hand.None? && p.pending.None? && p.late.None?
    && !p.stopped
  }

  /** Where a failed send counts as one step, every interleaving keeps one holder per busy slot. */
  lemma AtomicRunKeepsInv(p: Pipe, steps: seq<Step>)
    requires Inv(p) && p.late.None? && EnabledRun(p, steps)
    requires forall i :: 0 <= i < |steps| ==> !steps[i].SendFailsFirst?
    ensures InvThroughout(p, steps) && Inv(Run(p, steps))
  {
    AtomicRunIsGood(p, steps);
    RunKeepsInv(p, steps);
  }

  lemma {:induction false} AtomicRunIsGood(p: Pipe, steps: seq<Step>)
    requires p.late.None? && EnabledRun(p, steps)
    requires forall i :: 0 <= i < |steps| ==> !steps[i].SendFailsFirst?
    ensures NoLateHit(p, steps)
    decreases |steps|
  {
    if |steps| != 0 {
      assert !steps[0].SendFailsFirst?;
      AtomicRunIsGood(Next(p, steps[0]), steps[1..]);
    }
  }

  lemma {:induction false} RunAppend(p: Pipe, a: seq<Step>, b: seq<Step>)
    requires EnabledRun(p, a) && EnabledRun(Run(p, a), b)
    ensures EnabledRun(p, a + b) && Run(p, a + b) == Run(Run(p, a), b)
    decreases |a|
  {
    if |a| == 0 {
      assert a + b == b;
    } else {
      assert (a + b)[1..] == a[1..] + b;
      RunAppend(Next(p, a[0]), a[1..], b);
    }
  }

  lemma RunOne(p: Pipe, s: Step)
    requires Enabled(p, s)
    ensures EnabledRun(p, [s]) && Run(p, [s]) == Next(p, s)
  {
    var q := Next(p, s);
    assert [s][1..] == [];
    assert EnabledRun(q, []) && Run(q, []) == q;
    assert EnabledRun(p, [s]);
    assert Run(p, [s]) == Run(q, []);
  }

  lemma RunTwo(p: Pipe, s: Step, t: Step)
    requires Enabled(p, s) && Enabled(Next(p, s), t)
    ensures EnabledRun(p, [s, t]) && Run(p, [s, t]) == Next(Next(p, s), t)
  {
    RunOne(p, s);
    RunOne(Next(p, s), t);
    RunAppend(p, [s], [t]);
    assert [s] + [t] == [s, t];
  }

  /**
   The two stores of one failed send are not one step in the program: if three pictures are copied
   between them, the second store frees a slot that the producer holds.
   */
  ghost function LateHit(copy: Step): seq<Step> {
    [copy, Publish(0, 60, 1)] + [Take, SendFailsFirst] + ([copy, Publish(1, 60, 1)] + [copy, Publish(2, 60, 1)]) +
      [copy, SendFailsSecond]
  }

  lemma CopyIntoNext(p: Pipe, copy: Step)
    requires copy.Copy? && Enabled(p, copy) && RingOk(p.slots, p.next)
    requires 16 <= copy.shape.width && 16 <= copy.shape.height && p.slots[p.next].shape == copy.shape
    requires p.slots[p.next].busy !in p.on
    ensures
      var slot := p.slots[p.next];
      Next(p, copy) == p.(next := (p.next + 1) % SEND_SLOTS, on := p.on + {slot.busy},
        producer := Some(GpuVideo(slot.texture, copy.shape.width, copy.shape.height, 0, 0, 0, slot.busy)))
  {
    assert At(p, 0) == p.next && Free(p, 0) == Some(p.next);
    assert p.slots[p.next := p.slots[p.next]] == p.slots;
  }

  /** One picture through the free slot that comes next in the ring. */
  lemma CopyAndPublish(p: Pipe, copy: Step, pts: int)
    requires copy.Copy? && Enabled(p, copy) && RingOk(p.slots, p.next)
    requires 16 <= copy.shape.width && 16 <= copy.shape.height && p.slots[p.next].shape == copy.shape
    requires p.slots[p.next].busy !in p.on
    ensures
      var (slot, run) := (p.slots[p.next], [copy, Publish(pts, 60, 1)]);
      EnabledRun(p, run) &&
      Run(p, run) == Publishing(p.(next := (p.next + 1) % SEND_SLOTS, on := p.on + {slot.busy}),
        GpuVideo(slot.texture, copy.shape.width, copy.shape.height, pts, 60, 1, slot.busy))
  {
    CopyIntoNext(p, copy);
    RunTwo(p, copy, Publish(pts, 60, 1));
  }

  lemma LateHitBreaksOwnership(p: Pipe, copy: Step)
    requires Initial(p) && p.next == 0 && copy.Copy? && Enabled(p, copy)
    requires 16 <= copy.shape.width && 16 <= copy.shape.height
    requires forall i :: 0 <= i < SEND_SLOTS ==> p.slots[i].shape == copy.shape
    ensures EnabledRun(p, LateHit(copy)) && !OneHolder(Run(p, LateHit(copy)))
  {
    var (a, b) := ([copy, Publish(0, 60, 1)], [Take, SendFailsFirst]);
    var (c, d) := ([copy, Publish(1, 60, 1)], [copy, Publish(2, 60, 1)]);
    var e := [copy, SendFailsSecond];
    FailedSend(p, copy);
    var p2 := Run(p, a + b);
    TwoMorePictures(p2, copy);
    RunAppend(p, a + b, c + d);
    var p4 := Run(p, a + b + (c + d));
    LastCopyIsHit(p4, copy);
    RunAppend(p, a + b + (c + d), e);
    assert a + b + (c + d) + e == LateHit(copy);
  }

  lemma FailedSend(p: Pipe, copy: Step)
    requires Initial(p) && p.next == 0 && copy.Copy? && Enabled(p, copy)
    requires 16 <= copy.shape.width && 16 <= copy.shape.height && p.slots[0].shape == copy.shape
    ensures
      var run := [copy, Publish(0, 60, 1)] + [Take, SendFailsFirst];
      EnabledRun(p, run) && Run(p, run) == p.(next := 1, late := Some(p.slots[0].busy))
  {
    CopyAndPublish(p, copy, 0);
    var p1 := Run(p, [copy, Publish(0, 60, 1)]);
    assert p1.on == {p.slots[0].busy} && p1.drops == p.drops;
    RunTwo(p1, Take, SendFailsFirst);
    RunAppend(p, [copy, Publish(0, 60, 1)], [Take, SendFailsFirst]);
  }

  lemma TwoMorePictures(p: Pipe, copy: Step)
    requires copy.Copy? && Enabled(p, copy) && RingOk(p.slots, p.next) && p.next == 1 && p.on == {} && p.mailbox.None?
    requires 16 <= copy.shape.width && 16 <= copy.shape.height
    requires p.slots[1].shape == copy.shape && p.slots[2].shape == copy.shape
    ensures
      var run := [copy, Publish(1, 60, 1)] + [copy, Publish(2, 60, 1)];
      EnabledRun(p, run) &&
      var q := Run(p, run);
      q.slots == p.slots && q.next == 0 && q.on == {p.slots[2].busy} && q.late == p.late && Enabled(q, copy)
  {
    CopyAndPublish(p, copy, 1);
    var q := Run(p, [copy, Publish(1, 60, 1)]);
    assert q.on == {p.slots[1].busy} && q.next == 2 && q.slots == p.slots && Enabled(q, copy);
    CopyAndPublish(q, copy, 2);
    RunAppend(p, [copy, Publish(1, 60, 1)], [copy, Publish(2, 60, 1)]);
  }

  lemma LastCopyIsHit(p: Pipe, copy: Step)
    requires copy.Copy? && Enabled(p, copy) && RingOk(p.slots, p.next)
    requires 16 <= copy.shape.width && 16 <= copy.shape.height && p.slots[p.next].shape == copy.shape
    requires p.late == Some(p.slots[p.next].busy) && p.slots[p.next].busy !in p.on
    ensures EnabledRun(p, [copy, SendFailsSecond]) && !OneHolder(Run(p, [copy, SendFailsSecond]))
  {
    CopyIntoNext(p, copy);
    RunTwo(p, copy, SendFailsSecond);
    var q := Run(p, [copy, SendFailsSecond]);
    assert p.slots[p.next].busy in FlagsIn(q.producer) && p.slots[p.next].busy !in q.on;
  }
}
