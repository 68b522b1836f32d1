/** The mutable objects of one output; each method is one step of `SendSlots.Next` on their state. */
module OutputLine {
  import opened Common
  import opened SendCommands
  import opened SendSlots

  /** `GpuSendRing`. */
  class GpuSendRing {
    var slots: seq<Slot>
    var next: nat

    constructor (shape: Shape, textures: nat)
      ensures RingOk(slots, next) && next == 0 && On() == {}
      ensures forall s :: s in slots ==> fresh(s.busy) && s.shape == shape
    {
      var a := new BusyFlag(false);
      var b := new BusyFlag(false);
      var c := new BusyFlag(false);
      slots := [Slot(textures, shape, a), Slot(textures + 1, shape, b), Slot(textures + 2, shape, c)];
      next := 0;
    }

    ghost function Flags(): set<BusyFlag>
      reads this
    {
      set s | s in slots :: s.busy
    }

    ghost function On(): set<BusyFlag>
      reads this, Flags()
    {
      set f | f in Flags() && f.on
    }

    /** The scan of `GpuSendStore::copy`: the first slot from `next` on that is free. */
    method FindFree(ghost p: Pipe) returns (free: Option<nat>)
      requires RingOk(slots, next) && p.slots == slots && p.next == next && p.on == On()
      ensures free == Free(p, 0)
      ensures free.None? ==> forall k :: 0 <= k < 3 ==> slots[k].busy.on
      ensures free.Some? ==> FirstFree(free.value)
    {
      for i := 0 to SEND_SLOTS
        invariant forall k :: 0 <= k < i ==> p.slots[At(p, k)].busy in p.on
      {
        var idx := (next + i) % SEND_SLOTS;
        FlagReads(p, idx);
        if !slots[idx].busy.on {
          FreeFound(p, 0, i);
          FirstFreeFound(p, i);
          return Some(idx);
        }
      }
      FreeNone(p, 0);
      AllInUse(p);
      free := None;
    }

    /** How many steps the scan takes from one slot to another. */
    function Steps(from: nat, last: nat): int {
      if from <= last then last - from else last + 3 - from
    }

    /** The slot is free, and every slot that the scan meets before it is in use. */
    ghost predicate FirstFree(idx: nat)
      reads this, set s | s in slots :: s.busy
    {
      && idx < |slots| == 3 && !slots[idx].busy.on
      && forall k :: 0 <= k < 3 && Steps(next, k) < Steps(next, idx) ==> slots[k].busy.on
    }

    lemma FirstFreeFound(p: Pipe, i: nat)
      requires RingOk(slots, next) && p.slots == slots && p.next == next && p.on == On() && i < SEND_SLOTS
      requires !slots[At(p, i)].busy.on
      requires forall k :: 0 <= k < i ==> p.slots[At(p, k)].busy in p.on
      ensures FirstFree(At(p, i))
    {
      forall k | 0 <= k < 3 && Steps(next, k) < Steps(next, At(p, i))
        ensures slots[k].busy.on
      {
        assert k == At(p, Steps(next, k));
        assert p.slots[k].busy in p.on;
      }
    }

    lemma AllInUse(p: Pipe)
      requires RingOk(slots, next) && p.slots == slots && p.next == next && p.on == On()
      requires forall k :: 0 <= k < SEND_SLOTS ==> p.slots[At(p, k)].busy in p.on
      ensures forall k :: 0 <= k < 3 ==> slots[k].busy.on
    {
      assert {At(p, 0), At(p, 1), At(p, 2)} == {0, 1, 2};
    }

    lemma FlagReads(p: Pipe, idx: nat)
      requires idx < |slots| && p.slots == slots && p.on == On()
      ensures slots[idx].busy.on <==> p.slots[idx].busy in p.on
    {
      assert slots[idx] in slots;
    }

    /** `GpuSendStore::copy`; `texture` is the one the device would create now. */
    method Copy(shape: Shape, copySrc: bool, texture: nat, ghost p: Pipe) returns (copied: Option<SendCmd>)
      requires RingOk(slots, next) && p.slots == slots && p.next == next && p.on == On()
      modifies this, Flags()
      ensures copied.Some? <==> copySrc && Free(p, 0).Some? && shape.width >= 16 && shape.height >= 16
      ensures copied.Some? ==>
        && copied.value.GpuVideo?
        && (p.slots[Free(p, 0).value].shape == shape || fresh(copied.value.busy))
        && var q := Copying(p, shape, texture, copied.value.busy);
           slots == q.slots && next == q.next && On() == q.on && copied == q.producer
      ensures copied.None? ==> slots == p.slots && next == p.next && On() == p.on
      ensures copied.None? <==>
        !copySrc || shape.width < 16 || shape.height < 16 || forall k :: 0 <= k < 3 ==> old(slots[k].busy.on)
      ensures copied.Some? ==>
        exists k :: 0 <= k < 3 && old(FirstFree(k)) && Lent(k, old(slots), shape, texture, copied.value)
    {
      if !copySrc || shape.width < 16 || shape.height < 16 {
        return None;
      }
      var free := FindFree(p);
      if free.None? {
        return None;
      }
      var idx := free.value;
      assert slots[idx].busy in Flags();
      var cmd := LendSlot(idx, shape, texture);
      copied := Some(cmd);
    }

    /** The part of `copy` after a slot was found. */
    method LendSlot(idx: nat, shape: Shape, texture: nat) returns (cmd: SendCmd)
      requires RingOk(slots, next) && idx < SEND_SLOTS && !slots[idx].busy.on
      modifies this, Flags()
      ensures next == (idx + 1) % SEND_SLOTS && cmd.GpuVideo? && On() == old(On()) + {cmd.busy}
      ensures
        var slot := if old(slots[idx].shape) == shape then old(slots[idx]) else Slot(texture, shape, cmd.busy);
        slots == old(slots)[idx := slot] && cmd == GpuVideo(slot.texture, shape.width, shape.height, 0, 0, 0, slot.busy)
      ensures old(slots[idx].shape) != shape ==> fresh(cmd.busy)
      ensures Lent(idx, old(slots), shape, texture, cmd)
    {
      var slot := UseSlot(idx, shape, texture);
      next := (idx + 1) % SEND_SLOTS;
      cmd := GpuVideo(slot.texture, shape.width, shape.height, 0, 0, 0, slot.busy);
      assert slot.busy in On();
    }

    /**
     The picture of this size was copied into slot `idx`: the slot is as it was if its shape fits, and has the
     new texture otherwise; no other slot is touched, and the next scan starts behind it.
     */
    ghost predicate Lent(idx: nat, before: seq<Slot>, shape: Shape, texture: nat, cmd: SendCmd)
      reads this, set s | s in slots :: s.busy
    {
      && idx < |slots| == |before| == 3 && next == (if idx == 2 then 0 else idx + 1)
      && slots[idx].shape == shape && slots[idx].busy.on
      && (if before[idx].shape == shape then slots[idx] == before[idx] else slots[idx].texture == texture)
      && (forall k :: 0 <= k < 3 && k != idx ==> slots[k] == before[k])
      && cmd.GpuVideo? && cmd.texture == slots[idx].texture && cmd.busy == slots[idx].busy
      && cmd.width == shape.width && cmd.height == shape.height
    }

    /** Marks a free slot busy; a slot of another shape is replaced by a new one first. */
    method UseSlot(idx: nat, shape: Shape, texture: nat) returns (slot: Slot)
      requires RingOk(slots, next) && idx < SEND_SLOTS && !slots[idx].busy.on
      modifies this`slots, Flags()
      ensures slots == old(slots)[idx := slot] && On() == old(On()) + {slot.busy}
      ensures if old(slots[idx].shape) == shape then slot == old(slots[idx])
              else slot == Slot(texture, shape, slot.busy) && fresh(slot.busy)
    {
      slot := slots[idx];
      if slot.shape != shape {
        slot := ReplaceSlot(idx, shape, texture);
      }
      Raise(idx);
    }

    /** Puts a new texture with a new flag in place of a free slot. */
    method ReplaceSlot(idx: nat, shape: Shape, texture: nat) returns (slot: Slot)
      requires RingOk(slots, next) && idx < SEND_SLOTS && !slots[idx].busy.on
      modifies this`slots
      ensures slot == Slot(texture, shape, slot.busy) && fresh(slot.busy) && !slot.busy.on
      ensures slots == old(slots)[idx := slot] && On() == old(On())
    {
      var flag := new BusyFlag(false);
      slot := Slot(texture, shape, flag);
      slots := slots[idx := slot];
      assert slots[idx] in slots;
      forall f | f in old(On())
        ensures f in On()
      {
        var k :| 0 <= k < SEND_SLOTS && old(slots[k].busy) == f;
        assert slots[k] == old(slots[k]) && slots[k] in slots;
      }
    }

    method Raise(idx: nat)
      requires idx < |slots|
      modifies slots[idx].busy
      ensures On() == old(On()) + {slots[idx].busy}
    {
      assert slots[idx] in slots;
      slots[idx].busy.on := true;
    }
  }

  /** A mailbox that keeps the latest picture. */
  class VideoMailbox {
    var slot: Option<SendCmd>
    var drops: nat

    constructor ()
      ensures slot.None? && drops == 0
    {
      slot := None;
      drops := 0;
    }

    method Publish(cmd: SendCmd)
      modifies this, FlagsIn(slot)
      ensures slot == Some(cmd)
      ensures drops == old(drops) + (if old(slot).Some? then 1 else 0)
      ensures forall f :: f in FlagsIn(old(slot)) ==> !f.on
    {
      var prev := slot;
      slot := Some(cmd);
      if prev.Some? {
        assert forall f :: f in prev.value.Flags() ==> f in FlagsIn(prev);
        ReleaseSendCmd(prev.value);
        assert forall f :: f in FlagsIn(prev) ==> f in prev.value.Flags();
        drops := drops + 1;
      }
    }

    method Take() returns (cmd: Option<SendCmd>)
      modifies this
      ensures cmd == old(slot) && slot.None? && drops == old(drops)
    {
      cmd := slot;
      slot := None;
    }
  }

  /** The part of `ProgramSender` that keeps a slot while its encode is pending. */
  class ProgramSender {
    var pendingGpuBusy: Option<BusyFlag>

    constructor ()
      ensures pendingGpuBusy.None?
    {
      pendingGpuBusy := None;
    }

    method ReleasePendingGpu()
      modifies this, PendingFlags(pendingGpuBusy)
      ensures pendingGpuBusy.None?
      ensures forall f :: f in PendingFlags(old(pendingGpuBusy)) ==> !f.on
    {
      var pending := pendingGpuBusy;
      pendingGpuBusy := None;
      if pending.Some? {
        pending.value.on := false;
      }
    }

    /** `sdkOk` is the outcome of the foreign send call. */
    method SendVideoTexture(sdkOk: bool, busy: BusyFlag) returns (ok: bool)
      modifies this, PendingFlags(pendingGpuBusy), busy
      ensures ok == sdkOk
      ensures pendingGpuBusy == if ok then Some(busy) else None
      ensures forall f :: f in PendingFlags(old(pendingGpuBusy)) ==> !f.on
      ensures if ok && busy !in PendingFlags(old(pendingGpuBusy)) then busy.on == old(busy.on) else !busy.on
    {
      ok := sdkOk;
      ReleasePendingGpu();
      if ok {
        pendingGpuBusy := Some(busy);
      } else {
        busy.on := false;
      }
    }

    method FlushGpuEncode()
      modifies this, PendingFlags(pendingGpuBusy)
      ensures pendingGpuBusy.None?
      ensures forall f :: f in PendingFlags(old(pendingGpuBusy)) ==> !f.on
    {
      ReleasePendingGpu();
    }
  }

  /** One output: its ring, its mailbox, its sender and the locals of the two threads. */
  class Line {
    const ring: GpuSendRing
    const mailbox: VideoMailbox
    const sender: ProgramSender
    var producer: Option<SendCmd>
    var hand: Option<SendCmd>
    var lastCpu: Option<SendCmd>
    var stopped: bool

    constructor (shape: Shape, textures: nat)
      ensures Inv(View()) && Initial(View())
      ensures fresh(ring) && fresh(mailbox) && fresh(sender) && fresh(ring.Flags())
    {
      ring := new GpuSendRing(shape, textures);
      mailbox := new VideoMailbox();
      sender := new ProgramSender();
      producer, hand, lastCpu, stopped := None, None, None, false;
    }

    ghost function Objects(): set<object>
      reads this, ring
    {
      {this, ring, mailbox, sender} + ring.Flags()
    }

    ghost function View(): Pipe
      reads this, ring, mailbox, sender, ring.Flags()
    {
      Pipe(ring.slots, ring.next, ring.On(), producer, mailbox.slot, mailbox.drops, lastCpu, hand,
           sender.pendingGpuBusy, None, stopped)
    }

    /** `push_gpu_encode` */
    method CopyPicture(shape: Shape, copySrc: bool, texture: nat)
      requires Inv(View()) && producer.None?
      requires forall s :: s in ring.slots ==> s.texture != texture
      modifies Objects()
      ensures Inv(View())
      ensures if producer.None? then View() == old(View())
              else producer.value.GpuVideo? && View() == Copying(old(View()), shape, texture, producer.value.busy)
      ensures producer.None? <==>
        !copySrc || shape.width < 16 || shape.height < 16 ||
        (FlagsIn(mailbox.slot) != {} && FlagsIn(hand) != {} && PendingFlags(sender.pendingGpuBusy) != {})
      ensures producer.Some? ==>
        exists k :: 0 <= k < 3 && old(ring.FirstFree(k)) &&
                    ring.Lent(k, old(ring.slots), shape, texture, producer.value)
      ensures mailbox.slot == old(mailbox.slot) && mailbox.drops == old(mailbox.drops) && hand == old(hand)
      ensures lastCpu == old(lastCpu) && sender.pendingGpuBusy == old(sender.pendingGpuBusy) && stopped == old(stopped)
    {
      ghost var p := View();
      CopyFailsIff(p);
      CopyToProducer(shape, copySrc, texture);
      if producer.Some? {
        CopyingKeepsInv(p, shape, texture, producer.value.busy);
      }
    }

    /** The copy and the producer's local that receives it. */
    method CopyToProducer(shape: Shape, copySrc: bool, texture: nat)
      requires RingOk(ring.slots, ring.next) && producer.None?
      modifies this`producer, ring, ring.Flags()
      ensures producer.Some? <==> copySrc && Free(old(View()), 0).Some? && shape.width >= 16 && shape.height >= 16
      ensures if producer.None? then View() == old(View())
              else producer.value.GpuVideo? && View() == Copying(old(View()), shape, texture, producer.value.busy)
      ensures producer.Some? ==>
        old(ring.slots)[Free(old(View()), 0).value].shape == shape || fresh(producer.value.busy)
      ensures producer.Some? ==>
        exists k :: 0 <= k < 3 && old(ring.FirstFree(k)) &&
                    ring.Lent(k, old(ring.slots), shape, texture, producer.value)
    {
      ghost var p := View();
      producer := ring.Copy(shape, copySrc, texture, p);
    }

    /** `emit_gpu_encode` */
    method PublishPicture(pts: int, fpsN: nat, fpsD: nat)
      requires Inv(View()) && producer.Some?
      modifies Objects()
      ensures View() == Next(old(View()), Publish(pts, fpsN, fpsD)) && Inv(View())
      ensures mailbox.slot.Some? && Restamped(old(producer).value, mailbox.slot.value, pts, fpsN, fpsD)
      ensures producer.None? && Displaces(old(View()))
    {
      PublishKeepsInv(View(), Publish(pts, fpsN, fpsD));
      FlagsAreInRing(View());
      Deliver(Retimestamp(producer.value, pts, fpsN, fpsD));
      producer := None;
    }

    method PublishCpuPicture(cmd: SendCmd)
      requires Inv(View()) && cmd.Video?
      modifies Objects()
      ensures View() == Next(old(View()), PublishCpu(cmd)) && Inv(View())
      ensures mailbox.slot == Some(cmd) && producer == old(producer) && Displaces(old(View()))
    {
      PublishKeepsInv(View(), PublishCpu(cmd));
      FlagsAreInRing(View());
      Deliver(cmd);
    }

    /** The picture that waited, if any, is counted as dropped and its slot is free; the worker is not touched. */
    ghost predicate Displaces(before: Pipe)
      reads this, ring, mailbox, sender, ring.Flags()
    {
      && ring.On() == before.on - FlagsIn(before.mailbox) && ring.slots == before.slots && ring.next == before.next
      && mailbox.drops == before.drops + (if before.mailbox.Some? then 1 else 0)
      && hand == before.hand && lastCpu == before.lastCpu && sender.pendingGpuBusy == before.pending
    }

    /** Puts a picture into the mailbox and frees the slot of the one it displaces. */
    method Deliver(cmd: SendCmd)
      requires FlagsIn(mailbox.slot) <= ring.Flags()
      modifies mailbox, ring.Flags()
      ensures View() == Publishing(old(View()), cmd)
    {
      ghost var released := FlagsIn(mailbox.slot);
      mailbox.Publish(cmd);
      assert forall f :: f in ring.Flags() && f !in released ==> f.on == old(f.on);
    }

    /** The first half of `dispatch_video_slot`: the latest picture, or the last CPU picture once more. */
    method TakePicture()
      requires Inv(View()) && hand.None? && !stopped
      modifies Objects()
      ensures View() == Next(old(View()), Take) && Inv(View())
      ensures hand == if old(mailbox.slot).Some? then old(mailbox.slot) else old(lastCpu)
      ensures lastCpu == if hand.Some? && hand.value.Video? then hand else old(lastCpu)
      ensures mailbox.slot.None? && mailbox.drops == old(mailbox.drops) && ring.On() == old(ring.On())
      ensures producer == old(producer) && sender.pendingGpuBusy == old(sender.pendingGpuBusy)
    {
      WorkerKeepsInv(View(), Take);
      var incoming := mailbox.Take();
      var cmd := if incoming.Some? then incoming
                 else if lastCpu.Some? then CloneVideoCmd(lastCpu.value) else None;
      hand := cmd;
      if cmd.Some? && CloneVideoCmd(cmd.value).Some? {
        lastCpu := CloneVideoCmd(cmd.value);
      }
    }

    /** The second half: `apply_send_cmd` on the picture stamped for the slot. */
    method SendPicture(sdkOk: bool, pts: int, fpsN: nat, fpsD: nat) returns (sent: SendCmd)
      requires Inv(View()) && hand.Some?
      modifies Objects()
      ensures sent == Retimestamp(old(hand).value, pts, fpsN, fpsD)
      ensures View() == Next(old(View()), if sdkOk then SendOk else SendFails) && Inv(View())
      ensures Restamped(old(hand).value, sent, pts, fpsN, fpsD)
      ensures hand.None? && mailbox.slot == old(mailbox.slot) && producer == old(producer) && lastCpu == old(lastCpu)
      ensures sent.Video? ==>
        ring.On() == old(ring.On()) && sender.pendingGpuBusy == old(sender.pendingGpuBusy)
      ensures sent.GpuVideo? ==>
        && sender.pendingGpuBusy == (if sdkOk then Some(sent.busy) else None)
        && ring.On() == old(ring.On()) - PendingFlags(old(sender.pendingGpuBusy)) - (if sdkOk then {} else {sent.busy})
    {
      WorkerKeepsInv(View(), if sdkOk then SendOk else SendFails);
      FlagsAreInRing(View());
      sent := SendHand(sdkOk, pts, fpsN, fpsD);
    }

    /** Sends what the hand holds; the sender keeps the slot, or it is freed. */
    method SendHand(sdkOk: bool, pts: int, fpsN: nat, fpsD: nat) returns (sent: SendCmd)
      requires hand.Some? && FlagsIn(hand) <= ring.Flags()
      requires PendingFlags(sender.pendingGpuBusy) <= ring.Flags() - FlagsIn(hand)
      modifies this`hand, sender, ring.Flags()
      ensures sent == Retimestamp(old(hand).value, pts, fpsN, fpsD)
      ensures View() == Next(old(View()), if sdkOk then SendOk else SendFails)
      ensures Restamped(old(hand).value, sent, pts, fpsN, fpsD)
      ensures hand.None? && mailbox.slot == old(mailbox.slot) && producer == old(producer) && lastCpu == old(lastCpu)
      ensures sent.Video? ==>
        ring.On() == old(ring.On()) && sender.pendingGpuBusy == old(sender.pendingGpuBusy)
      ensures sent.GpuVideo? ==>
        && sender.pendingGpuBusy == (if sdkOk then Some(sent.busy) else None)
        && ring.On() == old(ring.On()) - PendingFlags(old(sender.pendingGpuBusy)) - (if sdkOk then {} else {sent.busy})
    {
      sent := Retimestamp(hand.value, pts, fpsN, fpsD);
      if sent.GpuVideo? {
        SendTexture(sdkOk, sent.busy);
      }
      hand := None;
    }

    /** The `GpuVideo` arm of `apply_send_cmd`: a failed send stores `false` once more. */
    method SendTexture(sdkOk: bool, busy: BusyFlag)
      requires busy in ring.Flags() && PendingFlags(sender.pendingGpuBusy) <= ring.Flags() - {busy}
      modifies sender, ring.Flags()
      ensures sender.pendingGpuBusy == if sdkOk then Some(busy) else None
      ensures ring.On() == old(ring.On()) - PendingFlags(old(sender.pendingGpuBusy)) - (if sdkOk then {} else {busy})
    {
      ghost var pending := PendingFlags(sender.pendingGpuBusy);
      var ok := sender.SendVideoTexture(sdkOk, busy);
      if !ok {
        busy.on := false;
      }
      assert forall f :: f in ring.Flags() && f !in pending && f != busy ==> f.on == old(f.on);
    }

    method StopWorker()
      requires Inv(View()) && hand.None?
      modifies Objects()
      ensures View() == Next(old(View()), Stop) && Inv(View())
      ensures ring.On() == FlagsIn(producer) && stopped && producer == old(producer)
      ensures mailbox.slot.None? && sender.pendingGpuBusy.None? && hand.None? && lastCpu == old(lastCpu)
    {
      WorkerKeepsInv(View(), Stop);
      StopReleasesAll(View());
      FlagsAreInRing(View());
      Drain();
      stopped := true;
    }

    /** Frees what the mailbox and the encoder still hold. */
    method Drain()
      requires FlagsIn(mailbox.slot) <= ring.Flags() && PendingFlags(sender.pendingGpuBusy) <= ring.Flags()
      modifies mailbox, sender, ring.Flags()
      ensures mailbox.slot.None? && mailbox.drops == old(mailbox.drops) && sender.pendingGpuBusy.None?
      ensures ring.On() ==
        old(ring.On()) - PendingFlags(old(sender.pendingGpuBusy)) - FlagsIn(old(mailbox.slot))
    {
      ghost var held := PendingFlags(sender.pendingGpuBusy) + FlagsIn(mailbox.slot);
      var extra := mailbox.Take();
      sender.FlushGpuEncode();
      if extra.Some? {
        ReleasePicture(extra.value);
      }
      assert forall f :: f in ring.Flags() && f !in held ==> f.on == old(f.on);
    }

    method ReleasePicture(cmd: SendCmd)
      requires FlagsIn(Some(cmd)) <= ring.Flags()
      modifies FlagsIn(Some(cmd))
      ensures forall f :: f in FlagsIn(Some(cmd)) ==> !f.on
    {
      assert forall f :: f in cmd.Flags() ==> f in FlagsIn(Some(cmd));
      ReleaseSendCmd(cmd);
      assert forall f :: f in FlagsIn(Some(cmd)) ==> f in cmd.Flags();
    }

    /** Whatever is held can be released through the ring's flags. */
    lemma FlagsAreInRing(p: Pipe)
      requires Inv(p) && p == View()
      ensures FlagsIn(p.producer) <= ring.Flags() && FlagsIn(p.mailbox) <= ring.Flags()
      ensures FlagsIn(p.hand) <= ring.Flags() && PendingFlags(p.pending) <= ring.Flags()
    {
      assert p.on <= ring.Flags();
    }
  }
}
