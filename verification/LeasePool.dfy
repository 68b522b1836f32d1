/**
 Pools of textures handed out under a lease (mixer/src/convert.rs:7-102, mixer/src/omt.rs:878-983).

 A lease is an `Arc<()>`: the ring slot and every frame that refers to the slot's texture hold a clone,
 and a slot is reused only when its own clone is the last one. Both pools work this way; they
 differ in the limit on their size and in the least width and height.
 */
module LeasePool {
  import opened Arithmetic
  import opened Common

  /** The shared count of one lease. */
  class FrameLease {
    var strong: nat

    constructor ()
      ensures strong == 1
    {
      strong := 1;
    }
  }

  datatype Slot = Slot(texture: nat, shape: Shape, lease: FrameLease)

  /** A frame in use somewhere; clones of a frame carry its handout number. */
  datatype Frame = Frame(handout: nat, texture: nat, lease: FrameLease)

  datatype Pool = Pool(slots: seq<Slot>, live: seq<Frame>, handouts: nat)

  // ----- counting clones -----

  function Clones(live: seq<Frame>, lease: FrameLease): nat {
    if |live| == 0 then 0
    else Clones(live[..|live| - 1], lease) + (if live[|live| - 1].lease == lease then 1 else 0)
  }

  function InRing(slots: seq<Slot>, lease: FrameLease): nat {
    if exists s :: s in slots && s.lease == lease then 1 else 0
  }

  /** `Arc::strong_count` */
  function Strong(p: Pool, lease: FrameLease): nat {
    InRing(p.slots, lease) + Clones(p.live, lease)
  }

  lemma {:induction false} NoClones(live: seq<Frame>, lease: FrameLease)
    ensures Clones(live, lease) == 0 <==> forall f :: f in live ==> f.lease != lease
  {
    if |live| != 0 {
      var n := |live| - 1;
      NoClones(live[..n], lease);
      assert live == live[..n] + [live[n]];
    }
  }

  lemma ClonesPush(live: seq<Frame>, f: Frame, lease: FrameLease)
    ensures Clones(live + [f], lease) == Clones(live, lease) + (if f.lease == lease then 1 else 0)
  {
    assert (live + [f])[..|live|] == live;
  }

  function Without(live: seq<Frame>, i: nat): seq<Frame>
    requires i < |live|
  {
    live[..i] + live[i + 1..]
  }

  lemma {:induction false} ClonesWithout(live: seq<Frame>, i: nat, lease: FrameLease)
    requires i < |live|
    ensures Clones(live, lease) == Clones(Without(live, i), lease) + (if live[i].lease == lease then 1 else 0)
    decreases |live|
  {
    var n := |live| - 1;
    if i == n {
      assert Without(live, i) == live[..n];
    } else {
      ClonesWithout(live[..n], i, lease);
      assert Without(live, i) == Without(live[..n], i) + [live[n]];
      ClonesPush(Without(live[..n], i), live[n], lease);
    }
  }

  // ----- the pool as a value -----

  ghost predicate SlotsOk(slots: seq<Slot>) {
    forall i, j :: 0 <= i < j < |slots| ==>
      slots[i].shape == slots[j].shape && slots[i].lease != slots[j].lease && slots[i].texture != slots[j].texture
  }

  /** A texture belongs to one lease, and the frames on it all stem from one acquisition. */
  ghost predicate Inv(p: Pool) {
    && SlotsOk(p.slots)
    && (forall s, f :: s in p.slots && f in p.live ==> (s.lease == f.lease <==> s.texture == f.texture))
    && (forall f, g :: f in p.live && g in p.live ==> (f.lease == g.lease <==> f.texture == g.texture))
    && (forall f, g :: f in p.live && g in p.live && f.texture == g.texture ==> f.handout == g.handout)
    && (forall f :: f in p.live ==> f.handout < p.handouts)
  }

  function Fitting(slots: seq<Slot>, shape: Shape): seq<Slot> {
    if exists s :: s in slots && s.shape != shape then [] else slots
  }

  /** The first slot that only the ring refers to. */
  function Free(p: Pool, i: nat): (free: Option<nat>)
    requires i <= |p.slots|
    ensures free.Some? ==> i <= free.value < |p.slots| && Strong(p, p.slots[free.value].lease) == 1
    ensures free.None? ==> forall k :: i <= k < |p.slots| ==> Strong(p, p.slots[k].lease) != 1
    ensures free.Some? ==> forall k :: i <= k < free.value ==> Strong(p, p.slots[k].lease) != 1
    decreases |p.slots| - i
  {
    if i == |p.slots| then None
    else if Strong(p, p.slots[i].lease) == 1 then Some(i)
    else Free(p, i + 1)
  }

  function HandOut(p: Pool, i: nat): Pool
    requires i < |p.slots|
  {
    p.(live := p.live + [Frame(p.handouts, p.slots[i].texture, p.slots[i].lease)], handouts := p.handouts + 1)
  }

  /** `acquire_dest` and `JitterRing::copy`; `texture` and `lease` are those of a slot created now. */
  function Acquired(p: Pool, limit: nat, shape: Shape, texture: nat, lease: FrameLease): Pool {
    AcquiredFitting(p.(slots := Fitting(p.slots, shape)), limit, shape, texture, lease)
  }

  /** The same once the slots have the shape. */
  function AcquiredFitting(p: Pool, limit: nat, shape: Shape, texture: nat, lease: FrameLease): Pool {
    var free := Free(p, 0);
    if free.Some? then HandOut(p, free.value)
    else if |p.slots| < limit then HandOut(p.(slots := p.slots + [Slot(texture, shape, lease)]), |p.slots|)
    else p
  }

  ghost predicate IsNew(p: Pool, texture: nat, lease: FrameLease) {
    && (forall s :: s in p.slots ==> s.texture != texture && s.lease != lease)
    && (forall f :: f in p.live ==> f.texture != texture && f.lease != lease)
  }

  lemma UnleasedIsUnused(p: Pool, i: nat)
    requires i < |p.slots| && Strong(p, p.slots[i].lease) == 1
    ensures forall f :: f in p.live ==> f.lease != p.slots[i].lease
  {
    assert p.slots[i] in p.slots;
    NoClones(p.live, p.slots[i].lease);
  }

  lemma HandOutKeepsInv(p: Pool, i: nat)
    requires Inv(p) && i < |p.slots| && Strong(p, p.slots[i].lease) == 1
    ensures Inv(HandOut(p, i))
  {
    UnleasedIsUnused(p, i);
    var q := HandOut(p, i);
    var slot := p.slots[i];
    assert slot in p.slots;
    assert forall f :: f in q.live <==> f in p.live || f == Frame(p.handouts, slot.texture, slot.lease);
    assert forall s :: s in p.slots ==> (s.lease == slot.lease <==> s.texture == slot.texture);
  }

  lemma GrowKeepsInv(p: Pool, shape: Shape, texture: nat, lease: FrameLease)
    requires Inv(p) && IsNew(p, texture, lease) && AllOf(p.slots, shape)
    ensures
      var q := p.(slots := p.slots + [Slot(texture, shape, lease)]);
      Inv(q) && Strong(q, lease) == 1
  {
    NoClones(p.live, lease);
    var q := p.(slots := p.slots + [Slot(texture, shape, lease)]);
    assert q.slots[|p.slots|] in q.slots;
    assert forall s :: s in q.slots <==> s in p.slots || s == Slot(texture, shape, lease);
  }

  ghost predicate AllOf(slots: seq<Slot>, shape: Shape) {
    forall s :: s in slots ==> s.shape == shape
  }

  lemma FittingKeepsInv(p: Pool, shape: Shape)
    requires Inv(p)
    ensures Inv(p.(slots := Fitting(p.slots, shape))) && AllOf(Fitting(p.slots, shape), shape)
  {
  }

  lemma AcquireFittingKeepsInv(p: Pool, limit: nat, shape: Shape, texture: nat, lease: FrameLease)
    requires Inv(p) && IsNew(p, texture, lease) && AllOf(p.slots, shape)
    ensures Inv(AcquiredFitting(p, limit, shape, texture, lease))
  {
    var free := Free(p, 0);
    if free.Some? {
      HandOutKeepsInv(p, free.value);
    } else if |p.slots| < limit {
      GrowKeepsInv(p, shape, texture, lease);
      HandOutKeepsInv(p.(slots := p.slots + [Slot(texture, shape, lease)]), |p.slots|);
    }
  }

  lemma AcquireKeepsInv(p: Pool, limit: nat, shape: Shape, texture: nat, lease: FrameLease)
    requires Inv(p) && IsNew(p, texture, lease)
    ensures Inv(Acquired(p, limit, shape, texture, lease))
    ensures
      var q := Acquired(p, limit, shape, texture, lease);
      |q.slots| <= Max(|p.slots|, limit) && AllOf(q.slots, shape)
  {
    FittingKeepsInv(p, shape);
    AcquireFittingKeepsInv(p.(slots := Fitting(p.slots, shape)), limit, shape, texture, lease);
  }

  // ----- what an acquisition does, in terms of the frames in use -----

  /** Some live frame holds the lease. */
  ghost predicate InUse(live: seq<Frame>, lease: FrameLease) {
    exists f :: f in live && f.lease == lease
  }

  /** The `k`-th slot is the first that no live frame holds. */
  ghost predicate FirstUnused(slots: seq<Slot>, live: seq<Frame>, k: nat) {
    k < |slots| && !InUse(live, slots[k].lease) && forall j :: 0 <= j < k ==> InUse(live, slots[j].lease)
  }

  lemma StrongIffInUse(p: Pool, i: nat)
    requires i < |p.slots|
    ensures Strong(p, p.slots[i].lease) == 1 <==> !InUse(p.live, p.slots[i].lease)
  {
    assert p.slots[i] in p.slots;
    NoClones(p.live, p.slots[i].lease);
  }

  lemma FreeIsFirstUnused(p: Pool)
    ensures Free(p, 0).Some? ==> FirstUnused(p.slots, p.live, Free(p, 0).value)
    ensures Free(p, 0).None? ==> forall k :: 0 <= k < |p.slots| ==> InUse(p.live, p.slots[k].lease)
  {
    forall k | 0 <= k < |p.slots|
      ensures Strong(p, p.slots[k].lease) == 1 <==> !InUse(p.live, p.slots[k].lease)
    {
      StrongIffInUse(p, k);
    }
  }

  /**
   What an acquisition of `shape` leaves. Slots of this shape all stay, and the first unused one is lent; if all
   are in use, a new one is added behind them as long as there is room. Once a slot has another shape, none stays.
   */
  ghost predicate Lends(p: Pool, limit: nat, shape: Shape, texture: nat, frame: Option<Frame>, slots: seq<Slot>) {
    var kept := if forall s :: s in p.slots ==> s.shape == shape then p.slots else [];
    if frame.None? then
      slots == kept && |kept| >= limit && forall k :: 0 <= k < |kept| ==> InUse(p.live, kept[k].lease)
    else if slots == kept then
      exists k: nat :: FirstUnused(kept, p.live, k) && frame.value.texture == kept[k].texture &&
                  frame.value.lease == kept[k].lease
    else
      && slots == kept + [Slot(texture, shape, frame.value.lease)] && frame.value.texture == texture
      && |kept| < limit && forall k :: 0 <= k < |kept| ==> InUse(p.live, kept[k].lease)
  }

  /** The pool after the step and the frame that it added, if any. */
  lemma AcquiredLends(p: Pool, limit: nat, shape: Shape, texture: nat, lease: FrameLease)
    ensures
      var q := Acquired(p, limit, shape, texture, lease);
      if |q.live| == |p.live| then
        q.live == p.live && q.handouts == p.handouts && Lends(p, limit, shape, texture, None, q.slots)
      else
        && q.live == p.live + [q.live[|p.live|]] && q.live[|p.live|].handout == p.handouts
        && q.handouts == p.handouts + 1
        && Lends(p, limit, shape, texture, Some(q.live[|p.live|]), q.slots)
  {
    FittingKeeps(p.slots, shape);
    FreeIsFirstUnused(p.(slots := Fitting(p.slots, shape)));
  }

  lemma FittingKeeps(slots: seq<Slot>, shape: Shape)
    ensures Fitting(slots, shape) == if forall s :: s in slots ==> s.shape == shape then slots else []
  {
  }

  lemma LendsFrame(p: Pool, q: Pool, limit: nat, shape: Shape, texture: nat, frame: Frame)
    requires q == Acquired(p, limit, shape, texture, frame.lease) && q.live == p.live + [frame]
    ensures Lends(p, limit, shape, texture, Some(frame), q.slots)
  {
    AcquiredLends(p, limit, shape, texture, frame.lease);
    assert q.live[|p.live|] == frame;
  }

  lemma LendsNothing(p: Pool, q: Pool, limit: nat, shape: Shape, texture: nat)
    requires q.slots == Fitting(p.slots, shape) && q.live == p.live && |q.slots| >= limit && Free(q, 0).None?
    ensures Lends(p, limit, shape, texture, None, q.slots)
  {
    FittingKeeps(p.slots, shape);
    FreeIsFirstUnused(q);
  }

  /** An acquisition fails exactly when the pool is full of slots of this shape that are all in use. */
  lemma AcquireFailsIff(p: Pool, limit: nat, shape: Shape, texture: nat, lease: FrameLease)
    ensures Acquired(p, limit, shape, texture, lease).handouts == p.handouts <==>
      if forall s :: s in p.slots ==> s.shape == shape then
        |p.slots| >= limit && forall k :: 0 <= k < |p.slots| ==> InUse(p.live, p.slots[k].lease)
      else limit == 0
  {
    FittingKeeps(p.slots, shape);
    FreeIsFirstUnused(p.(slots := Fitting(p.slots, shape)));
  }

  // ----- runs -----

  datatype Step =
    | Acquire(limit: nat, shape: Shape, texture: nat, lease: FrameLease)
    | CloneFrame(i: nat)
    | DropFrame(i: nat)

  ghost predicate Enabled(p: Pool, s: Step) {
    match s
    case Acquire(_, _, texture, lease) => IsNew(p, texture, lease)
    case CloneFrame(i) => i < |p.live|
    case DropFrame(i) => i < |p.live|
  }

  ghost function Next(p: Pool, s: Step): Pool
    requires Enabled(p, s)
  {
    match s
    case Acquire(limit, shape, texture, lease) => Acquired(p, limit, shape, texture, lease)
    case CloneFrame(i) => p.(live := p.live + [p.live[i]])
    case DropFrame(i) => p.(live := Without(p.live, i))
  }

  lemma StepKeepsInv(p: Pool, s: Step)
    requires Inv(p) && Enabled(p, s)
    ensures Inv(Next(p, s))
  {
    match s {
      case Acquire(limit, shape, texture, lease) => AcquireKeepsInv(p, limit, shape, texture, lease);
      case CloneFrame(i) => assert forall f :: f in Next(p, s).live ==> f in p.live;
      case DropFrame(i) => assert forall f :: f in Next(p, s).live ==> f in p.live;
    }
  }

  ghost predicate EnabledRun(p: Pool, steps: seq<Step>)
    decreases |steps|
  {
    |steps| == 0 || (Enabled(p, steps[0]) && EnabledRun(Next(p, steps[0]), steps[1..]))
  }

  ghost function Run(p: Pool, steps: seq<Step>): Pool
    requires EnabledRun(p, steps)
    decreases |steps|
  {
    if |steps| == 0 then p else Run(Next(p, steps[0]), steps[1..])
  }

  /**
   Over every run, through changes of size and format, frames of different acquisitions never share a
   texture, the slots share one shape, and the pool stays within its limit.
   */
  lemma {:induction false} RunKeepsTexturesApart(p: Pool, steps: seq<Step>, limit: nat)
    requires Inv(p) && EnabledRun(p, steps) && |p.slots| <= limit
    requires forall i :: 0 <= i < |steps| && steps[i].Acquire? ==> steps[i].limit <= limit
    ensures
      var q := Run(p, steps);
      && Inv(q) && |q.slots| <= limit
      && (forall i, j :: 0 <= i < |q.live| && 0 <= j < |q.live| && q.live[i].handout != q.live[j].handout ==>
            q.live[i].texture != q.live[j].texture)
    decreases |steps|
  {
    if |steps| != 0 {
      StepKeepsInv(p, steps[0]);
      var s := steps[0];
      if s.Acquire? {
        AcquireKeepsInv(p, s.limit, s.shape, s.texture, s.lease);
      }
      RunKeepsTexturesApart(Next(p, s), steps[1..], limit);
    }
  }

  // ----- the mutable pool -----

  class TexturePool {
    const least: nat          // least width and height: 2 for video, 1 for jitter
    var slots: seq<Slot>
    var nextTexture: nat      // the device names textures in order
    ghost var live: seq<Frame>
    var handouts: nat         // numbers the acquisitions; the program keeps no such count
    ghost var leases: set<FrameLease>

    constructor (least: nat)
      ensures Valid() && View() == Pool([], [], 0)
    {
      this.least := least;
      slots, nextTexture := [], 0;
      live, handouts, leases := [], 0, {};
    }

    ghost function View(): Pool
      reads this
    {
      Pool(slots, live, handouts)
    }

    /** Every count is the number of clones that exist. */
    ghost predicate Valid()
      reads this, leases
    {
      && Inv(View())
      && (forall s :: s in slots ==> s.lease in leases && s.texture < nextTexture)
      && (forall f :: f in live ==> f.lease in leases && f.texture < nextTexture)
      && (forall l :: l in leases ==> l.strong == Strong(View(), l))
    }

    /** Scans for a slot whose lease the ring holds alone. */
    method FindFree() returns (free: Option<nat>)
      requires Valid()
      ensures free == Free(View(), 0)
    {
      for i := 0 to |slots|
        invariant Free(View(), 0) == Free(View(), i)
      {
        assert slots[i] in slots;
        if slots[i].lease.strong == 1 {
          return Some(i);
        }
      }
      free := None;
    }

    /** Dropping the slots drops the ring's clones. */
    method ClearSlots()
      requires Valid()
      modifies this`slots, leases
      ensures Valid() && slots == []
    {
      var dropped := slots;
      slots := [];
      for i := 0 to |dropped|
        invariant slots == []
        invariant CountedWith(dropped[i..])
      {
        DropSlot(dropped, i);
      }
    }

    /** Every count is right if the ring still holds these slots. */
    ghost predicate CountedWith(ring: seq<Slot>)
      reads this, leases
    {
      forall l :: l in leases ==> l.strong == Clones(live, l) + InRing(ring, l)
    }

    method DropSlot(dropped: seq<Slot>, i: nat)
      requires i < |dropped| && SlotsOk(dropped) && dropped[i].lease in leases && CountedWith(dropped[i..])
      modifies leases
      ensures CountedWith(dropped[i + 1..])
    {
      var lease := dropped[i].lease;
      InRingTail(dropped, i);
      lease.strong := lease.strong - 1;
    }

    lemma InRingTail(all: seq<Slot>, i: nat)
      requires i < |all| && SlotsOk(all)
      ensures forall l: FrameLease ::
        InRing(all[i..], l) == InRing(all[i + 1..], l) + (if l == all[i].lease then 1 else 0)
    {
      forall l: FrameLease
        ensures InRing(all[i..], l) == InRing(all[i + 1..], l) + (if l == all[i].lease then 1 else 0)
      {
        assert all[i..] == [all[i]] + all[i + 1..];
        forall s | s in all[i + 1..]
          ensures s.lease != all[i].lease
        {
          var k :| 0 <= k < |all[i + 1..]| && all[i + 1..][k] == s;
          assert all[i + 1 + k] == s;
        }
      }
    }

    /** A frame for a picture of this size, or nothing when every slot is leased. */
    method Acquire(limit: nat, width: nat, height: nat, format: nat) returns (frame: Option<Frame>)
      requires Valid()
      modifies this, leases
      ensures Valid()
      ensures
        var shape := Shape(Max(width, least), Max(height, least), format);
        if frame.Some? then
          && View() == Acquired(old(View()), limit, shape, old(nextTexture), frame.value.lease)
          && live == old(live) + [frame.value]
          && (forall f :: f in old(live) ==> f.texture != frame.value.texture)
        else slots == Fitting(old(slots), shape) && live == old(live) && handouts == old(handouts) &&
             |slots| >= limit && Free(View(), 0).None?
      ensures
        var shape := Shape(if width < least then least else width, if height < least then least else height, format);
        Lends(old(View()), limit, shape, old(nextTexture), frame, slots)
    {
      var shape := Shape(Max(width, least), Max(height, least), format);
      ghost var (before, texture) := (View(), nextTexture);
      frame := AcquireShape(limit, shape);
      if frame.Some? {
        LendsFrame(before, View(), limit, shape, texture, frame.value);
      } else {
        LendsNothing(before, View(), limit, shape, texture);
      }
    }

    /** `acquire_dest` and `JitterRing::copy` for a known shape. */
    method AcquireShape(limit: nat, shape: Shape) returns (frame: Option<Frame>)
      requires Valid()
      modifies this, leases
      ensures Valid()
      ensures
        if frame.Some? then
          && View() == Acquired(old(View()), limit, shape, old(nextTexture), frame.value.lease)
          && live == old(live) + [frame.value]
          && (forall f :: f in old(live) ==> f.texture != frame.value.texture)
        else slots == Fitting(old(slots), shape) && live == old(live) && handouts == old(handouts) &&
             |slots| >= limit && Free(View(), 0).None?
    {
      if exists s :: s in slots && s.shape != shape {
        ClearSlots();
      }
      frame := AcquireFitting(limit, shape);
    }

    /** `acquire_dest` once the slots fit. */
    method AcquireFitting(limit: nat, shape: Shape) returns (frame: Option<Frame>)
      requires Valid() && AllOf(slots, shape)
      modifies this, leases
      ensures Valid()
      ensures
        if frame.Some? then
          && View() == AcquiredFitting(old(View()), limit, shape, old(nextTexture), frame.value.lease)
          && live == old(live) + [frame.value]
          && (forall f :: f in old(live) ==> f.texture != frame.value.texture)
        else View() == old(View()) && |slots| >= limit && Free(View(), 0).None?
    {
      var free := FindFree();
      var lent;
      if free.Some? {
        lent := Lend(free.value);
      } else if |slots| < limit {
        lent := LendNew(shape);
      } else {
        return None;
      }
      frame := Some(lent);
    }

    /** Lends a slot created now. */
    method LendNew(shape: Shape) returns (frame: Frame)
      requires Valid() && AllOf(slots, shape)
      modifies this, leases
      ensures Valid()
      ensures
        var before := old(View());
        var slot := Slot(old(nextTexture), shape, frame.lease);
        View() == HandOut(before.(slots := before.slots + [slot]), |before.slots|)
      ensures live == old(live) + [frame]
      ensures forall f :: f in old(live) ==> f.texture != frame.texture
    {
      var lease := Grow(shape);
      frame := Lend(|slots| - 1);
      assert frame.lease == lease;
    }

    /** Clones the lease of a slot that only the ring refers to. */
    method Lend(index: nat) returns (frame: Frame)
      requires Valid() && index < |slots| && Strong(View(), slots[index].lease) == 1
      modifies this`live, this`handouts, leases
      ensures Valid() && View() == HandOut(old(View()), index)
      ensures live == old(live) + [frame] && frame.lease == slots[index].lease
      ensures forall f :: f in old(live) ==> f.texture != frame.texture
    {
      var slot := slots[index];
      assert slot in slots;
      ghost var q := HandOut(View(), index);
      UnleasedIsUnused(View(), index);
      HandOutKeepsInv(View(), index);
      frame := Frame(handouts, slot.texture, slot.lease);
      handouts := handouts + 1;
      assert forall l :: l in leases ==> l.strong == InRing(slots, l) + Clones(live, l);
      Share(frame);
      assert View() == q;
    }

    /** Appends a slot created now, under a lease that only the ring holds. */
    method Grow(shape: Shape) returns (lease: FrameLease)
      requires Valid() && AllOf(slots, shape)
      modifies this
      ensures Valid() && live == old(live) && handouts == old(handouts) && leases == old(leases) + {lease}
      ensures fresh(lease) && slots == old(slots) + [Slot(old(nextTexture), shape, lease)]
      ensures Strong(View(), lease) == 1
    {
      lease := new FrameLease();
      GrowKeepsInv(View(), shape, nextTexture, lease);
      ghost var before := slots;
      slots := slots + [Slot(nextTexture, shape, lease)];
      nextTexture := nextTexture + 1;
      leases := leases + {lease};
      NoClones(live, lease);
      forall l | l in leases
        ensures l.strong == Strong(View(), l)
      {
        InRingGrows(before, slots[|before|], l);
      }
    }

    lemma InRingGrows(ring: seq<Slot>, slot: Slot, l: FrameLease)
      ensures InRing(ring + [slot], l) == if l == slot.lease then 1 else InRing(ring, l)
    {
      var grown := ring + [slot];
      assert grown[|ring|] == slot;
      assert forall s :: s in grown <==> s in ring || s == slot;
    }

    /** One more clone of a lease in use. */
    method Share(frame: Frame)
      requires frame.lease in leases && frame.texture < nextTexture
      requires forall l :: l in leases ==> l.strong == Strong(View(), l)
      modifies this`live, leases
      ensures live == old(live) + [frame]
      ensures forall l :: l in leases ==> l.strong == Strong(View(), l)
    {
      frame.lease.strong := frame.lease.strong + 1;
      forall l | l in leases
        ensures Clones(live + [frame], l) == Clones(live, l) + (if frame.lease == l then 1 else 0)
      {
        ClonesPush(live, frame, l);
      }
      live := live + [frame];
    }

    method CloneFrame(frame: Frame)
      requires Valid() && frame in live
      modifies this`live, leases
      ensures Valid() && live == old(live) + [frame] && slots == old(slots)
    {
      Share(frame);
    }

    method DropFrame(ghost i: nat, frame: Frame)
      requires Valid() && i < |live| && live[i] == frame
      modifies this`live, leases
      ensures Valid() && View() == Next(old(View()), Step.DropFrame(i))
    {
      assert frame in live;
      forall l | l in leases
        ensures Clones(live, l) == Clones(Without(live, i), l) + (if frame.lease == l then 1 else 0)
      {
        ClonesWithout(live, i, l);
      }
      frame.lease.strong := frame.lease.strong - 1;
      live := Without(live, i);
      assert forall f :: f in live ==> f in old(live);
    }
  }
}
