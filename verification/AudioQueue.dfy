/** The bounded mailbox between the audio graph and an output worker (mixer/src/frame_hub.rs:111-145). */
module AudioQueue {
  import opened Arithmetic

  const AUDIO_CAP: nat := 16

  type Packet = nat

  /** The queue after one push; the oldest packet gives way when it is full. */
  function Pushed(q: seq<Packet>, p: Packet): seq<Packet> {
    (if |q| >= AUDIO_CAP then q[1..] else q) + [p]
  }

  function PushedAll(q: seq<Packet>, packets: seq<Packet>): seq<Packet>
    decreases |packets|
  {
    if |packets| == 0 then q else PushedAll(Pushed(q, packets[0]), packets[1..])
  }

  function Drops(q: seq<Packet>, packets: seq<Packet>): nat
    decreases |packets|
  {
    if |packets| == 0 then 0
    else (if |q| >= AUDIO_CAP then 1 else 0) + Drops(Pushed(q, packets[0]), packets[1..])
  }

  /** Only the newest packets survive, in order, and every other one is counted as dropped. */
  lemma {:induction false} NewestSurvive(q: seq<Packet>, packets: seq<Packet>)
    requires |q| <= AUDIO_CAP
    ensures Drops(q, packets) == Max(|q| + |packets| - 16, 0)
    ensures PushedAll(q, packets) == (q + packets)[Drops(q, packets)..]
    decreases |packets|
  {
    if |packets| == 0 {
      assert q + packets == q;
    } else {
      var (p, rest) := (packets[0], packets[1..]);
      NewestSurvive(Pushed(q, p), rest);
      if |q| >= AUDIO_CAP {
        assert Pushed(q, p) + rest == (q + packets)[1..];
      } else {
        assert Pushed(q, p) + rest == q + packets;
      }
    }
  }

  class AudioMailbox {
    var q: seq<Packet>
    var drops: nat

    constructor ()
      ensures q == [] && drops == 0
    {
      q, drops := [], 0;
    }

    method Push(packet: Packet)
      requires |q| <= AUDIO_CAP
      modifies this
      ensures q == Pushed(old(q), packet) && |q| <= AUDIO_CAP
      ensures drops == old(drops) + Drops(old(q), [packet])
      ensures q == (old(q) + [packet])[if |old(q)| >= 16 then 1 else 0..]
      ensures drops == old(drops) + if |old(q)| >= 16 then 1 else 0
    {
      assert [packet][1..] == [];
      if |q| >= AUDIO_CAP {
        q := q[1..];
        drops := drops + 1;
      }
      q := q + [packet];
    }

    method Drain() returns (packets: seq<Packet>)
      modifies this
      ensures packets == old(q) && q == [] && drops == old(drops)
    {
      packets := q;
      q := [];
    }
  }
}
