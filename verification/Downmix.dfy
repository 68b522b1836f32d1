/** Planar audio of any channel count to interleaved stereo (mixer/src/audio_in.rs:33-81), in real arithmetic. */
module Downmix {

  /** The square root of one half. */
  const CENTER_AND_SURROUND: real := 0.70710678

  datatype Sample = Finite(value: real) | NonFinite

  /** Sample `i` of a channel; what is missing or not finite is silence. */
  function Plane(planar: seq<Sample>, frames: nat, channel: nat, i: nat): real {
    var k := channel * frames + i;
    if 0 <= k < |planar| && planar[k].Finite? then planar[k].value else 0.0
  }

  function Norm(pairs: nat): real {
    1.0 / (1.0 + CENTER_AND_SURROUND * (1.0 + pairs as real))
  }

  /** The stereo frame of one sample position, `side` 0 for left and 1 for right. */
  function Mixed(planar: seq<Sample>, frames: nat, channels: nat, i: nat, side: nat): real {
    if channels == 0 then 0.0
    else if channels == 1 then Plane(planar, frames, 0, i)
    else if channels == 6 || channels == 8 then
      var front := Plane(planar, frames, side, i) + Plane(planar, frames, 2, i) * CENTER_AND_SURROUND;
      var first := front + Plane(planar, frames, 4 + side, i) * CENTER_AND_SURROUND;
      if channels == 6 then first * Norm(1)
      else (first + Plane(planar, frames, 6 + side, i) * CENTER_AND_SURROUND) * Norm(2)
    else Plane(planar, frames, side, i)
  }

  /** What stands at place `k` of the packet. */
  ghost function Heard(planar: seq<Sample>, k: nat): real {
    if k < |planar| && planar[k].Finite? then planar[k].value else 0.0
  }

  /**
   The mix as one equation for each layout: L R C LFE Ls Rs for six channels, L R C LFE Lb Rb Ls Rs for eight,
   and the first two channels, or the only one twice, for the others.
   */
  ghost predicate Downmixed(planar: seq<Sample>, n: nat, channels: nat, i: nat, left: real, right: real) {
    var c := 0.70710678;
    if channels == 0 then left == right == 0.0
    else if channels == 1 then left == right == Heard(planar, i)
    else if channels == 6 then
      && (1.0 + 2.0 * c) * left ==
         Heard(planar, i) + c * Heard(planar, 2 * n + i) + c * Heard(planar, 4 * n + i)
      && (1.0 + 2.0 * c) * right ==
         Heard(planar, n + i) + c * Heard(planar, 2 * n + i) + c * Heard(planar, 5 * n + i)
    else if channels == 8 then
      && (1.0 + 3.0 * c) * left ==
         Heard(planar, i) + c * Heard(planar, 2 * n + i) + c * Heard(planar, 4 * n + i) + c * Heard(planar, 6 * n + i)
      && (1.0 + 3.0 * c) * right ==
         Heard(planar, n + i) + c * Heard(planar, 2 * n + i) + c * Heard(planar, 5 * n + i) +
         c * Heard(planar, 7 * n + i)
    else left == Heard(planar, i) && right == Heard(planar, n + i)
  }

  lemma NormCancels(x: real, pairs: nat)
    requires pairs == 1 || pairs == 2
    ensures (1.0 + (1.0 + pairs as real) * 0.70710678) * (x * Norm(pairs)) == x
  {
    var d := 1.0 + CENTER_AND_SURROUND * (1.0 + pairs as real);
    assert d * (1.0 / d) == 1.0;
    assert d * (x * (1.0 / d)) == x * (d * (1.0 / d));
  }

  lemma SixMixed(planar: seq<Sample>, n: nat, i: nat, side: nat)
    requires side <= 1
    ensures
      var c := 0.70710678;
      (1.0 + 2.0 * c) * Mixed(planar, n, 6, i, side) ==
      Plane(planar, n, side, i) + c * Plane(planar, n, 2, i) + c * Plane(planar, n, 4 + side, i)
  {
    var c := CENTER_AND_SURROUND;
    NormCancels(Plane(planar, n, side, i) + Plane(planar, n, 2, i) * c + Plane(planar, n, 4 + side, i) * c, 1);
  }

  lemma EightMixed(planar: seq<Sample>, n: nat, i: nat, side: nat)
    requires side <= 1
    ensures
      var c := 0.70710678;
      (1.0 + 3.0 * c) * Mixed(planar, n, 8, i, side) ==
      Plane(planar, n, side, i) + c * Plane(planar, n, 2, i) + c * Plane(planar, n, 4 + side, i) +
      c * Plane(planar, n, 6 + side, i)
  {
    var c := CENTER_AND_SURROUND;
    NormCancels(Plane(planar, n, side, i) + Plane(planar, n, 2, i) * c + Plane(planar, n, 4 + side, i) * c +
                Plane(planar, n, 6 + side, i) * c, 2);
  }

  lemma MixedIsDownmixed(planar: seq<Sample>, frames: nat, channels: nat, i: nat)
    ensures Downmixed(planar, frames, channels, i, Mixed(planar, frames, channels, i, 0),
                      Mixed(planar, frames, channels, i, 1))
  {
    if channels == 6 {
      SixMixed(planar, frames, i, 0);
      SixMixed(planar, frames, i, 1);
    } else if channels == 8 {
      EightMixed(planar, frames, i, 0);
      EightMixed(planar, frames, i, 1);
    }
  }

  method PlanarToStereo(planar: seq<Sample>, frames: nat, channels: nat) returns (out: seq<real>)
    ensures |out| == frames * 2
    ensures forall i :: 0 <= i < frames ==>
      out[2 * i] == Mixed(planar, frames, channels, i, 0) && out[2 * i + 1] == Mixed(planar, frames, channels, i, 1)
    ensures forall i :: 0 <= i < frames ==> Downmixed(planar, frames, channels, i, out[2 * i], out[2 * i + 1])
  {
    out := Mix(planar, frames, channels);
    forall i | 0 <= i < frames
      ensures Downmixed(planar, frames, channels, i, out[2 * i], out[2 * i + 1])
    {
      MixedIsDownmixed(planar, frames, channels, i);
    }
  }

  /** The body of `planar_to_stereo`. */
  method Mix(planar: seq<Sample>, frames: nat, channels: nat) returns (out: seq<real>)
    ensures |out| == frames * 2
    ensures forall i :: 0 <= i < frames ==>
      out[2 * i] == Mixed(planar, frames, channels, i, 0) && out[2 * i + 1] == Mixed(planar, frames, channels, i, 1)
  {
    if channels == 0 {
      out := seq(frames * 2, _ => 0.0);
      return;
    }
    out := [];
    for i := 0 to frames
      invariant |out| == i * 2
      invariant forall j :: 0 <= j < i ==>
        out[2 * j] == Mixed(planar, frames, channels, j, 0) && out[2 * j + 1] == Mixed(planar, frames, channels, j, 1)
    {
      var left, right;
      if channels == 1 {
        left := Plane(planar, frames, 0, i);
        right := left;
      } else if channels == 6 || channels == 8 {
        left, right := Surround(planar, frames, channels, i);
      } else {
        left, right := Plane(planar, frames, 0, i), Plane(planar, frames, 1, i);
      }
      out := out + [left] + [right];
    }
  }

  method Surround(planar: seq<Sample>, frames: nat, channels: nat, i: nat) returns (left: real, right: real)
    requires channels == 6 || channels == 8
    ensures left == Mixed(planar, frames, channels, i, 0) && right == Mixed(planar, frames, channels, i, 1)
  {
    var pairs := if channels == 6 then [(4, 5)] else [(4, 5), (6, 7)];
    var center := Plane(planar, frames, 2, i) * CENTER_AND_SURROUND;
    left := Plane(planar, frames, 0, i) + center;
    right := Plane(planar, frames, 1, i) + center;
    left := left + Plane(planar, frames, pairs[0].0, i) * CENTER_AND_SURROUND;
    right := right + Plane(planar, frames, pairs[0].1, i) * CENTER_AND_SURROUND;
    if |pairs| == 2 {
      left := left + Plane(planar, frames, pairs[1].0, i) * CENTER_AND_SURROUND;
      right := right + Plane(planar, frames, pairs[1].1, i) * CENTER_AND_SURROUND;
    }
    left := left * Norm(|pairs|);
    right := right * Norm(|pairs|);
  }

  lemma ScaleDown(x: real, bound: real)
    requires 0.0 < bound && -bound <= x <= bound
    ensures -1.0 <= x * (1.0 / bound) <= 1.0
  {
    var r := 1.0 / bound;
    assert bound * r == 1.0;
    assert x * r <= bound * r;
    assert -bound * r <= x * r;
  }

  predicate Small(x: real) {
    -1.0 <= x <= 1.0
  }

  /** A signal within full scale stays within full scale, for every channel count. */
  lemma CannotClip(planar: seq<Sample>, frames: nat, channels: nat, i: nat, side: nat)
    requires side <= 1
    requires forall k :: 0 <= k < |planar| && planar[k].Finite? ==> Small(planar[k].value)
    ensures Small(Mixed(planar, frames, channels, i, side))
  {
    if channels == 6 || channels == 8 {
      var front := Plane(planar, frames, side, i) + Plane(planar, frames, 2, i) * CENTER_AND_SURROUND;
      var first := front + Plane(planar, frames, 4 + side, i) * CENTER_AND_SURROUND;
      ScaleDown(first, 1.0 + CENTER_AND_SURROUND * (1.0 + 1.0));
      if channels == 8 {
        ScaleDown(first + Plane(planar, frames, 6 + side, i) * CENTER_AND_SURROUND,
                  1.0 + CENTER_AND_SURROUND * (1.0 + 2.0));
      }
    }
  }

  /** A full-scale signal on all channels is not attenuated: the normalisation is as large as it can be. */
  lemma FullScaleReachesFullScale(planar: seq<Sample>, frames: nat, channels: nat, i: nat, side: nat)
    requires side <= 1 && 0 < channels
    requires forall c :: 0 <= c < 8 ==> Plane(planar, frames, c, i) == 1.0
    ensures Mixed(planar, frames, channels, i, side) == 1.0
  {
    assert Plane(planar, frames, 0, i) == 1.0 && Plane(planar, frames, 1, i) == 1.0;
  }

  /**
   In a surround mix a side hears its own front and surround channels and the centre, never the LFE or the
   other side.
   */
  lemma SidesStayApart(a: seq<Sample>, b: seq<Sample>, frames: nat, channels: nat, i: nat, side: nat)
    requires side <= 1 && (channels == 6 || channels == 8)
    requires forall c :: c in {side, 2, 4 + side, 6 + side} ==> Plane(a, frames, c, i) == Plane(b, frames, c, i)
    ensures Mixed(a, frames, channels, i, side) == Mixed(b, frames, channels, i, side)
  {
    assert Plane(a, frames, side, i) == Plane(b, frames, side, i) && Plane(a, frames, 2, i) == Plane(b, frames, 2, i);
    assert Plane(a, frames, 4 + side, i) == Plane(b, frames, 4 + side, i);
    assert Plane(a, frames, 6 + side, i) == Plane(b, frames, 6 + side, i);
  }
}
