/**
 The streaming resampler to 48 kHz stereo (mixer/src/audio_in.rs:98-152).

 Samples are reals. The position of the next output sample is kept exactly, in units of
 1/48000 source frame: one output sample advances it by the source rate, one source frame is
 `MIX_RATE` units.
 */
module Resampler {
  import opened Arithmetic

  const MIX_RATE: int := 48_000

  type Frame = (real, real)

  datatype State = State(prev: Frame, phase: nat, started: bool, rate: nat)

  const INITIAL: State := State((0.0, 0.0), 0, false, 0)

  function Lerp(a: real, b: real, t: real): real {
    a + (b - a) * t
  }

  /** The source frame before frame `i` of a packet; `prev` precedes the packet. */
  function Before(prev: Frame, input: seq<Frame>, i: nat): Frame
    requires i <= |input|
  {
    if i == 0 then prev else input[i - 1]
  }

  function Fraction(pos: nat): real {
    (pos % MIX_RATE) as real / MIX_RATE as real
  }

  function Sample(prev: Frame, input: seq<Frame>, pos: nat): Frame
    requires pos / MIX_RATE < |input|
  {
    var a := Before(prev, input, pos / MIX_RATE);
    var b := input[pos / MIX_RATE];
    (Lerp(a.0, b.0, Fraction(pos)), Lerp(a.1, b.1, Fraction(pos)))
  }

  /** Output samples at `pos`, `pos + step`, ... while they lie inside the packet. */
  function Emit(prev: Frame, input: seq<Frame>, pos: nat, step: nat): seq<Frame>
    requires 0 < step
    decreases |input| * MIX_RATE - pos
  {
    if pos >= |input| * MIX_RATE then []
    else [Sample(prev, input, pos)] + Emit(prev, input, pos + step, step)
  }

  /** The first position outside the packet. */
  function EndPos(limit: nat, pos: nat, step: nat): (end: nat)
    requires 0 < step
    ensures limit <= end && (pos < limit ==> end < limit + step) && (limit <= pos ==> end == pos)
    decreases limit - pos
  {
    if pos >= limit then pos else EndPos(limit, pos + step, step)
  }

  /** What one packet of frames does to the carried state, and what it appends. */
  function Processed(s: State, input: seq<Frame>, srcRate: nat): (State, seq<Frame>)
    requires 0 < srcRate
  {
    if |input| == 0 then (s, [])
    else if srcRate == MIX_RATE then (INITIAL, input)
    else Resampled(Ready(s, input[0], srcRate), input)
  }

  /** The state in which the sample loop starts. */
  function Ready(s: State, first: Frame, srcRate: nat): (q: State)
    ensures q.started && q.rate == srcRate
  {
    State(if s.started then s.prev else first, if s.rate == srcRate then s.phase else 0, true, srcRate)
  }

  function Resampled(s: State, input: seq<Frame>): (State, seq<Frame>)
    requires 0 < s.rate && |input| != 0
  {
    (s.(prev := input[|input| - 1], phase := Carry(|input|, s.phase, s.rate)), Emit(s.prev, input, s.phase, s.rate))
  }

  // ----- the mutable resampler, on interleaved samples -----

  /** Whole frames of an interleaved buffer. */
  function Frames(samples: seq<real>): (frames: seq<Frame>)
    ensures |frames| == |samples| / 2
  {
    seq(|samples| / 2, i requires 0 <= i < |samples| / 2 => (samples[2 * i], samples[2 * i + 1]))
  }

  /** The interleaved form of frames. */
  function Interleave(frames: seq<Frame>): seq<real> {
    if |frames| == 0 then []
    else
      var last := frames[|frames| - 1];
      Interleave(frames[..|frames| - 1]) + [last.0] + [last.1]
  }

  /** Left samples at even places, right ones at odd places. */
  lemma FramesAre(samples: seq<real>, i: nat)
    requires i < |samples| / 2
    ensures Frames(samples)[i].0 == samples[2 * i] && Frames(samples)[i].1 == samples[2 * i + 1]
  {
  }

  lemma {:induction false} InterleaveAt(frames: seq<Frame>, i: nat)
    requires i < |frames|
    ensures |Interleave(frames)| == 2 * |frames|
    ensures Interleave(frames)[2 * i] == frames[i].0 && Interleave(frames)[2 * i + 1] == frames[i].1
    decreases |frames|
  {
    var n := |frames| - 1;
    if i < n {
      InterleaveAt(frames[..n], i);
    } else if n != 0 {
      InterleaveAt(frames[..n], 0);
    }
  }

  lemma InterleaveAppend(frames: seq<Frame>, f: Frame)
    ensures Interleave(frames + [f]) == Interleave(frames) + [f.0] + [f.1]
  {
    assert (frames + [f])[..|frames|] == frames;
  }

  /** Interleaving whole frames gives back the buffer, without an odd sample at its end. */
  lemma {:induction false} InterleaveFrames(samples: seq<real>)
    ensures Interleave(Frames(samples)) == samples[..|samples| / 2 * 2]
    decreases |samples|
  {
    var n := |samples| / 2;
    if n != 0 {
      var rest := samples[..2 * n - 2];
      InterleaveFrames(rest);
      assert Frames(samples)[..n - 1] == Frames(rest);
      assert samples[..2 * n] == rest + [samples[2 * n - 2]] + [samples[2 * n - 1]];
      assert rest[..(|rest| / 2) * 2] == rest;
    }
  }

  // ----- what the samples are, without the interpolation's own terms -----

  /** Left and right of `out` divide the way from `a` to `b` in the ratio of `r` to the rest of 48000. */
  ghost predicate Mixes(a: Frame, b: Frame, r: nat, out: Frame) {
    && 48_000.0 * out.0 == a.0 * (48_000 - r) as real + b.0 * r as real
    && 48_000.0 * out.1 == a.1 * (48_000 - r) as real + b.1 * r as real
  }

  lemma LerpMixes(a: real, b: real, r: nat)
    ensures 48_000.0 * Lerp(a, b, r as real / MIX_RATE as real) == a * (48_000 - r) as real + b * r as real
  {
    var (t, x) := (r as real / 48_000.0, r as real);
    assert 48_000.0 * t == x;
    assert 48_000.0 * ((b - a) * t) == (b - a) * (48_000.0 * t);
    assert (48_000 - r) as real == 48_000.0 - x;
  }

  lemma SampleMixes(prev: Frame, input: seq<Frame>, pos: nat)
    requires pos / 48_000 < |input|
    ensures
      var k := pos / 48_000;
      Mixes(if k == 0 then prev else input[k - 1], input[k], pos % 48_000, Sample(prev, input, pos))
  {
    var (a, b) := (Before(prev, input, pos / 48_000), input[pos / 48_000]);
    LerpMixes(a.0, b.0, pos % 48_000);
    LerpMixes(a.1, b.1, pos % 48_000);
  }

  /** Where in the packet the first sample lies. */
  ghost function Origin(s: State, srcRate: nat): nat {
    if s.rate == srcRate then s.phase else 0
  }

  /** Output frame `j` mixes the two source frames around its position; before the first there is the carried one. */
  ghost predicate ReadsAt(s: State, input: seq<real>, srcRate: nat, j: nat, out: Frame)
    requires 2 <= |input|
  {
    0 <= j * srcRate &&
    var pos := Origin(s, srcRate) + j * srcRate;
    var k := pos / 48_000;
    k < |input| / 2 &&
    var a := if k != 0 then (input[2 * k - 2], input[2 * k - 1])
             else if s.started then s.prev else (input[0], input[1]);
    Mixes(a, (input[2 * k], input[2 * k + 1]), pos % 48_000, out)
  }

  ghost predicate Reads(s: State, input: seq<real>, srcRate: nat, out: seq<real>)
    requires 2 <= |input|
  {
    |out| % 2 == 0 &&
    forall j :: 0 <= j < |out| / 2 ==> ReadsAt(s, input, srcRate, j, Frames(out)[j])
  }

  /** What a packet gives and what is carried on, on the samples themselves. */
  ghost predicate Converts(s: State, input: seq<real>, srcRate: nat, out: seq<real>, q: State) {
    var frames := |input| / 2;
    if frames == 0 then out == [] && q == s
    else if srcRate == 48_000 then out == input[..frames * 2] && q == State((0.0, 0.0), 0, false, 0)
    else
      && Reads(s, input, srcRate, out)
      && q.started && q.rate == srcRate && q.prev == (input[frames * 2 - 2], input[frames * 2 - 1])
      && Origin(s, srcRate) + |out| / 2 * srcRate == frames * 48_000 + q.phase
      && (Origin(s, srcRate) < frames * 48_000 ==> q.phase < srcRate)
  }

  lemma ProcessedReadsAt(s: State, input: seq<real>, srcRate: nat, j: nat)
    requires 0 < srcRate && srcRate != 48_000 && 2 <= |input| && j < |Processed(s, Frames(input), srcRate).1|
    ensures ReadsAt(s, input, srcRate, j, Processed(s, Frames(input), srcRate).1[j])
  {
    var frs := Frames(input);
    var ready := Ready(s, frs[0], srcRate);
    var pos := ready.phase + j * srcRate;
    EmitAt(ready.prev, frs, ready.phase, srcRate, j);
    SampleMixes(ready.prev, frs, pos);
    if pos / 48_000 != 0 {
      assert frs[pos / 48_000 - 1] == (input[2 * (pos / 48_000) - 2], input[2 * (pos / 48_000) - 1]);
    }
    assert frs[pos / 48_000] == (input[2 * (pos / 48_000)], input[2 * (pos / 48_000) + 1]);
  }

  lemma ProcessedCarries(s: State, input: seq<Frame>, srcRate: nat)
    requires 0 < srcRate && srcRate != 48_000 && 0 < |input|
    ensures
      var (q, frames) := Processed(s, input, srcRate);
      && Origin(s, srcRate) + |frames| * srcRate == |input| * 48_000 + q.phase
      && (Origin(s, srcRate) < |input| * 48_000 ==> q.phase < srcRate)
  {
    var ready := Ready(s, input[0], srcRate);
    EmitEnd(ready.prev, input, ready.phase, srcRate);
  }

  lemma ProcessedReads(s: State, input: seq<real>, srcRate: nat, out: seq<real>)
    requires 0 < srcRate && srcRate != 48_000 && 2 <= |input|
    requires |out| % 2 == 0 && Frames(out) == Processed(s, Frames(input), srcRate).1
    ensures Reads(s, input, srcRate, out)
  {
    forall j | 0 <= j < |out| / 2
      ensures ReadsAt(s, input, srcRate, j, Frames(out)[j])
    {
      ProcessedReadsAt(s, input, srcRate, j);
    }
  }

  lemma ProcessedConverts(s: State, input: seq<real>, srcRate: nat)
    requires 0 < srcRate
    ensures
      var (q, frames) := Processed(s, Frames(input), srcRate);
      Converts(s, input, srcRate, Interleave(frames), q)
  {
    if |input| / 2 != 0 {
      if srcRate == 48_000 {
        InterleaveFrames(input);
      } else {
        var frames := Processed(s, Frames(input), srcRate).1;
        FramesOfInterleave(frames);
        ProcessedCarries(s, Frames(input), srcRate);
        ProcessedReads(s, input, srcRate, Interleave(frames));
      }
    }
  }

  /** Cutting the interleaved form into frames gives them back. */
  lemma FramesOfInterleave(frames: seq<Frame>)
    ensures |Interleave(frames)| == 2 * |frames| && Frames(Interleave(frames)) == frames
  {
    var samples := Interleave(frames);
    if |frames| != 0 {
      InterleaveAt(frames, 0);
    }
    forall j | 0 <= j < |frames|
      ensures Frames(samples)[j] == frames[j]
    {
      InterleaveAt(frames, j);
      FramesAre(samples, j);
    }
  }

  class StreamResampler {
    var prev: Frame
    var phase: nat
    var started: bool
    var rate: nat

    constructor ()
      ensures View() == INITIAL
    {
      prev, phase, started, rate := (0.0, 0.0), 0, false, 0;
    }

    ghost function View(): State
      reads this
    {
      State(prev, phase, started, rate)
    }

    method Reset()
      modifies this
      ensures View() == INITIAL
    {
      prev, phase, started, rate := (0.0, 0.0), 0, false, 0;
    }

    /** `out` is what the call appends to the output buffer. */
    method Process(input: seq<real>, srcRate: nat) returns (out: seq<real>)
      requires 0 < srcRate
      modifies this
      ensures
        var (s, frames) := Processed(old(View()), Frames(input), srcRate);
        View() == s && out == Interleave(frames)
      ensures Converts(old(View()), input, srcRate, out, View())
    {
      ghost var s := View();
      out := Convert(input, srcRate);
      ProcessedConverts(s, input, srcRate);
    }

    /** The body of `process`. */
    method Convert(input: seq<real>, srcRate: nat) returns (out: seq<real>)
      requires 0 < srcRate
      modifies this
      ensures
        var (s, frames) := Processed(old(View()), Frames(input), srcRate);
        View() == s && out == Interleave(frames)
    {
      ghost var frs := Frames(input);
      var frames := |input| / 2;
      if frames == 0 {
        return [];
      }
      if srcRate == MIX_RATE {
        out := input[..frames * 2];
        InterleaveFrames(input);
        Reset();
        return;
      }
      if rate != srcRate {
        rate := srcRate;
        phase := 0;
      }
      if !started {
        prev := (input[0], input[1]);
        started := true;
      }
      var pos;
      out, pos := Resample(input, srcRate);
      phase := pos - frames * MIX_RATE;
      prev := (input[frames * 2 - 2], input[frames * 2 - 1]);
    }

    /** The body of the sample loop: interpolate at `pos`. */
    method SampleAt(input: seq<real>, pos: nat) returns (sample: Frame)
      requires pos / MIX_RATE < |input| / 2
      ensures sample == Sample(prev, Frames(input), pos)
    {
      var index := pos / MIX_RATE;
      var t := (pos - index * MIX_RATE) as real / MIX_RATE as real;
      FractionForm(pos);
      var a := if index == 0 then prev else (input[(index - 1) * 2], input[(index - 1) * 2 + 1]);
      var b := (input[index * 2], input[index * 2 + 1]);
      sample := (Lerp(a.0, b.0, t), Lerp(a.1, b.1, t));
    }

    /** Appends the sample at `pos` to what was emitted before it. */
    method AppendSample(input: seq<real>, pos: nat, step: nat, out: seq<real>, ghost done: seq<Frame>)
      returns (longer: seq<real>, ghost more: seq<Frame>)
      requires 0 < step && pos < |input| / 2 * MIX_RATE && out == Interleave(done)
      ensures longer == Interleave(more)
      ensures more + Emit(prev, Frames(input), pos + step, step) == done + Emit(prev, Frames(input), pos, step)
    {
      IndexInside(pos, |input| / 2);
      var sample := SampleAt(input, pos);
      ResampleStep(done, prev, Frames(input), pos, step, sample);
      longer := out + [sample.0] + [sample.1];
      more := done + [sample];
    }

    /** The sample loop of `process`. */
    method Resample(input: seq<real>, step: nat) returns (out: seq<real>, pos: nat)
      requires 0 < step
      ensures out == Interleave(Emit(prev, Frames(input), phase, step))
      ensures pos == EndPos(|input| / 2 * MIX_RATE, phase, step)
    {
      ghost var frs := Frames(input);
      var limit := |input| / 2 * MIX_RATE;
      out, pos := [], phase;
      ghost var done: seq<Frame> := [];
      ghost var all := Emit(prev, frs, phase, step);
      ghost var end := EndPos(limit, phase, step);
      assert done + all == all;
      while pos < limit
        invariant out == Interleave(done)
        invariant done + Emit(prev, frs, pos, step) == all
        invariant EndPos(limit, pos, step) == end
        decreases limit - pos
      {
        out, done := AppendSample(input, pos, step, out, done);
        pos := pos + step;
      }
      assert done + [] == done;
    }
  }

  lemma FractionForm(pos: nat)
    ensures (pos - pos / MIX_RATE * MIX_RATE) as real / MIX_RATE as real == Fraction(pos)
  {
  }

  lemma EmitHead(prev: Frame, input: seq<Frame>, pos: nat, step: nat)
    requires 0 < step && pos < |input| * MIX_RATE && pos / MIX_RATE < |input|
    ensures Emit(prev, input, pos, step) == [Sample(prev, input, pos)] + Emit(prev, input, pos + step, step)
  {
  }

  lemma AppendCons(done: seq<Frame>, x: Frame, rest: seq<Frame>)
    ensures done + ([x] + rest) == done + [x] + rest
  {
  }

  /** One turn of the sample loop, with `done` emitted before. */
  lemma ResampleStep(done: seq<Frame>, prev: Frame, input: seq<Frame>, pos: nat, step: nat, sample: Frame)
    requires 0 < step && pos < |input| * MIX_RATE && pos / MIX_RATE < |input| && sample == Sample(prev, input, pos)
    ensures Interleave(done + [sample]) == Interleave(done) + [sample.0] + [sample.1]
    ensures done + Emit(prev, input, pos, step) == done + [sample] + Emit(prev, input, pos + step, step)
  {
    InterleaveAppend(done, sample);
    EmitHead(prev, input, pos, step);
    AppendCons(done, sample, Emit(prev, input, pos + step, step));
  }

  lemma IndexInside(pos: nat, frames: nat)
    requires pos < frames * MIX_RATE
    ensures pos / MIX_RATE < frames
  {
  }

  // ----- packet boundaries do not matter -----

  lemma PosAfter(pos: nat, n: nat)
    requires n * MIX_RATE <= pos
    ensures (pos - n * MIX_RATE) / MIX_RATE == pos / MIX_RATE - n
    ensures (pos - n * MIX_RATE) % MIX_RATE == pos % MIX_RATE
    ensures n <= pos / MIX_RATE
  {
    var k: int := n;
    DivShift(pos, MIX_RATE, -k);
    DivAtLeast(pos, MIX_RATE, n);
  }

  /** Both limits moved by the same distance move the end by it. */
  lemma {:induction false} EndPosShift(limit: nat, pos: nat, step: nat, k: nat)
    requires 0 < step
    ensures EndPos(limit + k, pos + k, step) == EndPos(limit, pos, step) + k
    decreases limit - pos
  {
    if pos < limit {
      EndPosShift(limit, pos + step, step, k);
    }
  }

  /** Running to `near` and on to `far` ends where running to `far` does. */
  lemma {:induction false} EndPosOn(near: nat, far: nat, pos: nat, step: nat)
    requires 0 < step && near <= far
    ensures EndPos(far, EndPos(near, pos, step), step) == EndPos(far, pos, step)
    decreases near - pos
  {
    if pos < near {
      EndPosOn(near, far, pos + step, step);
    }
  }

  lemma EndPosSplit(n: nat, m: nat, pos: nat, step: nat)
    requires 0 < step
    ensures EndPos(n + m, pos, step) == EndPos(m, EndPos(n, pos, step) - n, step) + n
  {
    EndPosOn(n, n + m, pos, step);
    EndPosShift(m, EndPos(n, pos, step) - n, step, n);
  }

  /** A sample past the first packet sees only its last frame. */
  lemma SamplePast(prev: Frame, a: seq<Frame>, b: seq<Frame>, pos: nat)
    requires 0 < |a| && |a| * MIX_RATE <= pos < |a + b| * MIX_RATE
    ensures pos / MIX_RATE < |a + b| && (pos - |a| * MIX_RATE) / MIX_RATE < |b|
    ensures Sample(prev, a + b, pos) == Sample(a[|a| - 1], b, pos - |a| * MIX_RATE)
  {
    PosAfter(pos, |a|);
    IndexInside(pos, |a + b|);
  }

  /** Past the first packet, only its last frame matters. */
  lemma {:induction false} EmitPast(prev: Frame, a: seq<Frame>, b: seq<Frame>, pos: nat, step: nat)
    requires 0 < step && 0 < |a| && |a| * MIX_RATE <= pos
    ensures Emit(prev, a + b, pos, step) == Emit(a[|a| - 1], b, pos - |a| * MIX_RATE, step)
    decreases |a + b| * MIX_RATE - pos
  {
    if pos < |a + b| * MIX_RATE {
      SamplePast(prev, a, b, pos);
      EmitPast(prev, a, b, pos + step, step);
    }
  }

  /** A sample inside the first packet does not see the second. */
  lemma SampleInFirst(prev: Frame, a: seq<Frame>, b: seq<Frame>, pos: nat)
    requires pos < |a| * MIX_RATE
    ensures pos < |a + b| * MIX_RATE && pos / MIX_RATE < |a|
    ensures Sample(prev, a + b, pos) == Sample(prev, a, pos)
  {
    IndexInside(pos, |a|);
  }

  lemma ConsAppend(x: Frame, s: seq<Frame>, t: seq<Frame>)
    ensures [x] + (s + t) == ([x] + s) + t
  {
  }

  lemma {:induction false} EmitSplit(prev: Frame, a: seq<Frame>, b: seq<Frame>, pos: nat, step: nat)
    requires 0 < step && 0 < |a|
    ensures Emit(prev, a + b, pos, step) ==
            Emit(prev, a, pos, step) + Emit(a[|a| - 1], b, Carry(|a|, pos, step), step)
    decreases |a| * MIX_RATE - pos
  {
    if pos >= |a| * MIX_RATE {
      EmitPast(prev, a, b, pos, step);
    } else {
      EmitSplit(prev, a, b, pos + step, step);
      EmitSplitStep(prev, a, b, pos, step);
      var tail := Emit(a[|a| - 1], b, Carry(|a|, pos, step), step);
      ConsAppend(Sample(prev, a, pos), Emit(prev, a, pos + step, step), tail);
    }
  }

  lemma EmitSplitStep(prev: Frame, a: seq<Frame>, b: seq<Frame>, pos: nat, step: nat)
    requires 0 < step && pos < |a| * MIX_RATE
    ensures
      var x := Sample(prev, a, pos);
      && Emit(prev, a + b, pos, step) == [x] + Emit(prev, a + b, pos + step, step)
      && Emit(prev, a, pos, step) == [x] + Emit(prev, a, pos + step, step)
    ensures Carry(|a|, pos, step) == Carry(|a|, pos + step, step)
  {
    SampleInFirst(prev, a, b, pos);
  }

  /** How far past the packet the position is when the loop ends. */
  function Carry(frames: nat, pos: nat, step: nat): nat
    requires 0 < step
  {
    EndPos(frames * MIX_RATE, pos, step) - frames * MIX_RATE
  }

  lemma CarrySplit(n: nat, m: nat, pos: nat, step: nat)
    requires 0 < step
    ensures Carry(n + m, pos, step) == Carry(m, Carry(n, pos, step), step)
  {
    assert (n + m) * MIX_RATE == n * MIX_RATE + m * MIX_RATE;
    EndPosSplit(n * MIX_RATE, m * MIX_RATE, pos, step);
  }

  lemma ResampledSplit(s: State, a: seq<Frame>, b: seq<Frame>)
    requires 0 < s.rate && 0 < |a| && 0 < |b|
    ensures
      var (s1, out1) := Resampled(s, a);
      var (s2, out2) := Resampled(s1, b);
      Resampled(s, a + b) == (s2, out1 + out2)
  {
    EmitSplit(s.prev, a, b, s.phase, s.rate);
    CarrySplit(|a|, |b|, s.phase, s.rate);
    assert |a + b| == |a| + |b| && (a + b)[|a + b| - 1] == b[|b| - 1];
  }

  /** One packet split in two gives the same samples and the same carried state. */
  lemma PacketSplit(s: State, a: seq<Frame>, b: seq<Frame>, srcRate: nat)
    requires 0 < srcRate
    ensures
      var (s1, out1) := Processed(s, a, srcRate);
      var (s2, out2) := Processed(s1, b, srcRate);
      Processed(s, a + b, srcRate) == (s2, out1 + out2)
  {
    if |a| == 0 {
      assert a + b == b;
      assert [] + Processed(s, b, srcRate).1 == Processed(s, b, srcRate).1;
    } else if |b| == 0 {
      assert a + b == a;
      assert Processed(s, a, srcRate).1 + [] == Processed(s, a, srcRate).1;
    } else if srcRate != MIX_RATE {
      ResampledSplit(Ready(s, a[0], srcRate), a, b);
    }
  }

  function Concat(packets: seq<seq<Frame>>): seq<Frame> {
    if |packets| == 0 then [] else packets[0] + Concat(packets[1..])
  }

  function ProcessAll(s: State, packets: seq<seq<Frame>>, srcRate: nat): (State, seq<Frame>)
    requires 0 < srcRate
    decreases |packets|
  {
    if |packets| == 0 then (s, [])
    else
      var (s1, out1) := Processed(s, packets[0], srcRate);
      var (s2, out2) := ProcessAll(s1, packets[1..], srcRate);
      (s2, out1 + out2)
  }

  /** However a stream is cut into packets, short and empty ones included, the result is that of one packet. */
  lemma {:induction false} PacketsDoNotMatter(s: State, packets: seq<seq<Frame>>, srcRate: nat)
    requires 0 < srcRate
    ensures ProcessAll(s, packets, srcRate) == Processed(s, Concat(packets), srcRate)
    decreases |packets|
  {
    if |packets| != 0 {
      PacketsDoNotMatter(Processed(s, packets[0], srcRate).0, packets[1..], srcRate);
      PacketSplit(s, packets[0], Concat(packets[1..]), srcRate);
    }
  }

  // ----- how many samples, and which -----

  function CeilDiv(x: nat, d: nat): nat
    requires 0 < d
  {
    (x + d - 1) / d
  }

  lemma EmitOne(prev: Frame, input: seq<Frame>, pos: nat, step: nat)
    requires 0 < step && pos < |input| * MIX_RATE
    ensures |Emit(prev, input, pos, step)| == |Emit(prev, input, pos + step, step)| + 1
    ensures EndPos(|input| * MIX_RATE, pos, step) == EndPos(|input| * MIX_RATE, pos + step, step)
  {
  }

  lemma MulSuccessor(n: nat, step: nat)
    ensures (n + 1) * step == n * step + step
  {
  }

  lemma {:induction false} EmitEnd(prev: Frame, input: seq<Frame>, pos: nat, step: nat)
    requires 0 < step
    ensures EndPos(|input| * MIX_RATE, pos, step) == pos + |Emit(prev, input, pos, step)| * step
    decreases |input| * MIX_RATE - pos
  {
    if pos < |input| * MIX_RATE {
      EmitEnd(prev, input, pos + step, step);
      EmitOne(prev, input, pos, step);
      MulSuccessor(|Emit(prev, input, pos + step, step)|, step);
    }
  }

  /** The number of steps that first reach `left`. */
  lemma CeilIsFirst(left: nat, step: nat, n: nat)
    requires 0 < step && left <= n * step < left + step
    ensures n == CeilDiv(left, step)
  {
    DivAtLeast(left + step - 1, step, n);
    DivAtMost(left + step - 1, step, n);
    assert (n + 1) * step == n * step + step;
  }

  lemma EmitCount(prev: Frame, input: seq<Frame>, pos: nat, step: nat)
    requires 0 < step && pos < |input| * MIX_RATE
    ensures |Emit(prev, input, pos, step)| == CeilDiv(|input| * MIX_RATE - pos, step)
    ensures EndPos(|input| * MIX_RATE, pos, step) == pos + |Emit(prev, input, pos, step)| * step
  {
    EmitEnd(prev, input, pos, step);
    CeilIsFirst(|input| * MIX_RATE - pos, step, |Emit(prev, input, pos, step)|);
  }

  lemma {:induction false} EmitAt(prev: Frame, input: seq<Frame>, pos: nat, step: nat, j: nat)
    requires 0 < step && j < |Emit(prev, input, pos, step)|
    ensures 0 <= j * step && (pos + j * step) / MIX_RATE < |input|
    ensures Emit(prev, input, pos, step)[j] == Sample(prev, input, pos + j * step)
    decreases j
  {
    IndexInside(pos, |input|);
    if j != 0 {
      EmitAt(prev, input, pos + step, step, j - 1);
      assert (j - 1) * step + step == j * step;
    }
  }

  /** What the stream `x` is worth at output sample `j`: a mix of the two source frames around it. */
  ghost predicate Interpolates(x: seq<Frame>, srcRate: nat, j: nat, out: Frame) {
    0 <= j * srcRate &&
    var (k, r) := (j * srcRate / 48_000, j * srcRate % 48_000);
    k < |x| && Mixes(if k == 0 then x[0] else x[k - 1], x[k], r, out)
  }

  /**
   From a fresh resampler, F source frames at any other rate give ceil(48000 F / rate) output frames
   in any packetisation; sample `j` interpolates at source position `j * rate / 48000`, and the
   carried phase stays below one step.
   */
  lemma WholeStream(packets: seq<seq<Frame>>, srcRate: nat)
    requires 0 < srcRate && srcRate != MIX_RATE && 0 < |Concat(packets)|
    ensures
      var x := Concat(packets);
      var (s, out) := ProcessAll(INITIAL, packets, srcRate);
      && |out| == CeilDiv(48_000 * |x|, srcRate)
      && (forall j :: 0 <= j < |out| ==> Interpolates(x, srcRate, j, out[j]))
      && s == State(x[|x| - 1], |out| * srcRate - 48_000 * |x|, true, srcRate)
      && s.phase < srcRate
  {
    var x := Concat(packets);
    PacketsDoNotMatter(INITIAL, packets, srcRate);
    var out := Processed(INITIAL, x, srcRate).1;
    EmitCount(x[0], x, 0, srcRate);
    forall j | 0 <= j < |out|
      ensures Interpolates(x, srcRate, j, out[j])
    {
      EmitAt(x[0], x, 0, srcRate, j);
      SampleMixes(x[0], x, j * srcRate);
    }
  }

  /** Interpolation never leaves the interval between the neighbouring source samples. */
  lemma SampleBetween(prev: Frame, input: seq<Frame>, pos: nat)
    requires pos / MIX_RATE < |input|
    ensures
      var (a, b, s) := (Before(prev, input, pos / MIX_RATE), input[pos / MIX_RATE], Sample(prev, input, pos));
      Between(a.0, b.0, s.0) && Between(a.1, b.1, s.1)
  {
    var (a, b) := (Before(prev, input, pos / MIX_RATE), input[pos / MIX_RATE]);
    LerpBetween(a.0, b.0, Fraction(pos));
    LerpBetween(a.1, b.1, Fraction(pos));
  }

  predicate Between(a: real, b: real, x: real) {
    a <= x <= b || b <= x <= a
  }

  lemma MulNonnegative(x: real, y: real)
    requires 0.0 <= x && 0.0 <= y
    ensures 0.0 <= x * y
  {
  }

  lemma MulComplement(x: real, t: real)
    ensures x * (1.0 - t) == x - x * t
  {
  }

  lemma LerpRises(a: real, b: real, t: real)
    requires 0.0 <= t <= 1.0 && a <= b
    ensures a <= Lerp(a, b, t) <= b
  {
    MulNonnegative(b - a, t);
    MulNonnegative(b - a, 1.0 - t);
    MulComplement(b - a, t);
  }

  lemma LerpFalls(a: real, b: real, t: real)
    requires 0.0 <= t <= 1.0 && b <= a
    ensures b <= Lerp(a, b, t) <= a
  {
    LerpRises(b, a, 1.0 - t);
    MulComplement(a - b, t);
    assert (b - a) * t == 0.0 - (a - b) * t;
  }

  lemma LerpBetween(a: real, b: real, t: real)
    requires 0.0 <= t <= 1.0
    ensures Between(a, b, Lerp(a, b, t))
  {
    if a <= b {
      LerpRises(a, b, t);
    } else {
      LerpFalls(a, b, t);
    }
  }

  /** At the mixer's own rate a stream passes through unchanged and leaves nothing behind. */
  lemma NativeRatePassesThrough(s: State, packets: seq<seq<Frame>>)
    ensures ProcessAll(s, packets, MIX_RATE).1 == Concat(packets)
    ensures |Concat(packets)| != 0 ==> ProcessAll(s, packets, MIX_RATE).0 == INITIAL
  {
    PacketsDoNotMatter(s, packets, MIX_RATE);
  }
}
