/** Reordering a drained batch of output commands (mixer/src/output.rs:241-285). */
module CommandOrder {
  import opened Common
  import opened SendCommands

  function NonPictures(cmds: seq<SendCmd>): seq<SendCmd> {
    if |cmds| == 0 then []
    else (if cmds[0].Picture() then [] else [cmds[0]]) + NonPictures(cmds[1..])
  }

  function NonAudio(cmds: seq<SendCmd>): seq<SendCmd> {
    if |cmds| == 0 then []
    else (if cmds[0].Audio? then [] else [cmds[0]]) + NonAudio(cmds[1..])
  }

  /** The last picture that no shutdown follows, if any. */
  function LastPicture(cmds: seq<SendCmd>): seq<SendCmd> {
    if |cmds| == 0 then []
    else
      var last := cmds[|cmds| - 1];
      if last.Shutdown? then [] else if last.Picture() then [last] else LastPicture(cmds[..|cmds| - 1])
  }

  /** What `coalesce_latest_video` keeps: everything that is no picture, then the latest picture. */
  function Kept(cmds: seq<SendCmd>): seq<SendCmd> {
    NonPictures(cmds) + LastPicture(cmds)
  }

  /** The pictures it drops, in the order it drops them. */
  function Dropped(cmds: seq<SendCmd>): seq<SendCmd> {
    if |cmds| == 0 then []
    else
      var last := cmds[|cmds| - 1];
      var before := cmds[..|cmds| - 1];
      Dropped(before) + (if last.Audio? then [] else LastPicture(before))
  }

  lemma {:induction false} NonPicturesAppend(a: seq<SendCmd>, b: seq<SendCmd>)
    ensures NonPictures(a + b) == NonPictures(a) + NonPictures(b)
  {
    if |a| == 0 {
      assert a + b == b;
    } else {
      assert (a + b)[1..] == a[1..] + b;
      NonPicturesAppend(a[1..], b);
    }
  }

  lemma {:induction false} NonAudioAppend(a: seq<SendCmd>, b: seq<SendCmd>)
    ensures NonAudio(a + b) == NonAudio(a) + NonAudio(b)
  {
    if |a| == 0 {
      assert a + b == b;
    } else {
      assert (a + b)[1..] == a[1..] + b;
      NonAudioAppend(a[1..], b);
    }
  }

  /** One more command at the end of a batch. */
  lemma LastStep(before: seq<SendCmd>, last: SendCmd)
    ensures
      var cmds := before + [last];
      && NonPictures(cmds) == NonPictures(before) + (if last.Picture() then [] else [last])
      && NonAudio(cmds) == NonAudio(before) + (if last.Audio? then [] else [last])
      && LastPicture(cmds) ==
         (if last.Shutdown? then [] else if last.Picture() then [last] else LastPicture(before))
      && Dropped(cmds) == Dropped(before) + (if last.Audio? then [] else LastPicture(before))
  {
    var cmds := before + [last];
    assert cmds[..|cmds| - 1] == before && cmds[|cmds| - 1] == last;
    NonPicturesAppend(before, [last]);
    NonAudioAppend(before, [last]);
  }

  /** `part` is everything that is no picture, in order. */
  ghost predicate SelectsOthers(cmds: seq<SendCmd>, part: seq<SendCmd>, places: seq<nat>) {
    Selects(cmds, part, places) && forall k :: 0 <= k < |cmds| ==> (k in places <==> !cmds[k].Picture())
  }

  lemma {:induction false} NonPicturesAre(cmds: seq<SendCmd>) returns (places: seq<nat>)
    ensures SelectsOthers(cmds, NonPictures(cmds), places)
    decreases |cmds|
  {
    places := [];
    if |cmds| != 0 {
      var (before, last) := (cmds[..|cmds| - 1], cmds[|cmds| - 1]);
      places := NonPicturesAre(before);
      SelectsPush(before, NonPictures(before), places, last);
      LastStep(before, last);
      assert cmds == before + [last];
      if !last.Picture() {
        places := places + [|before|];
      }
    }
  }

  /** Everything that is no audio, in order. */
  lemma {:induction false} NonAudioAre(cmds: seq<SendCmd>) returns (places: seq<nat>)
    ensures Selects(cmds, NonAudio(cmds), places)
    ensures forall k :: 0 <= k < |cmds| ==> (k in places <==> !cmds[k].Audio?)
    decreases |cmds|
  {
    places := [];
    if |cmds| != 0 {
      var (before, last) := (cmds[..|cmds| - 1], cmds[|cmds| - 1]);
      places := NonAudioAre(before);
      SelectsPush(before, NonAudio(before), places, last);
      LastStep(before, last);
      assert cmds == before + [last];
      if !last.Audio? {
        places := places + [|before|];
      }
    }
  }

  /** The `k`-th command is a picture and only audio follows it. */
  predicate IsLatest(cmds: seq<SendCmd>, k: nat) {
    k < |cmds| && cmds[k].Picture() && forall j :: k < j < |cmds| ==> cmds[j].Audio?
  }

  lemma {:induction false} LastPictureIsLatest(cmds: seq<SendCmd>)
    ensures forall k: nat :: IsLatest(cmds, k) ==> LastPicture(cmds) == [cmds[k]]
    ensures LastPicture(cmds) != [] ==> exists k: nat :: IsLatest(cmds, k)
    decreases |cmds|
  {
    if |cmds| != 0 {
      var (n, before) := (|cmds| - 1, cmds[..|cmds| - 1]);
      LastPictureIsLatest(before);
      assert forall j :: 0 <= j < n ==> before[j] == cmds[j];
      forall k: nat | IsLatest(cmds, k) && k != n
        ensures IsLatest(before, k)
      {
      }
      if cmds[n].Picture() {
        assert IsLatest(cmds, n);
      } else if LastPicture(cmds) != [] {
        var k: nat :| IsLatest(before, k);
        assert IsLatest(cmds, k);
      }
    }
  }

  /** Every command is kept once or dropped once, so every dropped GPU frame is released exactly once. */
  lemma {:induction false} KeptOrDropped(cmds: seq<SendCmd>)
    ensures multiset(cmds) == multiset(NonPictures(cmds)) + multiset(LastPicture(cmds)) + multiset(Dropped(cmds))
    ensures AllPictures(Dropped(cmds))
  {
    if |cmds| != 0 {
      var last, before := cmds[|cmds| - 1], cmds[..|cmds| - 1];
      assert cmds == before + [last];
      KeptOrDropped(before);
      LastPictureIsPicture(before);
      LastStep(before, last);
    }
  }

  lemma {:induction false} LastPictureIsPicture(cmds: seq<SendCmd>)
    ensures |LastPicture(cmds)| <= 1 && forall c :: c in LastPicture(cmds) ==> c.Picture()
  {
    if |cmds| != 0 {
      LastPictureIsPicture(cmds[..|cmds| - 1]);
    }
  }

  ghost function FlagSet(cmds: seq<SendCmd>): set<BusyFlag> {
    set c | c in cmds && c.GpuVideo? :: c.busy
  }

  function Pending(lastVideo: Option<SendCmd>): seq<SendCmd> {
    if lastVideo.Some? then [lastVideo.value] else []
  }

  /** Releases the picture that a newer one or a shutdown displaces. */
  method ReleaseDisplaced(lastVideo: Option<SendCmd>)
    modifies FlagSet(Pending(lastVideo))
    ensures forall f :: f in FlagSet(Pending(lastVideo)) ==> !f.on
  {
    if lastVideo.Some? {
      assert forall f :: f in lastVideo.value.Flags() <==> f in FlagSet(Pending(lastVideo)) by {
        FlagsAreFlagSet(lastVideo.value);
      }
      ReleaseSendCmd(lastVideo.value);
    }
  }

  lemma FlagsAreFlagSet(cmd: SendCmd)
    ensures forall f :: f in cmd.Flags() <==> f in FlagSet([cmd])
  {
    assert cmd in [cmd];
    assert cmd.GpuVideo? ==> cmd.Flags()[0] == cmd.busy;
  }

  lemma FlagSetAppend(a: seq<SendCmd>, b: seq<SendCmd>)
    ensures FlagSet(a + b) == FlagSet(a) + FlagSet(b)
  {
    forall f | f in FlagSet(a) + FlagSet(b)
      ensures f in FlagSet(a + b)
    {
      var c :| (c in a || c in b) && c.GpuVideo? && c.busy == f;
      assert c in a + b;
    }
  }

  method CoalesceLatestVideo(cmds: seq<SendCmd>) returns (out: seq<SendCmd>)
    modifies FlagSet(cmds)
    ensures out == Kept(cmds)
    ensures exists places :: SelectsOthers(cmds, NonPictures(cmds), places)
    ensures forall k: nat :: IsLatest(cmds, k) ==> out == NonPictures(cmds) + [cmds[k]]
    ensures (forall k: nat :: !IsLatest(cmds, k)) ==> out == NonPictures(cmds)
    ensures forall f :: f in FlagSet(cmds) ==> f.on == (old(f.on) && f !in FlagSet(Dropped(cmds)))
  {
    var lastVideo: Option<SendCmd> := None;
    out := [];
    for i := 0 to |cmds|
      invariant out == NonPictures(cmds[..i])
      invariant Pending(lastVideo) == LastPicture(cmds[..i])
      invariant FlagSet(Pending(lastVideo)) <= FlagSet(cmds)
      invariant forall f :: f in FlagSet(cmds) ==> f.on == (old(f.on) && f !in FlagSet(Dropped(cmds[..i])))
    {
      var cmd := cmds[i];
      assert cmds[..i + 1] == cmds[..i] + [cmd];
      LastStep(cmds[..i], cmd);
      FlagSetAppend(Dropped(cmds[..i]), Pending(lastVideo));
      match cmd {
        case Audio(_) =>
          out := out + [cmd];
        case Shutdown =>
          ReleaseDisplaced(lastVideo);
          lastVideo := None;
          out := out + [cmd];
        case _ =>
          ReleaseDisplaced(lastVideo);
          lastVideo := Some(cmd);
      }
    }
    assert cmds[..|cmds|] == cmds;
    if lastVideo.Some? {
      out := out + [lastVideo.value];
    }
    LastPictureIsLatest(cmds);
    ghost var places := NonPicturesAre(cmds);
  }

  // ----- audio before pictures -----

  /** `take_audio_first` with `pending` pictures held back. */
  function AudioFirst(cmds: seq<SendCmd>, pending: seq<SendCmd>): seq<SendCmd> {
    if |cmds| == 0 then pending
    else if cmds[0].Shutdown? then pending + [cmds[0]] + AudioFirst(cmds[1..], [])
    else if cmds[0].Audio? then [cmds[0]] + AudioFirst(cmds[1..], pending)
    else AudioFirst(cmds[1..], pending + [cmds[0]])
  }

  /** No picture stands directly before an audio packet. */
  ghost predicate Sorted(cmds: seq<SendCmd>) {
    forall i, j :: 0 <= i && j == i + 1 && j < |cmds| ==> !(cmds[i].Picture() && cmds[j].Audio?)
  }

  ghost predicate AllPictures(cmds: seq<SendCmd>) {
    forall c :: c in cmds ==> c.Picture()
  }

  lemma {:induction false} PicturesAlone(p: seq<SendCmd>)
    requires AllPictures(p)
    ensures NonPictures(p) == [] && NonAudio(p) == p
    decreases |p|
  {
    if |p| != 0 {
      assert forall c :: c in p[1..] ==> c in p;
      PicturesAlone(p[1..]);
    }
  }

  lemma {:induction false} AudioFirstPermutes(cmds: seq<SendCmd>, pending: seq<SendCmd>)
    ensures multiset(AudioFirst(cmds, pending)) == multiset(pending) + multiset(cmds)
    decreases |cmds|
  {
    if |cmds| != 0 {
      var c, rest := cmds[0], cmds[1..];
      assert cmds == [c] + rest;
      if c.Shutdown? {
        AudioFirstPermutes(rest, []);
      } else if c.Audio? {
        AudioFirstPermutes(rest, pending);
      } else {
        AudioFirstPermutes(rest, pending + [c]);
      }
    }
  }

  lemma {:induction false} AudioFirstKeepsNonPictures(cmds: seq<SendCmd>, pending: seq<SendCmd>)
    requires AllPictures(pending)
    ensures NonPictures(AudioFirst(cmds, pending)) == NonPictures(cmds)
    decreases |cmds|
  {
    PicturesAlone(pending);
    if |cmds| != 0 {
      var c, rest := cmds[0], cmds[1..];
      if c.Shutdown? {
        AudioFirstKeepsNonPictures(rest, []);
        LastStep(pending, c);
        NonPicturesAppend(pending + [c], AudioFirst(rest, []));
      } else if c.Audio? {
        AudioFirstKeepsNonPictures(rest, pending);
        assert ([c] + AudioFirst(rest, pending))[1..] == AudioFirst(rest, pending);
      } else {
        AudioFirstKeepsNonPictures(rest, pending + [c]);
      }
    }
  }

  lemma NonAudioAround(p: seq<SendCmd>, c: SendCmd, t: seq<SendCmd>)
    requires AllPictures(p)
    ensures NonAudio(p + [c] + t) == p + (if c.Audio? then [] else [c]) + NonAudio(t)
  {
    PicturesAlone(p);
    LastStep(p, c);
    NonAudioAppend(p + [c], t);
  }

  lemma {:induction false} AudioFirstKeepsNonAudio(cmds: seq<SendCmd>, pending: seq<SendCmd>)
    requires AllPictures(pending)
    ensures NonAudio(AudioFirst(cmds, pending)) == pending + NonAudio(cmds)
    decreases |cmds|
  {
    if |cmds| == 0 {
      PicturesAlone(pending);
    } else {
      var c, rest := cmds[0], cmds[1..];
      NonAudioHead(c, rest, pending);
      assert [c] + rest == cmds;
      if c.Shutdown? {
        AudioFirstKeepsNonAudio(rest, []);
        NonAudioAround(pending, c, AudioFirst(rest, []));
      } else if c.Audio? {
        AudioFirstKeepsNonAudio(rest, pending);
        NonAudioAround([], c, AudioFirst(rest, pending));
        assert [] + [c] + AudioFirst(rest, pending) == [c] + AudioFirst(rest, pending);
      } else {
        AudioFirstKeepsNonAudio(rest, pending + [c]);
      }
    }
  }

  lemma NonAudioHead(c: SendCmd, rest: seq<SendCmd>, pending: seq<SendCmd>)
    ensures pending + NonAudio([c] + rest) == pending + (if c.Audio? then [] else [c]) + NonAudio(rest)
  {
    assert ([c] + rest)[1..] == rest;
  }

  lemma {:induction false} PicturesSorted(p: seq<SendCmd>)
    requires AllPictures(p)
    ensures Sorted(p)
  {
    forall j | 0 <= j < |p|
      ensures !p[j].Audio?
    {
      assert p[j] in p;
    }
  }

  lemma {:induction false} AudioFirstSorts(cmds: seq<SendCmd>, pending: seq<SendCmd>)
    requires AllPictures(pending)
    ensures Sorted(AudioFirst(cmds, pending))
    decreases |cmds|
  {
    PicturesSorted(pending);
    if |cmds| != 0 {
      if cmds[0].Shutdown? {
        AudioFirstSorts(cmds[1..], []);
      } else if cmds[0].Audio? {
        AudioFirstSorts(cmds[1..], pending);
      } else {
        AudioFirstSorts(cmds[1..], pending + [cmds[0]]);
      }
    }
  }

  /** After a leading picture a sorted batch reaches a shutdown before any audio. */
  lemma {:induction false} PictureThenShutdown(s: seq<SendCmd>)
    requires Sorted(s) && |s| != 0 && s[0].Picture() && NonPictures(s) != []
    ensures NonPictures(s)[0].Shutdown?
    decreases |s|
  {
    assert |s| > 1;
    if s[1].Picture() {
      PictureThenShutdown(s[1..]);
    }
  }

  /** In a sorted batch the first command is audio exactly when the first non-picture is. */
  lemma SortedHead(s: seq<SendCmd>)
    requires Sorted(s) && |s| != 0
    ensures s[0].Audio? <==> NonPictures(s) != [] && NonPictures(s)[0].Audio?
    ensures !s[0].Audio? ==> NonAudio(s) != [] && NonAudio(s)[0] == s[0]
    ensures s[0].Audio? ==> NonPictures(s)[0] == s[0]
  {
    if s[0].Picture() && NonPictures(s) != [] {
      PictureThenShutdown(s);
    }
  }

  /** The two orders and sortedness determine the batch. */
  lemma {:induction false} SortedIsUnique(a: seq<SendCmd>, b: seq<SendCmd>)
    requires Sorted(a) && Sorted(b)
    requires NonPictures(a) == NonPictures(b) && NonAudio(a) == NonAudio(b)
    ensures a == b
    decreases |a|
  {
    if |a| == 0 {
      if |b| != 0 {
        SortedHead(b);
      }
    } else {
      SortedHead(a);
      if |b| != 0 {
        SortedHead(b);
      }
      assert a[0] == b[0];
      SortedTail(a);
      SortedTail(b);
      SortedIsUnique(a[1..], b[1..]);
      assert a == [a[0]] + a[1..] && b == [b[0]] + b[1..];
    }
  }

  lemma SortedTail(s: seq<SendCmd>)
    requires Sorted(s) && |s| != 0
    ensures Sorted(s[1..])
    ensures NonPictures(s[1..]) == if s[0].Picture() then NonPictures(s) else NonPictures(s)[1..]
    ensures NonAudio(s[1..]) == if s[0].Audio? then NonAudio(s) else NonAudio(s)[1..]
  {
    var t := s[1..];
    forall i, j | 0 <= i && j == i + 1 && j < |t|
      ensures !(t[i].Picture() && t[j].Audio?)
    {
      assert t[i] == s[i + 1] && t[j] == s[j + 1];
    }
  }

  /**
   `take_audio_first` is the one reordering that keeps both orders and never leaves a picture directly
   before audio: a stable sort within each shutdown segment.
   */
  lemma AudioFirstIsTheStableSort(cmds: seq<SendCmd>, out: seq<SendCmd>)
    ensures out == AudioFirst(cmds, []) <==>
            Sorted(out) && NonPictures(out) == NonPictures(cmds) && NonAudio(out) == NonAudio(cmds)
  {
    var sorted := AudioFirst(cmds, []);
    AudioFirstSorts(cmds, []);
    AudioFirstKeepsNonPictures(cmds, []);
    AudioFirstKeepsNonAudio(cmds, []);
    assert [] + NonAudio(cmds) == NonAudio(cmds);
    if Sorted(out) && NonPictures(out) == NonPictures(cmds) && NonAudio(out) == NonAudio(cmds) {
      SortedIsUnique(out, sorted);
    }
  }

  /** One turn of the loop of `take_audio_first`. */
  lemma AudioFirstStep(out: seq<SendCmd>, cmds: seq<SendCmd>, i: nat, pending: seq<SendCmd>)
    requires i < |cmds|
    ensures
      var cmd := cmds[i];
      out + AudioFirst(cmds[i..], pending) ==
        if cmd.Shutdown? then out + pending + [cmd] + AudioFirst(cmds[i + 1..], [])
        else if cmd.Audio? then out + [cmd] + AudioFirst(cmds[i + 1..], pending)
        else out + AudioFirst(cmds[i + 1..], pending + [cmd])
  {
    assert cmds[i..][0] == cmds[i] && cmds[i..][1..] == cmds[i + 1..];
  }

  method TakeAudioFirst(cmds: seq<SendCmd>) returns (out: seq<SendCmd>)
    ensures out == AudioFirst(cmds, []) && Sorted(out)
    ensures NonPictures(out) == NonPictures(cmds) && NonAudio(out) == NonAudio(cmds)
  {
    out := [];
    var pendingVideo: seq<SendCmd> := [];
    assert cmds[0..] == cmds && [] + AudioFirst(cmds, []) == AudioFirst(cmds, []);
    for i := 0 to |cmds|
      invariant out + AudioFirst(cmds[i..], pendingVideo) == AudioFirst(cmds, [])
    {
      AudioFirstStep(out, cmds, i, pendingVideo);
      match cmds[i] {
        case Shutdown =>
          out := out + pendingVideo;
          pendingVideo := [];
          out := out + [cmds[i]];
        case Audio(_) =>
          out := out + [cmds[i]];
        case _ =>
          pendingVideo := pendingVideo + [cmds[i]];
      }
    }
    out := out + pendingVideo;
    AudioFirstIsTheStableSort(cmds, out);
  }

  lemma AudioFirstIdempotent(cmds: seq<SendCmd>)
    ensures AudioFirst(AudioFirst(cmds, []), []) == AudioFirst(cmds, [])
  {
    AudioFirstIsTheStableSort(cmds, AudioFirst(cmds, []));
    AudioFirstIsTheStableSort(AudioFirst(cmds, []), AudioFirst(cmds, []));
  }

  /** Audio does not matter to which picture is latest. */
  lemma {:induction false} LastPictureIgnoresAudio(cmds: seq<SendCmd>)
    ensures LastPicture(cmds) == LastPicture(NonAudio(cmds))
  {
    if |cmds| != 0 {
      var last, before := cmds[|cmds| - 1], cmds[..|cmds| - 1];
      assert cmds == before + [last];
      LastPictureIgnoresAudio(before);
      LastStep(before, last);
      if last.Audio? {
        assert NonAudio(cmds) == NonAudio(before);
      } else {
        LastStep(NonAudio(before), last);
      }
    }
  }

  lemma {:induction false} NonPicturesHasNone(cmds: seq<SendCmd>)
    ensures forall c :: c in NonPictures(cmds) ==> !c.Picture()
  {
    if |cmds| != 0 {
      NonPicturesHasNone(cmds[1..]);
    }
  }

  lemma {:induction false} NonPicturesFixed(cmds: seq<SendCmd>)
    requires forall c :: c in cmds ==> !c.Picture()
    ensures NonPictures(cmds) == cmds
  {
    if |cmds| != 0 {
      NonPicturesFixed(cmds[1..]);
    }
  }

  /** The two passes may be applied in either order: the result is that of coalescing alone. */
  lemma PassesCommute(cmds: seq<SendCmd>)
    ensures Kept(AudioFirst(cmds, [])) == Kept(cmds)
    ensures AudioFirst(Kept(cmds), []) == Kept(cmds)
  {
    AudioFirstKeepsNonPictures(cmds, []);
    AudioFirstKeepsNonAudio(cmds, []);
    assert [] + NonAudio(cmds) == NonAudio(cmds);
    LastPictureIgnoresAudio(cmds);
    LastPictureIgnoresAudio(AudioFirst(cmds, []));
    NonPicturesHasNone(cmds);
    LastPictureIsPicture(cmds);
    AudioFirstIsTheStableSort(Kept(cmds), Kept(cmds));
  }

  lemma SettledWithPicture(non: seq<SendCmd>, picture: SendCmd)
    requires (forall c :: c in non ==> !c.Picture()) && picture.Picture()
    ensures NonPictures(non + [picture]) == non
    ensures LastPicture(non + [picture]) == [picture] && Dropped(non + [picture]) == []
  {
    NonPicturesFixed(non);
    NoPicturesNoLoss(non);
    LastStep(non, picture);
  }

  /** Coalescing again changes nothing and drops nothing more. */
  lemma KeptIdempotent(cmds: seq<SendCmd>)
    ensures Kept(Kept(cmds)) == Kept(cmds)
    ensures Dropped(Kept(cmds)) == []
  {
    NonPicturesHasNone(cmds);
    LastPictureIsPicture(cmds);
    var (non, tail) := (NonPictures(cmds), LastPicture(cmds));
    if |tail| == 1 {
      assert tail[0] in tail && Kept(cmds) == non + [tail[0]];
      SettledWithPicture(non, tail[0]);
    } else {
      assert Kept(cmds) == non;
      NonPicturesFixed(non);
      NoPicturesNoLoss(non);
    }
  }

  lemma {:induction false} NoPicturesNoLoss(cmds: seq<SendCmd>)
    requires forall c :: c in cmds ==> !c.Picture()
    ensures LastPicture(cmds) == [] && Dropped(cmds) == []
  {
    if |cmds| != 0 {
      NoPicturesNoLoss(cmds[..|cmds| - 1]);
    }
  }
}
