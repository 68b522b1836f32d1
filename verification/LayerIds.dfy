/** Giving every layer of a scene its own id (hosts/win32/Session.cs:608-626). */
module LayerIds {
  import opened Arithmetic
  import opened Common

  const U64: int := 0x1_0000_0000_0000_0000

  class SceneLayer {
    var layerId: nat

    constructor (id: nat)
      ensures layerId == id
    {
      layerId := id;
    }
  }

  /** `next++` on a `ulong`. */
  function Increment(next: nat): nat {
    if next + 1 >= U64 then 0 else next + 1
  }

  function MaxId(ids: seq<nat>): nat {
    if |ids| == 0 then 0 else Max(MaxId(ids[..|ids| - 1]), ids[|ids| - 1])
  }

  /** The second loop: zero and repeated ids are replaced, counting up from `next` as a `ulong`. */
  function Assign(ids: seq<nat>, next: nat, seen: set<nat>): seq<nat> {
    if |ids| == 0 then []
    else if ids[0] == 0 || ids[0] in seen then
      var id := Increment(next);
      [id] + Assign(ids[1..], id, seen + {id})
    else
      [ids[0]] + Assign(ids[1..], next, seen + {ids[0]})
  }

  function Assigned(ids: seq<nat>): seq<nat> {
    Assign(ids, MaxId(ids), {})
  }

  /** How many ids are zero or repeat an earlier one. */
  function Repeats(ids: seq<nat>, seen: set<nat>): nat {
    if |ids| == 0 then 0
    else (if ids[0] == 0 || ids[0] in seen then 1 else 0) + Repeats(ids[1..], seen + {ids[0]})
  }

  /** Usable ids: no zero, no repetition. */
  ghost predicate Good(ids: seq<nat>) {
    NoDuplicates(ids) && 0 !in ids
  }

  lemma {:induction false} MaxIdBounds(ids: seq<nat>)
    ensures forall id :: id in ids ==> id <= MaxId(ids)
    ensures MaxId(ids) == 0 || MaxId(ids) in ids
  {
    if |ids| != 0 {
      MaxIdBounds(ids[..|ids| - 1]);
      assert ids == ids[..|ids| - 1] + [ids[|ids| - 1]];
    }
  }

  /**
   The loop in mid-run: `given` are the ids met so far, `seen` holds them and ids handed out, which lie above
   every given id.
   */
  ghost predicate Midway(ids: seq<nat>, next: nat, seen: set<nat>, given: set<nat>, max: nat) {
    && max <= next < U64 && given - {0} <= seen
    && (forall id :: id in seen ==> id <= next && (id <= max ==> id in given))
    && (forall id :: id in ids ==> id <= max)
  }

  lemma MidwayStep(ids: seq<nat>, next: nat, seen: set<nat>, given: set<nat>, max: nat)
    requires Midway(ids, next, seen, given, max) && |ids| != 0
    ensures (ids[0] == 0 || ids[0] in seen) <==> (ids[0] == 0 || ids[0] in given)
    ensures
      if ids[0] == 0 || ids[0] in seen then
        next + 1 < U64 ==> Midway(ids[1..], next + 1, seen + {next + 1}, given + {ids[0]}, max)
      else Midway(ids[1..], next, seen + {ids[0]}, given + {ids[0]}, max)
  {
    assert ids[0] in ids && forall id :: id in ids[1..] ==> id in ids;
  }

  /** With room for all replacements the result has no zero, repeats nothing and nothing seen. */
  lemma {:induction false} AssignIsGood(ids: seq<nat>, next: nat, seen: set<nat>, given: set<nat>, max: nat)
    requires Midway(ids, next, seen, given, max) && next + Repeats(ids, given) < U64
    ensures Good(Assign(ids, next, seen))
    ensures forall id :: id in Assign(ids, next, seen) ==> id !in seen
    decreases |ids|
  {
    if |ids| != 0 {
      MidwayStep(ids, next, seen, given, max);
      if ids[0] == 0 || ids[0] in seen {
        AssignIsGood(ids[1..], next + 1, seen + {next + 1}, given + {ids[0]}, max);
      } else {
        AssignIsGood(ids[1..], next, seen + {ids[0]}, given + {ids[0]}, max);
      }
    }
  }

  /** Without room the counter wraps and some layer gets id 0. */
  lemma {:induction false} AssignWraps(ids: seq<nat>, next: nat, seen: set<nat>, given: set<nat>, max: nat)
    requires Midway(ids, next, seen, given, max) && next + Repeats(ids, given) >= U64
    ensures 0 in Assign(ids, next, seen)
    decreases |ids|
  {
    MidwayStep(ids, next, seen, given, max);
    if ids[0] == 0 || ids[0] in seen {
      if next + 1 < U64 {
        AssignWraps(ids[1..], next + 1, seen + {next + 1}, given + {ids[0]}, max);
      } else {
        assert Assign(ids, next, seen)[0] == 0;
      }
    } else {
      AssignWraps(ids[1..], next, seen + {ids[0]}, given + {ids[0]}, max);
    }
  }

  /** All layers get distinct ids other than 0 exactly when the ids above the largest suffice. */
  lemma AssignedGoodIff(ids: seq<nat>)
    requires forall id :: id in ids ==> id < U64
    ensures Good(Assigned(ids)) <==> MaxId(ids) + Repeats(ids, {}) < 0x1_0000_0000_0000_0000
  {
    MaxIdBounds(ids);
    MaxIdBelow(ids);
    if MaxId(ids) + Repeats(ids, {}) < U64 {
      AssignIsGood(ids, MaxId(ids), {}, {}, MaxId(ids));
    } else {
      AssignWraps(ids, MaxId(ids), {}, {}, MaxId(ids));
    }
  }

  lemma {:induction false} MaxIdBelow(ids: seq<nat>)
    requires forall id :: id in ids ==> id < U64
    ensures MaxId(ids) < U64
  {
    if |ids| != 0 {
      var n := |ids| - 1;
      assert ids[n] in ids && forall id :: id in ids[..n] ==> id in ids;
      MaxIdBelow(ids[..n]);
    }
  }

  lemma GoodTail(ids: seq<nat>)
    requires Good(ids) && |ids| != 0
    ensures Good(ids[1..]) && ids[0] !in ids[1..]
    ensures forall id :: id in ids[1..] ==> id in ids
  {
  }

  /** Ids that are usable already are kept. */
  lemma {:induction false} GoodIdsKept(ids: seq<nat>, next: nat, seen: set<nat>)
    requires Good(ids) && forall id :: id in ids ==> id !in seen
    ensures Assign(ids, next, seen) == ids
    decreases |ids|
  {
    if |ids| != 0 {
      var rest := ids[1..];
      GoodTail(ids);
      assert ids[0] in ids && forall id :: id in rest ==> id !in seen + {ids[0]};
      GoodIdsKept(rest, next, seen + {ids[0]});
      AssignHead(ids, next, seen);
    }
  }

  /** In the middle of the loop: the first layer with an id keeps it, whatever the others have. */
  lemma {:induction false} AssignKeepsFirst(
      ids: seq<nat>, next: nat, seen: set<nat>, given: set<nat>, max: nat, i: nat)
    requires Midway(ids, next, seen, given, max) && next + Repeats(ids, given) < U64
    requires i < |ids| && ids[i] != 0 && ids[i] !in given && forall j :: 0 <= j < i ==> ids[j] != ids[i]
    ensures |Assign(ids, next, seen)| == |ids| && Assign(ids, next, seen)[i] == ids[i]
    decreases |ids|
  {
    AssignLength(ids, next, seen);
    MidwayStep(ids, next, seen, given, max);
    if i != 0 {
      if ids[0] == 0 || ids[0] in seen {
        AssignKeepsFirst(ids[1..], next + 1, seen + {next + 1}, given + {ids[0]}, max, i - 1);
      } else {
        AssignKeepsFirst(ids[1..], next, seen + {ids[0]}, given + {ids[0]}, max, i - 1);
      }
    }
  }

  /** No id of this value stands before the `i`-th layer, and it is not 0. */
  predicate FirstHolder(ids: seq<nat>, i: nat)
    requires i < |ids|
  {
    ids[i] != 0 && ids[i] !in ids[..i]
  }

  lemma FirstHolderKept(ids: seq<nat>, i: nat)
    requires (forall id :: id in ids ==> id < U64) && MaxId(ids) + Repeats(ids, {}) < U64
    requires i < |ids| && FirstHolder(ids, i)
    ensures |Assigned(ids)| == |ids| && Assigned(ids)[i] == ids[i]
  {
    MaxIdBounds(ids);
    assert forall j :: 0 <= j < i ==> ids[j] == ids[..i][j];
    AssignKeepsFirst(ids, MaxId(ids), {}, {}, MaxId(ids), i);
  }

  /** With room for all replacements, exactly the first holder of each id keeps it. */
  lemma FirstHolderKeepsId(ids: seq<nat>, i: nat)
    requires (forall id :: id in ids ==> id < U64) && MaxId(ids) + Repeats(ids, {}) < U64
    requires i < |ids|
    ensures |Assigned(ids)| == |ids| && (Assigned(ids)[i] == ids[i] <==> FirstHolder(ids, i))
  {
    AssignLength(ids, MaxId(ids), {});
    AssignedGoodIff(ids);
    if FirstHolder(ids, i) {
      FirstHolderKept(ids, i);
    } else if ids[i] != 0 {
      var j := EarlierHolder(ids, i);
      FirstHolderKept(ids, j);
      assert Assigned(ids)[j] != Assigned(ids)[i];
    } else {
      assert Assigned(ids)[i] in Assigned(ids);
    }
  }

  /** The first place of a value that also stands earlier. */
  lemma EarlierHolder(ids: seq<nat>, i: nat) returns (j: nat)
    requires i < |ids| && ids[i] != 0 && ids[i] in ids[..i]
    ensures j < i && ids[j] == ids[i] && FirstHolder(ids, j)
  {
    j :| 0 <= j < |ids[..i]| && ids[..i][j] == ids[i];
    if !FirstHolder(ids, j) {
      j := EarlierHolder(ids, j);
    }
  }

  // ----- the new ids, one by one -----

  /** `m` is the largest id in use, or 0. */
  ghost predicate IsLargest(ids: seq<nat>, m: nat) {
    (m == 0 || m in ids) && forall id :: id in ids ==> id <= m
  }

  /** How many of the first `n` layers are no first holders. */
  function Others(ids: seq<nat>, n: nat): nat
    requires n <= |ids|
  {
    if n == 0 then 0 else Others(ids, n - 1) + if FirstHolder(ids, n - 1) then 0 else 1
  }

  lemma {:induction false} RepeatsPush(ids: seq<nat>, id: nat, seen: set<nat>)
    ensures Repeats(ids + [id], seen) == Repeats(ids, seen) + if id == 0 || id in seen || id in ids then 1 else 0
    decreases |ids|
  {
    if |ids| == 0 {
      assert (ids + [id])[1..] == [];
    } else {
      assert (ids + [id])[1..] == ids[1..] + [id];
      RepeatsPush(ids[1..], id, seen + {ids[0]});
    }
  }

  lemma {:induction false} RepeatsAreOthers(ids: seq<nat>, n: nat)
    requires n <= |ids|
    ensures Repeats(ids[..n], {}) == Others(ids, n)
    decreases n
  {
    if n != 0 {
      RepeatsAreOthers(ids, n - 1);
      assert ids[..n] == ids[..n - 1] + [ids[n - 1]];
      RepeatsPush(ids[..n - 1], ids[n - 1], {});
    }
  }

  /** In the middle of the loop: a replaced id counts on from the last one handed out. */
  lemma {:induction false} AssignCountsOn(
      ids: seq<nat>, next: nat, seen: set<nat>, given: set<nat>, max: nat, i: nat)
    requires Midway(ids, next, seen, given, max) && next + Repeats(ids, given) < U64
    requires i < |ids| && (ids[i] == 0 || ids[i] in given || ids[i] in ids[..i])
    ensures |Assign(ids, next, seen)| == |ids|
    ensures Assign(ids, next, seen)[i] == next + Repeats(ids[..i + 1], given)
    decreases |ids|
  {
    var (rest, repeat) := (ids[1..], ids[0] == 0 || ids[0] in seen);
    var n := if repeat then next + 1 else next;
    var id := if repeat then n else ids[0];
    MidwayStep(ids, next, seen, given, max);
    AssignHead(ids, next, seen);
    RepeatsHead(ids, given, i);
    AssignLength(rest, n, seen + {id});
    if i != 0 {
      assert ids[..i] == [ids[0]] + rest[..i - 1];
      AssignCountsOn(rest, n, seen + {id}, given + {ids[0]}, max, i - 1);
    }
  }

  /** The first turn of the loop, while the counter does not wrap. */
  lemma AssignHead(ids: seq<nat>, next: nat, seen: set<nat>)
    requires |ids| != 0 && (ids[0] == 0 || ids[0] in seen ==> next + 1 < U64)
    ensures
      var repeat := ids[0] == 0 || ids[0] in seen;
      var n := if repeat then next + 1 else next;
      var id := if repeat then n else ids[0];
      Assign(ids, next, seen) == [id] + Assign(ids[1..], n, seen + {id})
  {
  }

  lemma RepeatsHead(ids: seq<nat>, given: set<nat>, i: nat)
    requires i < |ids|
    ensures
      var first := if ids[0] == 0 || ids[0] in given then 1 else 0;
      && Repeats(ids, given) == first + Repeats(ids[1..], given + {ids[0]})
      && Repeats(ids[..i + 1], given) == first + Repeats(ids[1..][..i], given + {ids[0]})
  {
    assert ids[..i + 1][1..] == ids[1..][..i];
  }

  /** With room, a layer that is no first holder gets the next id above the largest, counted in list order. */
  lemma OthersCountUp(ids: seq<nat>, i: nat)
    requires (forall id :: id in ids ==> id < U64) && MaxId(ids) + Repeats(ids, {}) < U64
    requires i < |ids| && !FirstHolder(ids, i)
    ensures |Assigned(ids)| == |ids| && Assigned(ids)[i] == MaxId(ids) + Others(ids, i + 1)
  {
    MaxIdBounds(ids);
    AssignCountsOn(ids, MaxId(ids), {}, {}, MaxId(ids), i);
    RepeatsAreOthers(ids, i + 1);
  }

  /** `m` is the largest id, and the ids above it suffice. */
  ghost predicate HasRoom(ids: seq<nat>, m: nat) {
    (forall id :: id in ids ==> id < U64) && IsLargest(ids, m) && m + Others(ids, |ids|) < 0x1_0000_0000_0000_0000
  }

  /** The result, layer by layer. */
  ghost predicate Numbered(ids: seq<nat>, m: nat, out: seq<nat>) {
    |out| == |ids| &&
    forall i :: 0 <= i < |ids| ==> out[i] == if FirstHolder(ids, i) then ids[i] else m + Others(ids, i + 1)
  }

  lemma AssignedNumbers(ids: seq<nat>, m: nat)
    requires HasRoom(ids, m)
    ensures Numbered(ids, m, Assigned(ids))
  {
    MaxIdBounds(ids);
    assert m == MaxId(ids);
    RepeatsAreOthers(ids, |ids|);
    assert ids[..|ids|] == ids;
    AssignLength(ids, m, {});
    forall i | 0 <= i < |ids|
      ensures Assigned(ids)[i] == if FirstHolder(ids, i) then ids[i] else m + Others(ids, i + 1)
    {
      if FirstHolder(ids, i) {
        FirstHolderKept(ids, i);
      } else {
        OthersCountUp(ids, i);
      }
    }
  }

  lemma {:induction false} AssignLength(ids: seq<nat>, next: nat, seen: set<nat>)
    ensures |Assign(ids, next, seen)| == |ids|
    decreases |ids|
  {
    if |ids| != 0 {
      if ids[0] == 0 || ids[0] in seen {
        var id := Increment(next);
        AssignLength(ids[1..], id, seen + {id});
      } else {
        AssignLength(ids[1..], next, seen + {ids[0]});
      }
    }
  }

  /** Running it again changes nothing. */
  lemma AssignedIdempotent(ids: seq<nat>)
    requires forall id :: id in ids ==> id < U64
    requires MaxId(ids) + Repeats(ids, {}) < U64
    ensures Assigned(Assigned(ids)) == Assigned(ids)
  {
    AssignedGoodIff(ids);
    GoodIdsKept(Assigned(ids), MaxId(Assigned(ids)), {});
  }

  ghost function Ids(layers: seq<SceneLayer>): seq<nat>
    reads layers
  {
    seq(|layers|, i requires 0 <= i < |layers| reads layers => layers[i].layerId)
  }

  /** The first loop: the largest id in use. */
  method LargestId(layers: seq<SceneLayer>) returns (next: nat)
    ensures next == MaxId(Ids(layers))
  {
    ghost var ids := Ids(layers);
    next := 0;
    for i := 0 to |layers|
      invariant next == MaxId(ids[..i])
    {
      assert ids[..i + 1][..i] == ids[..i];
      if layers[i].layerId > next {
        next := layers[i].layerId;
      }
    }
    assert ids[..|layers|] == ids;
  }

  lemma AssignStep(done: seq<nat>, ids: seq<nat>, i: nat, next: nat, seen: set<nat>)
    requires i < |ids|
    ensures
      if ids[i] == 0 || ids[i] in seen then
        var id := Increment(next);
        done + Assign(ids[i..], next, seen) == done + [id] + Assign(ids[i + 1..], id, seen + {id})
      else
        done + Assign(ids[i..], next, seen) == done + [ids[i]] + Assign(ids[i + 1..], next, seen + {ids[i]})
  {
    assert ids[i..][0] == ids[i] && ids[i..][1..] == ids[i + 1..];
  }

  /** The second loop of `AssignLayerIds` for one layer. */
  method AssignOne(layer: SceneLayer, next: nat, seen: set<nat>) returns (counter: nat, met: set<nat>)
    modifies layer
    ensures
      var given := old(layer.layerId);
      if given == 0 || given in seen then
        counter == Increment(next) && layer.layerId == counter && met == seen + {counter}
      else counter == next && layer.layerId == given && met == seen + {given}
  {
    counter, met := next, seen;
    if layer.layerId == 0 || layer.layerId in met {
      counter := Increment(counter);
      layer.layerId := counter;
    }
    met := met + {layer.layerId};
  }

  method AssignLayerIds(layers: seq<SceneLayer>)
    requires forall i, j :: 0 <= i < j < |layers| ==> layers[i] != layers[j]
    modifies layers
    ensures Ids(layers) == Assigned(old(Ids(layers)))
    ensures forall m: nat :: HasRoom(old(Ids(layers)), m) ==> Numbered(old(Ids(layers)), m, Ids(layers))
  {
    ghost var ids := Ids(layers);
    Renumber(layers);
    forall m: nat | HasRoom(ids, m)
      ensures Numbered(ids, m, Assigned(ids))
    {
      AssignedNumbers(ids, m);
    }
  }

  /** The two loops of `AssignLayerIds`. */
  method Renumber(layers: seq<SceneLayer>)
    requires forall i, j :: 0 <= i < j < |layers| ==> layers[i] != layers[j]
    modifies layers
    ensures Ids(layers) == Assigned(old(Ids(layers)))
  {
    var next := LargestId(layers);
    AssignFrom(layers, next);
  }

  /** The second loop. */
  method AssignFrom(layers: seq<SceneLayer>, largest: nat)
    requires forall i, j :: 0 <= i < j < |layers| ==> layers[i] != layers[j]
    modifies layers
    ensures Ids(layers) == Assign(old(Ids(layers)), largest, {})
  {
    ghost var ids := Ids(layers);
    var next: nat := largest;
    var seen: set<nat> := {};
    ghost var done: seq<nat> := [];
    ghost var all := Assign(ids, largest, {});
    assert ids[0..] == ids && [] + all == all && [] + ids == ids;
    for i := 0 to |layers|
      invariant |done| == i && Ids(layers) == done + ids[i..]
      invariant done + Assign(ids[i..], next, seen) == all
    {
      next, seen, done := Turn(layers, i, next, seen, done, ids);
    }
    assert done + [] == done;
  }

  /** One turn of the second loop: one more id is final, and what is still to come stays the same. */
  method Turn(layers: seq<SceneLayer>, i: nat, next: nat, seen: set<nat>, ghost done: seq<nat>, ghost ids: seq<nat>)
    returns (counter: nat, met: set<nat>, ghost more: seq<nat>)
    requires i < |layers| && forall j, k :: 0 <= j < k < |layers| ==> layers[j] != layers[k]
    requires i == |done| < |ids| && Ids(layers) == done + ids[i..]
    modifies layers[i]
    ensures |more| == i + 1 && Ids(layers) == more + ids[i + 1..]
    ensures more + Assign(ids[i + 1..], counter, met) == done + Assign(ids[i..], next, seen)
  {
    AssignStep(done, ids, i, next, seen);
    PutNext(done, ids, i, ids[i]);
    counter, met := AssignAt(layers, i, next, seen);
    ghost var id := if ids[i] == 0 || ids[i] in seen then counter else ids[i];
    PutNext(done, ids, i, id);
    more := done + [id];
  }

  lemma PutNext(done: seq<nat>, ids: seq<nat>, i: nat, id: nat)
    requires i == |done| < |ids|
    ensures (done + ids[i..])[i] == ids[i]
    ensures (done + ids[i..])[i := id] == done + [id] + ids[i + 1..]
  {
  }

  /** The same turn, for the layer in its place. */
  method AssignAt(layers: seq<SceneLayer>, i: nat, next: nat, seen: set<nat>) returns (counter: nat, met: set<nat>)
    requires i < |layers| && forall j, k :: 0 <= j < k < |layers| ==> layers[j] != layers[k]
    modifies layers[i]
    ensures
      var given := old(Ids(layers))[i];
      if given == 0 || given in seen then
        counter == Increment(next) && met == seen + {counter} && Ids(layers) == old(Ids(layers))[i := counter]
      else counter == next && met == seen + {given} && Ids(layers) == old(Ids(layers))[i := given]
  {
    ghost var before := Ids(layers);
    counter, met := AssignOne(layers[i], next, seen);
    assert Ids(layers) == before[i := layers[i].layerId];
  }
}
