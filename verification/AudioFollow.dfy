/**
 Which mixing units an input's audio follows, and clearing one of them
 (hosts/win32/MainWindow.Diagnostics.cs).

 Scenes nest other scenes through their layers. A layer whose `AudioFollow` flag is set passes the
 audio of what it shows on to its scene. The flags live in shared layer and overlay objects and are
 the only thing these operations write.
 */
module AudioFollow {
  import opened Common

  type Id = nat

  class SceneLayer {
    const inputId: Id
    var audioFollow: bool

    constructor (inputId: Id, follow: bool)
      ensures this.inputId == inputId && audioFollow == follow
    {
      this.inputId := inputId;
      audioFollow := follow;
    }
  }

  class SceneEntry {
    const gpuId: Id
    const layers: seq<SceneLayer>

    constructor (gpuId: Id, layers: seq<SceneLayer>)
      ensures this.gpuId == gpuId && this.layers == layers
    {
      this.gpuId := gpuId;
      this.layers := layers;
    }
  }

  datatype OverlaySourceKind = SceneSource | InputSource

  class OverlaySlot {
    const id: Id
    const sourceKind: OverlaySourceKind
    const sceneGpuId: Id
    var audioFollow: bool

    constructor (id: Id, kind: OverlaySourceKind, gpuId: Id, follow: bool)
      ensures this.id == id && sourceKind == kind && sceneGpuId == gpuId && audioFollow == follow
    {
      this.id := id;
      sourceKind := kind;
      sceneGpuId := gpuId;
      audioFollow := follow;
    }
  }

  datatype MixingUnit = MixingUnit(id: Id, overlaysOnAir: seq<Id>, program: Id)

  datatype Input = Input(id: Id, isMix: bool)

  const MAX_DEPTH: nat := 4

  // ----- the carry relation, over the set of layers whose flag is set -----

  /** The first scene with its id. */
  ghost predicate FirstScene(scenes: seq<SceneEntry>, scene: SceneEntry) {
    exists k :: 0 <= k < |scenes| && scenes[k] == scene && forall j :: 0 <= j < k ==> scenes[j].gpuId != scene.gpuId
  }

  /** The first overlay with its id. */
  ghost predicate FirstOverlay(overlays: seq<OverlaySlot>, o: OverlaySlot) {
    exists k :: 0 <= k < |overlays| && overlays[k] == o && forall j :: 0 <= j < k ==> overlays[j].id != o.id
  }

  /** `FirstOrDefault` by GPU id. */
  function FindScene(scenes: seq<SceneEntry>, id: Id): (found: Option<SceneEntry>)
    ensures found.Some? ==> found.value in scenes && found.value.gpuId == id
    ensures found.None? ==> forall s :: s in scenes ==> s.gpuId != id
  {
    if |scenes| == 0 then None
    else if scenes[0].gpuId == id then Some(scenes[0])
    else FindScene(scenes[1..], id)
  }

  lemma {:induction false} FoundSceneIsFirst(scenes: seq<SceneEntry>, id: Id)
    ensures FindScene(scenes, id).Some? ==> FirstScene(scenes, FindScene(scenes, id).value)
  {
    if |scenes| != 0 && scenes[0].gpuId != id && FindScene(scenes, id).Some? {
      FoundSceneIsFirst(scenes[1..], id);
      var found := FindScene(scenes, id).value;
      var k :| 0 <= k < |scenes[1..]| && scenes[1..][k] == found &&
        forall j :: 0 <= j < k ==> scenes[1..][j].gpuId != found.gpuId;
      assert scenes[k + 1] == found;
      assert forall j :: 0 < j < k + 1 ==> scenes[j] == scenes[1..][j - 1];
    } else if |scenes| != 0 && scenes[0].gpuId == id {
      assert FirstScene(scenes, scenes[0]);
    }
  }

  function FindOverlay(overlays: seq<OverlaySlot>, id: Id): (found: Option<OverlaySlot>)
    ensures found.Some? ==> found.value in overlays && found.value.id == id
    ensures found.None? ==> forall o :: o in overlays ==> o.id != id
  {
    if |overlays| == 0 then None
    else if overlays[0].id == id then Some(overlays[0])
    else FindOverlay(overlays[1..], id)
  }

  lemma {:induction false} FoundOverlayIsFirst(overlays: seq<OverlaySlot>, id: Id)
    ensures FindOverlay(overlays, id).Some? ==> FirstOverlay(overlays, FindOverlay(overlays, id).value)
  {
    if |overlays| != 0 && overlays[0].id != id && FindOverlay(overlays, id).Some? {
      FoundOverlayIsFirst(overlays[1..], id);
      var found := FindOverlay(overlays, id).value;
      var k :| 0 <= k < |overlays[1..]| && overlays[1..][k] == found &&
        forall j :: 0 <= j < k ==> overlays[1..][j].id != found.id;
      assert overlays[k + 1] == found;
      assert forall j :: 0 < j < k + 1 ==> overlays[j] == overlays[1..][j - 1];
    } else if |overlays| != 0 && overlays[0].id == id {
      assert FirstOverlay(overlays, overlays[0]);
    }
  }

  ghost predicate Carries(scenes: seq<SceneEntry>, on: set<SceneLayer>, source: Id, input: Id, depth: nat)
    decreases MAX_DEPTH - depth
  {
    source == input ||
    (depth < MAX_DEPTH && FindScene(scenes, source).Some? &&
     exists l :: l in FindScene(scenes, source).value.layers && l in on &&
                 Carries(scenes, on, l.inputId, input, depth + 1))
  }

  ghost predicate SceneCarriesOn(scenes: seq<SceneEntry>, on: set<SceneLayer>, gpuId: Id, input: Id) {
    FindScene(scenes, gpuId).Some? &&
    exists l :: l in FindScene(scenes, gpuId).value.layers && l in on &&
                Carries(scenes, on, l.inputId, input, 0)
  }

  /** A chain of followed layers from a source down to the input; `path` is what each of them shows. */
  ghost predicate Route(scenes: seq<SceneEntry>, on: set<SceneLayer>, source: Id, input: Id, path: seq<Id>)
    decreases |path|
  {
    if |path| == 0 then source == input
    else
      (exists s, l :: s in scenes && FirstScene(scenes, s) && s.gpuId == source &&
                      l in s.layers && l in on && l.inputId == path[0]) &&
      Route(scenes, on, path[0], input, path[1..])
  }

  /** The first link of a route, in terms of the lookup. */
  lemma RouteStep(scenes: seq<SceneEntry>, on: set<SceneLayer>, source: Id, input: Id, path: seq<Id>)
    requires |path| != 0
    ensures Route(scenes, on, source, input, path) <==>
      FindScene(scenes, source).Some? &&
      (exists l :: l in FindScene(scenes, source).value.layers && l in on && l.inputId == path[0]) &&
      Route(scenes, on, path[0], input, path[1..])
  {
    FoundSceneIsFirst(scenes, source);
    forall s | s in scenes && FirstScene(scenes, s) && s.gpuId == source
      ensures FindScene(scenes, source) == Some(s)
    {
      OneFirstScene(scenes, s, FindScene(scenes, source).value);
    }
  }

  lemma OneFirstScene(scenes: seq<SceneEntry>, a: SceneEntry, b: SceneEntry)
    requires FirstScene(scenes, a) && FirstScene(scenes, b) && a.gpuId == b.gpuId
    ensures a == b
  {
    var i :| 0 <= i < |scenes| && scenes[i] == a && forall j :: 0 <= j < i ==> scenes[j].gpuId != a.gpuId;
    var k :| 0 <= k < |scenes| && scenes[k] == b && forall j :: 0 <= j < k ==> scenes[j].gpuId != b.gpuId;
    assert i == k;
  }

  /** The query means: some chain of at most `MAX_DEPTH - depth` followed layers leads to the input. */
  lemma {:induction false} CarriesIffShortRoute(
      scenes: seq<SceneEntry>, on: set<SceneLayer>, source: Id, input: Id, depth: nat)
    requires depth <= MAX_DEPTH
    ensures Carries(scenes, on, source, input, depth) <==>
            exists path: seq<Id> :: |path| <= MAX_DEPTH - depth && Route(scenes, on, source, input, path)
    decreases MAX_DEPTH - depth
  {
    if source == input {
      assert Route(scenes, on, source, input, []);
    } else if depth < MAX_DEPTH {
      var (next, most) := (depth + 1, MAX_DEPTH - depth - 1);
      forall id: Id
        ensures Carries(scenes, on, id, input, next) <==> HasRoute(scenes, on, id, input, most)
      {
        CarriesIffShortRoute(scenes, on, id, input, next);
      }
      assert RoutesBelow(scenes, on, input, next, most);
      CarriesHasRoute(scenes, on, source, input, depth);
      RouteCarries(scenes, on, source, input, depth);
    }
  }

  ghost predicate HasRoute(scenes: seq<SceneEntry>, on: set<SceneLayer>, source: Id, input: Id, most: nat) {
    exists path: seq<Id> :: |path| <= most && Route(scenes, on, source, input, path)
  }

  /** What the query finds at one depth are the routes of at most so many layers. */
  ghost predicate RoutesBelow(scenes: seq<SceneEntry>, on: set<SceneLayer>, input: Id, depth: nat, most: nat) {
    forall id: Id :: Carries(scenes, on, id, input, depth) <==> HasRoute(scenes, on, id, input, most)
  }

  lemma CarriesHasRoute(scenes: seq<SceneEntry>, on: set<SceneLayer>, source: Id, input: Id, depth: nat)
    requires source != input && depth < MAX_DEPTH && RoutesBelow(scenes, on, input, depth + 1, MAX_DEPTH - depth - 1)
    ensures Carries(scenes, on, source, input, depth) ==>
            exists path: seq<Id> :: |path| <= MAX_DEPTH - depth && Route(scenes, on, source, input, path)
  {
    if Carries(scenes, on, source, input, depth) {
      var l :| l in FindScene(scenes, source).value.layers && l in on &&
               Carries(scenes, on, l.inputId, input, depth + 1);
      assert HasRoute(scenes, on, l.inputId, input, MAX_DEPTH - depth - 1);
      var rest: seq<Id> :| |rest| <= MAX_DEPTH - depth - 1 && Route(scenes, on, l.inputId, input, rest);
      LongerRoute(scenes, on, source, input, l, rest);
    }
  }

  lemma RouteCarries(scenes: seq<SceneEntry>, on: set<SceneLayer>, source: Id, input: Id, depth: nat)
    requires source != input && depth < MAX_DEPTH && RoutesBelow(scenes, on, input, depth + 1, MAX_DEPTH - depth - 1)
    ensures (exists path: seq<Id> :: |path| <= MAX_DEPTH - depth && Route(scenes, on, source, input, path)) ==>
            Carries(scenes, on, source, input, depth)
  {
    if path: seq<Id> :| |path| <= MAX_DEPTH - depth && Route(scenes, on, source, input, path) {
      RouteStep(scenes, on, source, input, path);
      assert |path[1..]| <= MAX_DEPTH - depth - 1 && Route(scenes, on, path[0], input, path[1..]);
      assert HasRoute(scenes, on, path[0], input, MAX_DEPTH - depth - 1);
    }
  }

  /** A layer in front of a route makes a longer one. */
  lemma LongerRoute(scenes: seq<SceneEntry>, on: set<SceneLayer>, source: Id, input: Id, l: SceneLayer, rest: seq<Id>)
    requires FindScene(scenes, source).Some? && l in FindScene(scenes, source).value.layers && l in on
    requires Route(scenes, on, l.inputId, input, rest)
    ensures Route(scenes, on, source, input, [l.inputId] + rest)
  {
    var path := [l.inputId] + rest;
    assert path[1..] == rest;
    RouteStep(scenes, on, source, input, path);
  }

  /** The scene query means: a chain of one to five followed layers leads from the scene to the input. */
  lemma SceneCarriesIffRoute(scenes: seq<SceneEntry>, on: set<SceneLayer>, gpuId: Id, input: Id)
    ensures SceneCarriesOn(scenes, on, gpuId, input) <==>
            exists path: seq<Id> :: 1 <= |path| <= 5 && Route(scenes, on, gpuId, input, path)
  {
    if SceneCarriesOn(scenes, on, gpuId, input) {
      var l :| l in FindScene(scenes, gpuId).value.layers && l in on && Carries(scenes, on, l.inputId, input, 0);
      CarriesIffShortRoute(scenes, on, l.inputId, input, 0);
      var rest: seq<Id> :| |rest| <= 4 && Route(scenes, on, l.inputId, input, rest);
      LongerRoute(scenes, on, gpuId, input, l, rest);
    }
    if path: seq<Id> :| 1 <= |path| <= 5 && Route(scenes, on, gpuId, input, path) {
      RouteStep(scenes, on, gpuId, input, path);
      CarriesIffShortRoute(scenes, on, path[0], input, 0);
      assert |path[1..]| <= 4 && Route(scenes, on, path[0], input, path[1..]);
    }
  }

  /** The overlay found by an id is the first with that id. */
  lemma FoundIffFirst(overlays: seq<OverlaySlot>, o: OverlaySlot, id: Id)
    ensures FindOverlay(overlays, id) == Some(o) <==> FirstOverlay(overlays, o) && o.id == id
  {
    FoundOverlayIsFirst(overlays, id);
    if FirstOverlay(overlays, o) && o.id == id {
      var found := FindOverlay(overlays, id).value;
      var i :| 0 <= i < |overlays| && overlays[i] == o && forall j :: 0 <= j < i ==> overlays[j].id != o.id;
      var k :| 0 <= k < |overlays| && overlays[k] == found && forall j :: 0 <= j < k ==> overlays[j].id != found.id;
      assert i == k;
    }
  }

  /** Asking from a shallower depth finds at least as much. */
  lemma {:induction false} DepthMonotone(
      scenes: seq<SceneEntry>, on: set<SceneLayer>, source: Id, input: Id, d: nat, e: nat)
    requires d <= e && Carries(scenes, on, source, input, e)
    ensures Carries(scenes, on, source, input, d)
    decreases MAX_DEPTH - e
  {
    if source != input {
      var l :| l in FindScene(scenes, source).value.layers && l in on &&
               Carries(scenes, on, l.inputId, input, e + 1);
      DepthMonotone(scenes, on, l.inputId, input, d + 1, e + 1);
    }
  }

  /** Clearing flags only shrinks the carry relation. */
  lemma {:induction false} FlagMonotone(
      scenes: seq<SceneEntry>, less: set<SceneLayer>, more: set<SceneLayer>, source: Id, input: Id, d: nat)
    requires less <= more && Carries(scenes, less, source, input, d)
    ensures Carries(scenes, more, source, input, d)
    decreases MAX_DEPTH - d
  {
    if source != input {
      var l :| l in FindScene(scenes, source).value.layers && l in less &&
               Carries(scenes, less, l.inputId, input, d + 1);
      FlagMonotone(scenes, less, more, l.inputId, input, d + 1);
    }
  }

  lemma SceneFlagMonotone(scenes: seq<SceneEntry>, less: set<SceneLayer>, more: set<SceneLayer>, gpuId: Id, input: Id)
    requires less <= more && SceneCarriesOn(scenes, less, gpuId, input)
    ensures SceneCarriesOn(scenes, more, gpuId, input)
  {
    var l :| l in FindScene(scenes, gpuId).value.layers && l in less &&
             Carries(scenes, less, l.inputId, input, 0);
    FlagMonotone(scenes, less, more, l.inputId, input, 0);
  }

  /** What a layer that shows a scene carries, the scene as such carries too. */
  lemma NestedLayerMeansScene(scenes: seq<SceneEntry>, on: set<SceneLayer>, source: Id, input: Id)
    requires source != input && Carries(scenes, on, source, input, 0)
    ensures SceneCarriesOn(scenes, on, source, input)
  {
    var l :| l in FindScene(scenes, source).value.layers && l in on &&
             Carries(scenes, on, l.inputId, input, 1);
    DepthMonotone(scenes, on, l.inputId, input, 0, 1);
  }

  /** `after` differs from `before` only in layers that point directly at `input`. */
  ghost predicate OnlyDirect(before: set<SceneLayer>, after: set<SceneLayer>, input: Id) {
    after <= before && forall l :: l in before && l !in after ==> l.inputId == input
  }

  /** Clearing layers that show one input leaves the carrying of every other input as it was. */
  lemma {:induction false} OtherInputsKept(scenes: seq<SceneEntry>, before: set<SceneLayer>, after: set<SceneLayer>,
                                           input: Id, other: Id, source: Id, d: nat)
    requires OnlyDirect(before, after, input) && other != input && FindScene(scenes, input).None?
    ensures Carries(scenes, before, source, other, d) <==> Carries(scenes, after, source, other, d)
    decreases MAX_DEPTH - d
  {
    if Carries(scenes, after, source, other, d) {
      FlagMonotone(scenes, after, before, source, other, d);
    }
    if Carries(scenes, before, source, other, d) && source != other {
      var l :| l in FindScene(scenes, source).value.layers && l in before &&
               Carries(scenes, before, l.inputId, other, d + 1);
      OtherInputsKept(scenes, before, after, input, other, l.inputId, d + 1);
    }
  }

  lemma OtherInputsKeptByScene(scenes: seq<SceneEntry>, before: set<SceneLayer>, after: set<SceneLayer>,
                               input: Id, other: Id, gpuId: Id)
    requires OnlyDirect(before, after, input) && other != input && FindScene(scenes, input).None?
    ensures SceneCarriesOn(scenes, before, gpuId, other) <==> SceneCarriesOn(scenes, after, gpuId, other)
  {
    if SceneCarriesOn(scenes, after, gpuId, other) {
      SceneFlagMonotone(scenes, after, before, gpuId, other);
    }
    if SceneCarriesOn(scenes, before, gpuId, other) {
      var l :| l in FindScene(scenes, gpuId).value.layers && l in before &&
               Carries(scenes, before, l.inputId, other, 0);
      OtherInputsKept(scenes, before, after, input, other, l.inputId, 0);
    }
  }

  ghost predicate OverlayCarriesOn(scenes: seq<SceneEntry>, overlays: seq<OverlaySlot>, on: set<SceneLayer>,
                                   shown: set<OverlaySlot>, overlayId: Id, input: Id) {
    var slot := FindOverlay(overlays, overlayId);
    slot.Some? && slot.value in shown &&
    (if slot.value.sourceKind == InputSource then slot.value.sceneGpuId == input
     else SceneCarriesOn(scenes, on, slot.value.sceneGpuId, input))
  }

  ghost predicate UnitFollowsOn(scenes: seq<SceneEntry>, overlays: seq<OverlaySlot>, on: set<SceneLayer>,
                                shown: set<OverlaySlot>, unit: MixingUnit, input: Id) {
    SceneCarriesOn(scenes, on, unit.program, input) ||
    exists o :: o in unit.overlaysOnAir && OverlayCarriesOn(scenes, overlays, on, shown, o, input)
  }

  lemma OverlayFlagMonotone(
      scenes: seq<SceneEntry>, overlays: seq<OverlaySlot>, less: set<SceneLayer>, more: set<SceneLayer>,
      fewer: set<OverlaySlot>, shown: set<OverlaySlot>, overlayId: Id, input: Id)
    requires less <= more && fewer <= shown
    requires OverlayCarriesOn(scenes, overlays, less, fewer, overlayId, input)
    ensures OverlayCarriesOn(scenes, overlays, more, shown, overlayId, input)
  {
    var slot := FindOverlay(overlays, overlayId).value;
    if slot.sourceKind == SceneSource {
      SceneFlagMonotone(scenes, less, more, slot.sceneGpuId, input);
    }
  }

  lemma UnitFlagMonotone(
      scenes: seq<SceneEntry>, overlays: seq<OverlaySlot>, less: set<SceneLayer>, more: set<SceneLayer>,
      fewer: set<OverlaySlot>, shown: set<OverlaySlot>, unit: MixingUnit, input: Id)
    requires less <= more && fewer <= shown
    requires UnitFollowsOn(scenes, overlays, less, fewer, unit, input)
    ensures UnitFollowsOn(scenes, overlays, more, shown, unit, input)
  {
    if SceneCarriesOn(scenes, less, unit.program, input) {
      SceneFlagMonotone(scenes, less, more, unit.program, input);
    } else {
      var o :| o in unit.overlaysOnAir && OverlayCarriesOn(scenes, overlays, less, fewer, o, input);
      OverlayFlagMonotone(scenes, overlays, less, more, fewer, shown, o, input);
    }
  }

  /** The overlay itself if it shows the input directly. */
  function DirectOverlay(slot: Option<OverlaySlot>, inputId: Id): set<OverlaySlot> {
    if slot.Some? && slot.value.sourceKind == InputSource && slot.value.sceneGpuId == inputId then {slot.value} else {}
  }

  /** Overlays that show an input directly and lost their flag mattered to that input alone. */
  ghost predicate OnlyDirectOverlays(before: set<OverlaySlot>, after: set<OverlaySlot>, input: Id) {
    after <= before &&
    forall o :: o in before && o !in after ==> o.sourceKind == InputSource && o.sceneGpuId == input
  }

  /** Whether a unit follows another input is untouched by clearing what points directly at `input`. */
  lemma OtherInputsKeptByUnit(
      scenes: seq<SceneEntry>, overlays: seq<OverlaySlot>, before: set<SceneLayer>, after: set<SceneLayer>,
      shown: set<OverlaySlot>, left: set<OverlaySlot>, input: Id, other: Id, unit: MixingUnit)
    requires OnlyDirect(before, after, input) && OnlyDirectOverlays(shown, left, input)
    requires other != input && FindScene(scenes, input).None?
    ensures UnitFollowsOn(scenes, overlays, before, shown, unit, other) <==>
            UnitFollowsOn(scenes, overlays, after, left, unit, other)
  {
    OtherInputsKeptByScene(scenes, before, after, input, other, unit.program);
    forall o | o in unit.overlaysOnAir
      ensures OverlayCarriesOn(scenes, overlays, before, shown, o, other) <==>
              OverlayCarriesOn(scenes, overlays, after, left, o, other)
    {
      var slot := FindOverlay(overlays, o);
      if slot.Some? && slot.value.sourceKind == SceneSource {
        OtherInputsKeptByScene(scenes, before, after, input, other, slot.value.sceneGpuId);
      }
    }
  }

  // ----- what a clear may touch -----

  /** Scene ids that a clear starting at `gpuId` can visit: a chain of followed layers, each carrying `input`. */
  ghost predicate Visits(scenes: seq<SceneEntry>, on: set<SceneLayer>, gpuId: Id, input: Id, target: Id, steps: nat)
    decreases steps
  {
    gpuId == target ||
    (0 < steps && FindScene(scenes, gpuId).Some? &&
     exists l :: l in FindScene(scenes, gpuId).value.layers && l in on && l.inputId != input &&
                 Carries(scenes, on, l.inputId, input, 0) &&
                 Visits(scenes, on, l.inputId, input, target, steps - 1))
  }

  /** A layer that a clear of `input` starting at `gpuId` can reach. */
  ghost predicate Reached(scenes: seq<SceneEntry>, on: set<SceneLayer>, gpuId: Id, input: Id, layer: SceneLayer) {
    exists target: Id, steps: nat :: Visits(scenes, on, gpuId, input, target, steps) &&
      FindScene(scenes, target).Some? && layer in FindScene(scenes, target).value.layers
  }

  lemma {:induction false} VisitsMonotone(scenes: seq<SceneEntry>, less: set<SceneLayer>, more: set<SceneLayer>,
                                          gpuId: Id, input: Id, target: Id, steps: nat)
    requires less <= more && Visits(scenes, less, gpuId, input, target, steps)
    ensures Visits(scenes, more, gpuId, input, target, steps)
    decreases steps
  {
    if gpuId != target {
      var l :| l in FindScene(scenes, gpuId).value.layers && l in less && l.inputId != input &&
               Carries(scenes, less, l.inputId, input, 0) &&
               Visits(scenes, less, l.inputId, input, target, steps - 1);
      FlagMonotone(scenes, less, more, l.inputId, input, 0);
      VisitsMonotone(scenes, less, more, l.inputId, input, target, steps - 1);
    }
  }

  lemma ReachedMonotone(scenes: seq<SceneEntry>, less: set<SceneLayer>, more: set<SceneLayer>,
                        gpuId: Id, input: Id, layer: SceneLayer)
    requires less <= more && Reached(scenes, less, gpuId, input, layer)
    ensures Reached(scenes, more, gpuId, input, layer)
  {
    var target: Id, steps: nat :| Visits(scenes, less, gpuId, input, target, steps) &&
      FindScene(scenes, target).Some? && layer in FindScene(scenes, target).value.layers;
    VisitsMonotone(scenes, less, more, gpuId, input, target, steps);
  }

  /** What a nested clear can reach, the outer clear can reach through the layer that shows the nested scene. */
  lemma ReachedThrough(
      scenes: seq<SceneEntry>, on: set<SceneLayer>, gpuId: Id, input: Id, via: SceneLayer, layer: SceneLayer)
    requires FindScene(scenes, gpuId).Some? && via in FindScene(scenes, gpuId).value.layers && via in on
    requires via.inputId != input && Carries(scenes, on, via.inputId, input, 0)
    requires Reached(scenes, on, via.inputId, input, layer)
    ensures Reached(scenes, on, gpuId, input, layer)
  {
    var target: Id, steps: nat :| Visits(scenes, on, via.inputId, input, target, steps) &&
      FindScene(scenes, target).Some? && layer in FindScene(scenes, target).value.layers;
    assert Visits(scenes, on, gpuId, input, target, steps + 1);
  }

  lemma OwnLayerReached(scenes: seq<SceneEntry>, on: set<SceneLayer>, gpuId: Id, input: Id, layer: SceneLayer)
    requires FindScene(scenes, gpuId).Some? && layer in FindScene(scenes, gpuId).value.layers
    ensures Reached(scenes, on, gpuId, input, layer)
  {
    assert Visits(scenes, on, gpuId, input, gpuId, 0);
  }

  /**
   `rank` shows that the followed layers which carry `input` never lead back to the scene they are in.
   Cycles that do not carry the input are allowed.
   */
  ghost predicate AcyclicOn(scenes: seq<SceneEntry>, on: set<SceneLayer>, input: Id, rank: map<Id, nat>) {
    forall s, l :: s in scenes && l in s.layers && l in on && l.inputId != input &&
                   FindScene(scenes, l.inputId).Some? && Carries(scenes, on, l.inputId, input, 0) ==>
      s.gpuId in rank && l.inputId in rank && rank[l.inputId] < rank[s.gpuId]
  }

  lemma AcyclicMonotone(scenes: seq<SceneEntry>, less: set<SceneLayer>, more: set<SceneLayer>, input: Id,
                        rank: map<Id, nat>)
    requires less <= more && AcyclicOn(scenes, more, input, rank)
    ensures AcyclicOn(scenes, less, input, rank)
  {
    forall s, l | s in scenes && l in s.layers && l in less && l.inputId != input &&
                  FindScene(scenes, l.inputId).Some? && Carries(scenes, less, l.inputId, input, 0)
      ensures s.gpuId in rank && l.inputId in rank && rank[l.inputId] < rank[s.gpuId]
    {
      FlagMonotone(scenes, less, more, l.inputId, input, 0);
    }
  }

  // ----- the session -----

  class Session {
    const scenes: seq<SceneEntry>
    const overlays: seq<OverlaySlot>
    const units: seq<MixingUnit>
    const inputs: seq<Input>

    constructor (scenes: seq<SceneEntry>, overlays: seq<OverlaySlot>, units: seq<MixingUnit>, inputs: seq<Input>)
      ensures this.scenes == scenes && this.overlays == overlays && this.units == units && this.inputs == inputs
    {
      this.scenes := scenes;
      this.overlays := overlays;
      this.units := units;
      this.inputs := inputs;
    }

    ghost function AllLayers(): set<SceneLayer> {
      set s, l | s in scenes && l in s.layers :: l
    }

    ghost function AllOverlays(): set<OverlaySlot> {
      set o | o in overlays
    }

    /** The layers whose flag is set. */
    ghost function On(): set<SceneLayer>
      reads AllLayers()
    {
      set l | l in AllLayers() && l.audioFollow
    }

    /** The overlays whose flag is set. */
    ghost function OverlaysOn(): set<OverlaySlot>
      reads AllOverlays()
    {
      set o | o in AllOverlays() && o.audioFollow
    }

    predicate SceneCarries(gpuId: Id, inputId: Id)
      reads AllLayers()
      ensures SceneCarries(gpuId, inputId) <==> SceneCarriesOn(scenes, On(), gpuId, inputId)
    {
      var scene := FindScene(scenes, gpuId);
      scene.Some? && AnyLayerCarries(scene.value, inputId, 0)
    }

    /** Some followed layer of the scene carries the input. */
    predicate AnyLayerCarries(scene: SceneEntry, inputId: Id, depth: nat)
      requires scene in scenes && depth <= MAX_DEPTH
      reads AllLayers()
      ensures AnyLayerCarries(scene, inputId, depth) <==>
              exists l :: l in scene.layers && l in On() && Carries(scenes, On(), l.inputId, inputId, depth)
      decreases MAX_DEPTH - depth, 1
    {
      exists l :: l in scene.layers && l.audioFollow && LayerCarries(l.inputId, inputId, depth)
    }

    predicate LayerCarries(sourceId: Id, inputId: Id, depth: nat)
      requires depth <= MAX_DEPTH
      reads AllLayers()
      ensures LayerCarries(sourceId, inputId, depth) <==> Carries(scenes, On(), sourceId, inputId, depth)
      decreases MAX_DEPTH - depth, 0
    {
      if sourceId == inputId then true
      else if depth >= MAX_DEPTH then false
      else
        var scene := FindScene(scenes, sourceId);
        scene.Some? && AnyLayerCarries(scene.value, inputId, depth + 1)
    }

    // ----- what following means, by chains of layers -----

    /** One to five followed layers lead from the scene to the input. */
    ghost predicate SceneLets(on: set<SceneLayer>, gpuId: Id, inputId: Id) {
      exists path: seq<Id> :: 1 <= |path| <= 5 && Route(scenes, on, gpuId, inputId, path)
    }

    /** The overlay is followed and shows the input, or a scene that lets it through. */
    ghost predicate OverlayLets(on: set<SceneLayer>, shown: set<OverlaySlot>, o: OverlaySlot, inputId: Id) {
      o in shown &&
      (if o.sourceKind == InputSource then o.sceneGpuId == inputId else SceneLets(on, o.sceneGpuId, inputId))
    }

    /** The unit's program scene lets the input through, or one of its overlays on air does. */
    ghost predicate HearsOn(on: set<SceneLayer>, shown: set<OverlaySlot>, unit: MixingUnit, inputId: Id) {
      SceneLets(on, unit.program, inputId) ||
      exists o :: o in overlays && FirstOverlay(overlays, o) && o.id in unit.overlaysOnAir &&
                  OverlayLets(on, shown, o, inputId)
    }

    ghost predicate Hears(unit: MixingUnit, inputId: Id)
      reads AllLayers(), AllOverlays()
    {
      HearsOn(On(), OverlaysOn(), unit, inputId)
    }

    lemma FollowsIffHears(on: set<SceneLayer>, shown: set<OverlaySlot>, unit: MixingUnit, inputId: Id)
      ensures UnitFollowsOn(scenes, overlays, on, shown, unit, inputId) <==> HearsOn(on, shown, unit, inputId)
    {
      SceneCarriesIffRoute(scenes, on, unit.program, inputId);
      if id :| id in unit.overlaysOnAir && OverlayCarriesOn(scenes, overlays, on, shown, id, inputId) {
        var o := FindOverlay(overlays, id).value;
        FoundOverlayIsFirst(overlays, id);
        SceneCarriesIffRoute(scenes, on, o.sceneGpuId, inputId);
        assert o in overlays && OverlayLets(on, shown, o, inputId);
      }
      if o :| o in overlays && FirstOverlay(overlays, o) && o.id in unit.overlaysOnAir &&
              OverlayLets(on, shown, o, inputId) {
        FoundIffFirst(overlays, o, o.id);
        SceneCarriesIffRoute(scenes, on, o.sceneGpuId, inputId);
        assert OverlayCarriesOn(scenes, overlays, on, shown, o.id, inputId);
      }
    }

    /** The followers are the ids of exactly the units that hear the input, in session order; `places` are theirs. */
    ghost predicate ListedAt(on: set<SceneLayer>, shown: set<OverlaySlot>, followers: seq<Id>, inputId: Id, n: nat,
                             places: seq<nat>)
      requires n <= |units|
    {
      && |places| == |followers|
      && (forall i, j :: 0 <= i < j < |places| ==> places[i] < places[j])
      && (forall i :: 0 <= i < |places| ==> places[i] < n && followers[i] == units[places[i]].id)
      && (forall k :: 0 <= k < n ==> (k in places <==> HearsOn(on, shown, units[k], inputId)))
    }

    /** The same for all units, in the present state. */
    ghost predicate ListsHearers(followers: seq<Id>, inputId: Id)
      reads AllLayers(), AllOverlays()
    {
      exists places: seq<nat> :: ListedAt(On(), OverlaysOn(), followers, inputId, |units|, places)
    }

    lemma {:induction false} FollowersAreHearers(
        on: set<SceneLayer>, shown: set<OverlaySlot>, inputId: Id, n: nat) returns (places: seq<nat>)
      requires n <= |units|
      ensures ListedAt(on, shown, FollowersOn(on, shown, inputId, n), inputId, n, places)
      decreases n
    {
      places := [];
      if n != 0 {
        places := FollowersAreHearers(on, shown, inputId, n - 1);
        FollowsIffHears(on, shown, units[n - 1], inputId);
        ListOneMore(on, shown, FollowersOn(on, shown, inputId, n - 1), inputId, n, places);
        if HearsOn(on, shown, units[n - 1], inputId) {
          places := places + [n - 1];
        } else {
          assert FollowersOn(on, shown, inputId, n) == FollowersOn(on, shown, inputId, n - 1);
        }
      }
    }

    lemma ListOneMore(on: set<SceneLayer>, shown: set<OverlaySlot>, before: seq<Id>, inputId: Id, n: nat,
                      places: seq<nat>)
      requires 0 < n <= |units| && ListedAt(on, shown, before, inputId, n - 1, places)
      ensures
        if HearsOn(on, shown, units[n - 1], inputId) then
          ListedAt(on, shown, before + [units[n - 1].id], inputId, n, places + [n - 1])
        else ListedAt(on, shown, before, inputId, n, places)
    {
      assert n - 1 !in places;
    }

    // ----- which units an input follows -----

    /** An overlay on air lets `inputId` through. */
    predicate OverlayCarries(overlayId: Id, inputId: Id)
      reads AllLayers(), AllOverlays()
      ensures OverlayCarries(overlayId, inputId) <==>
              OverlayCarriesOn(scenes, overlays, On(), OverlaysOn(), overlayId, inputId)
    {
      var slot := FindOverlay(overlays, overlayId);
      slot.Some? && slot.value.audioFollow &&
      ((slot.value.sourceKind == InputSource && slot.value.sceneGpuId == inputId) ||
       (slot.value.sourceKind == SceneSource && SceneCarries(slot.value.sceneGpuId, inputId)))
    }

    predicate UnitFollows(unit: MixingUnit, inputId: Id)
      reads AllLayers(), AllOverlays()
      ensures UnitFollows(unit, inputId) <==>
              UnitFollowsOn(scenes, overlays, On(), OverlaysOn(), unit, inputId)
    {
      SceneCarries(unit.program, inputId) ||
      exists o :: o in unit.overlaysOnAir && OverlayCarries(o, inputId)
    }

    /** The ids, in session order, of the units among the first `n` that follow the input. */
    ghost function Followers(inputId: Id, n: nat): (followers: seq<Id>)
      requires n <= |units|
      reads AllLayers(), AllOverlays()
      ensures followers == FollowersOn(On(), OverlaysOn(), inputId, n)
    {
      if n == 0 then []
      else Followers(inputId, n - 1) + (if UnitFollows(units[n - 1], inputId) then [units[n - 1].id] else [])
    }

    method FollowUnits(input: Input) returns (followers: seq<Id>)
      ensures input.isMix ==> followers == []
      ensures !input.isMix ==> ListsHearers(followers, input.id)
      ensures followers == if input.isMix then [] else Followers(input.id, |units|)
    {
      followers := [];
      if input.isMix {
        return;
      }
      for i := 0 to |units|
        invariant followers == Followers(input.id, i)
      {
        var unit := units[i];
        if SceneCarries(unit.program, input.id) {
          followers := followers + [unit.id];
          continue;
        }
        var found := AnyOverlayFollows(unit.overlaysOnAir, input.id);
        if found {
          followers := followers + [unit.id];
        }
      }
      ghost var places := FollowersAreHearers(On(), OverlaysOn(), input.id, |units|);
    }

    /** The inner loop of `FollowUnits`. */
    method AnyOverlayFollows(onAir: seq<Id>, inputId: Id) returns (found: bool)
      ensures found <==> exists id :: id in onAir && OverlayCarries(id, inputId)
    {
      found := false;
      for k := 0 to |onAir|
        invariant forall m :: 0 <= m < k ==> !OverlayCarries(onAir[m], inputId)
      {
        var slot := FindOverlay(overlays, onAir[k]);
        if slot.None? || !slot.value.audioFollow {
          continue;
        }
        if (slot.value.sourceKind == InputSource && slot.value.sceneGpuId == inputId)
        || (slot.value.sourceKind == SceneSource && SceneCarries(slot.value.sceneGpuId, inputId)) {
          assert OverlayCarries(onAir[k], inputId);
          return true;
        }
      }
    }

    // ----- clearing -----

    ghost predicate Acyclic(inputId: Id, rank: map<Id, nat>)
      reads AllLayers()
    {
      AcyclicOn(scenes, On(), inputId, rank)
    }

    method ClearSceneFollow(gpuId: Id, inputId: Id, ghost rank: map<Id, nat>)
      requires Acyclic(inputId, rank)
      modifies AllLayers()
      ensures OnlyDirect(old(On()), On(), inputId)
      ensures !SceneCarries(gpuId, inputId)
      ensures forall l :: l in old(On()) && l !in On() ==> Reached(scenes, old(On()), gpuId, inputId, l)
      decreases if gpuId in rank then rank[gpuId] + 1 else 0
    {
      var found := FindScene(scenes, gpuId);
      if found.None? {
        return;
      }
      var scene := found.value;
      ghost var start := On();
      for i := 0 to |scene.layers|
        invariant SceneProgress(start, On(), gpuId, inputId, i)
      {
        var layer := scene.layers[i];
        assert scene in scenes && layer in scene.layers && layer in AllLayers();
        ghost var before := On();
        if layer.audioFollow {
          if layer.inputId == inputId {
            layer.audioFollow := false;
            assert On() == before - {layer};
          } else if FindScene(scenes, layer.inputId).Some? && LayerCarries(layer.inputId, inputId, 0) {
            AcyclicMonotone(scenes, before, start, inputId, rank);
            ClearSceneFollow(layer.inputId, inputId, rank);
            if Carries(scenes, On(), layer.inputId, inputId, 0) {
              NestedLayerMeansScene(scenes, On(), layer.inputId, inputId);
            }
          }
        }
        SceneProgressStep(start, before, On(), gpuId, inputId, i);
      }
    }

    /** The loop of `ClearSceneFollow` after `i` layers. */
    ghost predicate SceneProgress(start: set<SceneLayer>, on: set<SceneLayer>, gpuId: Id, inputId: Id, i: nat) {
      && FindScene(scenes, gpuId).Some?
      && var layers := FindScene(scenes, gpuId).value.layers;
      && i <= |layers|
      && OnlyDirect(start, on, inputId)
      && (forall m :: 0 <= m < i && layers[m] in on ==> !Carries(scenes, on, layers[m].inputId, inputId, 0))
      && (forall l :: l in start && l !in on ==> Reached(scenes, start, gpuId, inputId, l))
    }

    /** What one turn of that loop does for its layer. */
    ghost predicate LayerCleared(before: set<SceneLayer>, after: set<SceneLayer>, layer: SceneLayer, inputId: Id) {
      && OnlyDirect(before, after, inputId)
      && (layer in after ==> !Carries(scenes, after, layer.inputId, inputId, 0))
      && (forall l :: l in before && l !in after ==> l == layer || NestedReach(before, layer, inputId, l))
    }

    ghost predicate NestedReach(on: set<SceneLayer>, via: SceneLayer, inputId: Id, layer: SceneLayer) {
      via in on && via.inputId != inputId && Carries(scenes, on, via.inputId, inputId, 0) &&
      Reached(scenes, on, via.inputId, inputId, layer)
    }

    lemma SceneProgressStep(start: set<SceneLayer>, before: set<SceneLayer>, after: set<SceneLayer>,
                            gpuId: Id, inputId: Id, i: nat)
      requires SceneProgress(start, before, gpuId, inputId, i)
      requires i < |FindScene(scenes, gpuId).value.layers|
      requires LayerCleared(before, after, FindScene(scenes, gpuId).value.layers[i], inputId)
      ensures SceneProgress(start, after, gpuId, inputId, i + 1)
    {
      var layers := FindScene(scenes, gpuId).value.layers;
      forall m | 0 <= m < i && layers[m] in after && Carries(scenes, after, layers[m].inputId, inputId, 0)
        ensures false
      {
        FlagMonotone(scenes, after, before, layers[m].inputId, inputId, 0);
      }
      forall l | l in before && l !in after
        ensures Reached(scenes, start, gpuId, inputId, l)
      {
        if l == layers[i] {
          OwnLayerReached(scenes, start, gpuId, inputId, l);
        } else {
          ReachedThrough(scenes, before, gpuId, inputId, layers[i], l);
          ReachedMonotone(scenes, before, start, gpuId, inputId, l);
        }
      }
    }

    /** `unit` is the only one with its id. */
    ghost predicate UniqueUnits() {
      forall i, j :: 0 <= i < j < |units| ==> units[i].id != units[j].id
    }

    function FindUnit(id: Id, n: nat): (found: Option<MixingUnit>)
      requires n <= |units|
      ensures found.Some? ==> found.value in units && found.value.id == id
      ensures found.None? ==> forall k :: n <= k < |units| ==> units[k].id != id
      decreases |units| - n
    {
      if n == |units| then None
      else if units[n].id == id then Some(units[n])
      else FindUnit(id, n + 1)
    }

    predicate HasInput(id: Id) {
      exists i :: i in inputs && i.id == id
    }

    /** The slots among `ids` that show the input itself. */
    ghost function DirectSlots(ids: seq<Id>, inputId: Id): set<OverlaySlot> {
      set o | o in AllOverlays() && o.sourceKind == InputSource && o.sceneGpuId == inputId &&
              exists id :: id in ids && FindOverlay(overlays, id) == Some(o)
    }

    /** A clear for a unit can reach a layer through its program scene or a scene overlay on air. */
    ghost predicate ReachedByUnit(on: set<SceneLayer>, unit: MixingUnit, inputId: Id, layer: SceneLayer) {
      Reached(scenes, on, unit.program, inputId, layer) ||
      exists id :: id in unit.overlaysOnAir && ReachedByOverlay(on, id, inputId, layer)
    }

    ghost predicate ReachedByOverlay(on: set<SceneLayer>, overlayId: Id, inputId: Id, layer: SceneLayer) {
      var slot := FindOverlay(overlays, overlayId);
      slot.Some? && slot.value.sourceKind == SceneSource && Reached(scenes, on, slot.value.sceneGpuId, inputId, layer)
    }

    /** The first overlay with its id, on air in the unit and showing the input itself. */
    ghost predicate ShowsDirectly(unit: MixingUnit, o: OverlaySlot, inputId: Id) {
      FirstOverlay(overlays, o) && o.id in unit.overlaysOnAir && o.sourceKind == InputSource && o.sceneGpuId == inputId
    }

    lemma DirectSlotsAre(unit: MixingUnit, inputId: Id)
      ensures forall o :: o in DirectSlots(unit.overlaysOnAir, inputId) <==>
        o in AllOverlays() && ShowsDirectly(unit, o, inputId)
    {
      forall o | o in AllOverlays()
        ensures (exists id :: id in unit.overlaysOnAir && FindOverlay(overlays, id) == Some(o)) <==>
                FirstOverlay(overlays, o) && o.id in unit.overlaysOnAir
      {
        forall id {
          FoundIffFirst(overlays, o, id);
        }
      }
    }

    /** With unique ids there is one unit with this id and one found by it. */
    lemma FoundUnit(unit: MixingUnit)
      requires UniqueUnits() && unit in units
      ensures FindUnit(unit.id, 0) == Some(unit)
    {
      var found := FindUnit(unit.id, 0).value;
      var i :| 0 <= i < |units| && units[i] == unit;
      var k :| 0 <= k < |units| && units[k] == found;
      assert i == k;
    }

    /**
     Stops `unitId` following `inputId`: no chain of followed layers lets the input through any more. Exactly
     the overlays of the unit that show the input are cleared, and only layers that show it. Which units hear
     any other input stays as it was, and no other unit comes to hear this one.
     */
    method ClearInputFollow(inputId: Id, unitId: Id, ghost rank: map<Id, nat>)
      requires Acyclic(inputId, rank) && UniqueUnits() && FindScene(scenes, inputId).None?
      modifies AllLayers(), AllOverlays()
      ensures (forall i :: i in inputs ==> i.id != inputId) || (forall u :: u in units ==> u.id != unitId) ==>
        On() == old(On()) && OverlaysOn() == old(OverlaysOn())
      ensures forall i, u :: i in inputs && i.id == inputId && u in units && u.id == unitId ==>
        Silenced(old(On()), On(), old(OverlaysOn()), OverlaysOn(), u, inputId)
      ensures OnlyDirect(old(On()), On(), inputId)
      ensures forall u, other :: u in units && other != inputId ==> (Hears(u, other) <==> old(Hears(u, other)))
      ensures forall u :: u in units && Hears(u, inputId) ==> old(Hears(u, inputId))
      ensures HasInput(inputId) ==> unitId !in Followers(inputId, |units|)
      ensures forall other, n: nat :: other != inputId && n <= |units| ==>
        Followers(other, n) == old(Followers(other, n))
      ensures forall v :: v in Followers(inputId, |units|) ==> v in old(Followers(inputId, |units|))
    {
      var found := FindUnit(unitId, 0);
      ghost var (on, shown) := (On(), OverlaysOn());
      if !HasInput(inputId) || found.None? {
        NotFollowedUnless(inputId, unitId, on, shown);
        FollowersKept(on, on, shown, shown, inputId);
        return;
      }
      ClearUnitFollow(found.value, inputId, rank);
      SilencedUnit(on, On(), shown, OverlaysOn(), found.value, inputId);
      HearingKept(on, On(), shown, OverlaysOn(), inputId);
      NotFollowedUnless(inputId, unitId, On(), OverlaysOn());
      FollowersKept(on, On(), shown, OverlaysOn(), inputId);
    }

    /**
     The unit does not hear the input any more; exactly the overlays that show it directly lost their flag,
     and every layer that lost its flag lies on a chain from the unit to the input.
     */
    ghost predicate Silenced(before: set<SceneLayer>, after: set<SceneLayer>,
                             shown: set<OverlaySlot>, left: set<OverlaySlot>, unit: MixingUnit, inputId: Id) {
      && !HearsOn(after, left, unit, inputId)
      && (forall o :: o in overlays ==> (o in left <==> o in shown && !ShowsDirectly(unit, o, inputId)))
      && (forall l :: l in before && l !in after ==> ReachedByUnit(before, unit, inputId, l))
    }

    lemma SilencedUnit(before: set<SceneLayer>, after: set<SceneLayer>,
                       shown: set<OverlaySlot>, left: set<OverlaySlot>, unit: MixingUnit, inputId: Id)
      requires UniqueUnits() && unit in units && Cleared(before, after, shown, left, unit, inputId)
      requires !UnitFollowsOn(scenes, overlays, after, left, unit, inputId)
      ensures forall u :: u in units && u.id == unit.id ==> Silenced(before, after, shown, left, u, inputId)
    {
      FollowsIffHears(after, left, unit, inputId);
      DirectSlotsAre(unit, inputId);
      forall u | u in units && u.id == unit.id
        ensures u == unit
      {
        FoundUnit(u);
        FoundUnit(unit);
      }
    }

    lemma HearingKept(before: set<SceneLayer>, after: set<SceneLayer>,
                      shown: set<OverlaySlot>, left: set<OverlaySlot>, inputId: Id)
      requires FindScene(scenes, inputId).None?
      requires OnlyDirect(before, after, inputId) && OnlyDirectOverlays(shown, left, inputId)
      ensures forall u, other :: other != inputId ==>
        (HearsOn(after, left, u, other) <==> HearsOn(before, shown, u, other))
      ensures forall u :: HearsOn(after, left, u, inputId) ==> HearsOn(before, shown, u, inputId)
    {
      forall u, other | other != inputId
        ensures HearsOn(after, left, u, other) <==> HearsOn(before, shown, u, other)
      {
        FollowsIffHears(after, left, u, other);
        FollowsIffHears(before, shown, u, other);
        OtherInputsKeptByUnit(scenes, overlays, before, after, shown, left, inputId, other, u);
      }
      forall u | HearsOn(after, left, u, inputId)
        ensures HearsOn(before, shown, u, inputId)
      {
        FollowsIffHears(after, left, u, inputId);
        FollowsIffHears(before, shown, u, inputId);
        UnitFlagMonotone(scenes, overlays, after, before, left, shown, u, inputId);
      }
    }

    /** The part of `ClearInputFollow` after both entries were found. */
    method ClearUnitFollow(unit: MixingUnit, inputId: Id, ghost rank: map<Id, nat>)
      requires Acyclic(inputId, rank)
      modifies AllLayers(), AllOverlays()
      ensures !UnitFollows(unit, inputId)
      ensures OnlyDirect(old(On()), On(), inputId)
      ensures Cleared(old(On()), On(), old(OverlaysOn()), OverlaysOn(), unit, inputId)
    {
      ghost var (start, shown) := (On(), OverlaysOn());
      ClearSceneFollow(unit.program, inputId, rank);
      assert unit.overlaysOnAir[..0] == [];
      for k := 0 to |unit.overlaysOnAir|
        invariant Progress(start, On(), shown, OverlaysOn(), unit, inputId, k)
      {
        ghost var (before, left) := (On(), OverlaysOn());
        AcyclicMonotone(scenes, before, start, inputId, rank);
        ClearOverlayFollow(unit.overlaysOnAir[k], inputId, rank);
        ProgressStep(start, before, On(), shown, left, OverlaysOn(), unit, inputId, k);
      }
      assert unit.overlaysOnAir[..|unit.overlaysOnAir|] == unit.overlaysOnAir;
    }

    /** The loop of `ClearInputFollow` after `k` overlays. */
    ghost predicate Progress(
        start: set<SceneLayer>, on: set<SceneLayer>, shown: set<OverlaySlot>, left: set<OverlaySlot>,
        unit: MixingUnit, inputId: Id, k: nat) {
      && k <= |unit.overlaysOnAir|
      && OnlyDirect(start, on, inputId)
      && !SceneCarriesOn(scenes, on, unit.program, inputId)
      && (forall m :: 0 <= m < k ==> !OverlayCarriesOn(scenes, overlays, on, left, unit.overlaysOnAir[m], inputId))
      && left == shown - DirectSlots(unit.overlaysOnAir[..k], inputId)
      && (forall l :: l in start && l !in on ==> ReachedByUnit(start, unit, inputId, l))
    }

    /** What clearing one overlay does to the two flag sets. */
    ghost predicate OverlayCleared(
        before: set<SceneLayer>, after: set<SceneLayer>, shown: set<OverlaySlot>, left: set<OverlaySlot>,
        overlayId: Id, inputId: Id) {
      var slot := FindOverlay(overlays, overlayId);
      && OnlyDirect(before, after, inputId)
      && !OverlayCarriesOn(scenes, overlays, after, left, overlayId, inputId)
      && left == shown - DirectOverlay(slot, inputId)
      && (slot.Some? && slot.value.sourceKind == SceneSource ==>
           forall l :: l in before && l !in after ==> Reached(scenes, before, slot.value.sceneGpuId, inputId, l))
      && (slot.None? || slot.value.sourceKind == InputSource ==> after == before)
    }

    lemma ProgressStep(start: set<SceneLayer>, before: set<SceneLayer>, after: set<SceneLayer>,
                       shown: set<OverlaySlot>, left: set<OverlaySlot>, fewer: set<OverlaySlot>,
                       unit: MixingUnit, inputId: Id, k: nat)
      requires k < |unit.overlaysOnAir| && Progress(start, before, shown, left, unit, inputId, k)
      requires OverlayCleared(before, after, left, fewer, unit.overlaysOnAir[k], inputId)
      ensures Progress(start, after, shown, fewer, unit, inputId, k + 1)
    {
      var id := unit.overlaysOnAir[k];
      DirectSlotsStep(unit.overlaysOnAir, k, inputId);
      SilenceOfUnitKept(before, after, left, fewer, inputId);
      if FindOverlay(overlays, id).Some? && FindOverlay(overlays, id).value.sourceKind == SceneSource {
        ReachedByOneMore(before, start, unit, id, inputId, after);
      }
    }

    /** The loop body of `ClearInputFollow` for one overlay on air. */
    method ClearOverlayFollow(overlayId: Id, inputId: Id, ghost rank: map<Id, nat>)
      requires Acyclic(inputId, rank)
      modifies AllLayers(), AllOverlays()
      ensures OverlayCleared(old(On()), On(), old(OverlaysOn()), OverlaysOn(), overlayId, inputId)
    {
      var slot := FindOverlay(overlays, overlayId);
      if slot.None? || !slot.value.audioFollow {
        return;
      }
      if slot.value.sourceKind == InputSource && slot.value.sceneGpuId == inputId {
        slot.value.audioFollow := false;
        assert OverlaysOn() == old(OverlaysOn()) - {slot.value};
        assert On() == old(On());
      } else if slot.value.sourceKind == SceneSource {
        ClearSceneFollow(slot.value.sceneGpuId, inputId, rank);
        assert OverlaysOn() == old(OverlaysOn());
      }
    }

    /** The exact overlays cleared, and that every cleared layer lies on a route of the unit to the input. */
    ghost predicate Cleared(before: set<SceneLayer>, after: set<SceneLayer>,
                            shown: set<OverlaySlot>, left: set<OverlaySlot>, unit: MixingUnit, inputId: Id) {
      && left == shown - DirectSlots(unit.overlaysOnAir, inputId)
      && forall l :: l in before && l !in after ==> ReachedByUnit(before, unit, inputId, l)
    }

    lemma DirectSlotsStep(ids: seq<Id>, k: nat, inputId: Id)
      requires k < |ids|
      ensures
        var slot := FindOverlay(overlays, ids[k]);
        DirectSlots(ids[..k + 1], inputId) == DirectSlots(ids[..k], inputId) + DirectOverlay(slot, inputId)
      ensures k + 1 == |ids| ==> ids[..k + 1] == ids
    {
      assert ids[..k + 1] == ids[..k] + [ids[k]];
    }

    lemma ReachedByOneMore(
        before: set<SceneLayer>, start: set<SceneLayer>, unit: MixingUnit, overlayId: Id, inputId: Id,
        now: set<SceneLayer>)
      requires before <= start && overlayId in unit.overlaysOnAir
      requires FindOverlay(overlays, overlayId).Some? &&
        FindOverlay(overlays, overlayId).value.sourceKind == SceneSource
      requires forall l :: l in before && l !in now ==>
        Reached(scenes, before, FindOverlay(overlays, overlayId).value.sceneGpuId, inputId, l)
      ensures forall l :: l in before && l !in now ==> ReachedByUnit(start, unit, inputId, l)
    {
      forall l | l in before && l !in now
        ensures ReachedByUnit(start, unit, inputId, l)
      {
        ReachedMonotone(scenes, before, start, FindOverlay(overlays, overlayId).value.sceneGpuId, inputId, l);
        assert ReachedByOverlay(start, overlayId, inputId, l);
      }
    }

    /** scenes and overlays that let nothing through let nothing through after more flags are cleared. */
    lemma SilenceOfUnitKept(
        more: set<SceneLayer>, less: set<SceneLayer>, shown: set<OverlaySlot>, fewer: set<OverlaySlot>, inputId: Id)
      requires less <= more && fewer <= shown
      ensures forall o :: OverlayCarriesOn(scenes, overlays, less, fewer, o, inputId) ==>
        OverlayCarriesOn(scenes, overlays, more, shown, o, inputId)
      ensures forall g :: SceneCarriesOn(scenes, less, g, inputId) ==> SceneCarriesOn(scenes, more, g, inputId)
    {
      forall o | OverlayCarriesOn(scenes, overlays, less, fewer, o, inputId)
        ensures OverlayCarriesOn(scenes, overlays, more, shown, o, inputId)
      {
        OverlayFlagMonotone(scenes, overlays, less, more, fewer, shown, o, inputId);
      }
      forall g | SceneCarriesOn(scenes, less, g, inputId)
        ensures SceneCarriesOn(scenes, more, g, inputId)
      {
        SceneFlagMonotone(scenes, less, more, g, inputId);
      }
    }

    /** `Followers` as a function of the two flag sets. */
    ghost function FollowersOn(on: set<SceneLayer>, shown: set<OverlaySlot>, inputId: Id, n: nat): seq<Id>
      requires n <= |units|
    {
      if n == 0 then []
      else FollowersOn(on, shown, inputId, n - 1) +
           (if UnitFollowsOn(scenes, overlays, on, shown, units[n - 1], inputId) then [units[n - 1].id] else [])
    }

    lemma {:induction false} FollowersOnAre(on: set<SceneLayer>, shown: set<OverlaySlot>, inputId: Id, n: nat)
      requires n <= |units|
      ensures forall v :: v in FollowersOn(on, shown, inputId, n) <==>
        exists k :: 0 <= k < n && units[k].id == v && UnitFollowsOn(scenes, overlays, on, shown, units[k], inputId)
    {
      if n != 0 {
        FollowersOnAre(on, shown, inputId, n - 1);
      }
    }

    /** With unique ids, a unit id is listed exactly when the unit found by it follows. */
    lemma NotFollowedUnless(inputId: Id, unitId: Id, on: set<SceneLayer>, shown: set<OverlaySlot>)
      requires UniqueUnits()
      ensures unitId in FollowersOn(on, shown, inputId, |units|) <==>
        FindUnit(unitId, 0).Some? &&
        UnitFollowsOn(scenes, overlays, on, shown, FindUnit(unitId, 0).value, inputId)
    {
      FollowersOnAre(on, shown, inputId, |units|);
      var found := FindUnit(unitId, 0);
      if found.Some? {
        var k :| 0 <= k < |units| && units[k] == found.value;
      }
    }

    lemma {:induction false} OtherFollowersKept(
        before: set<SceneLayer>, after: set<SceneLayer>, shown: set<OverlaySlot>, left: set<OverlaySlot>,
        inputId: Id, other: Id, n: nat)
      requires n <= |units| && other != inputId && FindScene(scenes, inputId).None?
      requires OnlyDirect(before, after, inputId) && OnlyDirectOverlays(shown, left, inputId)
      ensures FollowersOn(before, shown, other, n) == FollowersOn(after, left, other, n)
    {
      if n != 0 {
        OtherFollowersKept(before, after, shown, left, inputId, other, n - 1);
        OtherInputsKeptByUnit(scenes, overlays, before, after, shown, left, inputId, other, units[n - 1]);
      }
    }

    /** No other input gains or loses a unit, and the cleared input gains none. */
    lemma FollowersKept(
        before: set<SceneLayer>, after: set<SceneLayer>, shown: set<OverlaySlot>, left: set<OverlaySlot>, inputId: Id)
      requires FindScene(scenes, inputId).None?
      requires OnlyDirect(before, after, inputId) && OnlyDirectOverlays(shown, left, inputId)
      ensures forall other, n: nat :: other != inputId && n <= |units| ==>
        FollowersOn(before, shown, other, n) == FollowersOn(after, left, other, n)
      ensures forall v :: v in FollowersOn(after, left, inputId, |units|) ==>
        v in FollowersOn(before, shown, inputId, |units|)
    {
      forall other, n: nat | other != inputId && n <= |units|
        ensures FollowersOn(before, shown, other, n) == FollowersOn(after, left, other, n)
      {
        OtherFollowersKept(before, after, shown, left, inputId, other, n);
      }
      FollowersOnAre(before, shown, inputId, |units|);
      FollowersOnAre(after, left, inputId, |units|);
      forall u | u in units && UnitFollowsOn(scenes, overlays, after, left, u, inputId)
        ensures UnitFollowsOn(scenes, overlays, before, shown, u, inputId)
      {
        UnitFlagMonotone(scenes, overlays, after, before, left, shown, u, inputId);
      }
    }
  }
}
