/** Types and predicates that several modules share. */
module Common {

  datatype Option<+T> = None | Some(value: T)

  ghost predicate NoDuplicates<T>(s: seq<T>) {
    forall i, j :: 0 <= i < j < |s| ==> s[i] != s[j]
  }

  /** `part` is what stands at the places of `s`, in the order of `s`. */
  ghost predicate Selects<T>(s: seq<T>, part: seq<T>, places: seq<nat>) {
    && |places| == |part|
    && (forall i, j :: 0 <= i < j < |places| ==> places[i] < places[j])
    && (forall i :: 0 <= i < |places| ==> places[i] < |s| && part[i] == s[places[i]])
  }

  /** One more element, chosen or not. */
  lemma SelectsPush<T>(s: seq<T>, part: seq<T>, places: seq<nat>, x: T)
    requires Selects(s, part, places)
    ensures Selects(s + [x], part, places) && |s| !in places
    ensures Selects(s + [x], part + [x], places + [|s|])
  {
  }

  /** The size and pixel format of a texture. */
  datatype Shape = Shape(width: nat, height: nat, format: nat)
}
