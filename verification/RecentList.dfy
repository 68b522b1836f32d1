/** Most-recently-used lists (hosts/win32/AppPrefs.cs:142-153). */
module RecentList {
  import opened Arithmetic
  import opened Common
  import opened Text

  class PathList {
    var items: seq<string>

    constructor ()
      ensures items == []
    {
      items := [];
    }
  }

  predicate Blank(path: string) {
    forall i :: 0 <= i < |path| ==> IsWhite(path[i])
  }

  function Take(s: seq<string>, cap: nat): seq<string> {
    s[..Min(cap, |s|)]
  }

  /** `List.Remove`: the first occurrence. */
  function RemoveFirst(s: seq<string>, path: string): seq<string> {
    if |s| == 0 then [] else if s[0] == path then s[1..] else [s[0]] + RemoveFirst(s[1..], path)
  }

  function Remembered(s: seq<string>, path: string, cap: nat): seq<string> {
    if Blank(path) then s else Take([path] + RemoveFirst(s, path), cap)
  }

  method Remember(list: PathList, path: string, cap: nat)
    modifies list
    ensures list.items == Remembered(old(list.items), path, cap)
    ensures (forall i :: 0 <= i < |path| ==> IsWhite(path[i])) ==> list.items == old(list.items)
    ensures (exists i :: 0 <= i < |path| && !IsWhite(path[i])) ==> MovedToFront(old(list.items), path, cap, list.items)
  {
    RemoveFirstMeans(list.items, path);
    if Blank(path) {
      return;
    }
    list.items := RemoveFirst(list.items, path);
    list.items := [path] + list.items;
    if |list.items| > cap {
      list.items := list.items[..cap];
    }
  }

  /** The first place of the path, or the length. */
  ghost predicate FirstPlace(s: seq<string>, path: string, k: nat) {
    k <= |s| && path !in s[..k] && (k < |s| ==> s[k] == path)
  }

  /** The path stands in front, the others follow in their order with its first mention taken out, at most `cap`. */
  ghost predicate MovedToFront(s: seq<string>, path: string, cap: nat, out: seq<string>) {
    exists k: nat :: FirstPlace(s, path, k) && out == UpTo([path] + s[..k] + (if k < |s| then s[k + 1..] else []), cap)
  }

  function UpTo(s: seq<string>, cap: nat): (t: seq<string>)
    ensures |t| <= cap && t <= s && (|t| < cap ==> t == s)
  {
    if |s| <= cap then s else s[..cap]
  }

  lemma {:induction false} RemoveFirstMeans(s: seq<string>, path: string)
    ensures exists k: nat :: FirstPlace(s, path, k) &&
              [path] + RemoveFirst(s, path) == [path] + s[..k] + (if k < |s| then s[k + 1..] else [])
  {
    var k := RemovedAt(s, path);
    assert [path] + (s[..k] + (if k < |s| then s[k + 1..] else [])) ==
           [path] + s[..k] + (if k < |s| then s[k + 1..] else []);
  }

  lemma {:induction false} RemovedAt(s: seq<string>, path: string) returns (k: nat)
    ensures FirstPlace(s, path, k) && RemoveFirst(s, path) == s[..k] + (if k < |s| then s[k + 1..] else [])
    decreases |s|
  {
    k := 0;
    if |s| != 0 && s[0] != path {
      var i := RemovedAt(s[1..], path);
      k := i + 1;
      assert s[..k] == [s[0]] + s[1..][..i];
      assert k < |s| ==> s[k + 1..] == s[1..][i + 1..];
    }
  }

  function NonBlank(s: seq<string>): seq<string> {
    if |s| == 0 then [] else (if Blank(s[0]) then [] else [s[0]]) + NonBlank(s[1..])
  }

  /** `Distinct`: the first occurrence of each. */
  function Distinct(s: seq<string>): seq<string> {
    if |s| == 0 then []
    else
      var before := Distinct(s[..|s| - 1]);
      if s[|s| - 1] in before then before else before + [s[|s| - 1]]
  }

  /** `Clean` */
  function Clean(list: seq<string>, cap: nat): seq<string> {
    Take(Distinct(NonBlank(list)), cap)
  }

  // ----- agreement with the full history -----

  function Reversed(s: seq<string>): seq<string> {
    if |s| == 0 then [] else Reversed(s[1..]) + [s[0]]
  }

  /** All paths of a history, each once, in reverse order of last use. */
  function ByLastUse(history: seq<string>): seq<string> {
    Distinct(Reversed(NonBlank(history)))
  }

  function RememberAll(history: seq<string>, cap: nat): seq<string> {
    if |history| == 0 then [] else Remembered(RememberAll(history[..|history| - 1], cap), history[|history| - 1], cap)
  }

  /** Everything but `path`, in order. */
  function Except(s: seq<string>, path: string): seq<string> {
    if |s| == 0 then [] else (if s[0] == path then [] else [s[0]]) + Except(s[1..], path)
  }

  lemma {:induction false} ExceptAbsent(s: seq<string>, path: string)
    requires path !in s
    ensures Except(s, path) == s
  {
    if |s| != 0 {
      ExceptAbsent(s[1..], path);
    }
  }

  lemma {:induction false} ExceptAppend(a: seq<string>, b: seq<string>, path: string)
    ensures Except(a + b, path) == Except(a, path) + Except(b, path)
  {
    if |a| == 0 {
      assert a + b == b;
    } else {
      assert (a + b)[1..] == a[1..] + b;
      ExceptAppend(a[1..], b, path);
    }
  }

  /** Without duplicates, removing the first occurrence removes all. */
  lemma {:induction false} RemoveFirstIsExcept(s: seq<string>, path: string)
    requires NoDuplicates(s)
    ensures RemoveFirst(s, path) == Except(s, path)
  {
    if |s| != 0 {
      if s[0] == path {
        assert path !in s[1..];
        ExceptAbsent(s[1..], path);
      } else {
        RemoveFirstIsExcept(s[1..], path);
      }
    }
  }

  lemma {:induction false} DistinctIsDistinct(s: seq<string>)
    ensures NoDuplicates(Distinct(s))
    ensures forall p :: p in Distinct(s) <==> p in s
  {
    if |s| != 0 {
      DistinctIsDistinct(s[..|s| - 1]);
      assert s == s[..|s| - 1] + [s[|s| - 1]];
    }
  }

  lemma DistinctPush(s: seq<string>, last: string)
    ensures Distinct(s + [last]) == if last in Distinct(s) then Distinct(s) else Distinct(s) + [last]
  {
    assert (s + [last])[..|s|] == s;
  }

  /** A path used now moves to the front of the others. */
  lemma {:induction false} DistinctFront(path: string, s: seq<string>)
    ensures Distinct([path] + s) == [path] + Except(Distinct(s), path)
    decreases |s|
  {
    if |s| == 0 {
      DistinctPush([], path);
      assert [path] + s == [] + [path];
    } else {
      var n := |s| - 1;
      var (last, before) := (s[n], Distinct(s[..n]));
      DistinctFront(path, s[..n]);
      assert [path] + s == ([path] + s[..n]) + [last] && s == s[..n] + [last];
      DistinctPush([path] + s[..n], last);
      DistinctPush(s[..n], last);
      ExceptPush(before, last, path);
    }
  }

  /** Taking a path out of the list, before or after another one is added at its end. */
  lemma ExceptPush(s: seq<string>, last: string, path: string)
    ensures [path] + Except(if last in s then s else s + [last], path) ==
            if last in [path] + Except(s, path) then [path] + Except(s, path) else [path] + Except(s, path) + [last]
  {
    ExceptAppend(s, [last], path);
    ExceptMembers(s, path);
    assert Except([last], path) == if last == path then [] else [last];
  }

  lemma {:induction false} ExceptMembers(s: seq<string>, path: string)
    ensures forall p :: p in Except(s, path) <==> p in s && p != path
  {
    if |s| != 0 {
      ExceptMembers(s[1..], path);
      assert s == [s[0]] + s[1..];
    }
  }

  lemma {:induction false} NonBlankAppend(s: seq<string>, path: string)
    ensures NonBlank(s + [path]) == NonBlank(s) + (if Blank(path) then [] else [path])
  {
    if |s| == 0 {
      assert s + [path] == [path];
    } else {
      assert (s + [path])[1..] == s[1..] + [path];
      NonBlankAppend(s[1..], path);
      var (first, last) := (if Blank(s[0]) then [] else [s[0]], if Blank(path) then [] else [path]);
      assert first + (NonBlank(s[1..]) + last) == (first + NonBlank(s[1..])) + last;
    }
  }

  lemma {:induction false} ReversedAppend(s: seq<string>, path: string)
    ensures Reversed(s + [path]) == [path] + Reversed(s)
  {
    if |s| == 0 {
      assert s + [path] == [path];
    } else {
      assert (s + [path])[1..] == s[1..] + [path];
      ReversedAppend(s[1..], path);
    }
  }

  /** Truncating before a use loses nothing that the truncated result would show. */
  lemma {:induction false} TakeExcept(s: seq<string>, path: string, cap: nat)
    requires NoDuplicates(s)
    ensures Take([path] + Except(Take(s, cap), path), cap) == Take([path] + Except(s, path), cap)
  {
    var (kept, rest) := (Take(s, cap), s[Min(cap, |s|)..]);
    assert s == kept + rest;
    ExceptAppend(kept, rest, path);
    ExceptLength(kept, path);
    if path !in kept {
      ExceptAbsent(kept, path);
    }
    var (e, r) := (Except(kept, path), Except(rest, path));
    assert [path] + (e + r) == ([path] + e) + r;
    assert |[path] + e| >= cap || r == [];
    TakePrefix([path] + e, r, cap);
  }

  lemma TakePrefix(a: seq<string>, b: seq<string>, cap: nat)
    requires cap <= |a| || b == []
    ensures Take(a + b, cap) == Take(a, cap)
  {
    if b == [] {
      assert a + b == a;
    }
  }

  lemma {:induction false} ExceptLength(s: seq<string>, path: string)
    requires NoDuplicates(s)
    ensures |Except(s, path)| == if path in s then |s| - 1 else |s|
  {
    if |s| != 0 {
      ExceptLength(s[1..], path);
      assert s[0] !in s[1..];
      assert path in s <==> path == s[0] || path in s[1..];
      assert |Except(s, path)| == |Except(s[1..], path)| + (if s[0] == path then 0 else 1);
    }
  }

  /** The list is always the first `cap` paths of the full history in reverse order of last use. */
  lemma {:induction false} ListIsHistory(history: seq<string>, cap: nat)
    ensures RememberAll(history, cap) == Take(ByLastUse(history), cap)
  {
    if |history| != 0 {
      var n := |history| - 1;
      var (before, path) := (history[..n], history[n]);
      ListIsHistory(before, cap);
      assert history == before + [path];
      NonBlankAppend(before, path);
      if !Blank(path) {
        ReversedAppend(NonBlank(before), path);
        DistinctFront(path, Reversed(NonBlank(before)));
        DistinctIsDistinct(Reversed(NonBlank(before)));
        RemoveFirstIsExcept(Take(ByLastUse(before), cap), path);
        TakeExcept(ByLastUse(before), path, cap);
      } else {
        assert NonBlank(history) == NonBlank(before);
      }
    }
  }

  /** The place is the first of a path that is not blank. */
  ghost predicate FirstUse(list: seq<string>, k: nat) {
    k < |list| && list[k] !in list[..k] && exists i :: 0 <= i < |list[k]| && !IsWhite(list[k][i])
  }

  /** `Clean` selects the first mention of each path that is not blank, in order, and the first `cap` of them. */
  lemma CleanSelects(list: seq<string>, cap: nat) returns (all: seq<string>, places: seq<nat>)
    ensures UsesAt(list, all, places)
    ensures Clean(list, cap) == UpTo(all, cap)
  {
    places := FirstUses(list);
    all := Distinct(NonBlank(list));
  }

  lemma {:induction false} FirstUses(list: seq<string>) returns (places: seq<nat>)
    ensures UsesAt(list, Distinct(NonBlank(list)), places)
    decreases |list|
  {
    places := [];
    if |list| != 0 {
      var (before, last) := (list[..|list| - 1], list[|list| - 1]);
      places := FirstUses(before);
      assert list == before + [last];
      UsesPush(before, Distinct(NonBlank(before)), places, last);
      DistinctNonBlankPush(before, last);
      if !Blank(last) && last !in before {
        places := places + [|before|];
      }
    }
  }

  ghost predicate UsesAt(list: seq<string>, all: seq<string>, places: seq<nat>) {
    Selects(list, all, places) && forall k :: 0 <= k < |list| ==> (k in places <==> FirstUse(list, k))
  }

  lemma UsesPush(before: seq<string>, all: seq<string>, places: seq<nat>, last: string)
    requires UsesAt(before, all, places)
    ensures
      if !Blank(last) && last !in before then UsesAt(before + [last], all + [last], places + [|before|])
      else UsesAt(before + [last], all, places)
  {
    var list := before + [last];
    SelectsPush(before, all, places, last);
    assert list[..|before|] == before;
    forall k | 0 <= k < |before|
      ensures FirstUse(list, k) <==> FirstUse(before, k)
    {
      assert before[..k] == list[..k];
    }
  }

  lemma DistinctNonBlankPush(before: seq<string>, last: string)
    ensures Distinct(NonBlank(before + [last])) ==
      if !Blank(last) && last !in before then Distinct(NonBlank(before)) + [last] else Distinct(NonBlank(before))
  {
    NonBlankAppend(before, last);
    if Blank(last) {
      assert NonBlank(before + [last]) == NonBlank(before);
    } else {
      DistinctPush(NonBlank(before), last);
      DistinctIsDistinct(NonBlank(before));
      NonBlankHas(before, last);
    }
  }

  lemma {:induction false} NonBlankHas(s: seq<string>, p: string)
    requires !Blank(p)
    ensures p in NonBlank(s) <==> p in s
  {
    if |s| != 0 {
      NonBlankHas(s[1..], p);
      assert s == [s[0]] + s[1..];
    }
  }

  /** `Clean` leaves a list built by `Remember` as it is. */
  lemma CleanIsIdentity(history: seq<string>, cap: nat)
    ensures Clean(RememberAll(history, cap), cap) == RememberAll(history, cap)
  {
    var list := RememberAll(history, cap);
    ListIsHistory(history, cap);
    DistinctIsDistinct(Reversed(NonBlank(history)));
    ReversedMembers(NonBlank(history));
    NonBlankMembers(history);
    assert forall p :: p in list ==> p in ByLastUse(history);
    NonBlankFixed(list);
    DistinctFixed(list);
  }

  lemma {:induction false} ReversedMembers(s: seq<string>)
    ensures forall p :: p in Reversed(s) <==> p in s
  {
    if |s| != 0 {
      ReversedMembers(s[1..]);
      assert s == [s[0]] + s[1..];
    }
  }

  lemma {:induction false} NonBlankMembers(s: seq<string>)
    ensures forall p :: p in NonBlank(s) ==> !Blank(p)
  {
    if |s| != 0 {
      NonBlankMembers(s[1..]);
    }
  }

  lemma {:induction false} NonBlankFixed(s: seq<string>)
    requires forall p :: p in s ==> !Blank(p)
    ensures NonBlank(s) == s
  {
    if |s| != 0 {
      NonBlankFixed(s[1..]);
    }
  }

  lemma {:induction false} DistinctFixed(s: seq<string>)
    requires NoDuplicates(s)
    ensures Distinct(s) == s
  {
    if |s| != 0 {
      var n := |s| - 1;
      DistinctFixed(s[..n]);
      assert s == s[..n] + [s[n]] && s[n] !in s[..n];
    }
  }
}
