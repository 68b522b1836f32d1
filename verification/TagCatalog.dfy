/**
 Tag catalogs and the tag lists of their owners (hosts/win32/TagCatalog.cs:1-85).

 A `List<string>` is a shared object, so a list can be passed to an operation twice.
 */
module TagCatalog {
  import opened Common
  import opened Text

  class TagList {
    var items: seq<string>

    constructor (items: seq<string>)
      ensures this.items == items
    {
      this.items := items;
    }
  }

  // ----- normal form of one name -----

  function TrimStart(s: string): string {
    if |s| != 0 && IsWhite(s[0]) then TrimStart(s[1..]) else s
  }

  function TrimEnd(s: string): string {
    if |s| != 0 && IsWhite(s[|s| - 1]) then TrimEnd(s[..|s| - 1]) else s
  }

  function Trim(s: string): string {
    TrimEnd(TrimStart(s))
  }

  function Normalize(name: Option<string>): Option<string> {
    if name.None? || Trim(name.value) == "" then None else Some(Trim(name.value))
  }

  /** A name in normal form: not empty, no white space at either end. */
  predicate Normal(s: string) {
    s != "" && !IsWhite(s[0]) && !IsWhite(s[|s| - 1])
  }

  lemma {:induction false} TrimEndKeepsHead(s: string)
    ensures TrimEnd(s) != "" ==> s != "" && TrimEnd(s)[0] == s[0]
    ensures TrimEnd(s) != "" ==> !IsWhite(TrimEnd(s)[|TrimEnd(s)| - 1])
  {
    if |s| != 0 && IsWhite(s[|s| - 1]) {
      TrimEndKeepsHead(s[..|s| - 1]);
    }
  }

  lemma {:induction false} TrimStartHead(s: string)
    ensures TrimStart(s) != "" ==> !IsWhite(TrimStart(s)[0])
  {
    if |s| != 0 && IsWhite(s[0]) {
      TrimStartHead(s[1..]);
    }
  }

  /** What normalising yields is in normal form, and names in normal form are its fixed points. */
  lemma NormalizeIsNormal(s: string)
    ensures Normalize(Some(s)).Some? ==> Normal(Normalize(Some(s)).value)
    ensures Normal(s) <==> Normalize(Some(s)) == Some(s)
  {
    TrimStartHead(s);
    TrimEndKeepsHead(TrimStart(s));
  }

  /** `t` is `s` without the white space at its two ends. */
  ghost predicate Stripped(s: string, t: string) {
    exists i, j :: 0 <= i <= j <= |s| && StrippedAt(s, t, i, j)
  }

  ghost predicate StrippedAt(s: string, t: string, i: nat, j: nat)
    requires i <= j <= |s|
  {
    t == s[i..j] && (forall k :: 0 <= k < i ==> IsWhite(s[k])) && (forall k :: j <= k < |s| ==> IsWhite(s[k]))
  }

  lemma {:induction false} TrimStartAt(s: string) returns (i: nat)
    ensures i <= |s| && TrimStart(s) == s[i..] && forall k :: 0 <= k < i ==> IsWhite(s[k])
    decreases |s|
  {
    i := 0;
    if |s| != 0 && IsWhite(s[0]) {
      var rest := TrimStartAt(s[1..]);
      i := rest + 1;
      assert s[i..] == s[1..][rest..];
      assert forall k :: 0 < k < i ==> s[k] == s[1..][k - 1];
    }
  }

  lemma {:induction false} TrimEndAt(s: string) returns (j: nat)
    ensures j <= |s| && TrimEnd(s) == s[..j] && forall k :: j <= k < |s| ==> IsWhite(s[k])
    decreases |s|
  {
    j := |s|;
    if |s| != 0 && IsWhite(s[|s| - 1]) {
      j := TrimEndAt(s[..|s| - 1]);
      assert s[..j] == s[..|s| - 1][..j];
      assert forall k :: j <= k < |s| - 1 ==> s[k] == s[..|s| - 1][k];
    }
  }

  /** Normalising takes the white space off both ends and nothing else; a name of white space alone is none. */
  lemma NormalizeStrips(s: string)
    ensures Normalize(Some(s)).None? <==> forall k :: 0 <= k < |s| ==> IsWhite(s[k])
    ensures Normalize(Some(s)).Some? ==> Stripped(s, Normalize(Some(s)).value)
  {
    NormalizeIsNormal(s);
    var i := TrimStartAt(s);
    var j := TrimEndAt(s[i..]);
    assert Trim(s) == s[i..][..j] == s[i..i + j];
    assert forall k :: i + j <= k < |s| ==> s[k] == s[i..][k - i];
    assert StrippedAt(s, Trim(s), i, i + j);
    if Normalize(Some(s)).Some? {
      assert s[i] == Trim(s)[0];
    }
  }

  // ----- lists as values -----

  ghost predicate AllNormal(s: seq<string>) {
    forall t :: t in s ==> Normal(t)
  }

  /** A list as every operation leaves it. */
  ghost predicate Clean(s: seq<string>) {
    NoDuplicates(s) && AllNormal(s)
  }

  /** Appends a name unless it is listed. */
  function Adding(s: seq<string>, name: string): seq<string> {
    if name in s then s else s + [name]
  }

  /** Adds each name, normalised, in order; blank ones are left out. */
  function AddingAll(s: seq<string>, tags: seq<string>): seq<string> {
    if |tags| == 0 then s
    else
      var before := AddingAll(s, tags[..|tags| - 1]);
      var name := Normalize(Some(tags[|tags| - 1]));
      if name.Some? then Adding(before, name.value) else before
  }

  function Replacing(s: seq<string>, current: string, name: string): seq<string> {
    seq(|s|, i requires 0 <= i < |s| => if s[i] == current then name else s[i])
  }

  function Removing(s: seq<string>, name: string): seq<string> {
    if |s| == 0 then []
    else Removing(s[..|s| - 1], name) + (if s[|s| - 1] == name then [] else [s[|s| - 1]])
  }

  /** `t` is the normal form of one of the names. */
  ghost predicate Names(tags: seq<string>, t: string) {
    exists i :: 0 <= i < |tags| && Normalize(Some(tags[i])) == Some(t)
  }

  lemma NamesPush(tags: seq<string>, tag: string, t: string)
    ensures Names(tags + [tag], t) <==> Names(tags, t) || Normalize(Some(tag)) == Some(t)
  {
    var more := tags + [tag];
    assert more[|tags|] == tag;
    if Names(tags, t) {
      var i :| 0 <= i < |tags| && Normalize(Some(tags[i])) == Some(t);
      assert more[i] == tags[i];
    }
  }

  /** Whatever the list, the names that were wanted are added behind what was there, and no others. */
  lemma {:induction false} AddingAllMembers(s: seq<string>, tags: seq<string>)
    ensures s <= AddingAll(s, tags)
    ensures forall t :: t in AddingAll(s, tags) <==> t in s || Names(tags, t)
    decreases |tags|
  {
    if |tags| != 0 {
      var (front, tag) := (tags[..|tags| - 1], tags[|tags| - 1]);
      AddingAllMembers(s, front);
      assert tags == front + [tag];
      forall t
        ensures Names(tags, t) <==> Names(front, t) || Normalize(Some(tag)) == Some(t)
      {
        NamesPush(front, tag, t);
      }
    }
  }

  /** The normalised names of a list, each once, in order of first mention. */
  lemma {:induction false} AddingAllIsClean(s: seq<string>, tags: seq<string>)
    requires Clean(s)
    ensures Clean(AddingAll(s, tags)) && s <= AddingAll(s, tags)
    ensures forall t :: t in AddingAll(s, tags) <==> t in s || Names(tags, t)
    decreases |tags|
  {
    AddingAllMembers(s, tags);
    if |tags| != 0 {
      var n := |tags| - 1;
      AddingAllIsClean(s, tags[..n]);
      NormalizeIsNormal(tags[n]);
    }
  }

  /** Normalising the names of a clean list changes nothing. */
  lemma {:induction false} CleanIsFixed(s: seq<string>)
    requires Clean(s)
    ensures AddingAll([], s) == s
  {
    if |s| != 0 {
      var n := |s| - 1;
      CleanIsFixed(s[..n]);
      assert s[n] in s && s == s[..n] + [s[n]];
      NormalizeIsNormal(s[n]);
      assert s[n] !in s[..n];
    }
  }

  lemma AppendNew(s: seq<string>, t: string)
    requires NoDuplicates(s) && t !in s
    ensures NoDuplicates(s + [t])
  {
  }

  lemma {:induction false} RemovingKeeps(s: seq<string>, name: string)
    ensures forall t :: t in Removing(s, name) <==> t in s && t != name
    ensures NoDuplicates(s) ==> NoDuplicates(Removing(s, name))
  {
    if |s| != 0 {
      var n := |s| - 1;
      RemovingKeeps(s[..n], name);
      assert s == s[..n] + [s[n]];
      if NoDuplicates(s) {
        assert forall i :: 0 <= i < n ==> s[..n][i] == s[i] != s[n];
        assert s[n] !in s[..n];
        AppendNew(Removing(s[..n], name), s[n]);
      }
    }
  }

  lemma AddingPush(s: seq<string>, tags: seq<string>, tag: string)
    ensures AddingAll(s, tags + [tag]) ==
            if Normalize(Some(tag)).Some? then Adding(AddingAll(s, tags), Normalize(Some(tag)).value)
            else AddingAll(s, tags)
  {
    assert (tags + [tag])[..|tags|] == tags;
  }

  /** Adding names that were normalised and merged before gives the same as adding them one by one. */
  lemma {:induction false} AddingNormalized(s: seq<string>, tags: seq<string>)
    ensures AddingAll(s, AddingAll([], tags)) == AddingAll(s, tags)
    decreases |tags|
  {
    if |tags| != 0 {
      var (front, tag) := (tags[..|tags| - 1], tags[|tags| - 1]);
      assert tags == front + [tag];
      AddingNormalized(s, front);
      AddingPush(s, front, tag);
      AddingPush([], front, tag);
      if Normalize(Some(tag)).Some? {
        AddingNormalizedStep(s, front, Normalize(Some(tag)).value, tag);
      }
    }
  }

  /** A name listed among the normalised names of `front` was already added to `s` with them. */
  lemma AddingNormalizedStep(s: seq<string>, front: seq<string>, name: string, tag: string)
    requires Normalize(Some(tag)) == Some(name)
    requires AddingAll(s, AddingAll([], front)) == AddingAll(s, front)
    ensures AddingAll(s, Adding(AddingAll([], front), name)) == Adding(AddingAll(s, front), name)
  {
    NormalizeIsNormal(tag);
    NormalizeIsNormal(name);
    AddingAllMembers([], front);
    AddingAllMembers(s, front);
    AddingPush(s, AddingAll([], front), name);
  }

  // ----- the operations -----

  /** What an enumeration that may be null yields. */
  function Items(tags: Option<seq<string>>): seq<string> {
    if tags.None? then [] else tags.value
  }

  method NormalizeList(tags: Option<seq<string>>) returns (result: seq<string>)
    ensures result == AddingAll([], Items(tags))
  {
    result := [];
    if tags.None? {
      return;
    }
    for i := 0 to |tags.value|
      invariant result == AddingAll([], tags.value[..i])
    {
      var name := Normalize(Some(tags.value[i]));
      assert tags.value[..i + 1][..i] == tags.value[..i];
      if name.None? {
        continue;
      }
      if name.value in result {
        continue;
      }
      result := result + [name.value];
    }
    assert tags.value[..|tags.value|] == tags.value;
  }

  method MergeInto(catalog: TagList, tags: Option<seq<string>>)
    modifies catalog
    ensures catalog.items == AddingAll(old(catalog.items), Items(tags))
  {
    var names := NormalizeList(tags);
    ghost var start := catalog.items;
    AddingAllIsClean([], Items(tags));
    AddingNormalized(start, Items(tags));
    for i := 0 to |names|
      invariant catalog.items == AddingAll(start, names[..i])
    {
      assert names[i] in names;
      AddingOneMore(start, names, i);
      if names[i] !in catalog.items {
        catalog.items := catalog.items + [names[i]];
      }
    }
    assert names[..|names|] == names;
  }

  lemma AddingOneMore(s: seq<string>, names: seq<string>, i: nat)
    requires i < |names| && Normal(names[i])
    ensures AddingAll(s, names[..i + 1]) == Adding(AddingAll(s, names[..i]), names[i])
  {
    NormalizeIsNormal(names[i]);
    assert names[..i + 1][..i] == names[..i];
  }

  method TryAdd(catalog: TagList, name: Option<string>) returns (ok: bool, normalized: string)
    modifies catalog
    ensures normalized == if Normalize(name).Some? then Normalize(name).value else ""
    ensures name.None? ==> normalized == ""
    ensures name.Some? ==> Stripped(name.value, normalized) && (normalized == "" || Normal(normalized))
    ensures ok <==> normalized != "" && normalized !in old(catalog.items)
    ensures ok <==> Normalize(name).Some? && normalized !in old(catalog.items)
    ensures catalog.items == if ok then old(catalog.items) + [normalized] else old(catalog.items)
  {
    if name.Some? {
      NormalizeStrips(name.value);
      NormalizeIsNormal(name.value);
      assert Normalize(name).None? ==> StrippedAt(name.value, "", 0, 0);
    }
    var value := if Normalize(name).Some? then Normalize(name).value else "";
    normalized := value;
    if |value| == 0 || value in catalog.items {
      return false, normalized;
    }
    catalog.items := catalog.items + [value];
    ok := true;
  }

  /** The first place of a name, or the length. */
  function FindIndex(s: seq<string>, name: string): (i: nat)
    ensures i <= |s| && (i < |s| ==> s[i] == name) && (i == |s| <==> name !in s)
    ensures forall j :: 0 <= j < i ==> s[j] != name
  {
    if |s| == 0 then 0 else if s[0] == name then 0 else 1 + FindIndex(s[1..], name)
  }

  /** `Normalize(next)` may take the place of `current` in the catalog. */
  predicate CanRename(catalog: seq<string>, current: string, next: Option<string>) {
    Normalize(next).Some? && current in catalog &&
    (Normalize(next).value == current || Normalize(next).value !in catalog)
  }

  /** Every mention of one name was replaced by the other, and nothing else. */
  ghost predicate RenamedIn(before: seq<string>, current: string, name: string, after: seq<string>) {
    |after| == |before| &&
    forall i :: 0 <= i < |before| ==> after[i] == if before[i] == current then name else before[i]
  }

  method Rename(catalog: TagList, owners: seq<TagList>, current: string, next: Option<string>) returns (ok: bool)
    requires catalog !in owners
    modifies catalog, owners
    ensures ok == CanRename(old(catalog.items), current, next)
    ensures ok <==>
      (&& Normalize(next).Some? && current in old(catalog.items)
       && (Normalize(next).value == current || Normalize(next).value !in old(catalog.items)))
    ensures ok ==> forall o :: o in owners ==> RenamedIn(old(o.items), current, Normalize(next).value, o.items)
    ensures ok ==> catalog.items == old(catalog.items)[FindIndex(old(catalog.items), current) := Normalize(next).value]
    ensures ok ==> forall o :: o in owners ==> o.items == Replacing(old(o.items), current, Normalize(next).value)
    ensures !ok ==> catalog.items == old(catalog.items) && forall o :: o in owners ==> o.items == old(o.items)
  {
    var normal := Normalize(next);
    if normal.None? {
      return false;
    }
    var name := normal.value;
    var index := FindIndex(catalog.items, current);
    if index == |catalog.items| {
      return false;
    }
    if name != current && name in catalog.items {
      return false;
    }
    catalog.items := catalog.items[index := name];
    RenameInOwners(owners, current, name);
    ok := true;
  }

  /** The owner loop of `Rename`; an owner may be listed more than once. */
  method RenameInOwners(owners: seq<TagList>, current: string, name: string)
    modifies owners
    ensures forall o :: o in owners ==> o.items == Replacing(old(o.items), current, name)
  {
    for k := 0 to |owners|
      invariant forall o :: o in owners ==>
        o.items == if o in owners[..k] then Replacing(old(o.items), current, name) else old(o.items)
    {
      ReplacingTwice(old(owners[k].items), current, name);
      RenameInOwner(owners[k], current, name);
      assert owners[..k + 1] == owners[..k] + [owners[k]];
    }
    assert owners[..|owners|] == owners;
  }

  /** The inner loop of `Rename`. */
  method RenameInOwner(owner: TagList, current: string, name: string)
    modifies owner
    ensures owner.items == Replacing(old(owner.items), current, name)
  {
    for i := 0 to |owner.items|
      invariant |owner.items| == |old(owner.items)|
      invariant forall j :: 0 <= j < |owner.items| ==>
        owner.items[j] == if j < i && old(owner.items)[j] == current then name else old(owner.items)[j]
    {
      if owner.items[i] == current {
        owner.items := owner.items[i := name];
      }
    }
  }

  lemma ReplacingTwice(s: seq<string>, current: string, name: string)
    ensures Replacing(Replacing(s, current, name), current, name) == Replacing(s, current, name)
  {
  }

  lemma {:induction false} RemovingTwice(s: seq<string>, name: string)
    ensures Removing(Removing(s, name), name) == Removing(s, name)
  {
    if |s| != 0 {
      var n := |s| - 1;
      RemovingTwice(s[..n], name);
      if s[n] == name {
        assert Removing(s, name) == Removing(s[..n], name);
      } else {
        assert (Removing(s[..n], name) + [s[n]])[..|Removing(s[..n], name)|] == Removing(s[..n], name);
      }
    }
  }

  /** Exactly the other names are left, in their order. */
  ghost predicate RemovedFrom(before: seq<string>, name: string, after: seq<string>) {
    exists places :: OthersAt(before, name, after, places)
  }

  ghost predicate OthersAt(before: seq<string>, name: string, after: seq<string>, places: seq<nat>) {
    Selects(before, after, places) && forall k :: 0 <= k < |before| ==> (k in places <==> before[k] != name)
  }

  lemma {:induction false} RemovingSelects(s: seq<string>, name: string) returns (places: seq<nat>)
    ensures OthersAt(s, name, Removing(s, name), places)
    decreases |s|
  {
    places := [];
    if |s| != 0 {
      var (front, last) := (s[..|s| - 1], s[|s| - 1]);
      places := RemovingSelects(front, name);
      SelectsPush(front, Removing(front, name), places, last);
      assert s == front + [last];
      if last == name {
        assert Removing(s, name) == Removing(front, name);
      } else {
        places := places + [|front|];
      }
    }
  }

  lemma RemovingIsRemoved(name: string)
    ensures forall s :: RemovedFrom(s, name, Removing(s, name))
  {
    forall s
      ensures RemovedFrom(s, name, Removing(s, name))
    {
      var places := RemovingSelects(s, name);
    }
  }

  method Remove(catalog: TagList, owners: seq<TagList>, name: string)
    requires catalog !in owners
    modifies catalog, owners
    ensures catalog.items == Removing(old(catalog.items), name)
    ensures forall o :: o in owners ==> o.items == Removing(old(o.items), name)
    ensures RemovedFrom(old(catalog.items), name, catalog.items)
    ensures forall o :: o in owners ==> RemovedFrom(old(o.items), name, o.items)
  {
    RemovingIsRemoved(name);
    catalog.items := Removing(catalog.items, name);
    RemoveInOwners(owners, name);
  }

  /** The owner loop of `Remove`; an owner may be listed more than once. */
  method RemoveInOwners(owners: seq<TagList>, name: string)
    modifies owners
    ensures forall o :: o in owners ==> o.items == Removing(old(o.items), name)
  {
    for k := 0 to |owners|
      invariant forall o :: o in owners ==>
        o.items == if o in owners[..k] then Removing(old(o.items), name) else old(o.items)
    {
      var owner := owners[k];
      RemovingTwice(old(owner.items), name);
      RemoveInOwner(owner, name);
      assert owners[..k + 1] == owners[..k] + [owner];
    }
    assert owners[..|owners|] == owners;
  }

  /** `owner.RemoveAll(...)` */
  method RemoveInOwner(owner: TagList, name: string)
    modifies owner
    ensures owner.items == Removing(old(owner.items), name)
  {
    owner.items := Removing(owner.items, name);
  }

  /** Every name normalises to nothing. */
  predicate AllBlank(tags: seq<string>) {
    forall i :: 0 <= i < |tags| ==> Normalize(Some(tags[i])).None?
  }

  /**
   Clears before it reads: a list given as its own replacement ends empty. That is what a copy of it would
   have given exactly when there was no name to keep.
   */
  method Replace(target: TagList, tags: TagList?)
    modifies target
    ensures target.items == if tags == null || tags == target then [] else AddingAll([], tags.items)
    ensures tags == target ==> (target.items == AddingAll([], old(target.items)) <==> AllBlank(old(target.items)))
  {
    SelfReplaceKeepsIff(target.items);
    target.items := [];
    var names := NormalizeList(if tags == null then None else Some(tags.items));
    target.items := target.items + names;
  }

  /** Replacing a list by itself gives its normalised names exactly when all its names are blank. */
  lemma SelfReplaceKeepsIff(s: seq<string>)
    ensures AddingAll([], s) == [] <==> AllBlank(s)
  {
    AddingAllMembers([], s);
    if !AllBlank(s) {
      var i :| 0 <= i < |s| && Normalize(Some(s[i])).Some?;
      assert Names(s, Normalize(Some(s[i])).value);
    }
  }

  // ----- MergeTagCatalogs -----

  ghost function Contents(owners: seq<TagList>): seq<seq<string>>
    reads owners
  {
    seq(|owners|, k requires 0 <= k < |owners| reads owners => owners[k].items)
  }

  /** The catalog with the names of all the lists merged into it. */
  function MergedAll(catalog: seq<string>, lists: seq<seq<string>>): seq<string> {
    if |lists| == 0 then catalog
    else AddingAll(MergedAll(catalog, lists[..|lists| - 1]), lists[|lists| - 1])
  }

  ghost predicate AllListed(catalog: seq<string>, tags: seq<string>) {
    forall t :: Names(tags, t) ==> t in catalog
  }

  lemma {:induction false} ListedAddsNothing(s: seq<string>, tags: seq<string>)
    ensures AddingAll(s, tags) == s <==> AllListed(s, tags)
    decreases |tags|
  {
    AddingAllMembers(s, tags);
    if |tags| != 0 && AllListed(s, tags) {
      var (front, tag) := (tags[..|tags| - 1], tags[|tags| - 1]);
      assert tags == front + [tag];
      forall t
        ensures Names(tags, t) <==> Names(front, t) || Normalize(Some(tag)) == Some(t)
      {
        NamesPush(front, tag, t);
      }
      ListedAddsNothing(s, front);
    }
  }

  /** Merging all lists adds nothing exactly when every name of every list is in the catalog already. */
  lemma {:induction false} MergingAddsNothingIff(catalog: seq<string>, lists: seq<seq<string>>)
    ensures catalog <= MergedAll(catalog, lists)
    ensures MergedAll(catalog, lists) == catalog <==> forall tags :: tags in lists ==> AllListed(catalog, tags)
    decreases |lists|
  {
    if |lists| != 0 {
      var (front, last) := (lists[..|lists| - 1], lists[|lists| - 1]);
      var before := MergedAll(catalog, front);
      MergingAddsNothingIff(catalog, front);
      AddingAllMembers(before, last);
      ListedAddsNothing(before, last);
      assert lists == front + [last];
      if MergedAll(catalog, lists) == catalog {
        assert before == catalog;
      }
    }
  }

  /**
   One half of `MergeTagCatalogs`. Because each owner's list is replaced by itself, every owner loses all
   its tags and none is merged. Had each list been replaced by a copy, the owners would be as they are now
   exactly when they listed only blank names, and the catalog exactly when it listed all their names.
   */
  method MergeTagCatalog(catalog: TagList, owners: seq<TagList>)
    requires catalog !in owners
    modifies catalog, owners
    ensures catalog.items == AddingAll([], old(catalog.items))
    ensures forall o :: o in owners ==> o.items == []
    ensures (forall o :: o in owners ==> o.items == AddingAll([], old(o.items))) <==>
            (forall o :: o in owners ==> AllBlank(old(o.items)))
    ensures catalog.items == MergedAll(AddingAll([], old(catalog.items)), old(Contents(owners))) <==>
            (forall o :: o in owners ==> AllListed(catalog.items, old(o.items)))
  {
    var names := NormalizeList(Some(catalog.items));
    MergeMissesIff(names, owners);
    catalog.items := [];
    catalog.items := catalog.items + names;
    MergeOwners(catalog, owners);
  }

  /** The owner loop of `MergeTagCatalogs`. */
  method MergeOwners(catalog: TagList, owners: seq<TagList>)
    requires catalog !in owners
    modifies catalog, owners
    ensures catalog.items == old(catalog.items)
    ensures forall o :: o in owners ==> o.items == []
  {
    for k := 0 to |owners|
      invariant catalog.items == old(catalog.items)
      invariant forall o :: o in owners[..k] ==> o.items == []
    {
      assert owners[k] in owners && owners[..k + 1] == owners[..k] + [owners[k]];
      Replace(owners[k], owners[k]);
      MergeInto(catalog, Some(owners[k].items));
    }
    assert owners[..|owners|] == owners;
  }

  /** What the lists hold before the owners are cleared decides what is lost. */
  lemma MergeMissesIff(names: seq<string>, owners: seq<TagList>)
    ensures (forall o :: o in owners ==> [] == AddingAll([], o.items)) <==>
            (forall o :: o in owners ==> AllBlank(o.items))
    ensures names == MergedAll(names, Contents(owners)) <==>
            (forall o :: o in owners ==> AllListed(names, o.items))
  {
    forall o | o in owners
      ensures [] == AddingAll([], o.items) <==> AllBlank(o.items)
    {
      SelfReplaceKeepsIff(o.items);
    }
    var lists := Contents(owners);
    MergingAddsNothingIff(names, lists);
    forall o | o in owners
      ensures o.items in lists
    {
      var k :| 0 <= k < |owners| && owners[k] == o;
      assert lists[k] == o.items;
    }
  }

  // ----- runs -----

  datatype Session = Session(catalog: seq<string>, owners: seq<seq<string>>)

  datatype Op =
    | Add(name: Option<string>)
    | RenameTag(current: string, next: Option<string>)
    | RemoveTag(gone: string)
    | Assign(owner: nat, tags: seq<string>)   // `Replace` from another list, then `MergeInto`

  function MapOwners(owners: seq<seq<string>>, f: seq<string> -> seq<string>): seq<seq<string>> {
    seq(|owners|, k requires 0 <= k < |owners| => f(owners[k]))
  }

  function Applied(s: Session, op: Op): Session {
    match op
    case Add(name) =>
      if Normalize(name).Some? then s.(catalog := Adding(s.catalog, Normalize(name).value)) else s
    case RenameTag(current, next) =>
      if CanRename(s.catalog, current, next) then
        var name := Normalize(next).value;
        Session(s.catalog[FindIndex(s.catalog, current) := name], MapOwners(s.owners, o => Replacing(o, current, name)))
      else s
    case RemoveTag(name) =>
      Session(Removing(s.catalog, name), MapOwners(s.owners, o => Removing(o, name)))
    case Assign(k, tags) =>
      if k < |s.owners| then
        var list := AddingAll([], tags);
        Session(AddingAll(s.catalog, list), s.owners[k := list])
      else s
  }

  /** The catalog is clean, and every owner lists some of its names once. */
  ghost predicate Inv(s: Session) {
    Clean(s.catalog) && forall k :: 0 <= k < |s.owners| ==> OwnerOk(s.catalog, s.owners[k])
  }

  ghost predicate OwnerOk(catalog: seq<string>, owner: seq<string>) {
    NoDuplicates(owner) && forall t :: t in owner ==> t in catalog
  }

  lemma RenameKeepsInv(s: Session, current: string, next: Option<string>)
    requires Inv(s) && CanRename(s.catalog, current, next)
    ensures Inv(Applied(s, RenameTag(current, next)))
  {
    var name := Normalize(next).value;
    NormalizeIsNormal(next.value);
    var i := FindIndex(s.catalog, current);
    var catalog := s.catalog[i := name];
    assert forall t :: t in s.catalog && t != current ==> t in catalog by {
      forall t | t in s.catalog && t != current
        ensures t in catalog
      {
        var j :| 0 <= j < |s.catalog| && s.catalog[j] == t;
        assert catalog[j] == t;
      }
    }
    assert catalog[i] == name;
    forall k | 0 <= k < |s.owners|
      ensures OwnerOk(catalog, Replacing(s.owners[k], current, name))
    {
      assert OwnerOk(s.catalog, s.owners[k]);
    }
  }

  lemma StepKeepsInv(s: Session, op: Op)
    requires Inv(s)
    ensures Inv(Applied(s, op))
  {
    match op {
      case Add(name) =>
        if Normalize(name).Some? {
          NormalizeIsNormal(name.value);
        }
      case RenameTag(current, next) =>
        if CanRename(s.catalog, current, next) {
          RenameKeepsInv(s, current, next);
        }
      case RemoveTag(name) =>
        RemovingKeeps(s.catalog, name);
        forall k | 0 <= k < |s.owners|
          ensures OwnerOk(Removing(s.catalog, name), Removing(s.owners[k], name))
        {
          assert OwnerOk(s.catalog, s.owners[k]);
          RemovingKeeps(s.owners[k], name);
        }
      case Assign(k, tags) =>
        AddingAllIsClean([], tags);
        AssignKeepsInv(s, k, AddingAll([], tags));
    }
  }

  lemma AssignKeepsInv(s: Session, k: nat, list: seq<string>)
    requires Inv(s) && Clean(list)
    ensures k < |s.owners| ==> Inv(Session(AddingAll(s.catalog, list), s.owners[k := list]))
  {
    AddingAllIsClean(s.catalog, list);
    forall i | 0 <= i < |list|
      ensures list[i] in AddingAll(s.catalog, list)
    {
      assert list[i] in list;
      NormalizeIsNormal(list[i]);
    }
    forall j | 0 <= j < |s.owners|
      ensures OwnerOk(AddingAll(s.catalog, list), s.owners[j])
    {
      assert OwnerOk(s.catalog, s.owners[j]);
    }
  }

  function Run(s: Session, ops: seq<Op>): Session {
    if |ops| == 0 then s else Applied(Run(s, ops[..|ops| - 1]), ops[|ops| - 1])
  }

  /** Over every run the catalog stays free of duplicates and normalised, and owners stay inside it. */
  lemma {:induction false} RunKeepsInv(s: Session, ops: seq<Op>)
    requires Inv(s)
    ensures Inv(Run(s, ops))
  {
    if |ops| != 0 {
      RunKeepsInv(s, ops[..|ops| - 1]);
      StepKeepsInv(Run(s, ops[..|ops| - 1]), ops[|ops| - 1]);
    }
  }

  /** A rename and the reverse rename restore the catalog and every owner. */
  lemma RenameBackRestores(s: Session, current: string, next: Option<string>)
    requires Inv(s) && CanRename(s.catalog, current, next)
    ensures
      var q := Applied(s, RenameTag(current, next));
      CanRename(q.catalog, Normalize(next).value, Some(current)) &&
      Applied(q, RenameTag(Normalize(next).value, Some(current))) == s
  {
    var name := Normalize(next).value;
    var i := FindIndex(s.catalog, current);
    var q := Applied(s, RenameTag(current, next));
    assert s.catalog[i] in s.catalog;
    NormalizeIsNormal(current);
    assert q.catalog[i] == name;
    assert FindIndex(q.catalog, name) == i by {
      assert forall j :: 0 <= j < |q.catalog| && q.catalog[j] == name ==> j == i;
    }
    assert current != name ==> current !in q.catalog;
    assert q.catalog[i := current] == s.catalog;
    forall k | 0 <= k < |s.owners|
      ensures Replacing(Replacing(s.owners[k], current, name), name, current) == s.owners[k]
    {
      assert OwnerOk(s.catalog, s.owners[k]);
      assert forall j :: 0 <= j < |s.owners[k]| ==> s.owners[k][j] in s.owners[k];
    }
  }
}
