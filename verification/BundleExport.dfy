/** The export as the code runs it: a walk that also collects what the bundle needs (bundles.py). */
module BundleExport {
  import opened BundleJson
  import opened BundleRefs
  import opened BundleRoundTrip
  import opened BundleRefsTheory

  function External(ps: seq<(string, string)>): set<(string, string)> {
    set p | p in ps && p.0 in EXTERNAL
  }

  /** The references of a bundle that its target must already have. */
  function Needs(text: Text, bundle: Json): set<(string, string)> {
    External(RefsIn(text, bundle))
  }

  lemma NeedsAppend(text: Text, items: seq<Json>, v: Json)
    ensures Needs(text, Arr(items + [v])) == Needs(text, Arr(items)) + Needs(text, v)
  {
    RefsInItemsAppend(text, items, v);
  }

  lemma {:induction false} RefsInMembersAppend(text: Text, ms: seq<Member>, m: Member)
    ensures RefsInMembers(text, ms + [m]) == RefsInMembers(text, ms) + RefsIn(text, m.value)
  {
    if ms == [] {
      assert ms + [m] == [m];
      assert RefsInMembers(text, [m]) == RefsIn(text, m.value) + RefsInMembers(text, [m][1..]);
    } else {
      assert (ms + [m])[1..] == ms[1..] + [m];
      RefsInMembersAppend(text, ms[1..], m);
    }
  }

  lemma {:induction false} RefsInItemsAppend(text: Text, items: seq<Json>, v: Json)
    ensures RefsInItems(text, items + [v]) == RefsInItems(text, items) + RefsIn(text, v)
  {
    if items == [] {
      assert items + [v] == [v];
      assert RefsInItems(text, [v]) == RefsIn(text, v) + RefsInItems(text, [v][1..]);
    } else {
      assert (items + [v])[1..] == items[1..] + [v];
      RefsInItemsAppend(text, items[1..], v);
    }
  }

  lemma {:induction false} RefListAppend(text: Text, names: Names, kind: string, items: seq<Json>, v: Json)
    ensures RefList(text, names, kind, items + [v])
         == RefList(text, names, kind, items) + (if Ref(text, names, kind, v).Null? then []
             else [Ref(text, names, kind, v)])
  {
    if items == [] {
      assert items + [v] == [v] && [v][1..] == [];
    } else {
      assert (items + [v])[1..] == items[1..] + [v];
      RefListAppend(text, names, kind, items[1..], v);
    }
  }

  /** A tree without lookalikes exports to a dictionary that is not itself a reference. */
  lemma ExportIsNotRef(text: Text, names: Names, ms: seq<Member>)
    ensures IsRef(ToRefs(text, names, Obj(ms)).members) == IsRef(ms)
  {
    GetSameKeys(ms, ToRefs(text, names, Obj(ms)).members, "$ref");
    GetSameKeys(ms, ToRefs(text, names, Obj(ms)).members, "name");
  }

  /** What one id asks of the target: nothing if it is unknown, or of a kind bundles bring along. */
  function UsedBy(text: Text, names: Names, kind: string, value: Json): set<(string, string)> {
    match NameOf(text, names, kind, value)
    case None => {}
    case Some(name) => if kind in EXTERNAL then {(kind, name)} else {}
  }

  /** That is, its thing's name, if things of the kind must be there already. */
  lemma UsedIsCalled(text: Text, names: Names, kind: string, value: Json)
    ensures forall p :: p in UsedBy(text, names, kind, value) <==>
      p.0 == kind && kind in EXTERNAL && Calls(text, names, kind, value, p.1)
  {
  }

  function UsedByAll(text: Text, names: Names, kind: string, items: seq<Json>): set<(string, string)> {
    if items == [] then {}
    else UsedByAll(text, names, kind, items[..|items| - 1]) + UsedBy(text, names, kind, items[|items| - 1])
  }

  /** What the ids in a tree ask of the target. */
  function Used(text: Text, names: Names, v: Json): set<(string, string)>
    decreases v, 1
  {
    match v
    case Obj(ms) => UsedInMembers(text, names, ms)
    case Arr(items) => UsedInItems(text, names, items)
    case _ => {}
  }

  function UsedUnder(text: Text, names: Names, key: string, value: Json): set<(string, string)>
    decreases value, 2
  {
    if key in REF_KEYS && Truthy(value) then UsedBy(text, names, REF_KEYS[key], value)
    else if key in LIST_REF_KEYS && value.Arr? then UsedByAll(text, names, LIST_REF_KEYS[key], value.items)
    else Used(text, names, value)
  }

  function UsedInMembers(text: Text, names: Names, ms: seq<Member>): set<(string, string)>
    decreases ms, 0
  {
    if ms == [] then {}
    else
      var last := ms[|ms| - 1];
      UsedInMembers(text, names, ms[..|ms| - 1]) + UsedUnder(text, names, last.key, last.value)
  }

  function UsedInItems(text: Text, names: Names, items: seq<Json>): set<(string, string)>
    decreases items, 0
  {
    if items == [] then {}
    else UsedInItems(text, names, items[..|items| - 1]) + Used(text, names, items[|items| - 1])
  }

  lemma NeedsOfRef(text: Text, names: Names, kind: string, value: Json)
    ensures Needs(text, Ref(text, names, kind, value)) == UsedBy(text, names, kind, value)
  {
    if NameOf(text, names, kind, value).Some? {
      RefsInRefDict(text, kind, NameOf(text, names, kind, value).value);
    }
  }

  lemma {:induction false} NeedsOfRefs(text: Text, names: Names, kind: string, items: seq<Json>)
    ensures Needs(text, Arr(RefList(text, names, kind, items))) == UsedByAll(text, names, kind, items)
  {
    if items != [] {
      var before, last := items[..|items| - 1], items[|items| - 1];
      NeedsOfRefs(text, names, kind, before);
      assert items == before + [last];
      RefListAppend(text, names, kind, before, last);
      NeedsOfRef(text, names, kind, last);
      var refs, r := RefList(text, names, kind, before), Ref(text, names, kind, last);
      if r.Null? {
        assert refs + [] == refs && Needs(text, r) == {};
      } else {
        NeedsAppend(text, refs, r);
      }
    } else {
      assert Needs(text, Arr([])) == {};
    }
  }

  /** Without lookalikes, what is counted as used while a tree is exported is what an import of it
      will look for. */
  lemma {:induction false} NeedsAreUsed(text: Text, names: Names, v: Json)
    requires NoLookalike(v)
    ensures Needs(text, ToRefs(text, names, v)) == Used(text, names, v)
    decreases v, 1
  {
    match v
    case Obj(ms) =>
      ExportIsNotRef(text, names, ms);
      forall i | 0 <= i < |ms|
        ensures Needs(text, ToRefsUnder(text, names, ms[i].key, ms[i].value))
            == UsedUnder(text, names, ms[i].key, ms[i].value)
      {
        NeedsAreUsedUnder(text, names, ms[i].key, ms[i].value);
      }
      NeedsOfMembers(text, names, ms, ToRefs(text, names, v).members);
    case Arr(items) =>
      forall i | 0 <= i < |items| ensures Needs(text, ToRefs(text, names, items[i])) == Used(text, names, items[i]) {
        NeedsAreUsed(text, names, items[i]);
      }
      NeedsOfItems(text, names, items, ToRefs(text, names, v).items);
    case _ =>
  }

  lemma {:induction false} NeedsAreUsedUnder(text: Text, names: Names, key: string, value: Json)
    requires Consumed(Member(key, value)) || NoLookalike(value)
    ensures Needs(text, ToRefsUnder(text, names, key, value)) == UsedUnder(text, names, key, value)
    decreases value, 2
  {
    if key in REF_KEYS && Truthy(value) {
      NeedsOfRef(text, names, REF_KEYS[key], value);
    } else if key in LIST_REF_KEYS && value.Arr? {
      NeedsOfRefs(text, names, LIST_REF_KEYS[key], value.items);
    } else {
      NeedsAreUsed(text, names, value);
    }
  }

  lemma {:induction false} NeedsOfMembers(text: Text, names: Names, ms: seq<Member>, refs: seq<Member>)
    requires |refs| == |ms|
    requires forall i :: 0 <= i < |ms| ==> Needs(text, refs[i].value) == UsedUnder(text, names, ms[i].key, ms[i].value)
    ensures External(RefsInMembers(text, refs)) == UsedInMembers(text, names, ms)
  {
    if ms != [] {
      var n := |ms| - 1;
      NeedsOfMembers(text, names, ms[..n], refs[..n]);
      assert refs == refs[..n] + [refs[n]];
      RefsInMembersAppend(text, refs[..n], refs[n]);
    }
  }

  lemma {:induction false} NeedsOfItems(text: Text, names: Names, items: seq<Json>, refs: seq<Json>)
    requires |refs| == |items|
    requires forall i :: 0 <= i < |items| ==> Needs(text, refs[i]) == Used(text, names, items[i])
    ensures External(RefsInItems(text, refs)) == UsedInItems(text, names, items)
  {
    if items != [] {
      var n := |items| - 1;
      NeedsOfItems(text, names, items[..n], refs[..n]);
      assert refs == refs[..n] + [refs[n]];
      RefsInItemsAppend(text, refs[..n], refs[n]);
    }
  }

  // ----------------------------------------------------------- with lookalikes

  /** What the outermost dictionaries that look like references seem to ask of the target, as exported. */
  function Claimed(text: Text, names: Names, v: Json): set<(string, string)>
    decreases v, 0
  {
    match v
    case Obj(ms) =>
      if IsRef(ms) then
        ExportIsNotRef(text, names, ms);
        External([RefPair(text, ToRefs(text, names, v).members)])
      else set i, p | 0 <= i < |ms| && p in ClaimedUnder(text, names, ms[i].key, ms[i].value) :: p
    case Arr(items) => set i, p | 0 <= i < |items| && p in Claimed(text, names, items[i]) :: p
    case _ => {}
  }

  function ClaimedUnder(text: Text, names: Names, key: string, value: Json): set<(string, string)>
    decreases value, 1
  {
    if Consumed(Member(key, value)) then {} else Claimed(text, names, value)
  }

  /** The tree with those dictionaries, and all that is in them, left out. */
  function Pruned(v: Json): Json {
    match v
    case Obj(ms) =>
      if IsRef(ms) then Null
      else Obj(seq(|ms|, i requires 0 <= i < |ms| =>
        if Consumed(ms[i]) then ms[i] else Member(ms[i].key, Pruned(ms[i].value))))
    case Arr(items) => Arr(seq(|items|, i requires 0 <= i < |items| => Pruned(items[i])))
    case _ => v
  }

  lemma {:induction false} PrunedIsPlain(v: Json)
    ensures NoLookalike(Pruned(v)) && (NoLookalike(v) ==> Pruned(v) == v)
  {
    match v
    case Obj(ms) =>
      if !IsRef(ms) {
        var pruned := Pruned(v).members;
        GetSameKeys(ms, pruned, "$ref");
        GetSameKeys(ms, pruned, "name");
        forall i | 0 <= i < |ms|
          ensures Consumed(pruned[i]) || NoLookalike(pruned[i].value)
          ensures NoLookalike(v) ==> pruned[i] == ms[i]
        {
          PrunedIsPlain(ms[i].value);
        }
      }
    case Arr(items) =>
      forall i | 0 <= i < |items|
        ensures NoLookalike(Pruned(items[i])) && (NoLookalike(v) ==> Pruned(items[i]) == items[i])
      {
        PrunedIsPlain(items[i]);
      }
    case _ =>
  }

  lemma NeedsOfObj(text: Text, ms: seq<Member>, p: (string, string))
    requires !IsRef(ms)
    ensures p in Needs(text, Obj(ms)) <==> exists i :: 0 <= i < |ms| && p in Needs(text, ms[i].value)
  {
    RefsInMembersAt(text, ms, p);
  }

  lemma NeedsOfArr(text: Text, items: seq<Json>, p: (string, string))
    ensures p in Needs(text, Arr(items)) <==> exists i :: 0 <= i < |items| && p in Needs(text, items[i])
  {
    RefsInItemsAt(text, items, p);
  }

  lemma {:induction false} NeedsOfPruned(text: Text, names: Names, v: Json, p: (string, string))
    ensures p in Needs(text, ToRefs(text, names, v))
       <==> p in Needs(text, ToRefs(text, names, Pruned(v))) || p in Claimed(text, names, v)
    decreases v, 0
  {
    match v
    case Obj(ms) =>
      if IsRef(ms) {
        ExportIsNotRef(text, names, ms);
      } else {
        forall i | 0 <= i < |ms|
          ensures MemberNeeds(text, names, ms[i], p)
             <==> MemberNeeds(text, names, Pruned(v).members[i], p)
                  || p in ClaimedUnder(text, names, ms[i].key, ms[i].value)
        {
          NeedsOfPrunedUnder(text, names, ms[i], p);
        }
        NeedsOfPrunedObj(text, names, ms, p);
      }
    case Arr(items) =>
      var refs, prunedRefs := ToRefs(text, names, v).items, ToRefs(text, names, Pruned(v)).items;
      NeedsOfArr(text, refs, p);
      NeedsOfArr(text, prunedRefs, p);
      forall i | 0 <= i < |items|
        ensures p in Needs(text, refs[i]) <==> p in Needs(text, prunedRefs[i]) || p in Claimed(text, names, items[i])
      {
        NeedsOfPruned(text, names, items[i], p);
      }
    case _ =>
  }

  predicate MemberNeeds(text: Text, names: Names, m: Member, p: (string, string)) {
    p in Needs(text, ToRefsUnder(text, names, m.key, m.value))
  }

  lemma NeedsOfExported(text: Text, names: Names, ms: seq<Member>, p: (string, string))
    requires !IsRef(ms)
    ensures p in Needs(text, ToRefs(text, names, Obj(ms)))
       <==> exists i :: 0 <= i < |ms| && MemberNeeds(text, names, ms[i], p)
  {
    var refs := ToRefs(text, names, Obj(ms)).members;
    ExportIsNotRef(text, names, ms);
    NeedsOfObj(text, refs, p);
    assert forall i :: 0 <= i < |ms| ==> (p in Needs(text, refs[i].value) <==> MemberNeeds(text, names, ms[i], p));
  }

  lemma NeedsOfPrunedObj(text: Text, names: Names, ms: seq<Member>, p: (string, string))
    requires !IsRef(ms)
    requires var pruned := Pruned(Obj(ms)).members;
      forall i :: 0 <= i < |ms| ==>
        (MemberNeeds(text, names, ms[i], p)
         <==> MemberNeeds(text, names, pruned[i], p) || p in ClaimedUnder(text, names, ms[i].key, ms[i].value))
    ensures p in Needs(text, ToRefs(text, names, Obj(ms)))
       <==> p in Needs(text, ToRefs(text, names, Pruned(Obj(ms)))) || p in Claimed(text, names, Obj(ms))
  {
    var pruned := Pruned(Obj(ms)).members;
    GetSameKeys(ms, pruned, "$ref");
    GetSameKeys(ms, pruned, "name");
    NeedsOfExported(text, names, ms, p);
    NeedsOfExported(text, names, pruned, p);
  }

  lemma {:induction false} NeedsOfPrunedUnder(text: Text, names: Names, m: Member, p: (string, string))
    ensures var pruned := if Consumed(m) then m else Member(m.key, Pruned(m.value));
      p in Needs(text, ToRefsUnder(text, names, m.key, m.value))
      <==> p in Needs(text, ToRefsUnder(text, names, pruned.key, pruned.value))
           || p in ClaimedUnder(text, names, m.key, m.value)
    decreases m.value, 1
  {
    if !Consumed(m) {
      NeedsOfPruned(text, names, m.value, p);
      assert m.key in REF_KEYS ==> !Truthy(Pruned(m.value));
      assert m.key in LIST_REF_KEYS ==> !Pruned(m.value).Arr?;
    }
  }

  /** What an import of a bundle will look for, for every tree: what the ids outside lookalikes ask
      for, which is all that is counted as used there, and what the lookalikes claim. */
  lemma NeedsOfAny(text: Text, names: Names, v: Json)
    ensures Needs(text, ToRefs(text, names, v)) == Used(text, names, Pruned(v)) + Claimed(text, names, v)
    ensures NoLookalike(v) ==> Needs(text, ToRefs(text, names, v)) == Used(text, names, v)
  {
    PrunedIsPlain(v);
    NeedsAreUsed(text, names, Pruned(v));
    forall p
      ensures p in Needs(text, ToRefs(text, names, v))
         <==> p in Needs(text, ToRefs(text, names, Pruned(v))) || p in Claimed(text, names, v)
    {
      NeedsOfPruned(text, names, v, p);
    }
    if NoLookalike(v) {
      NeedsAreUsed(text, names, v);
    }
  }

  class Exporter {
    const text: Text
    const names: Names
    /** What the bundle needs its target to have: (kind, name). */
    var used: set<(string, string)>

    constructor (text: Text, names: Names)
      ensures this.text == text && this.names == names && used == {}
    {
      this.text, this.names, used := text, names, {};
    }

    method RefOf(kind: string, value: Json) returns (r: Json)
      modifies this`used
      ensures r == Ref(text, names, kind, value)
      ensures used == old(used) + UsedBy(text, names, kind, value)
      ensures forall name :: r == RefDict(kind, name) <==> Calls(text, names, kind, value, name)
      ensures r == Null <==> forall name :: !Calls(text, names, kind, value, name)
      ensures forall p :: p in used <==>
        p in old(used) || (p.0 == kind && kind in EXTERNAL && Calls(text, names, kind, value, p.1))
    {
      RefIsExact(text, names, kind, value);
      UsedIsCalled(text, names, kind, value);
      r := Null;
      var name := NameOf(text, names, kind, value);
      if name.Some? {
        r := RefDict(kind, name.value);
        if kind in EXTERNAL {
          used := used + {(kind, name.value)};
        }
      }
    }

    method RefsOf(kind: string, items: seq<Json>) returns (out: seq<Json>)
      modifies this`used
      ensures out == RefList(text, names, kind, items)
      ensures used == old(used) + UsedByAll(text, names, kind, items)
    {
      out := [];
      for i := 0 to |items|
        invariant out == RefList(text, names, kind, items[..i])
        invariant used == old(used) + UsedByAll(text, names, kind, items[..i])
      {
        assert items[..i + 1] == items[..i] + [items[i]];
        RefListAppend(text, names, kind, items[..i], items[i]);
        var r := RefOf(kind, items[i]);
        if !r.Null? {
          out := out + [r];
        }
      }
      assert items[..|items|] == items;
    }

    /** The exported tree, with `used` grown by exactly what its ids ask of the target. */
    method Export(v: Json) returns (r: Json)
      modifies this`used
      ensures r == ToRefs(text, names, v)
      ensures used == old(used) + Used(text, names, v)
      ensures NoLookalike(v) ==> used == old(used) + Needs(text, r)
      decreases v, 1
    {
      match v {
        case Obj(ms) =>
          r := ExportMembers(ms);
        case Arr(items) =>
          r := ExportItems(items);
        case _ =>
          r := v;
      }
      if NoLookalike(v) {
        NeedsAreUsed(text, names, v);
      }
    }

    method ExportItems(items: seq<Json>) returns (r: Json)
      modifies this`used
      ensures r == ToRefs(text, names, Arr(items))
      ensures used == old(used) + UsedInItems(text, names, items)
      decreases Arr(items), 0
    {
      var out: seq<Json> := [];
      for i := 0 to |items|
        invariant |out| == i && forall j :: 0 <= j < i ==> out[j] == ToRefs(text, names, items[j])
        invariant used == old(used) + UsedInItems(text, names, items[..i])
      {
        assert items[..i + 1][..i] == items[..i];
        var each := Export(items[i]);
        out := out + [each];
      }
      assert items[..|items|] == items;
      r := Arr(out);
    }

    /** One value under its key: replaced whole, or looked into. */
    method ExportUnder(key: string, value: Json) returns (r: Json)
      modifies this`used
      ensures r == ToRefsUnder(text, names, key, value)
      ensures used == old(used) + UsedUnder(text, names, key, value)
      decreases value, 2
    {
      if key in REF_KEYS && Truthy(value) {
        r := RefOf(REF_KEYS[key], value);
      } else if key in LIST_REF_KEYS && value.Arr? {
        var list := RefsOf(LIST_REF_KEYS[key], value.items);
        r := Arr(list);
      } else {
        r := Export(value);
      }
    }

    method ExportMembers(ms: seq<Member>) returns (r: Json)
      modifies this`used
      ensures r == ToRefs(text, names, Obj(ms))
      ensures used == old(used) + UsedInMembers(text, names, ms)
      decreases Obj(ms), 0
    {
      var out: seq<Member> := [];
      for i := 0 to |ms|
        invariant |out| == i
        invariant forall j :: 0 <= j < i ==>
          out[j] == Member(ms[j].key, ToRefsUnder(text, names, ms[j].key, ms[j].value))
        invariant used == old(used) + UsedInMembers(text, names, ms[..i])
      {
        assert ms[..i + 1][..i] == ms[..i];
        var each := ExportUnder(ms[i].key, ms[i].value);
        out := out + [Member(ms[i].key, each)];
      }
      assert ms[..|ms|] == ms;
      r := Obj(out);
      assert out == ToRefs(text, names, Obj(ms)).members;
    }
  }
}
