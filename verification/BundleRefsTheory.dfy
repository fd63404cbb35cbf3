/**
 `_refs_in` against `resolve`: what an import looks up is what the planner saw,
 and a bundle's work exports again as the same bundle (bundles.py).
 */
module BundleRefsTheory {
  import opened Common
  import opened BundleJson
  import opened BundleRefs
  import opened BundleRoundTrip

  lemma {:induction false} RefsInMembersAt(text: Text, ms: seq<Member>, p: (string, string))
    ensures p in RefsInMembers(text, ms) <==> exists i :: 0 <= i < |ms| && p in RefsIn(text, ms[i].value)
  {
    if ms != [] {
      RefsInMembersAt(text, ms[1..], p);
      assert ms[0] == ms[0];
      if i :| 0 <= i < |ms| && p in RefsIn(text, ms[i].value) {
        if i > 0 {
          assert ms[1..][i - 1] == ms[i];
        }
      }
      if j :| 0 <= j < |ms[1..]| && p in RefsIn(text, ms[1..][j].value) {
        assert ms[1..][j] == ms[j + 1];
      }
    }
  }

  lemma {:induction false} RefsInItemsAt(text: Text, items: seq<Json>, p: (string, string))
    ensures p in RefsInItems(text, items) <==> exists i :: 0 <= i < |items| && p in RefsIn(text, items[i])
  {
    if items != [] {
      RefsInItemsAt(text, items[1..], p);
      if i :| 0 <= i < |items| && p in RefsIn(text, items[i]) {
        if i > 0 {
          assert items[1..][i - 1] == items[i];
        }
      }
      if j :| 0 <= j < |items[1..]| && p in RefsIn(text, items[1..][j]) {
        assert items[1..][j] == items[j + 1];
      }
    }
  }

  /** Two lookups give the same answer for every reference the planner saw in `v`. */
  ghost predicate AgreeOn(text: Text, f: Key -> Option<Id>, g: Key -> Option<Id>, v: Json) {
    forall p :: p in RefsIn(text, v) ==> f(text.KeyOf(p.0, p.1)) == g(text.KeyOf(p.0, p.1))
  }

  /** `resolve` looks up nothing that `_refs_in` did not find. */
  lemma {:induction false} ResolveLooksUpOnlyRefs(text: Text, f: Key -> Option<Id>, g: Key -> Option<Id>, v: Json)
    requires AgreeOn(text, f, g, v)
    ensures Resolve(text, f, v) == Resolve(text, g, v)
  {
    match v
    case Obj(ms) =>
      if IsRef(ms) {
        var p := RefPair(text, ms);
        assert RefsIn(text, v) == [p] && p in RefsIn(text, v);
      } else {
        forall i | 0 <= i < |ms| ensures Resolve(text, f, ms[i].value) == Resolve(text, g, ms[i].value) {
          forall p | p in RefsIn(text, ms[i].value)
            ensures f(text.KeyOf(p.0, p.1)) == g(text.KeyOf(p.0, p.1))
          {
            RefsInMembersAt(text, ms, p);
          }
          ResolveLooksUpOnlyRefs(text, f, g, ms[i].value);
        }
      }
    case Arr(items) =>
      forall i | 0 <= i < |items| ensures Resolve(text, f, items[i]) == Resolve(text, g, items[i]) {
        forall p | p in RefsIn(text, items[i])
          ensures f(text.KeyOf(p.0, p.1)) == g(text.KeyOf(p.0, p.1))
        {
          RefsInItemsAt(text, items, p);
        }
        ResolveLooksUpOnlyRefs(text, f, g, items[i]);
      }
    case _ =>
  }

  // ------------------------------------------------- exporting what was imported

  /** The target has the referenced thing, spelled as the bundle spells it. */
  ghost predicate SameName(text: Text, target: Names, find: Key -> Option<Id>, p: (string, string)) {
    var found := find(text.KeyOf(p.0, p.1));
    found.Some? && p.0 in target && found.value in target[p.0] && target[p.0][found.value] == p.1
  }

  ghost predicate AllSameName(text: Text, target: Names, find: Key -> Option<Id>, bundle: Json) {
    forall p :: p in RefsIn(text, bundle) ==> SameName(text, target, find, p)
  }

  function Again(text: Text, source: Names, target: Names, find: Key -> Option<Id>, v: Json): Json {
    ToRefs(text, target, Resolve(text, find, ToRefs(text, source, v)))
  }

  lemma RefsInRefDict(text: Text, kind: string, name: string)
    ensures RefsIn(text, RefDict(kind, name)) == [(kind, name)]
  {
    var ms := [Member("$ref", Str(kind)), Member("name", Str(name))];
    assert Get(ms, "$ref") == Some(Str(kind));
    assert ms[1..][0] == ms[1] && "$ref" != "name";
    assert Get(ms, "name") == Get(ms[1..], "name") == Some(Str(name));
  }

  lemma AllSameNameRef(text: Text, target: Names, find: Key -> Option<Id>, kind: string, name: string)
    ensures AllSameName(text, target, find, RefDict(kind, name)) <==> SameName(text, target, find, (kind, name))
  {
    RefsInRefDict(text, kind, name);
    assert (kind, name) in RefsIn(text, RefDict(kind, name));
  }

  lemma AllSameNameCons(text: Text, target: Names, find: Key -> Option<Id>, r: Json, rest: seq<Json>)
    ensures AllSameName(text, target, find, Arr([r] + rest))
       <==> AllSameName(text, target, find, r) && AllSameName(text, target, find, Arr(rest))
  {
    assert ([r] + rest)[1..] == rest;
    assert RefsIn(text, Arr([r] + rest)) == RefsIn(text, r) + RefsIn(text, Arr(rest));
  }

  lemma ReexportRef(text: Text, source: Names, target: Names, find: Key -> Option<Id>, kind: string, value: Json)
    requires text.ReadsBack() && NameOf(text, source, kind, value).Some?
    ensures var r := Ref(text, source, kind, value);
      var link := Resolve(text, find, r);
      Truthy(link) && Ref(text, target, kind, link) == r <==> AllSameName(text, target, find, r)
  {
    var name := NameOf(text, source, kind, value).value;
    ResolveRef(text, source, find, kind, value);
    AllSameNameRef(text, target, find, kind, name);
    var found := find(text.KeyOf(kind, name));
    if found.Some? {
      var back := NameOf(text, target, kind, Str(text.show(found.value)));
      assert text.parse(Str(text.show(found.value))) == found;
      if back.Some? {
        RefDictsDiffer(kind, back.value, name);
      }
    }
  }

  /** One list element, out and back. */
  function BackList(text: Text, target: Names, find: Key -> Option<Id>, kind: string, refs: seq<Json>): seq<Json> {
    RefList(text, target, kind, OnlyTruthy(Resolve(text, find, Arr(refs)).items))
  }

  lemma BackListCons(text: Text, target: Names, find: Key -> Option<Id>, kind: string, r: Json, rest: seq<Json>)
    ensures BackList(text, target, find, kind, [r] + rest)
      == (var link := Resolve(text, find, r);
          if Truthy(link) && Truthy(Ref(text, target, kind, link)) then [Ref(text, target, kind, link)] else [])
         + BackList(text, target, find, kind, rest)
  {
    ResolveCons(text, find, r, rest);
    var link, kept := Resolve(text, find, r), OnlyTruthy(Resolve(text, find, Arr(rest)).items);
    assert ([link] + kept)[1..] == kept && [] + kept == kept;
  }

  lemma {:induction false} ReexportList(text: Text, source: Names, target: Names, find: Key -> Option<Id>, kind: string,
                                        items: seq<Json>)
    requires text.ReadsBack()
    ensures var refs := RefList(text, source, kind, items);
      |BackList(text, target, find, kind, refs)| <= |refs| &&
      (BackList(text, target, find, kind, refs) == refs <==> AllSameName(text, target, find, Arr(refs)))
  {
    if items != [] {
      ReexportList(text, source, target, find, kind, items[1..]);
      if NameOf(text, source, kind, items[0]).Some? {
        var r := Ref(text, source, kind, items[0]);
        var rest := RefList(text, source, kind, items[1..]);
        assert RefList(text, source, kind, items) == [r] + rest;
        ReexportRef(text, source, target, find, kind, items[0]);
        BackListCons(text, target, find, kind, r, rest);
        AllSameNameCons(text, target, find, r, rest);
        ReexportCons(r, Ref(text, target, kind, Resolve(text, find, r)), Truthy(Resolve(text, find, r)), rest,
                     BackList(text, target, find, kind, rest));
      } else {
        assert RefList(text, source, kind, items) == RefList(text, source, kind, items[1..]);
      }
    } else {
      assert Resolve(text, find, Arr([])).items == [];
    }
  }

  lemma ReexportCons(r: Json, b: Json, linked: bool, rest: seq<Json>, backRest: seq<Json>)
    requires Truthy(r) && |backRest| <= |rest|
    ensures (if linked && Truthy(b) then [b] else []) + backRest == [r] + rest <==> linked && b == r && backRest == rest
  {
    var back := (if linked && Truthy(b) then [b] else []) + backRest;
    if back == [r] + rest {
      assert |back| == 1 + |rest|;
      assert back[0] == r && back[1..] == backRest && ([r] + rest)[1..] == rest;
    }
  }

  /** Work imported from a bundle exports again as that bundle, exactly when nothing in the tree
      looks like a reference and the target has everything it refers to under the same spelling. */
  lemma Reexport(text: Text, source: Names, target: Names, find: Key -> Option<Id>, v: Json)
    requires text.ReadsBack()
    ensures Again(text, source, target, find, v) == ToRefs(text, source, v)
       <==> NoLookalike(v) && AllSameName(text, target, find, ToRefs(text, source, v))
  {
    if NoLookalike(v) {
      ReexportPlain(text, source, target, find, v);
    } else {
      LookalikeDoesNotComeBack(text, source, target, find, v);
    }
  }

  /** What looks like a reference becomes an id or nothing, and does not come back. */
  lemma {:induction false} LookalikeDoesNotComeBack(text: Text, source: Names, target: Names,
        find: Key -> Option<Id>, v: Json)
    requires !NoLookalike(v)
    ensures Again(text, source, target, find, v) != ToRefs(text, source, v)
  {
    match v
    case Obj(ms) =>
      if IsRef(ms) {
        var refs := ToRefs(text, source, v).members;
        GetSameKeys(ms, refs, "$ref");
        GetSameKeys(ms, refs, "name");
      } else {
        var i :| 0 <= i < |ms| && !(Consumed(ms[i]) || NoLookalike(ms[i].value));
        LookalikeDoesNotComeBack(text, source, target, find, ms[i].value);
        AgainMembers(text, source, target, find, ms);
        LookalikeUnder(text, source, target, find, ms[i].key, ms[i].value);
        assert ToRefs(text, source, v).members[i].value == ToRefsUnder(text, source, ms[i].key, ms[i].value);
      }
    case Arr(items) =>
      var i :| 0 <= i < |items| && !NoLookalike(items[i]);
      LookalikeDoesNotComeBack(text, source, target, find, items[i]);
      assert ToRefs(text, source, v).items[i] == ToRefs(text, source, items[i]);
      assert Again(text, source, target, find, v).items[i] == Again(text, source, target, find, items[i]);
  }

  lemma LookalikeUnder(text: Text, source: Names, target: Names, find: Key -> Option<Id>, key: string, value: Json)
    requires !Consumed(Member(key, value)) && !NoLookalike(value)
    ensures ToRefsUnder(text, source, key, value) == ToRefs(text, source, value)
    ensures ToRefsUnder(text, target, key, Kept(key, Resolve(text, find, ToRefs(text, source, value))))
         == Again(text, source, target, find, value)
  {
    RefKeysAreOrdinary();
    assert Truthy(value) && (key in LIST_REF_KEYS ==> value.Obj?);
  }

  lemma {:induction false} ReexportPlain(text: Text, source: Names, target: Names, find: Key -> Option<Id>, v: Json)
    requires text.ReadsBack() && NoLookalike(v)
    ensures Again(text, source, target, find, v) == ToRefs(text, source, v)
       <==> AllSameName(text, target, find, ToRefs(text, source, v))
    decreases v, 0
  {
    match v
    case Obj(ms) =>
      forall i | 0 <= i < |ms| ensures ComesBackUnder(text, source, target, find, ms[i].key, ms[i].value) {
        ReexportUnder(text, source, target, find, ms[i].key, ms[i].value);
      }
      ReexportObj(text, source, target, find, ms);
    case Arr(items) =>
      forall i | 0 <= i < |items|
        ensures Again(text, source, target, find, items[i]) == ToRefs(text, source, items[i])
           <==> AllSameName(text, target, find, ToRefs(text, source, items[i]))
      {
        ReexportPlain(text, source, target, find, items[i]);
      }
      ReexportArr(text, source, target, find, items);
    case _ =>
  }

  lemma ReexportArr(text: Text, source: Names, target: Names, find: Key -> Option<Id>, items: seq<Json>)
    requires forall i :: 0 <= i < |items| ==>
      (Again(text, source, target, find, items[i]) == ToRefs(text, source, items[i])
       <==> AllSameName(text, target, find, ToRefs(text, source, items[i])))
    ensures Again(text, source, target, find, Arr(items)) == ToRefs(text, source, Arr(items))
       <==> AllSameName(text, target, find, ToRefs(text, source, Arr(items)))
  {
    var refs := ToRefs(text, source, Arr(items)).items;
    var back := Again(text, source, target, find, Arr(items)).items;
    forall i | 0 <= i < |items| ensures back[i] == refs[i] <==> AllSameName(text, target, find, refs[i]) {
    }
    SameItems(text, target, find, refs, back);
  }

  lemma SameItems(text: Text, target: Names, find: Key -> Option<Id>, refs: seq<Json>, back: seq<Json>)
    requires |refs| == |back|
    requires forall i :: 0 <= i < |refs| ==> (back[i] == refs[i] <==> AllSameName(text, target, find, refs[i]))
    ensures back == refs <==> AllSameName(text, target, find, Arr(refs))
  {
    forall p ensures p in RefsIn(text, Arr(refs)) <==> exists i :: 0 <= i < |refs| && p in RefsIn(text, refs[i]) {
      RefsInItemsAt(text, refs, p);
    }
    if back == refs {
      forall i | 0 <= i < |refs| ensures AllSameName(text, target, find, refs[i]) {
        assert back[i] == refs[i];
      }
    } else {
      var i :| 0 <= i < |refs| && back[i] != refs[i];
      assert !AllSameName(text, target, find, refs[i]);
    }
  }

  lemma SameMembers(text: Text, target: Names, find: Key -> Option<Id>, refs: seq<Member>, back: seq<Member>)
    requires |refs| == |back| && !IsRef(refs)
    requires forall i :: 0 <= i < |refs| ==> (back[i] == refs[i] <==> AllSameName(text, target, find, refs[i].value))
    ensures back == refs <==> AllSameName(text, target, find, Obj(refs))
  {
    forall p ensures p in RefsIn(text, Obj(refs)) <==> exists i :: 0 <= i < |refs| && p in RefsIn(text, refs[i].value) {
      RefsInMembersAt(text, refs, p);
    }
    if back == refs {
      forall i | 0 <= i < |refs| ensures AllSameName(text, target, find, refs[i].value) {
        assert back[i] == refs[i];
      }
    } else {
      var i :| 0 <= i < |refs| && back[i] != refs[i];
      assert !AllSameName(text, target, find, refs[i].value);
    }
  }

  ghost predicate ComesBackUnder(text: Text, source: Names, target: Names, find: Key -> Option<Id>, key: string,
        value: Json) {
    var r := ToRefsUnder(text, source, key, value);
    ToRefsUnder(text, target, key, Kept(key, Resolve(text, find, r))) == r <==> AllSameName(text, target, find, r)
  }

  lemma AgainMembers(text: Text, source: Names, target: Names, find: Key -> Option<Id>, ms: seq<Member>)
    requires !IsRef(ms)
    ensures var again := Again(text, source, target, find, Obj(ms));
      && again.Obj? && |again.members| == |ms|
      && forall i :: 0 <= i < |ms| ==>
           again.members[i] == Member(ms[i].key,
             ToRefsUnder(text, target, ms[i].key,
               Kept(ms[i].key, Resolve(text, find, ToRefsUnder(text, source, ms[i].key, ms[i].value)))))
  {
    var refs := ToRefs(text, source, Obj(ms)).members;
    GetSameKeys(ms, refs, "$ref");
    GetSameKeys(ms, refs, "name");
  }

  lemma ReexportObj(text: Text, source: Names, target: Names, find: Key -> Option<Id>, ms: seq<Member>)
    requires NoLookalike(Obj(ms))
    requires forall i :: 0 <= i < |ms| ==> ComesBackUnder(text, source, target, find, ms[i].key, ms[i].value)
    ensures Again(text, source, target, find, Obj(ms)) == ToRefs(text, source, Obj(ms))
       <==> AllSameName(text, target, find, ToRefs(text, source, Obj(ms)))
  {
    var refs := ToRefs(text, source, Obj(ms)).members;
    GetSameKeys(ms, refs, "$ref");
    GetSameKeys(ms, refs, "name");
    AgainMembers(text, source, target, find, ms);
    var back := Again(text, source, target, find, Obj(ms)).members;
    forall i | 0 <= i < |ms| ensures back[i] == refs[i] <==> AllSameName(text, target, find, refs[i].value) {
      assert ComesBackUnder(text, source, target, find, ms[i].key, ms[i].value);
    }
    SameMembers(text, target, find, refs, back);
  }

  lemma {:induction false} ReexportUnder(text: Text, source: Names, target: Names, find: Key -> Option<Id>,
        key: string, value: Json)
    requires text.ReadsBack() && (Consumed(Member(key, value)) || NoLookalike(value))
    ensures ComesBackUnder(text, source, target, find, key, value)
    decreases value, 1
  {
    RefKeysAreOrdinary();
    var r := ToRefsUnder(text, source, key, value);
    if key in REF_KEYS && Truthy(value) {
      if NameOf(text, source, REF_KEYS[key], value).Some? {
        ReexportRef(text, source, target, find, REF_KEYS[key], value);
      }
    } else if key in LIST_REF_KEYS && value.Arr? {
      ReexportList(text, source, target, find, LIST_REF_KEYS[key], value.items);
    } else {
      ReexportPlain(text, source, target, find, value);
      if key in REF_KEYS {
        assert !Truthy(value) && !Truthy(Kept(key, Resolve(text, find, r)));
      }
    }
  }
}
