/**
 What exporting and importing do to a tree together (bundles.py). The round trip
 is exact unless the tree itself holds a dictionary that looks like a reference.
 */
module BundleRoundTrip {
  import opened Common
  import opened BundleJson
  import opened BundleRefs

  /** A member whose value the export replaces, without looking inside it. */
  predicate Consumed(m: Member) {
    || (m.key in REF_KEYS && Truthy(m.value))
    || (m.key in LIST_REF_KEYS && m.value.Arr?)
  }

  /** No dictionary that reaches the bundle holds both "$ref" and "name". */
  predicate NoLookalike(v: Json) {
    match v
    case Obj(ms) => !IsRef(ms) && forall i :: 0 <= i < |ms| ==> Consumed(ms[i]) || NoLookalike(ms[i].value)
    case Arr(items) => forall i :: 0 <= i < |items| ==> NoLookalike(items[i])
    case _ => true
  }

  /** `v` with each id under a reference key replaced by what `swap` says: the
      meaning of moving a tree, said without mentioning names or bundles. */
  function Rewire(text: Text, swap: (string, Json) -> Option<Id>, v: Json): Json
    decreases v, 0
  {
    match v
    case Obj(ms) => Obj(seq(|ms|, i requires 0 <= i < |ms| =>
        Member(ms[i].key, RewireUnder(text, swap, ms[i].key, ms[i].value))))
    case Arr(items) => Arr(seq(|items|, i requires 0 <= i < |items| => Rewire(text, swap, items[i])))
    case _ => v
  }

  function RewireUnder(text: Text, swap: (string, Json) -> Option<Id>, key: string, value: Json): Json
    decreases value, 1
  {
    if key in REF_KEYS && Truthy(value) then Link(text, swap(REF_KEYS[key], value))
    else if key in LIST_REF_KEYS && value.Arr? then Arr(RewireList(text, swap, LIST_REF_KEYS[key], value.items))
    else Rewire(text, swap, value)
  }

  function RewireList(text: Text, swap: (string, Json) -> Option<Id>, kind: string, items: seq<Json>): seq<Json> {
    if items == [] then []
    else
      (match swap(kind, items[0]) case None => [] case Some(id) => [Str(text.show(id))])
      + RewireList(text, swap, kind, items[1..])
  }

  /** The target's id of the thing `value` names in the source. */
  function Moved(text: Text, names: Names, find: Key -> Option<Id>, kind: string, value: Json): Option<Id> {
    match text.parse(value)
    case None => None
    case Some(id) => if kind in names && id in names[kind] then find(text.KeyOf(kind, names[kind][id])) else None
  }

  function Swap(text: Text, names: Names, find: Key -> Option<Id>): (string, Json) -> Option<Id> {
    (kind, value) => Moved(text, names, find, kind, value)
  }

  lemma RefKeysAreOrdinary()
    ensures "$ref" !in REF_KEYS && "name" !in REF_KEYS
    ensures "$ref" !in LIST_REF_KEYS && "name" !in LIST_REF_KEYS
    ensures REF_KEYS.Keys !! LIST_REF_KEYS.Keys
  {
  }

  lemma ResolveRef(text: Text, names: Names, find: Key -> Option<Id>, kind: string, value: Json)
    ensures Resolve(text, find, Ref(text, names, kind, value)) == Link(text, Moved(text, names, find, kind, value))
  {
    if NameOf(text, names, kind, value).Some? {
      var name := NameOf(text, names, kind, value).value;
      var ms := [Member("$ref", Str(kind)), Member("name", Str(name))];
      assert Get(ms, "$ref") == Some(Str(kind));
      assert ms[1..][0] == ms[1] && "$ref" != "name";
      assert Get(ms, "name") == Get(ms[1..], "name") == Some(Str(name));
    }
  }

  lemma ResolveCons(text: Text, find: Key -> Option<Id>, r: Json, rest: seq<Json>)
    ensures OnlyTruthy(Resolve(text, find, Arr([r] + rest)).items)
      == (if Truthy(Resolve(text, find, r)) then [Resolve(text, find, r)] else [])
         + OnlyTruthy(Resolve(text, find, Arr(rest)).items)
  {
    var links := Resolve(text, find, Arr([r] + rest)).items;
    assert links[0] == Resolve(text, find, r);
    assert links[1..] == Resolve(text, find, Arr(rest)).items by {
      assert ([r] + rest)[1..] == rest;
    }
  }

  lemma {:induction false} ResolveRefList(text: Text, names: Names, find: Key -> Option<Id>, kind: string,
        items: seq<Json>)
    requires text.PrintsIds()
    ensures OnlyTruthy(Resolve(text, find, Arr(RefList(text, names, kind, items))).items)
         == RewireList(text, Swap(text, names, find), kind, items)
  {
    if items != [] {
      ResolveRefList(text, names, find, kind, items[1..]);
      ResolveRef(text, names, find, kind, items[0]);
      ResolveCons(text, find, Ref(text, names, kind, items[0]), RefList(text, names, kind, items[1..]));
      if NameOf(text, names, kind, items[0]).None? {
        assert RefList(text, names, kind, items) == RefList(text, names, kind, items[1..]);
      }
    } else {
      assert Resolve(text, find, Arr([])).items == [];
    }
  }

  /** Exporting a tree and importing it puts the target's ids in the source's places,
      exactly when nothing in the tree already looks like a reference. */
  lemma {:induction false} RoundTrip(text: Text, names: Names, find: Key -> Option<Id>, v: Json)
    requires text.PrintsIds()
    ensures Resolve(text, find, ToRefs(text, names, v)) == Rewire(text, Swap(text, names, find), v) <==> NoLookalike(v)
    decreases v, 2
  {
    match v
    case Obj(ms) =>
      RoundTripObj(text, names, find, ms);
    case Arr(items) =>
      forall i | 0 <= i < |items|
        ensures Resolve(text, find, ToRefs(text, names, items[i])) == Rewire(text, Swap(text, names, find), items[i])
           <==> NoLookalike(items[i])
      {
        RoundTrip(text, names, find, items[i]);
      }
      var there := Resolve(text, find, ToRefs(text, names, v)).items;
      var here := Rewire(text, Swap(text, names, find), v).items;
      if there == here {
        forall i | 0 <= i < |items| ensures NoLookalike(items[i]) {
          assert there[i] == here[i];
        }
      }
    case _ =>
  }

  lemma {:induction false} RoundTripUnder(text: Text, names: Names, find: Key -> Option<Id>, key: string, value: Json)
    requires text.PrintsIds()
    ensures Kept(key, Resolve(text, find, ToRefsUnder(text, names, key, value)))
         == RewireUnder(text, Swap(text, names, find), key, value)
       <==> Consumed(Member(key, value)) || NoLookalike(value)
    decreases value, 3
  {
    RefKeysAreOrdinary();
    if key in REF_KEYS && Truthy(value) {
      ResolveRef(text, names, find, REF_KEYS[key], value);
    } else if key in LIST_REF_KEYS && value.Arr? {
      ResolveRefList(text, names, find, LIST_REF_KEYS[key], value.items);
    } else {
      RoundTrip(text, names, find, value);
    }
  }

  lemma {:induction false} RoundTripObj(text: Text, names: Names, find: Key -> Option<Id>, ms: seq<Member>)
    requires text.PrintsIds()
    ensures Resolve(text, find, ToRefs(text, names, Obj(ms))) == Rewire(text, Swap(text, names, find), Obj(ms))
       <==> NoLookalike(Obj(ms))
    decreases Obj(ms), 1
  {
    var refs := ToRefs(text, names, Obj(ms)).members;
    GetSameKeys(ms, refs, "$ref");
    GetSameKeys(ms, refs, "name");
    if !IsRef(ms) {
      var there := Resolve(text, find, Obj(refs)).members;
      var here := Rewire(text, Swap(text, names, find), Obj(ms)).members;
      forall i | 0 <= i < |ms|
        ensures there[i].value == here[i].value <==> Consumed(ms[i]) || NoLookalike(ms[i].value)
      {
        RoundTripUnder(text, names, find, ms[i].key, ms[i].value);
      }
      if there == here {
        forall i | 0 <= i < |ms| ensures Consumed(ms[i]) || NoLookalike(ms[i].value) {
          assert there[i] == here[i];
        }
      }
    }
  }

  // ----------------------------------------------------------------- home again

  /** `value` is the printed id of a thing the project has. */
  ghost predicate IsAtHome(text: Text, names: Names, kind: string, value: Json) {
    exists id ::
      text.parse(value) == Some(id) && kind in names && id in names[kind] && value == Str(text.show(id))
  }

  /** Where printed ids read back, that is to be one of the project's ids as it is printed. */
  lemma AtHomeIsPrinted(text: Text, names: Names, kind: string, value: Json)
    requires text.ReadsBack()
    ensures IsAtHome(text, names, kind, value)
       <==> exists id :: kind in names && id in names[kind] && value == Str(text.show(id))
  {
    if id :| kind in names && id in names[kind] && value == Str(text.show(id)) {
      assert text.parse(Str(text.show(id))) == Some(id);
    }
  }

  /** Every id under a reference key is one of the project's own, as it is printed. */
  ghost predicate AllAtHome(text: Text, names: Names, v: Json)
    decreases v, 0
  {
    match v
    case Obj(ms) => forall i :: 0 <= i < |ms| ==> AllAtHomeUnder(text, names, ms[i].key, ms[i].value)
    case Arr(items) => forall i :: 0 <= i < |items| ==> AllAtHome(text, names, items[i])
    case _ => true
  }

  ghost predicate AllAtHomeUnder(text: Text, names: Names, key: string, value: Json)
    decreases value, 1
  {
    if key in REF_KEYS && Truthy(value) then IsAtHome(text, names, REF_KEYS[key], value)
    else if key in LIST_REF_KEYS && value.Arr? then
      forall i :: 0 <= i < |value.items| ==> IsAtHome(text, names, LIST_REF_KEYS[key], value.items[i])
    else AllAtHome(text, names, value)
  }

  /** Looking a thing up by its own name finds that thing. */
  ghost predicate FindsItself(text: Text, names: Names, find: Key -> Option<Id>) {
    forall kind, id :: kind in names && id in names[kind] ==> find(text.KeyOf(kind, names[kind][id])) == Some(id)
  }

  ghost predicate HasName(text: Text, names: Names, key: Key, id: Id) {
    key.0 in names && id in names[key.0] && text.fold(names[key.0][id]) == key.1
  }

  /** One of the things that have this name, if there is one. */
  ghost function Home(text: Text, names: Names): Key -> Option<Id> {
    key =>
      if exists id :: HasName(text, names, key, id) then Some(var id :| HasName(text, names, key, id); id)
      else None
  }

  /** No two things of a kind have the same name but for case. */
  ghost predicate NamesDiffer(text: Text, names: Names) {
    forall key, a, b :: HasName(text, names, key, a) && HasName(text, names, key, b) ==> a == b
  }

  /** A project finds its own things by their names exactly when the names differ. */
  lemma HomeIsFound(text: Text, names: Names)
    ensures FindsItself(text, names, Home(text, names)) <==> NamesDiffer(text, names)
  {
    if NamesDiffer(text, names) {
      forall kind, id | kind in names && id in names[kind]
        ensures Home(text, names)(text.KeyOf(kind, names[kind][id])) == Some(id)
      {
        assert HasName(text, names, text.KeyOf(kind, names[kind][id]), id);
      }
    }
    if FindsItself(text, names, Home(text, names)) {
      forall key, a, b | HasName(text, names, key, a) && HasName(text, names, key, b) ensures a == b {
        assert Home(text, names)(text.KeyOf(key.0, names[key.0][a])) == Some(a);
        assert Home(text, names)(text.KeyOf(key.0, names[key.0][b])) == Some(b);
      }
    }
  }

  /** A tree imported where it came from is the same tree, exactly when nothing in it looks like
      a reference and its ids were all at home. */
  lemma HomeAgain(text: Text, names: Names, v: Json)
    requires text.PrintsIds() && NamesDiffer(text, names)
    ensures Resolve(text, Home(text, names), ToRefs(text, names, v)) == v
       <==> NoLookalike(v) && AllAtHome(text, names, v)
  {
    HomeIsFound(text, names);
    if NoLookalike(v) {
      RoundTrip(text, names, Home(text, names), v);
      RewireHome(text, names, Home(text, names), v);
    } else {
      LookalikeIsLost(text, names, Home(text, names), v);
    }
  }

  /** What looks like a reference is taken for one. */
  lemma {:induction false} LookalikeIsLost(text: Text, names: Names, find: Key -> Option<Id>, v: Json)
    requires !NoLookalike(v)
    ensures Resolve(text, find, ToRefs(text, names, v)) != v
  {
    match v
    case Obj(ms) =>
      if IsRef(ms) {
        RefIsLost(text, names, find, ms);
      } else {
        var i :| 0 <= i < |ms| && !(Consumed(ms[i]) || NoLookalike(ms[i].value));
        LookalikeIsLost(text, names, find, ms[i].value);
        LostUnder(text, names, find, ms[i].key, ms[i].value);
        MemberIsLost(text, names, find, ms, i);
      }
    case Arr(items) =>
      var i :| 0 <= i < |items| && !NoLookalike(items[i]);
      LookalikeIsLost(text, names, find, items[i]);
      assert Resolve(text, find, ToRefs(text, names, v)).items[i] == Resolve(text, find, ToRefs(text, names, items[i]));
  }

  lemma RefIsLost(text: Text, names: Names, find: Key -> Option<Id>, ms: seq<Member>)
    requires IsRef(ms)
    ensures Resolve(text, find, ToRefs(text, names, Obj(ms))) != Obj(ms)
  {
    GetSameKeys(ms, ToRefs(text, names, Obj(ms)).members, "$ref");
    GetSameKeys(ms, ToRefs(text, names, Obj(ms)).members, "name");
  }

  lemma MemberIsLost(text: Text, names: Names, find: Key -> Option<Id>, ms: seq<Member>, i: nat)
    requires !IsRef(ms) && i < |ms|
    requires Kept(ms[i].key, Resolve(text, find, ToRefsUnder(text, names, ms[i].key, ms[i].value))) != ms[i].value
    ensures Resolve(text, find, ToRefs(text, names, Obj(ms))) != Obj(ms)
  {
    var refs := ToRefs(text, names, Obj(ms)).members;
    GetSameKeys(ms, refs, "$ref");
    GetSameKeys(ms, refs, "name");
    assert Resolve(text, find, Obj(refs)).members[i].value == Kept(ms[i].key, Resolve(text, find, refs[i].value));
  }

  lemma LostUnder(text: Text, names: Names, find: Key -> Option<Id>, key: string, value: Json)
    requires !Consumed(Member(key, value)) && !NoLookalike(value)
    requires Resolve(text, find, ToRefs(text, names, value)) != value
    ensures Kept(key, Resolve(text, find, ToRefsUnder(text, names, key, value))) != value
  {
    RefKeysAreOrdinary();
    assert Truthy(value) && (key in LIST_REF_KEYS ==> value.Obj?);
  }

  lemma LinkHome(text: Text, names: Names, find: Key -> Option<Id>, kind: string, value: Json)
    requires FindsItself(text, names, find)
    ensures var moved := Swap(text, names, find)(kind, value);
      (moved.Some? <==> NameOf(text, names, kind, value).Some?)
      && (moved.Some? && Str(text.show(moved.value)) == value <==> IsAtHome(text, names, kind, value))
  {
  }

  lemma {:induction false} RewireListHome(text: Text, names: Names, find: Key -> Option<Id>, kind: string,
        items: seq<Json>)
    requires FindsItself(text, names, find)
    ensures var there := RewireList(text, Swap(text, names, find), kind, items);
      |there| <= |items|
      && (there == items <==> forall i :: 0 <= i < |items| ==> IsAtHome(text, names, kind, items[i]))
  {
    if items != [] {
      var rest := RewireList(text, Swap(text, names, find), kind, items[1..]);
      RewireListHome(text, names, find, kind, items[1..]);
      LinkHome(text, names, find, kind, items[0]);
      assert items == [items[0]] + items[1..];
      assert (forall i :: 0 <= i < |items| ==> IsAtHome(text, names, kind, items[i]))
        <==> IsAtHome(text, names, kind, items[0])
             && forall i :: 0 <= i < |items[1..]| ==> IsAtHome(text, names, kind, items[1..][i]) by {
        assert forall i :: 0 < i < |items| ==> items[i] == items[1..][i - 1];
      }
    }
  }

  lemma {:induction false} RewireHome(text: Text, names: Names, find: Key -> Option<Id>, v: Json)
    requires FindsItself(text, names, find)
    ensures Rewire(text, Swap(text, names, find), v) == v <==> AllAtHome(text, names, v)
    decreases v, 0
  {
    match v
    case Obj(ms) =>
      var there := Rewire(text, Swap(text, names, find), v).members;
      forall i | 0 <= i < |ms| ensures there[i] == ms[i] <==> AllAtHomeUnder(text, names, ms[i].key, ms[i].value) {
        RewireUnderHome(text, names, find, ms[i].key, ms[i].value);
      }
      assert there == ms <==> forall i :: 0 <= i < |ms| ==> there[i] == ms[i];
    case Arr(items) =>
      var there := Rewire(text, Swap(text, names, find), v).items;
      forall i | 0 <= i < |items| ensures there[i] == items[i] <==> AllAtHome(text, names, items[i]) {
        RewireHome(text, names, find, items[i]);
      }
      assert there == items <==> forall i :: 0 <= i < |items| ==> there[i] == items[i];
    case _ =>
  }

  lemma {:induction false} RewireUnderHome(text: Text, names: Names, find: Key -> Option<Id>, key: string, value: Json)
    requires FindsItself(text, names, find)
    ensures RewireUnder(text, Swap(text, names, find), key, value) == value <==> AllAtHomeUnder(text, names, key, value)
    decreases value, 1
  {
    if key in REF_KEYS && Truthy(value) {
      LinkHome(text, names, find, REF_KEYS[key], value);
    } else if key in LIST_REF_KEYS && value.Arr? {
      RewireListHome(text, names, find, LIST_REF_KEYS[key], value.items);
    } else {
      RewireHome(text, names, find, value);
    }
  }
}
