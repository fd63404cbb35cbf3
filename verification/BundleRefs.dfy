/**
 Ids to names and back: `ref` and `to_refs` of the export, `_refs_in` of the
 planner, and `resolve` of the import (bundles.py).
 */
module BundleRefs {
  import opened Common
  import opened BundleJson

  /** A project's things: for each kind, the name of each id. */
  type Names = map<string, map<Id, string>>

  // ------------------------------------------------------------------ export

  function NameOf(text: Text, names: Names, kind: string, value: Json): Option<string> {
    match text.parse(value)
    case None => None
    case Some(id) => if kind in names && id in names[kind] then Some(names[kind][id]) else None
  }

  function RefDict(kind: string, name: string): Json {
    Obj([Member("$ref", Str(kind)), Member("name", Str(name))])
  }

  function Ref(text: Text, names: Names, kind: string, value: Json): Json {
    match NameOf(text, names, kind, value)
    case None => Null
    case Some(name) => RefDict(kind, name)
  }

  /** `value` reads as the id of a thing of this kind in the project, and it is called so. */
  ghost predicate Calls(text: Text, names: Names, kind: string, value: Json, name: string) {
    exists id :: text.parse(value) == Some(id) && kind in names && id in names[kind] && names[kind][id] == name
  }

  lemma RefDictsDiffer(kind: string, a: string, b: string)
    ensures RefDict(kind, a) == RefDict(kind, b) <==> a == b
  {
  }

  /** An id becomes a reference to a name exactly when its thing is in the project under that name,
      whatever its kind, and null exactly when there is none. */
  lemma RefIsExact(text: Text, names: Names, kind: string, value: Json)
    ensures forall name ::
      Ref(text, names, kind, value) == RefDict(kind, name) <==> Calls(text, names, kind, value, name)
    ensures Ref(text, names, kind, value) == Null <==> forall name :: !Calls(text, names, kind, value, name)
  {
    forall name
      ensures Ref(text, names, kind, value) == RefDict(kind, name) <==> Calls(text, names, kind, value, name)
    {
      if NameOf(text, names, kind, value).Some? {
        RefDictsDiffer(kind, NameOf(text, names, kind, value).value, name);
      }
    }
    if NameOf(text, names, kind, value).Some? {
      assert Calls(text, names, kind, value, NameOf(text, names, kind, value).value);
    }
  }

  function RefList(text: Text, names: Names, kind: string, items: seq<Json>): seq<Json> {
    if items == [] then []
    else
      var r := Ref(text, names, kind, items[0]);
      (if Truthy(r) then [r] else []) + RefList(text, names, kind, items[1..])
  }

  function ToRefs(text: Text, names: Names, v: Json): Json
    decreases v, 0
  {
    match v
    case Obj(ms) => Obj(seq(|ms|, i requires 0 <= i < |ms| =>
        Member(ms[i].key, ToRefsUnder(text, names, ms[i].key, ms[i].value))))
    case Arr(items) => Arr(seq(|items|, i requires 0 <= i < |items| => ToRefs(text, names, items[i])))
    case _ => v
  }

  function ToRefsUnder(text: Text, names: Names, key: string, value: Json): Json
    decreases value, 1
  {
    if key in REF_KEYS && Truthy(value) then Ref(text, names, REF_KEYS[key], value)
    else if key in LIST_REF_KEYS && value.Arr? then Arr(RefList(text, names, LIST_REF_KEYS[key], value.items))
    else ToRefs(text, names, value)
  }

  // ------------------------------------------------------------------ import

  function RefsIn(text: Text, v: Json): seq<(string, string)>
    decreases v, 1
  {
    match v
    case Obj(ms) => if IsRef(ms) then [RefPair(text, ms)] else RefsInMembers(text, ms)
    case Arr(items) => RefsInItems(text, items)
    case _ => []
  }

  function RefsInMembers(text: Text, ms: seq<Member>): seq<(string, string)>
    decreases ms, 0
  {
    if ms == [] then [] else RefsIn(text, ms[0].value) + RefsInMembers(text, ms[1..])
  }

  function RefsInItems(text: Text, items: seq<Json>): seq<(string, string)>
    decreases items, 0
  {
    if items == [] then [] else RefsIn(text, items[0]) + RefsInItems(text, items[1..])
  }

  function OnlyTruthy(items: seq<Json>): seq<Json> {
    if items == [] then []
    else (if Truthy(items[0]) then [items[0]] else []) + OnlyTruthy(items[1..])
  }

  function Kept(key: string, resolved: Json): Json {
    if key in LIST_REF_KEYS && resolved.Arr? then Arr(OnlyTruthy(resolved.items)) else resolved
  }

  function Link(text: Text, found: Option<Id>): Json {
    match found
    case None => Null
    case Some(id) => Str(text.show(id))
  }

  function Resolve(text: Text, find: Key -> Option<Id>, v: Json): Json {
    match v
    case Obj(ms) =>
      if IsRef(ms) then
        var (kind, name) := RefPair(text, ms);
        Link(text, find(text.KeyOf(kind, name)))
      else
        Obj(seq(|ms|, i requires 0 <= i < |ms| => Member(ms[i].key, Kept(ms[i].key, Resolve(text, find, ms[i].value)))))
    case Arr(items) => Arr(seq(|items|, i requires 0 <= i < |items| => Resolve(text, find, items[i])))
    case _ => v
  }
}
