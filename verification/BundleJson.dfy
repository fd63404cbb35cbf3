/**
 JSON trees as the bundle code sees them, and the reference dictionaries
 (`{"$ref": kind, "name": name}`) that stand for ids inside a bundle.
 */
module BundleJson {
  import opened Common

  datatype Json =
    | Null
    | Bool(flag: bool)
    | Num(number: real)
    | Str(text: string)
    | Arr(items: seq<Json>)
    | Obj(members: seq<Member>)

  datatype Member = Member(key: string, value: Json)

  /** A UUID, as the number it prints. */
  type Id = nat

  /** What references are looked up by: a kind and a case-folded name. */
  type Key = (string, string)

  /** Python's and Unicode's text rules, which the theorems hold for whatever they are. */
  datatype Text = Text(
    fold: string -> string,       // str.casefold
    strip: string -> string,      // str.strip
    parse: Json -> Option<Id>,    // uuid.UUID(str(value)), None where it raises
    show: Id -> string,           // str(uuid)
    other: Json -> string         // str(value) of anything but a string
  )
  {
    function Of(value: Json): string {
      if value.Str? then value.text else other(value)
    }

    function KeyOf(kind: string, name: string): Key {
      (kind, fold(name))
    }

    /** A printed id is never empty. */
    ghost predicate PrintsIds() {
      forall id: Id :: show(id) != ""
    }

    /** A printed id reads back as itself. */
    ghost predicate ReadsBack() {
      PrintsIds() && forall id: Id :: parse(Str(show(id))) == Some(id)
    }
  }

  /** Python truthiness. */
  predicate Truthy(value: Json) {
    match value
    case Null => false
    case Bool(flag) => flag
    case Num(number) => number != 0.0
    case Str(text) => text != ""
    case Arr(items) => items != []
    case Obj(members) => members != []
  }

  /** What counts as nothing: null, false, zero, and whatever is empty. */
  lemma TruthyIsExact(value: Json)
    ensures !Truthy(value) <==> value in [Null, Bool(false), Num(0.0), Str(""), Arr([]), Obj([])]
  {
    var nothings := [Null, Bool(false), Num(0.0), Str(""), Arr([]), Obj([])];
    if !Truthy(value) {
      assert value == nothings[0] || value == nothings[1] || value == nothings[2] || value == nothings[3]
        || value == nothings[4] || value == nothings[5];
    }
  }

  function Get(members: seq<Member>, key: string): Option<Json> {
    if members == [] then None
    else if members[0].key == key then Some(members[0].value)
    else Get(members[1..], key)
  }

  /** `"$ref" in value and "name" in value`: what makes a dictionary a reference. */
  predicate IsRef(members: seq<Member>) {
    Get(members, "$ref").Some? && Get(members, "name").Some?
  }

  function RefPair(text: Text, members: seq<Member>): (string, string)
    requires IsRef(members)
  {
    (text.Of(Get(members, "$ref").value), text.Of(Get(members, "name").value))
  }

  const REF_KEYS: map<string, string> := map[
    "dataset_id" := "dataset",
    "baseline_dataset_id" := "dataset",
    "right_dataset_id" := "dataset",
    "other_dataset_id" := "dataset",
    "pipeline_id" := "recipe",
    "extraction_job_id" := "import",
    "destination_id" := "destination",
    "connection_id" := "connection",
    "metric_id" := "metric",
    "chart_id" := "chart"
  ]

  const LIST_REF_KEYS: map<string, string> := map["rule_ids" := "check"]

  const EXTERNAL: set<string> := {"dataset", "import", "destination", "connection"}

  /** `value` stands under `key`: in the first member that has the key, where keys repeat. */
  ghost predicate Says(members: seq<Member>, key: string, value: Json) {
    exists i :: SaysAt(members, i, key, value)
  }

  ghost predicate SaysAt(members: seq<Member>, i: int, key: string, value: Json) {
    && 0 <= i < |members| && members[i] == Member(key, value)
    && forall j :: 0 <= j < i ==> members[j].key != key
  }

  lemma {:induction false} GetIsSaid(members: seq<Member>, key: string, value: Json)
    ensures Get(members, key) == Some(value) <==> Says(members, key, value)
  {
    if members != [] && members[0].key != key {
      var rest := members[1..];
      GetIsSaid(rest, key, value);
      if i :| SaysAt(members, i, key, value) {
        assert rest[i - 1] == members[i] && SaysAt(rest, i - 1, key, value);
      }
      if i :| SaysAt(rest, i, key, value) {
        assert members[i + 1] == rest[i] && SaysAt(members, i + 1, key, value);
      }
    } else if members != [] {
      assert Get(members, key) == Some(value) ==> SaysAt(members, 0, key, value);
    }
  }

  lemma NothingIsSaid(members: seq<Member>, key: string)
    ensures Get(members, key).None? <==> forall value :: !Says(members, key, value)
  {
    if Get(members, key).Some? {
      GetIsSaid(members, key, Get(members, key).value);
    }
    forall value ensures Get(members, key) == Some(value) <==> Says(members, key, value) {
      GetIsSaid(members, key, value);
    }
  }

  lemma GetSameKeys(a: seq<Member>, b: seq<Member>, key: string)
    requires |a| == |b| && forall i :: 0 <= i < |a| ==> a[i].key == b[i].key
    ensures Get(a, key).Some? == Get(b, key).Some?
  {
  }

  lemma {:induction false} GetIsMember(members: seq<Member>, key: string)
    requires Get(members, key).Some?
    ensures exists i :: 0 <= i < |members| && members[i] == Member(key, Get(members, key).value)
  {
    if members[0].key == key {
      assert members[0] == Member(key, Get(members, key).value);
    } else {
      GetIsMember(members[1..], key);
      var j :| 0 <= j < |members[1..]| && members[1..][j] == Member(key, Get(members, key).value);
      assert members[j + 1] == members[1..][j];
    }
  }
}
