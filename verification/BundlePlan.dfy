/**
 `plan_import` (bundles.py): what an import would make, match and skip.

 The code interleaves two things in one loop: it classifies each reference the
 first time it meets it, and it judges each item by the references met so far.
 `PlanEntries` is that loop. `TwoPass` says it may be read as two separate
 passes, classify everything and then judge everything.
 */
module BundlePlan {
  import opened Common
  import opened BundleJson
  import opened BundleRefs

  datatype Section = Metrics | Recipes | Checks | Contracts | Charts | Dashboards | Workflows | Schedules
  {
    /** SECTION_MODEL: the kind of thing a section holds. */
    function Kind(): string {
      match this
      case Metrics => "metric"
      case Recipes => "recipe"
      case Checks => "check"
      case Contracts => "contracts"
      case Charts => "chart"
      case Dashboards => "dashboards"
      case Workflows => "workflows"
      case Schedules => "schedules"
    }

    /** Its place in SECTIONS. */
    function Rank(): nat {
      match this
      case Metrics => 0
      case Recipes => 1
      case Checks => 2
      case Contracts => 3
      case Charts => 4
      case Dashboards => 5
      case Workflows => 6
      case Schedules => 7
    }
  }

  const SECTIONS: seq<Section> :=
    [Metrics, Recipes, Checks, Contracts, Charts, Dashboards, Workflows, Schedules]

  /** The sections whose items other items refer to by name. */
  predicate MakesKind(section: Section) {
    section in {Metrics, Recipes, Checks, Charts}
  }

  /** The kinds references are matched for: what must be there already, and what a bundle makes. */
  const KINDS: set<string> := EXTERNAL + {"recipe", "check", "metric", "chart"}

  function SectionOf(kind: string): Option<Section> {
    if kind == "metric" then Some(Metrics)
    else if kind == "recipe" then Some(Recipes)
    else if kind == "check" then Some(Checks)
    else if kind == "contracts" then Some(Contracts)
    else if kind == "chart" then Some(Charts)
    else if kind == "dashboards" then Some(Dashboards)
    else if kind == "workflows" then Some(Workflows)
    else if kind == "schedules" then Some(Schedules)
    else None
  }

  lemma SectionsAndKinds(s: Section, kind: string)
    ensures SectionOf(kind) == Some(s) <==> kind == s.Kind()
    ensures MakesKind(s) <==> s.Kind() in KINDS
    ensures s.Kind() !in EXTERNAL
    ensures SECTIONS[s.Rank()] == s
  {
  }

  /** Ids name things of exactly the kinds references are matched for; of those, the target must
      have already what no section holds, and a bundle brings the others. */
  lemma KindsAreSorted(kind: string)
    ensures kind in KINDS <==> kind in REF_KEYS.Values || kind in LIST_REF_KEYS.Values
    ensures kind in EXTERNAL <==> kind in KINDS && SectionOf(kind).None?
    ensures kind in KINDS && kind !in EXTERNAL <==> exists s :: MakesKind(s) && s.Kind() == kind
  {
    KeysOfKinds();
    assert REF_KEYS["dataset_id"] == "dataset";
    forall key | key in REF_KEYS ensures REF_KEYS[key] in KINDS {
    }
    assert forall s :: MakesKind(s) ==> s.Kind() in KINDS && s.Kind() !in EXTERNAL;
    if kind in KINDS && kind !in EXTERNAL {
      SectionsAndKinds(SectionOf(kind).value, kind);
    }
  }

  /** What the id under each key names. */
  lemma KeysOfKinds()
    ensures forall key :: key in REF_KEYS && REF_KEYS[key] == "dataset" <==>
      key in {"dataset_id", "baseline_dataset_id", "right_dataset_id", "other_dataset_id"}
    ensures LIST_REF_KEYS["rule_ids"] == "check"
    ensures REF_KEYS["pipeline_id"] == "recipe" && REF_KEYS["extraction_job_id"] == "import"
    ensures REF_KEYS["destination_id"] == "destination" && REF_KEYS["connection_id"] == "connection"
    ensures REF_KEYS["metric_id"] == "metric" && REF_KEYS["chart_id"] == "chart"
  {
  }

  /** The kinds a section's exported items refer to outside their free trees. */
  function DirectKinds(s: Section): set<string> {
    match s
    case Metrics => {"dataset"}
    case Recipes => {"dataset"}
    case Checks => {"dataset"}
    case Contracts => {"dataset"}
    case Charts => {"dataset", "metric"}
    case Dashboards => {"chart"}
    case Workflows => {}
    case Schedules => {}
  }

  /** SECTIONS is an order of need: what an exported item refers to is made before it, and
      workflows and schedules, which may refer to anything, come after all that can be referred to. */
  lemma NeededComesEarlier(s: Section, kind: string)
    requires kind in DirectKinds(s) || (s in {Workflows, Schedules} && kind in KINDS)
    ensures SectionOf(kind).Some? ==> SectionOf(kind).value.Rank() < s.Rank()
  {
  }

  datatype Named = Named(id: Id, name: string)

  /** The project imported into: its things by kind, and each dataset's recorded columns. */
  datatype Target = Target(listing: string -> seq<Named>, columns: map<Id, set<string>>)

  datatype Entry = Entry(section: Section, raw: seq<Member>)

  datatype Bundle = Bundle(format: Json, version: Option<int>, sections: map<Section, seq<seq<Member>>>)
  {
    function Of(section: Section): seq<seq<Member>> {
      if section in sections then sections[section] else []
    }
  }

  datatype Request = Request(text: Text, target: Target, bundle: Bundle, mapping: map<string, string>)

  datatype Status = Matched | Chosen | Missing | Made

  datatype Reference = Reference(kind: string, name: string, status: Status, id: Option<Id>)

  type Index = map<Key, Reference>

  datatype Reason = NoName | AlreadyThere | NeedsRef(kind: string, name: string)
      | LacksColumns(columns: set<string>) | NotMade

  datatype Action = Create(raw: seq<Member>) | Skip(reason: Reason)

  datatype Planned = Planned(section: Section, name: string, action: Action)

  datatype Plan = Plan(items: seq<Planned>, references: Index)

  datatype PlanError = NotABundle | NewerVersion | NotRecognised(kind: string, name: string)
      | NotInProject(kind: string, name: string)

  // ------------------------------------------------------- what the target has

  /** `existing[kind]`: by folded name, a later thing of the same name replacing an earlier one. */
  function ByName(text: Text, listing: seq<Named>): map<string, Id> {
    if listing == [] then map[]
    else
      var last := listing[|listing| - 1];
      ByName(text, listing[..|listing| - 1])[text.fold(last.name) := last.id]
  }

  function Existing(rq: Request, kind: string): map<string, Id> {
    if kind in KINDS then ByName(rq.text, rq.target.listing(kind)) else map[]
  }

  function FoldedNames(text: Text, listing: seq<Named>): set<string> {
    set n | n in listing :: text.fold(n.name)
  }

  function Taken(rq: Request, section: Section): set<string> {
    FoldedNames(rq.text, rq.target.listing(section.Kind()))
  }

  /** `str(item.get("name", ""))`, as `made_by_bundle` reads it: not stripped. */
  function SpelledName(text: Text, raw: seq<Member>): string {
    match Get(raw, "name")
    case None => ""
    case Some(v) => text.Of(v)
  }

  function MadeByBundle(rq: Request): set<Key> {
    set s, raw | MakesKind(s) && raw in rq.bundle.Of(s) :: rq.text.KeyOf(s.Kind(), SpelledName(rq.text, raw))
  }

  // ------------------------------------------------------------- references

  function ChosenFor(rq: Request, kind: string, name: string): Option<string> {
    var asked := kind + ":" + name;
    if asked in rq.mapping && rq.mapping[asked] != "" then Some(rq.mapping[asked]) else None
  }

  function Classify(rq: Request, kind: string, name: string): Result<Reference, PlanError> {
    var existing := Existing(rq, kind);
    var folded := rq.text.fold(name);
    match ChosenFor(rq, kind, name)
    case Some(chosen) =>
      (match rq.text.parse(Str(chosen))
       case None => Err(NotRecognised(kind, name))
       case Some(id) =>
         if id in existing.Values then Ok(Reference(kind, name, Chosen, Some(id)))
         else Err(NotInProject(kind, name)))
    case None =>
      if folded in existing then Ok(Reference(kind, name, Matched, Some(existing[folded])))
      else if (kind, folded) in MadeByBundle(rq) then Ok(Reference(kind, name, Made, None))
      else Ok(Reference(kind, name, Missing, None))
  }

  function AddRef(rq: Request, index: Index, p: (string, string)): Result<Index, PlanError> {
    var key := rq.text.KeyOf(p.0, p.1);
    if key in index then Ok(index)
    else
      var reference :- Classify(rq, p.0, p.1);
      Ok(index[key := reference])
  }

  function AddRefs(rq: Request, index: Index, ps: seq<(string, string)>): Result<Index, PlanError>
    decreases |ps|
  {
    if ps == [] then Ok(index)
    else
      var next :- AddRef(rq, index, ps[0]);
      AddRefs(rq, next, ps[1..])
  }

  // ---------------------------------------------------------------- columns

  function ItemsAt(members: seq<Member>, key: string): seq<Json> {
    match Get(members, key)
    case Some(Arr(items)) => items
    case _ => []
  }

  function MembersAt(members: seq<Member>, key: string): seq<Member> {
    match Get(members, key)
    case Some(Obj(inner)) => inner
    case _ => []
  }

  function TextAt(text: Text, members: seq<Member>, key: string): set<string> {
    match Get(members, key)
    case Some(v) => if Truthy(v) then {text.Of(v)} else {}
    case None => {}
  }

  function TextsOf(text: Text, items: seq<Json>): set<string> {
    set v | v in items :: text.Of(v)
  }

  function ColumnsOf(text: Text, items: seq<Json>): set<string> {
    set v, c | v in items && v.Obj? && c in TextAt(text, v.members, "column") :: c
  }

  function ColumnsUsed(text: Text, section: Section, raw: seq<Member>): set<string> {
    var used :=
      match section
      case Metrics =>
        TextAt(text, raw, "column") + TextsOf(text, ItemsAt(raw, "dimensions"))
            + ColumnsOf(text, ItemsAt(raw, "filters"))
      case Charts =>
        var query := MembersAt(raw, "query");
        TextsOf(text, ItemsAt(query, "dimensions")) + ColumnsOf(text, ItemsAt(query, "measures"))
        + ColumnsOf(text, ItemsAt(query, "filters"))
      case Checks =>
        var config := MembersAt(raw, "config");
        TextAt(text, config, "column") + TextsOf(text, ItemsAt(config, "columns"))
      case _ => {};
    used - {"", "*"}
  }

  /** The dataset whose columns an item is checked against, once its reference is known. */
  function CheckedDataset(rq: Request, index: Index, e: Entry): Option<Id> {
    if e.section !in {Metrics, Charts, Checks} then None
    else match Get(e.raw, "dataset")
      case Some(Obj(ms)) =>
        var key := rq.text.KeyOf("dataset", SpelledName(rq.text, ms));
        if key in index then index[key].id else None
      case _ => None
  }

  /** The columns an item reads that its dataset is known not to have. */
  function Lacking(rq: Request, index: Index, e: Entry): set<string> {
    match CheckedDataset(rq, index, e)
    case None => {}
    case Some(id) =>
      if id in rq.target.columns && rq.target.columns[id] != {}
      then ColumnsUsed(rq.text, e.section, e.raw) - rq.target.columns[id]
      else {}
  }

  // ------------------------------------------------------------------ items

  function EntryName(text: Text, e: Entry): string {
    text.strip(match Get(e.raw, "name") case None => "" case Some(v) => if Truthy(v) then text.Of(v) else "")
  }

  /** Items whose references are looked at: named, and not already in the project. */
  predicate Considered(rq: Request, e: Entry) {
    var name := EntryName(rq.text, e);
    name != "" && rq.text.fold(name) !in Taken(rq, e.section)
  }

  function EntryRefs(rq: Request, e: Entry): seq<(string, string)> {
    RefsIn(rq.text, Obj(e.raw))
  }

  ghost predicate Covers(rq: Request, index: Index, ps: seq<(string, string)>) {
    forall p :: p in ps ==> rq.text.KeyOf(p.0, p.1) in index
  }

  function FirstMissing(rq: Request, index: Index, ps: seq<(string, string)>): Option<Reference> {
    if ps == [] then None
    else
      var key := rq.text.KeyOf(ps[0].0, ps[0].1);
      if key in index && index[key].status == Missing then Some(index[key]) else FirstMissing(rq, index, ps[1..])
  }

  /** What becomes of one item, given the references known. */
  function Judge(rq: Request, index: Index, e: Entry): Planned {
    var name := EntryName(rq.text, e);
    if name == "" then Planned(e.section, "(no name)", Skip(NoName))
    else if rq.text.fold(name) in Taken(rq, e.section) then Planned(e.section, name, Skip(AlreadyThere))
    else
      var missing := FirstMissing(rq, index, EntryRefs(rq, e));
      if missing.Some? && e.section != Workflows then
        Planned(e.section, name, Skip(NeedsRef(missing.value.kind, missing.value.name)))
      else if Lacking(rq, index, e) != {} then
        Planned(e.section, name, Skip(LacksColumns(Lacking(rq, index, e))))
      else Planned(e.section, name, Create(e.raw))
  }

  /** One turn of the loop: classify what is new, then judge. */
  function PlanEntry(rq: Request, st: Plan, e: Entry): Result<Plan, PlanError> {
    if Considered(rq, e) then
      var index :- AddRefs(rq, st.references, EntryRefs(rq, e));
      Ok(Plan(st.items + [Judge(rq, index, e)], index))
    else
      Ok(Plan(st.items + [Judge(rq, st.references, e)], st.references))
  }

  function PlanEntries(rq: Request, st: Plan, entries: seq<Entry>): Result<Plan, PlanError>
    decreases |entries|
  {
    if entries == [] then Ok(st)
    else
      var next :- PlanEntry(rq, st, entries[0]);
      PlanEntries(rq, next, entries[1..])
  }

  predicate Creates(rq: Request, p: Planned, key: Key) {
    p.action.Create? && SectionOf(key.0) == Some(p.section) && rq.text.fold(p.name) == key.1
  }

  predicate Created(rq: Request, items: seq<Planned>, key: Key) {
    exists i :: 0 <= i < |items| && Creates(rq, items[i], key)
  }

  /** A reference to something the bundle makes but skipped is missing after all. */
  function Demote(rq: Request, plan: Plan): Plan {
    Plan(plan.items, map key | key in plan.references ::
      if plan.references[key].status == Made && !Created(rq, plan.items, key)
      then plan.references[key].(status := Missing) else plan.references[key])
  }

  function EntriesOf(section: Section, raws: seq<seq<Member>>): seq<Entry> {
    seq(|raws|, i requires 0 <= i < |raws| => Entry(section, raws[i]))
  }

  function EntriesFrom(bundle: Bundle, sections: seq<Section>): seq<Entry> {
    if sections == [] then []
    else EntriesFrom(bundle, sections[..|sections| - 1]) +
         EntriesOf(sections[|sections| - 1], bundle.Of(sections[|sections| - 1]))
  }

  function Entries(bundle: Bundle): seq<Entry> {
    EntriesFrom(bundle, SECTIONS)
  }

  function CheckBundle(bundle: Bundle): Option<PlanError> {
    if bundle.format != Str("pipewright.bundle") then Some(NotABundle)
    else if bundle.version.None? || bundle.version.value > 1 then Some(NewerVersion)
    else None
  }

  function PlanImport(rq: Request): Result<Plan, PlanError> {
    match CheckBundle(rq.bundle)
    case Some(error) => Err(error)
    case None =>
      var plan :- PlanEntries(rq, Plan([], map[]), Entries(rq.bundle));
      Ok(Demote(rq, plan))
  }

  // ----------------------------------------------------------- the two passes

  function AndThen(rq: Request, index: Result<Index, PlanError>, ps: seq<(string, string)>): Result<Index, PlanError> {
    if index.Ok? then AddRefs(rq, index.value, ps) else index
  }

  function AllRefs(rq: Request, entries: seq<Entry>): seq<(string, string)> {
    if entries == [] then []
    else (if Considered(rq, entries[0]) then EntryRefs(rq, entries[0]) else []) + AllRefs(rq, entries[1..])
  }

  function JudgeAll(rq: Request, index: Index, entries: seq<Entry>): seq<Planned> {
    seq(|entries|, i requires 0 <= i < |entries| => Judge(rq, index, entries[i]))
  }

  function PlanInTwoPasses(rq: Request, entries: seq<Entry>): Result<Plan, PlanError> {
    var index :- AddRefs(rq, map[], AllRefs(rq, entries));
    Ok(Plan(JudgeAll(rq, index, entries), index))
  }

  lemma {:induction false} AddRefsGrows(rq: Request, index: Index, ps: seq<(string, string)>)
    requires AddRefs(rq, index, ps).Ok?
    ensures var grown := AddRefs(rq, index, ps).value;
      index.Keys <= grown.Keys && (forall key :: key in index ==> grown[key] == index[key]) && Covers(rq, grown, ps)
    decreases |ps|
  {
    if ps != [] {
      AddRefsGrows(rq, AddRef(rq, index, ps[0]).value, ps[1..]);
    }
  }

  lemma {:induction false} AddRefsAppend(rq: Request, index: Index, ps: seq<(string, string)>,
        qs: seq<(string, string)>)
    ensures AddRefs(rq, index, ps + qs) == AndThen(rq, AddRefs(rq, index, ps), qs)
    decreases |ps|
  {
    if ps == [] {
      assert ps + qs == qs;
    } else {
      assert (ps + qs)[1..] == ps[1..] + qs;
      if AddRef(rq, index, ps[0]).Ok? {
        AddRefsAppend(rq, AddRef(rq, index, ps[0]).value, ps[1..], qs);
      }
    }
  }

  /** How a reference is spelled where it is first met. */
  function FirstOf(rq: Request, ps: seq<(string, string)>, key: Key): Option<(string, string)> {
    if ps == [] then None
    else if rq.text.KeyOf(ps[0].0, ps[0].1) == key then Some(ps[0])
    else FirstOf(rq, ps[1..], key)
  }

  lemma {:induction false} FirstOfIsMet(rq: Request, ps: seq<(string, string)>, key: Key)
    ensures match FirstOf(rq, ps, key)
      case None => forall p :: p in ps ==> rq.text.KeyOf(p.0, p.1) != key
      case Some(q) => q in ps && rq.text.KeyOf(q.0, q.1) == key
  {
    if ps != [] {
      FirstOfIsMet(rq, ps[1..], key);
    }
  }

  lemma {:induction false} FirstOfAppend(rq: Request, ps: seq<(string, string)>, qs: seq<(string, string)>, key: Key)
    ensures FirstOf(rq, ps + qs, key) == if FirstOf(rq, ps, key).Some? then FirstOf(rq, ps, key)
        else FirstOf(rq, qs, key)
  {
    if ps == [] {
      assert ps + qs == qs;
    } else {
      assert (ps + qs)[1..] == ps[1..] + qs;
      FirstOfAppend(rq, ps[1..], qs, key);
    }
  }

  /** The index holds exactly what was met, classified by its first spelling. */
  lemma {:induction false} IndexIsFirst(rq: Request, index: Index, ps: seq<(string, string)>, key: Key)
    requires AddRefs(rq, index, ps).Ok?
    ensures var grown := AddRefs(rq, index, ps).value;
      && (key in grown <==> key in index || FirstOf(rq, ps, key).Some?)
      && (key in index ==> grown[key] == index[key])
      && (key !in index && FirstOf(rq, ps, key).Some? ==>
            var q := FirstOf(rq, ps, key).value; Classify(rq, q.0, q.1) == Ok(grown[key]))
    decreases |ps|
  {
    if ps != [] {
      IndexIsFirst(rq, AddRef(rq, index, ps[0]).value, ps[1..], key);
    }
  }

  /** Classifying goes wrong exactly when some first spelling cannot be classified. */
  lemma {:induction false} IndexIsOk(rq: Request, index: Index, ps: seq<(string, string)>)
    ensures AddRefs(rq, index, ps).Ok? <==> forall key ::
      key !in index && FirstOf(rq, ps, key).Some? ==>
        Classify(rq, FirstOf(rq, ps, key).value.0, FirstOf(rq, ps, key).value.1).Ok?
    decreases |ps|
  {
    if ps != [] {
      var p, key := ps[0], rq.text.KeyOf(ps[0].0, ps[0].1);
      var next := AddRef(rq, index, p);
      assert FirstOf(rq, ps, key) == Some(p);
      if next.Ok? {
        IndexIsOk(rq, next.value, ps[1..]);
        forall other | other != key ensures FirstOf(rq, ps, other) == FirstOf(rq, ps[1..], other) {
        }
        assert forall other :: other in next.value <==> other in index || other == key;
      }
    }
  }

  lemma {:induction false} FirstMissingStable(rq: Request, small: Index, large: Index, ps: seq<(string, string)>)
    requires small.Keys <= large.Keys && forall key :: key in small ==> large[key] == small[key]
    requires Covers(rq, small, ps)
    ensures FirstMissing(rq, small, ps) == FirstMissing(rq, large, ps)
  {
    if ps != [] {
      assert rq.text.KeyOf(ps[0].0, ps[0].1) in small;
      FirstMissingStable(rq, small, large, ps[1..]);
    }
  }

  /** Judging looks only at the item's own references, and at what is known of its dataset: a
      larger index judges alike, unless only it knows the dataset, and that it lacks a column. */
  lemma JudgeStable(rq: Request, small: Index, large: Index, e: Entry)
    requires small.Keys <= large.Keys && forall key :: key in small ==> large[key] == small[key]
    requires Considered(rq, e) ==> Covers(rq, small, EntryRefs(rq, e))
    ensures Judge(rq, small, e) == Judge(rq, large, e)
       <==> !(Considered(rq, e) && FirstMissing(rq, large, EntryRefs(rq, e)).None?
              && Lacking(rq, small, e) == {} && Lacking(rq, large, e) != {})
  {
    if Considered(rq, e) {
      FirstMissingStable(rq, small, large, EntryRefs(rq, e));
      LackingGrows(rq, small, large, e);
    }
  }

  /** What a smaller index knows of the item's dataset, a larger one knows alike. */
  lemma LackingGrows(rq: Request, small: Index, large: Index, e: Entry)
    requires small.Keys <= large.Keys && forall key :: key in small ==> large[key] == small[key]
    ensures Lacking(rq, small, e) in {{}, Lacking(rq, large, e)}
    ensures e.section == Workflows ==> Lacking(rq, large, e) == {}
  {
  }

  /** The references known once the first `n` items have been looked at. */
  function IndexAt(rq: Request, entries: seq<Entry>, n: nat): Result<Index, PlanError>
    requires n <= |entries|
  {
    AddRefs(rq, map[], AllRefs(rq, entries[..n]))
  }

  lemma {:induction false} AllRefsAppend(rq: Request, entries: seq<Entry>, more: seq<Entry>)
    ensures AllRefs(rq, entries + more) == AllRefs(rq, entries) + AllRefs(rq, more)
  {
    if entries == [] {
      assert entries + more == more;
    } else {
      assert (entries + more)[1..] == entries[1..] + more;
      AllRefsAppend(rq, entries[1..], more);
    }
  }

  lemma IndexStep(rq: Request, entries: seq<Entry>, n: nat)
    requires n < |entries|
    ensures IndexAt(rq, entries, n + 1)
         == AndThen(rq, IndexAt(rq, entries, n), if Considered(rq, entries[n]) then EntryRefs(rq, entries[n]) else [])
  {
    var added := if Considered(rq, entries[n]) then EntryRefs(rq, entries[n]) else [];
    assert entries[..n + 1] == entries[..n] + [entries[n]];
    AllRefsAppend(rq, entries[..n], [entries[n]]);
    assert AllRefs(rq, [entries[n]]) == added + AllRefs(rq, [entries[n]][1..]);
    assert AllRefs(rq, [entries[n]]) == added;
    AddRefsAppend(rq, map[], AllRefs(rq, entries[..n]), added);
  }

  /** The loop's state after `n` items, said without the loop. */
  ghost predicate Reached(rq: Request, entries: seq<Entry>, n: nat, st: Plan) {
    && n <= |entries|
    && IndexAt(rq, entries, n) == Ok(st.references)
    && |st.items| == n
    && forall i :: 0 <= i < n ==>
         IndexAt(rq, entries, i + 1).Ok? && st.items[i] == Judge(rq, IndexAt(rq, entries, i + 1).value, entries[i])
  }

  lemma EntryStep(rq: Request, entries: seq<Entry>, n: nat, st: Plan)
    requires n < |entries| && IndexAt(rq, entries, n) == Ok(st.references)
    ensures var next, index := PlanEntry(rq, st, entries[n]), IndexAt(rq, entries, n + 1);
      if index.Err? then next == Err(index.error)
      else next == Ok(Plan(st.items + [Judge(rq, index.value, entries[n])], index.value))
  {
    IndexStep(rq, entries, n);
  }

  lemma ReachesNext(rq: Request, entries: seq<Entry>, n: nat, st: Plan, judged: Planned)
    requires n < |entries| && Reached(rq, entries, n, st)
    requires IndexAt(rq, entries, n + 1).Ok? && judged == Judge(rq, IndexAt(rq, entries, n + 1).value, entries[n])
    ensures Reached(rq, entries, n + 1, Plan(st.items + [judged], IndexAt(rq, entries, n + 1).value))
  {
    var items := st.items + [judged];
    forall i | 0 <= i < n + 1
      ensures IndexAt(rq, entries, i + 1).Ok? && items[i] == Judge(rq, IndexAt(rq, entries, i + 1).value, entries[i])
    {
      if i < n {
        assert items[i] == st.items[i];
      }
    }
  }

  lemma {:induction false} LoopReaches(rq: Request, entries: seq<Entry>, n: nat, st: Plan)
    requires Reached(rq, entries, n, st)
    ensures var all, end := IndexAt(rq, entries, |entries|), PlanEntries(rq, st, entries[n..]);
      if all.Err? then end == Err(all.error) else end.Ok? && Reached(rq, entries, |entries|, end.value)
    decreases |entries| - n
  {
    if n < |entries| {
      EntryStep(rq, entries, n, st);
      assert entries[n..][1..] == entries[n + 1..];
      var next := PlanEntry(rq, st, entries[n]);
      if next.Ok? {
        ReachesNext(rq, entries, n, st, Judge(rq, next.value.references, entries[n]));
        LoopReaches(rq, entries, n + 1, next.value);
      } else {
        IndexErrs(rq, entries, n + 1);
      }
    } else {
      assert entries[n..] == [];
    }
  }

  lemma {:induction false} IndexErrs(rq: Request, entries: seq<Entry>, n: nat)
    requires n <= |entries| && IndexAt(rq, entries, n).Err?
    ensures IndexAt(rq, entries, |entries|) == IndexAt(rq, entries, n)
    decreases |entries| - n
  {
    if n < |entries| {
      IndexStep(rq, entries, n);
      IndexErrs(rq, entries, n + 1);
    }
  }

  lemma {:induction false} IndexGrows(rq: Request, entries: seq<Entry>, n: nat, m: nat)
    requires n <= m <= |entries| && IndexAt(rq, entries, m).Ok?
    ensures IndexAt(rq, entries, n).Ok?
    ensures var small, large := IndexAt(rq, entries, n).value, IndexAt(rq, entries, m).value;
      small.Keys <= large.Keys && forall key :: key in small ==> large[key] == small[key]
    decreases m - n
  {
    if n < m {
      IndexGrows(rq, entries, n + 1, m);
      IndexStep(rq, entries, n);
      if Considered(rq, entries[n]) {
        AddRefsGrows(rq, IndexAt(rq, entries, n).value, EntryRefs(rq, entries[n]));
      }
    }
  }

  lemma IndexCovers(rq: Request, entries: seq<Entry>, i: nat)
    requires i < |entries| && Considered(rq, entries[i]) && IndexAt(rq, entries, i + 1).Ok?
    ensures Covers(rq, IndexAt(rq, entries, i + 1).value, EntryRefs(rq, entries[i]))
  {
    IndexStep(rq, entries, i);
    AddRefsGrows(rq, IndexAt(rq, entries, i).value, EntryRefs(rq, entries[i]));
  }
}
