/**
 The import as the code runs it (bundles.py): `plan_import`'s loops over its
 `references` and `items`, and `apply_import`'s loop that makes what was planned.
 */
module BundleImport {
  import opened Common
  import opened BundleJson
  import opened BundleRefs
  import opened BundlePlan

  lemma {:induction false} PlanEntriesAppend(rq: Request, st: Plan, entries: seq<Entry>, more: seq<Entry>)
    ensures var begun := PlanEntries(rq, st, entries);
      PlanEntries(rq, st, entries + more) == if begun.Err? then begun else PlanEntries(rq, begun.value, more)
    decreases |entries|
  {
    if entries == [] {
      assert entries + more == more;
    } else {
      assert (entries + more)[1..] == entries[1..] + more;
      var next := PlanEntry(rq, st, entries[0]);
      if next.Ok? {
        PlanEntriesAppend(rq, next.value, entries[1..], more);
      }
    }
  }

  lemma PlanOneMore(rq: Request, entries: seq<Entry>, e: Entry, st: Plan)
    requires PlanEntries(rq, Plan([], map[]), entries) == Ok(st)
    ensures PlanEntries(rq, Plan([], map[]), entries + [e]) == PlanEntry(rq, st, e)
  {
    PlanEntriesAppend(rq, Plan([], map[]), entries, [e]);
    assert [e][1..] == [];
  }

  lemma {:induction false} EntriesFromPrefix(bundle: Bundle, n: nat)
    requires n <= |SECTIONS|
    ensures EntriesFrom(bundle, SECTIONS[..n]) <= Entries(bundle)
    decreases |SECTIONS| - n
  {
    if n < |SECTIONS| {
      EntriesFromPrefix(bundle, n + 1);
      assert SECTIONS[..n + 1][..n] == SECTIONS[..n];
    } else {
      assert SECTIONS[..n] == SECTIONS;
    }
  }

  lemma ErrorIsFinal(rq: Request, entries: seq<Entry>, all: seq<Entry>)
    requires entries <= all && PlanEntries(rq, Plan([], map[]), entries).Err?
    ensures PlanEntries(rq, Plan([], map[]), all) == PlanEntries(rq, Plan([], map[]), entries)
  {
    assert all == entries + all[|entries|..];
    PlanEntriesAppend(rq, Plan([], map[]), entries, all[|entries|..]);
  }

  /** One more item of a section: planned after those before it, or the end of it all. */
  lemma PlanNext(rq: Request, before: seq<Entry>, section: Section, raws: seq<seq<Member>>, i: nat, st: Plan,
        all: seq<Entry>)
    requires i < |raws| && before + EntriesOf(section, raws) <= all
    requires PlanEntries(rq, Plan([], map[]), before + EntriesOf(section, raws[..i])) == Ok(st)
    ensures var next := PlanEntry(rq, st, Entry(section, raws[i]));
      PlanEntries(rq, Plan([], map[]), if next.Ok? then before + EntriesOf(section, raws[..i + 1]) else all) == next
  {
    EntriesOfGrow(before, section, raws, i);
    PlanOrStop(rq, before + EntriesOf(section, raws[..i]), Entry(section, raws[i]), st, all);
  }

  lemma EntriesOfGrow(before: seq<Entry>, section: Section, raws: seq<seq<Member>>, i: nat)
    requires i < |raws|
    ensures var more := before + EntriesOf(section, raws[..i + 1]);
      && more == (before + EntriesOf(section, raws[..i])) + [Entry(section, raws[i])]
      && more <= before + EntriesOf(section, raws)
  {
  }

  lemma PlanOrStop(rq: Request, seen: seq<Entry>, e: Entry, st: Plan, all: seq<Entry>)
    requires PlanEntries(rq, Plan([], map[]), seen) == Ok(st) && seen + [e] <= all
    ensures PlanEntries(rq, Plan([], map[]), if PlanEntry(rq, st, e).Ok? then seen + [e] else all)
        == PlanEntry(rq, st, e)
  {
    PlanOneMore(rq, seen, e, st);
    if PlanEntry(rq, st, e).Err? {
      ErrorIsFinal(rq, seen + [e], all);
    }
  }

  class Planner {
    const rq: Request
    var references: Index
    var items: seq<Planned>

    constructor (rq: Request)
      ensures this.rq == rq && references == map[] && items == []
    {
      this.rq, references, items := rq, map[], [];
    }

    /** The `reference` closure: classify once, remember by kind and folded name. */
    method ReferenceTo(p: (string, string)) returns (r: Result<Reference, PlanError>)
      modifies this`references
      ensures r.Ok? ==> AddRef(rq, old(references), p) == Ok(references)
      ensures r.Ok? ==> rq.text.KeyOf(p.0, p.1) in references && references[rq.text.KeyOf(p.0, p.1)] == r.value
      ensures r.Err? ==> AddRef(rq, old(references), p) == Err(r.error) && references == old(references)
    {
      var key := rq.text.KeyOf(p.0, p.1);
      if key in references {
        return Ok(references[key]);
      }
      r := Classify(rq, p.0, p.1);
      if r.Ok? {
        references := references[key := r.value];
      }
    }

    method ReferencesTo(ps: seq<(string, string)>) returns (error: Option<PlanError>)
      modifies this`references
      ensures match error
        case None => AddRefs(rq, old(references), ps) == Ok(references)
        case Some(e) => AddRefs(rq, old(references), ps) == Err(e)
    {
      for i := 0 to |ps|
        invariant AddRefs(rq, old(references), ps[..i]) == Ok(references)
      {
        AddRefsAppend(rq, old(references), ps[..i], ps[i..]);
        assert ps[..i] + ps[i..] == ps;
        ghost var before := references;
        var r := ReferenceTo(ps[i]);
        if r.Err? {
          return Some(r.error);
        }
        AddRefsAppend(rq, old(references), ps[..i], [ps[i]]);
        assert ps[..i] + [ps[i]] == ps[..i + 1];
        assert AddRefs(rq, before, [ps[i]]) == AddRefs(rq, references, [ps[i]][1..]) == Ok(references);
      }
      assert ps[..|ps|] == ps;
      return None;
    }

    method PlanItem(e: Entry) returns (error: Option<PlanError>)
      modifies this`references, this`items
      ensures var next := PlanEntry(rq, Plan(old(items), old(references)), e);
        match error
        case None => next == Ok(Plan(items, references))
        case Some(problem) => next == Err(problem)
    {
      if Considered(rq, e) {
        error := ReferencesTo(EntryRefs(rq, e));
        if error.Some? {
          return;
        }
      }
      items := items + [Judge(rq, references, e)];
      error := None;
    }

    /** A "made" reference whose item was skipped becomes "missing", in place. */
    method DemoteSkipped()
      modifies this`references
      ensures Plan(items, references) == Demote(rq, Plan(items, old(references)))
    {
      var todo := references.Keys;
      ghost var demoted := Demote(rq, Plan(items, references)).references;
      while todo != {}
        invariant todo <= references.Keys == old(references).Keys == demoted.Keys
        invariant forall key :: key in todo ==> references[key] == old(references)[key]
        invariant forall key :: key in references && key !in todo ==> references[key] == demoted[key]
      {
        var key :| key in todo;
        if references[key].status == Made && !Created(rq, items, key) {
          references := references[key := references[key].(status := Missing)];
        }
        todo := todo - {key};
      }
      assert references == demoted;
    }

    /** Whether the planner's fields are what planning `entries` gives. */
    ghost predicate HasPlanned(entries: seq<Entry>)
      reads this
    {
      PlanEntries(rq, Plan([], map[]), entries) == Ok(Plan(items, references))
    }

    /** The items of one section, after whatever came before it. */
    method RunSection(section: Section, raws: seq<seq<Member>>, ghost before: seq<Entry>, ghost all: seq<Entry>)
      returns (error: Option<PlanError>)
      requires HasPlanned(before) && before + EntriesOf(section, raws) <= all
      modifies this`references, this`items
      ensures match error
        case None => HasPlanned(before + EntriesOf(section, raws))
        case Some(e) => PlanEntries(rq, Plan([], map[]), all) == Err(e)
    {
      assert before + EntriesOf(section, raws[..0]) == before;
      for i := 0 to |raws|
        invariant HasPlanned(before + EntriesOf(section, raws[..i]))
      {
        PlanNext(rq, before, section, raws, i, Plan(items, references), all);
        error := PlanItem(Entry(section, raws[i]));
        if error.Some? {
          return;
        }
      }
      assert raws[..|raws|] == raws;
      error := None;
    }

    method Run() returns (r: Result<Plan, PlanError>)
      requires references == map[] && items == []
      modifies this
      ensures r == PlanImport(rq)
    {
      var problem := CheckBundle(rq.bundle);
      if problem.Some? {
        return Err(problem.value);
      }
      for s := 0 to |SECTIONS|
        invariant HasPlanned(EntriesFrom(rq.bundle, SECTIONS[..s]))
      {
        EntriesFromPrefix(rq.bundle, s + 1);
        assert SECTIONS[..s + 1][..s] == SECTIONS[..s];
        problem := RunSection(SECTIONS[s], rq.bundle.Of(SECTIONS[s]), EntriesFrom(rq.bundle, SECTIONS[..s]),
            Entries(rq.bundle));
        if problem.Some? {
          return Err(problem.value);
        }
      }
      assert SECTIONS[..|SECTIONS|] == SECTIONS;
      DemoteSkipped();
      return Ok(Plan(items, references));
    }
  }

  // ------------------------------------------------------------------- apply

  datatype MadeItem = MadeItem(section: Section, name: string, id: Id)

  datatype Applied = Applied(items: seq<Planned>, madeIds: map<Key, Id>, made: seq<MadeItem>)

  /** What `resolve` looks a reference up in: the plan first, then what has been made so far. */
  function Find(references: Index, madeIds: map<Key, Id>): Key -> Option<Id> {
    key =>
      if key !in references then None
      else if references[key].id.Some? then references[key].id
      else if key in madeIds then Some(madeIds[key])
      else None
  }

  /** Each create function: for a position of the plan and what it is given, a new id, or a refusal. */
  type Creator = (nat, Json) -> Option<Id>

  function Payload(text: Text, plan: Plan, before: Applied, i: nat): Json
    requires i < |plan.items| && plan.items[i].action.Create?
  {
    Resolve(text, Find(plan.references, before.madeIds), Obj(plan.items[i].action.raw))
  }

  function ApplyStep(text: Text, plan: Plan, create: Creator, before: Applied, i: nat): Applied
    requires i < |plan.items| == |before.items|
  {
    var p := plan.items[i];
    if !p.action.Create? then before
    else match create(i, Payload(text, plan, before, i))
      case None => before.(items := before.items[i := p.(action := Skip(NotMade))])
      case Some(id) => Applied(
        before.items,
        if MakesKind(p.section) then before.madeIds[text.KeyOf(p.section.Kind(), p.name) := id] else before.madeIds,
        before.made + [MadeItem(p.section, p.name, id)])
  }

  /** The import after the first `n` items of the plan. */
  function ApplyUpTo(text: Text, plan: Plan, create: Creator, n: nat): (after: Applied)
    requires n <= |plan.items|
    ensures |after.items| == |plan.items|
  {
    if n == 0 then Applied(plan.items, map[], [])
    else ApplyStep(text, plan, create, ApplyUpTo(text, plan, create, n - 1), n - 1)
  }

  function ApplyImport(text: Text, plan: Plan, create: Creator): Applied {
    ApplyUpTo(text, plan, create, |plan.items|)
  }

  class Importer {
    const text: Text
    var plan: Plan
    var madeIds: map<Key, Id>
    var made: seq<MadeItem>

    constructor (text: Text, plan: Plan)
      ensures this.text == text && this.plan == plan && madeIds == map[] && made == []
    {
      this.text, this.plan, madeIds, made := text, plan, map[], [];
    }

    method Run(create: Creator)
      requires madeIds == map[] && made == []
      modifies this
      ensures Applied(plan.items, madeIds, made) == ApplyImport(text, old(plan), create)
      ensures plan.references == old(plan).references
    {
      for i := 0 to |plan.items|
        invariant |plan.items| == |old(plan).items| && plan.references == old(plan).references
        invariant Applied(plan.items, madeIds, made) == ApplyUpTo(text, old(plan), create, i)
        invariant forall j :: i <= j < |plan.items| ==> plan.items[j] == old(plan).items[j]
      {
        var planned := plan.items[i];
        if planned.action.Create? {
          var payload := Resolve(text, Find(plan.references, madeIds), Obj(planned.action.raw));
          var outcome := create(i, payload);
          match outcome {
            case None =>
              plan := plan.(items := plan.items[i := planned.(action := Skip(NotMade))]);
            case Some(newId) =>
              if MakesKind(planned.section) {
                madeIds := madeIds[text.KeyOf(planned.section.Kind(), planned.name) := newId];
              }
              made := made + [MadeItem(planned.section, planned.name, newId)];
          }
        }
      }
    }
  }
}
