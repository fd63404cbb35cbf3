/** What an import promises (bundles.py, `apply_import`): order, accounting, and doing it twice. */
module BundleImportTheory {
  import opened Common
  import opened BundleJson
  import opened BundleRefs
  import opened BundleRoundTrip
  import opened BundleRefsTheory
  import opened BundlePlan
  import opened BundlePlanTheory
  import opened BundleImport

  /** What the create function answered for item `i`, when the import came to it. */
  function Outcome(text: Text, plan: Plan, create: Creator, i: nat): Option<Id>
    requires i < |plan.items|
  {
    if plan.items[i].action.Create?
    then create(i, Payload(text, plan, ApplyUpTo(text, plan, create, i), i))
    else None
  }

  // ------------------------------------------------------------- accounting

  function MadeUpTo(text: Text, plan: Plan, create: Creator, n: nat): seq<MadeItem>
    requires n <= |plan.items|
  {
    if n == 0 then []
    else
      var outcome := Outcome(text, plan, create, n - 1);
      MadeUpTo(text, plan, create, n - 1) +
      (if outcome.None? then [] else [MadeItem(plan.items[n - 1].section, plan.items[n - 1].name, outcome.value)])
  }

  /** After `n` items: what was planned and refused is skipped, everything else stands,
      and what was made is listed in order. */
  lemma {:induction false} ApplyAccounts(text: Text, plan: Plan, create: Creator, n: nat)
    requires n <= |plan.items|
    ensures var after := ApplyUpTo(text, plan, create, n);
      && after.made == MadeUpTo(text, plan, create, n)
      && (forall i :: n <= i < |plan.items| ==> after.items[i] == plan.items[i])
      && (forall i :: 0 <= i < n ==>
            after.items[i] == if plan.items[i].action.Create? && Outcome(text, plan, create, i).None?
                              then plan.items[i].(action := Skip(NotMade)) else plan.items[i])
  {
    if n > 0 {
      ApplyAccounts(text, plan, create, n - 1);
    }
  }

  function CountCreates(items: seq<Planned>): nat {
    if items == [] then 0 else CountCreates(items[..|items| - 1]) + if items[|items| - 1].action.Create? then 1 else 0
  }

  function CountSkips(items: seq<Planned>): nat {
    if items == [] then 0 else CountSkips(items[..|items| - 1]) + if items[|items| - 1].action.Skip? then 1 else 0
  }

  lemma {:induction false} CountsPartition(items: seq<Planned>)
    ensures CountCreates(items) + CountSkips(items) == |items|
  {
    if items != [] {
      CountsPartition(items[..|items| - 1]);
    }
  }

  lemma {:induction false} MadeAreCounted(text: Text, plan: Plan, create: Creator, n: nat)
    requires n <= |plan.items|
    ensures |MadeUpTo(text, plan, create, n)| == CountCreates(ApplyImport(text, plan, create).items[..n])
  {
    if n > 0 {
      MadeAreCounted(text, plan, create, n - 1);
      ApplyAccounts(text, plan, create, |plan.items|);
      var items := ApplyImport(text, plan, create).items;
      assert items[..n][..n - 1] == items[..n - 1];
    }
  }

  /** The report of an import adds up: every bundle item is created or skipped, the
      created ones are exactly those made, and the preview is kept when nothing is refused. */
  lemma ReportAddsUp(rq: Request, create: Creator)
    requires PlanImport(rq).Ok?
    ensures var plan := PlanImport(rq).value;
      var after := ApplyImport(rq.text, plan, create);
      && CountCreates(plan.items) + CountSkips(plan.items) == |Entries(rq.bundle)|
      && CountCreates(after.items) + CountSkips(after.items) == |Entries(rq.bundle)|
      && |after.made| == CountCreates(after.items)
      && (AllMade(rq.text, plan, create) ==> after.items == plan.items)
  {
    var plan := PlanImport(rq).value;
    var after := ApplyImport(rq.text, plan, create);
    ItemsFollowBundle(rq);
    CountsPartition(plan.items);
    CountsPartition(after.items);
    ApplyAccounts(rq.text, plan, create, |plan.items|);
    MadeAreCounted(rq.text, plan, create, |plan.items|);
    assert after.items[..|plan.items|] == after.items;
    if AllMade(rq.text, plan, create) {
      forall i | 0 <= i < |plan.items| ensures after.items[i] == plan.items[i] {
      }
    }
  }

  ghost predicate AllMade(text: Text, plan: Plan, create: Creator) {
    forall i :: 0 <= i < |plan.items| && plan.items[i].action.Create? ==> Outcome(text, plan, create, i).Some?
  }

  // -------------------------------------------------------- dependency order

  /** Item `j` was made, and is what `key` names. */
  predicate Provides(text: Text, plan: Plan, create: Creator, j: nat, key: Key)
    requires j < |plan.items|
  {
    && MakesKind(plan.items[j].section)
    && text.KeyOf(plan.items[j].section.Kind(), plan.items[j].name) == key
    && Outcome(text, plan, create, j).Some?
  }

  /** One of the first `n` items was made, and is what `key` names. */
  ghost predicate SomeProvides(text: Text, plan: Plan, create: Creator, n: nat, key: Key)
    requires n <= |plan.items|
  {
    exists j :: 0 <= j < n && Provides(text, plan, create, j, key)
  }

  lemma {:induction false} MadeIdsAreProvided(text: Text, plan: Plan, create: Creator, n: nat, key: Key)
    requires n <= |plan.items|
    ensures key in ApplyUpTo(text, plan, create, n).madeIds <==> SomeProvides(text, plan, create, n, key)
  {
    if n > 0 {
      MadeIdsAreProvided(text, plan, create, n - 1, key);
      StepProvides(text, plan, create, n - 1, key);
      SomeoneProvides(text, plan, create, n - 1, key);
    }
  }

  lemma SomeoneProvides(text: Text, plan: Plan, create: Creator, i: nat, key: Key)
    requires i < |plan.items|
    ensures SomeProvides(text, plan, create, i + 1, key)
       <==> Provides(text, plan, create, i, key) || SomeProvides(text, plan, create, i, key)
  {
  }

  lemma StepProvides(text: Text, plan: Plan, create: Creator, i: nat, key: Key)
    requires i < |plan.items|
    ensures key in ApplyUpTo(text, plan, create, i + 1).madeIds
       <==> key in ApplyUpTo(text, plan, create, i).madeIds || Provides(text, plan, create, i, key)
  {
  }

  lemma MadeComesEarlier(rq: Request, i: nat, key: Key)
    requires PlanImport(rq).Ok? && i < |PlanImport(rq).value.items|
    requires Created(rq, PlanImport(rq).value.items, key)
    requires SectionOf(key.0).Some? ==> SectionOf(key.0).value.Rank() < PlanImport(rq).value.items[i].section.Rank()
    ensures exists j :: 0 <= j < i && Creates(rq, PlanImport(rq).value.items[j], key)
  {
    var items := PlanImport(rq).value.items;
    var j :| 0 <= j < |items| && Creates(rq, items[j], key);
    EarlierSectionComesEarlier(rq, j, i);
  }

  lemma EarlierSectionComesEarlier(rq: Request, j: nat, i: nat)
    requires PlanImport(rq).Ok? && i < |PlanImport(rq).value.items| && j < |PlanImport(rq).value.items|
    requires PlanImport(rq).value.items[j].section.Rank() < PlanImport(rq).value.items[i].section.Rank()
    ensures j < i
  {
    ItemsFollowBundle(rq);
  }

  /** When item `i` is made, a reference of it leads somewhere exactly when the target
      has its thing, or an item before `i` made it. */
  lemma LeadsSomewhere(rq: Request, create: Creator, i: nat, p: (string, string))
    requires PlanImport(rq).Ok? && i < |PlanImport(rq).value.items|
    requires PlanImport(rq).value.items[i].action.Create?
    requires p in RefsIn(rq.text, Obj(PlanImport(rq).value.items[i].action.raw))
    ensures var plan, key := PlanImport(rq).value, rq.text.KeyOf(p.0, p.1);
      && key in plan.references
      && (Find(plan.references, ApplyUpTo(rq.text, plan, create, i).madeIds)(key).Some?
          <==> plan.references[key].status in {Chosen, Matched}
               || exists j :: 0 <= j < i && Provides(rq.text, plan, create, j, key))
  {
    var plan, key := PlanImport(rq).value, rq.text.KeyOf(p.0, p.1);
    CreateIsKnown(rq, i);
    ReferencesAreTrue(rq, key);
    MadeIdsAreProvided(rq.text, plan, create, i, key);
  }

  /** The order of SECTIONS is sound: when nothing is refused, a reference not reported
      missing leads somewhere if what it names belongs to an earlier section or is the target's. */
  lemma EarlierSectionsResolve(rq: Request, create: Creator, i: nat, p: (string, string))
    requires PlanImport(rq).Ok? && i < |PlanImport(rq).value.items|
    requires PlanImport(rq).value.items[i].action.Create?
    requires p in RefsIn(rq.text, Obj(PlanImport(rq).value.items[i].action.raw))
    requires AllMade(rq.text, PlanImport(rq).value, create)
    requires SectionOf(p.0).Some? ==> SectionOf(p.0).value.Rank() < PlanImport(rq).value.items[i].section.Rank()
    ensures var plan, key := PlanImport(rq).value, rq.text.KeyOf(p.0, p.1);
      && key in plan.references
      && (plan.references[key].status != Missing ==>
            Find(plan.references, ApplyUpTo(rq.text, plan, create, i).madeIds)(key).Some?)
  {
    var plan, key := PlanImport(rq).value, rq.text.KeyOf(p.0, p.1);
    LeadsSomewhere(rq, create, i, p);
    ReferencesAreTrue(rq, key);
    if plan.references[key].status == Made {
      MadeComesEarlier(rq, i, key);
      var j :| 0 <= j < i && Creates(rq, plan.items[j], key);
      var s :| MakesKind(s) && s.Kind() == p.0;
      SectionsAndKinds(s, p.0);
      assert Provides(rq.text, plan, create, j, key);
    }
  }

  /** So what an exported item refers to outside its free trees, and all that a workflow or a schedule
      refers to, leads somewhere unless it is reported missing. */
  lemma ExportedReferenceResolves(rq: Request, create: Creator, i: nat, p: (string, string))
    requires PlanImport(rq).Ok? && i < |PlanImport(rq).value.items|
    requires PlanImport(rq).value.items[i].action.Create?
    requires p in RefsIn(rq.text, Obj(PlanImport(rq).value.items[i].action.raw))
    requires AllMade(rq.text, PlanImport(rq).value, create)
    requires var section := PlanImport(rq).value.items[i].section;
      p.0 in DirectKinds(section) || (section in {Workflows, Schedules} && p.0 in KINDS)
    ensures var plan, key := PlanImport(rq).value, rq.text.KeyOf(p.0, p.1);
      && key in plan.references
      && (plan.references[key].status != Missing ==>
            Find(plan.references, ApplyUpTo(rq.text, plan, create, i).madeIds)(key).Some?)
  {
    NeededComesEarlier(PlanImport(rq).value.items[i].section, p.0);
    EarlierSectionsResolve(rq, create, i, p);
  }

  /** An import never takes `resolve`'s branch for a reference its plan does not know:
      whatever that branch gave, every payload would be the same. */
  lemma NothingUnknownIsResolved(rq: Request, create: Creator, i: nat, elsewhere: Key -> Option<Id>)
    requires PlanImport(rq).Ok? && i < |PlanImport(rq).value.items|
    requires PlanImport(rq).value.items[i].action.Create?
    ensures var plan := PlanImport(rq).value;
      var find := Find(plan.references, ApplyUpTo(rq.text, plan, create, i).madeIds);
      Payload(rq.text, plan, ApplyUpTo(rq.text, plan, create, i), i)
      == Resolve(rq.text, key => if key in plan.references then find(key)
          else elsewhere(key), Obj(plan.items[i].action.raw))
  {
    var plan := PlanImport(rq).value;
    var find := Find(plan.references, ApplyUpTo(rq.text, plan, create, i).madeIds);
    CreateIsKnown(rq, i);
    ResolveLooksUpOnlyRefs(rq.text, find, key => if key in plan.references then find(key) else elsewhere(key),
                           Obj(plan.items[i].action.raw));
  }

  /** A part of an item that was exported from ids is given to its create function with
      the target's ids in their places, and otherwise as it was. */
  lemma ExportedPartMoves(text: Text, names: Names, plan: Plan, create: Creator, i: nat, m: nat, v: Json)
    requires text.PrintsIds() && NoLookalike(v)
    requires i < |plan.items| && plan.items[i].action.Create?
    requires var raw := plan.items[i].action.raw;
      !IsRef(raw) && m < |raw| && raw[m].key !in LIST_REF_KEYS && raw[m].value == ToRefs(text, names, v)
    ensures var before := ApplyUpTo(text, plan, create, i);
      var payload := Payload(text, plan, before, i);
      payload.Obj? && m < |payload.members| &&
      payload.members[m].value == Rewire(text, Swap(text, names, Find(plan.references, before.madeIds)), v)
  {
    RoundTrip(text, names, Find(plan.references, ApplyUpTo(text, plan, create, i).madeIds), v);
  }
}
