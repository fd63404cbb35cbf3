/** What a plan promises (bundles.py, `plan_import`). */
module BundlePlanTheory {
  import opened Common
  import opened BundleJson
  import opened BundlePlan

  /** The references as the loop left them, before the demotion. */
  function Loop(rq: Request): Result<Plan, PlanError> {
    PlanEntries(rq, Plan([], map[]), Entries(rq.bundle))
  }

  lemma LoopShape(rq: Request)
    requires PlanImport(rq).Ok?
    ensures Loop(rq).Ok? && PlanImport(rq).value == Demote(rq, Loop(rq).value)
    ensures Reached(rq, Entries(rq.bundle), |Entries(rq.bundle)|, Loop(rq).value)
  {
    var entries := Entries(rq.bundle);
    assert entries[..0] == [] && entries[0..] == entries;
    LoopReaches(rq, entries, 0, Plan([], map[]));
  }

  // ----------------------------------------------------------- references

  /** Every reference is what classifying some spelling of its name gives. */
  ghost predicate Classified(rq: Request, index: Index) {
    forall key :: key in index ==>
      && index[key].kind == key.0 && rq.text.fold(index[key].name) == key.1
      && Classify(rq, index[key].kind, index[key].name) == Ok(index[key])
  }

  lemma {:induction false} AddRefsClassifies(rq: Request, index: Index, ps: seq<(string, string)>)
    requires Classified(rq, index) && AddRefs(rq, index, ps).Ok?
    ensures Classified(rq, AddRefs(rq, index, ps).value)
    decreases |ps|
  {
    if ps != [] {
      AddRefsClassifies(rq, AddRef(rq, index, ps[0]).value, ps[1..]);
    }
  }

  /** A name is matched to a thing of the target that has it. */
  lemma {:induction false} ByNameIsListed(text: Text, listing: seq<Named>, folded: string)
    ensures folded in ByName(text, listing) <==> folded in FoldedNames(text, listing)
    ensures folded in ByName(text, listing) ==>
      exists n :: n in listing && n.id == ByName(text, listing)[folded] && text.fold(n.name) == folded
  {
    if listing != [] {
      var rest, last := listing[..|listing| - 1], listing[|listing| - 1];
      ByNameIsListed(text, rest, folded);
      assert listing == rest + [last];
      if text.fold(last.name) == folded {
        assert last in listing;
      } else if folded in ByName(text, rest) {
        var n :| n in rest && n.id == ByName(text, rest)[folded] && text.fold(n.name) == folded;
        assert n in listing;
      }
    }
  }

  /** What each status means, in terms of the target, the mapping and the bundle. */
  ghost predicate StatusIsTrue(rq: Request, r: Reference) {
    match r.status
    case Chosen =>
      && r.id.Some?
      && ChosenFor(rq, r.kind, r.name).Some?
      && rq.text.parse(Str(ChosenFor(rq, r.kind, r.name).value)) == r.id
      && exists n :: n in rq.target.listing(r.kind) && n.id == r.id.value
    case Matched =>
      && ChosenFor(rq, r.kind, r.name).None?
      && r.id.Some? && r.kind in KINDS
      && exists n ::
           n in rq.target.listing(r.kind) && n.id == r.id.value && rq.text.fold(n.name) == rq.text.fold(r.name)
    case Made =>
      && r.id.None?
      && ChosenFor(rq, r.kind, r.name).None? && !IsThere(rq, r.kind, r.name)
      && rq.text.KeyOf(r.kind, r.name) in MadeByBundle(rq)
    case Missing =>
      && r.id.None?
      && ChosenFor(rq, r.kind, r.name).None? && !IsThere(rq, r.kind, r.name)
  }

  /** The target has a thing of this kind and, but for case, of this name. */
  ghost predicate IsThere(rq: Request, kind: string, name: string) {
    kind in KINDS && exists n :: n in rq.target.listing(kind) && rq.text.fold(n.name) == rq.text.fold(name)
  }

  /** Something was chosen for the name, or is there, or the bundle has an item so called. */
  ghost predicate IsProvided(rq: Request, kind: string, name: string) {
    || ChosenFor(rq, kind, name).Some?
    || IsThere(rq, kind, name)
    || rq.text.KeyOf(kind, name) in MadeByBundle(rq)
  }

  lemma ClassifyIsTrue(rq: Request, kind: string, name: string)
    requires Classify(rq, kind, name).Ok?
    ensures var r := Classify(rq, kind, name).value;
      StatusIsTrue(rq, r) && (r.status == Missing <==> !IsProvided(rq, kind, name))
  {
    var r := Classify(rq, kind, name).value;
    if kind in KINDS {
      var listing := rq.target.listing(kind);
      ByNameIsListed(rq.text, listing, rq.text.fold(name));
      if r.status == Chosen {
        var folded :| folded in ByName(rq.text, listing) && ByName(rq.text, listing)[folded] == r.id.value;
        ByNameIsListed(rq.text, listing, folded);
      }
    }
  }

  /** Every reference a plan reports is what it says it is; one said to be made is planned to be made. */
  lemma ReferencesAreTrue(rq: Request, key: Key)
    requires PlanImport(rq).Ok? && key in PlanImport(rq).value.references
    ensures var plan := PlanImport(rq).value;
      var r := plan.references[key];
      && rq.text.KeyOf(r.kind, r.name) == key
      && StatusIsTrue(rq, r)
      && (r.status == Made ==> Created(rq, plan.items, key))
      && (r.status == Missing <==>
            && ChosenFor(rq, r.kind, r.name).None? && !IsThere(rq, r.kind, r.name)
            && !(key in MadeByBundle(rq) && Created(rq, plan.items, key)))
  {
    LoopShape(rq);
    var entries := Entries(rq.bundle);
    AddRefsClassifies(rq, map[], AllRefs(rq, entries[..|entries|]));
    var r := Loop(rq).value.references[key];
    ClassifyIsTrue(rq, r.kind, r.name);
  }

  // ---------------------------------------------------------------- items

  /** Item `i` of the plan is item `i` of the bundle, in SECTIONS order. */
  lemma ItemsFollowBundle(rq: Request)
    requires PlanImport(rq).Ok?
    ensures var items, entries := PlanImport(rq).value.items, Entries(rq.bundle);
      && |items| == |entries|
      && (forall i :: 0 <= i < |items| ==> items[i].section == entries[i].section)
      && (forall i, j :: 0 <= i < j < |items| ==> items[i].section.Rank() <= items[j].section.Rank())
  {
    ItemsAreEntries(rq);
    EntriesInOrder(rq.bundle, |SECTIONS|);
    assert SECTIONS[..|SECTIONS|] == SECTIONS;
    var items, entries := PlanImport(rq).value.items, Entries(rq.bundle);
    forall i, j | 0 <= i < j < |items| ensures items[i].section.Rank() <= items[j].section.Rank() {
      assert entries[i].section.Rank() <= entries[j].section.Rank();
    }
  }

  /** The items of one section, as the bundle lists them. */
  ghost predicate ListsSection(entries: seq<Entry>, section: Section, raws: seq<seq<Member>>) {
    && |entries| == |raws|
    && forall k :: 0 <= k < |raws| ==> entries[k].section == section && entries[k].raw == raws[k]
  }

  /** The bundle's items are those of its metrics, recipes, checks, contracts, charts, dashboards,
      workflows and schedules, in this order and each section's in its own. */
  lemma EntriesAre(bundle: Bundle)
    ensures exists m, r, k, o, c, d, w, s ::
      && Entries(bundle) == m + r + k + o + c + d + w + s
      && ListsSection(m, Metrics, bundle.Of(Metrics)) && ListsSection(r, Recipes, bundle.Of(Recipes))
      && ListsSection(k, Checks, bundle.Of(Checks)) && ListsSection(o, Contracts, bundle.Of(Contracts))
      && ListsSection(c, Charts, bundle.Of(Charts)) && ListsSection(d, Dashboards, bundle.Of(Dashboards))
      && ListsSection(w, Workflows, bundle.Of(Workflows)) && ListsSection(s, Schedules, bundle.Of(Schedules))
  {
    EntriesUpTo(bundle);
    forall section ensures ListsSection(ItemsOf(bundle, section), section, bundle.Of(section)) {
    }
  }

  lemma EntriesNext(bundle: Bundle, n: nat)
    requires n < |SECTIONS|
    ensures EntriesFrom(bundle, SECTIONS[..n + 1])
         == EntriesFrom(bundle, SECTIONS[..n]) + EntriesOf(SECTIONS[n], bundle.Of(SECTIONS[n]))
  {
    assert SECTIONS[..n + 1][..n] == SECTIONS[..n];
  }

  function ItemsOf(bundle: Bundle, section: Section): seq<Entry> {
    EntriesOf(section, bundle.Of(section))
  }

  /** Everything up to section `n`, one section after the other. */
  function Joined(bundle: Bundle, n: nat): seq<Entry>
    requires n <= |SECTIONS|
  {
    if n == 0 then [] else Joined(bundle, n - 1) + ItemsOf(bundle, SECTIONS[n - 1])
  }

  lemma {:induction false} EntriesAreJoined(bundle: Bundle, n: nat)
    requires n <= |SECTIONS|
    ensures EntriesFrom(bundle, SECTIONS[..n]) == Joined(bundle, n)
  {
    if n > 0 {
      EntriesAreJoined(bundle, n - 1);
      EntriesNext(bundle, n - 1);
    }
  }

  lemma JoinedToContracts(bundle: Bundle)
    ensures Joined(bundle, 4)
         == ItemsOf(bundle, Metrics) + ItemsOf(bundle, Recipes) + ItemsOf(bundle, Checks) + ItemsOf(bundle, Contracts)
  {
    var m, r, k := ItemsOf(bundle, Metrics), ItemsOf(bundle, Recipes), ItemsOf(bundle, Checks);
    assert Joined(bundle, 1) == Joined(bundle, 0) + m == m;
    assert Joined(bundle, 3) == Joined(bundle, 2) + k == m + r + k;
  }

  lemma JoinedToSchedules(bundle: Bundle)
    ensures Joined(bundle, 8) == Joined(bundle, 4)
      + ItemsOf(bundle, Charts) + ItemsOf(bundle, Dashboards) + ItemsOf(bundle, Workflows) + ItemsOf(bundle, Schedules)
  {
    assert Joined(bundle, 5) == Joined(bundle, 4) + ItemsOf(bundle, Charts);
    assert Joined(bundle, 7) == Joined(bundle, 6) + ItemsOf(bundle, Workflows);
  }

  lemma EntriesUpTo(bundle: Bundle)
    ensures Entries(bundle) == ItemsOf(bundle, Metrics) + ItemsOf(bundle, Recipes) + ItemsOf(bundle, Checks)
      + ItemsOf(bundle, Contracts) + ItemsOf(bundle, Charts) + ItemsOf(bundle, Dashboards)
      + ItemsOf(bundle, Workflows) + ItemsOf(bundle, Schedules)
  {
    EntriesAreJoined(bundle, |SECTIONS|);
    assert SECTIONS[..|SECTIONS|] == SECTIONS;
    JoinedToContracts(bundle);
    JoinedToSchedules(bundle);
  }

  lemma ItemsAreEntries(rq: Request)
    requires PlanImport(rq).Ok?
    ensures var items, entries := PlanImport(rq).value.items, Entries(rq.bundle);
      |items| == |entries| && forall i :: 0 <= i < |items| ==> items[i].section == entries[i].section
  {
    LoopShape(rq);
    var entries := Entries(rq.bundle);
    forall i | 0 <= i < |entries| ensures PlanImport(rq).value.items[i].section == entries[i].section {
      IndexGrows(rq, entries, i + 1, |entries|);
      JudgeKeepsSection(rq, IndexAt(rq, entries, i + 1).value, entries[i]);
    }
  }

  lemma JudgeKeepsSection(rq: Request, index: Index, e: Entry)
    ensures Judge(rq, index, e).section == e.section
  {
  }

  ghost predicate InSectionOrder(entries: seq<Entry>, n: nat) {
    && (forall i :: 0 <= i < |entries| ==> entries[i].section.Rank() < n)
    && (forall i, j :: 0 <= i < j < |entries| ==> entries[i].section.Rank() <= entries[j].section.Rank())
  }

  lemma OrderAppend(before: seq<Entry>, last: seq<Entry>, n: nat)
    requires InSectionOrder(before, n) && forall i :: 0 <= i < |last| ==> last[i].section.Rank() == n
    ensures InSectionOrder(before + last, n + 1)
  {
    var all := before + last;
    forall i | 0 <= i < |all| ensures if i < |before| then all[i].section.Rank() < n else all[i].section.Rank() == n {
      assert all[i] == if i < |before| then before[i] else last[i - |before|];
    }
  }

  lemma {:induction false} EntriesInOrder(bundle: Bundle, n: nat)
    requires n <= |SECTIONS|
    ensures InSectionOrder(EntriesFrom(bundle, SECTIONS[..n]), n)
  {
    if n > 0 {
      EntriesInOrder(bundle, n - 1);
      assert SECTIONS[..n][..n - 1] == SECTIONS[..n - 1];
      assert SECTIONS[n - 1].Rank() == n - 1;
      OrderAppend(EntriesFrom(bundle, SECTIONS[..n - 1]), EntriesOf(SECTIONS[n - 1], bundle.Of(SECTIONS[n - 1])),
          n - 1);
    }
  }

  /** A planned item is named and new, and all its references are known. */
  lemma CreateIsKnown(rq: Request, i: nat)
    requires PlanImport(rq).Ok? && i < |PlanImport(rq).value.items|
    requires PlanImport(rq).value.items[i].action.Create?
    ensures i < |Entries(rq.bundle)|
    ensures var plan, e := PlanImport(rq).value, Entries(rq.bundle)[i];
      && plan.items[i] == Planned(e.section, EntryName(rq.text, e), Create(e.raw))
      && Considered(rq, e)
      && Covers(rq, plan.references, EntryRefs(rq, e))
  {
    LoopShape(rq);
    var entries := Entries(rq.bundle);
    IndexGrows(rq, entries, i + 1, |entries|);
    IndexCovers(rq, entries, i);
  }

  lemma {:induction false} NoneMissing(rq: Request, index: Index, ps: seq<(string, string)>, p: (string, string))
    requires FirstMissing(rq, index, ps).None? && p in ps && rq.text.KeyOf(p.0, p.1) in index
    ensures index[rq.text.KeyOf(p.0, p.1)].status != Missing
  {
    if p != ps[0] {
      NoneMissing(rq, index, ps[1..], p);
    }
  }
}
