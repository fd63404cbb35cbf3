/** Small bundles on which planning does less than its words (bundles.py, `plan_import`). */
module BundleWitnesses {
  import opened Common
  import opened BundleJson
  import opened BundleRefs
  import opened BundleRefsTheory
  import opened BundlePlan
  import opened BundlePlanTheory
  import opened BundlePlanExact
  import opened BundleItems
  import opened BundleImport
  import opened BundleImportTheory
  import opened BundleTwice

  /** Text taken as it is; the only id there is is seven. */
  const PLAIN: Text := Text(
    (s: string) => s,
    (s: string) => s,
    (v: Json) => if v == Str("7") then Some(7) else None,
    (id: Id) => "7",
    (v: Json) => "")

  function Bundled(sections: map<Section, seq<seq<Member>>>): Bundle {
    Bundle(Str("pipewright.bundle"), Some(1), sections)
  }

  /** Every create function makes what it is asked for. */
  const MAKES: Creator := (i, payload) => Some(i + 100)

  // ------------------------------------------------------------------ entries

  /** What one section has put among the entries once the first `n` sections are in. */
  function PartOf(bundle: Bundle, s: Section, n: nat): seq<Entry> {
    if s.Rank() < n then EntriesOf(s, bundle.Of(s)) else []
  }

  lemma PartNext(bundle: Bundle, s: Section, n: nat)
    requires n < |SECTIONS|
    ensures s == SECTIONS[n] ==> PartOf(bundle, s, n) == [] && PartOf(bundle, s, n + 1) == EntriesOf(s, bundle.Of(s))
    ensures s != SECTIONS[n] ==> PartOf(bundle, s, n + 1) == PartOf(bundle, s, n)
  {
    RankIsPlace(s, n);
  }

  lemma SecondComesAfter(bundle: Bundle, s: Section, t: Section, n: nat)
    requires n < |SECTIONS| && s.Rank() < t.Rank() && s == SECTIONS[n]
    ensures PartOf(bundle, t, n) == [] == PartOf(bundle, t, n + 1)
  {
    RankIsPlace(s, n);
  }

  lemma {:induction false} EntriesOfTwo(bundle: Bundle, s: Section, t: Section, n: nat)
    requires n <= |SECTIONS| && s.Rank() < t.Rank() && forall u :: u != s && u != t ==> bundle.Of(u) == []
    ensures EntriesFrom(bundle, SECTIONS[..n]) == PartOf(bundle, s, n) + PartOf(bundle, t, n)
  {
    if n > 0 {
      EntriesOfTwo(bundle, s, t, n - 1);
      OneMoreOfTwo(bundle, s, t, n - 1);
    }
  }

  lemma OneMoreOfTwo(bundle: Bundle, s: Section, t: Section, m: nat)
    requires m < |SECTIONS| && s.Rank() < t.Rank() && forall u :: u != s && u != t ==> bundle.Of(u) == []
    requires EntriesFrom(bundle, SECTIONS[..m]) == PartOf(bundle, s, m) + PartOf(bundle, t, m)
    ensures EntriesFrom(bundle, SECTIONS[..m + 1]) == PartOf(bundle, s, m + 1) + PartOf(bundle, t, m + 1)
  {
    EntriesNext(bundle, m);
    PartNext(bundle, s, m);
    PartNext(bundle, t, m);
    if SECTIONS[m] == s {
      SecondComesAfter(bundle, s, t, m);
    }
    PartsJoin(PartOf(bundle, s, m), PartOf(bundle, t, m), EntriesOf(SECTIONS[m], bundle.Of(SECTIONS[m])),
              PartOf(bundle, s, m + 1), PartOf(bundle, t, m + 1));
  }

  lemma PartsJoin(p: seq<Entry>, q: seq<Entry>, more: seq<Entry>, p': seq<Entry>, q': seq<Entry>)
    requires (p == q == q' == [] && p' == more) || (q == [] && q' == more && p' == p)
        || (more == [] && p' == p && q' == q)
    ensures (p + q) + more == p' + q'
  {
  }

  lemma RankIsPlace(s: Section, n: nat)
    requires n < |SECTIONS|
    ensures s == SECTIONS[n] <==> s.Rank() == n
  {
    assert SECTIONS[n].Rank() == n;
    SectionsAndKinds(s, s.Kind());
  }

  /** A bundle with items in at most two sections. */
  lemma TwoSections(bundle: Bundle, s: Section, t: Section)
    requires s.Rank() < t.Rank() && forall u :: u != s && u != t ==> bundle.Of(u) == []
    ensures Entries(bundle) == EntriesOf(s, bundle.Of(s)) + EntriesOf(t, bundle.Of(t))
  {
    EntriesOfTwo(bundle, s, t, |SECTIONS|);
    assert SECTIONS[..|SECTIONS|] == SECTIONS;
    RanksAreLow(s);
    RanksAreLow(t);
  }

  lemma RanksAreLow(s: Section)
    ensures s.Rank() < |SECTIONS|
  {
  }

  /** An item that begins with its name refers to what its other members refer to. */
  lemma RefsOfNamed(text: Text, name: string, rest: seq<Member>)
    requires Get(rest, "$ref").None?
    ensures var raw := [Member("name", Str(name))] + rest;
      && RefsIn(text, Obj(raw)) == RefsInMembers(text, rest)
      && Get(raw, "name") == Some(Str(name)) && !IsRef(raw)
      && forall key :: key != "name" ==> Get(raw, key) == Get(rest, key)
  {
    var raw := [Member("name", Str(name))] + rest;
    assert raw[1..] == rest && raw[0] == Member("name", Str(name));
    assert Get(raw, "$ref") == Get(raw[1..], "$ref");
    assert RefsInMembers(text, raw) == RefsIn(text, Str(name)) + RefsInMembers(text, raw[1..]);
  }

  lemma RefsOfOne(text: Text, m: Member)
    ensures RefsInMembers(text, [m]) == RefsIn(text, m.value)
    ensures forall key :: Get([m], key) == if m.key == key then Some(m.value) else None
  {
    assert [m][1..] == [] && [m][0] == m;
    assert RefsInMembers(text, [m]) == RefsIn(text, m.value) + RefsInMembers(text, [m][1..]);
    forall key ensures Get([m], key) == if m.key == key then Some(m.value) else None {
      assert Get([m], key) == if m.key == key then Some(m.value) else Get([m][1..], key);
    }
  }

  /** Nothing chosen: planning cannot go wrong. */
  lemma PlanOfUnmapped(rq: Request)
    requires IsReadable(rq.bundle) && rq.mapping == map[]
    ensures PlanImport(rq).Ok?
  {
    PlanIsOk(rq);
  }

  // ------------------------------------------------------ two items of one name

  const SUM_ONCE: seq<Member> := [Member("name", Str("Sum"))] + []
  const SUM_TWICE: seq<Member> := [Member("name", Str("Sum"))] + [Member("unit", Str("euro"))]

  const TWINS: Request := Request(
    PLAIN, Target((kind: string) => [], map[]), Bundled(map[Metrics := [SUM_ONCE, SUM_TWICE]]), map[])

  /** Two metrics of one name are both planned, different as they are. */
  lemma TwinsArePlanned()
    ensures PlanImport(TWINS).Ok?
    ensures var items := PlanImport(TWINS).value.items;
      && |items| == 2
      && items[0] == Planned(Metrics, "Sum", Create(SUM_ONCE)) && items[1] == Planned(Metrics, "Sum", Create(SUM_TWICE))
  {
    PlanOfUnmapped(TWINS);
    TwinEntries();
    ItemsAreEntries(TWINS);
    TwinCanBeMade(0);
    TwinCanBeMade(1);
    CreateIsExact(TWINS, 0);
    CreateIsExact(TWINS, 1);
    CreateIsKnown(TWINS, 0);
    CreateIsKnown(TWINS, 1);
  }

  lemma TwinEntries()
    ensures Entries(TWINS.bundle) == [Entry(Metrics, SUM_ONCE), Entry(Metrics, SUM_TWICE)]
    ensures forall raw :: raw in [SUM_ONCE, SUM_TWICE] ==>
      RefsIn(PLAIN, Obj(raw)) == [] && Get(raw, "name") == Some(Str("Sum")) && Get(raw, "dataset") == None
  {
    TwoSections(TWINS.bundle, Metrics, Recipes);
    assert EntriesOf(Metrics, [SUM_ONCE, SUM_TWICE]) == [Entry(Metrics, SUM_ONCE), Entry(Metrics, SUM_TWICE)];
    RefsOfNamed(PLAIN, "Sum", []);
    RefsOfOne(PLAIN, Member("unit", Str("euro")));
    RefsOfNamed(PLAIN, "Sum", [Member("unit", Str("euro"))]);
  }

  lemma TwinCanBeMade(i: nat)
    requires i < 2
    ensures |Entries(TWINS.bundle)| == 2 && CanBeMade(TWINS, i)
  {
    TwinEntries();
    assert FoldedNames(PLAIN, []) == {};
  }

  // ---------------------------------------------------- planned, though missing

  const SUM_OF_ORDERS: seq<Member> := [Member("name", Str("Sum"))] + [Member("dataset", RefDict("dataset", "Orders"))]
  const SALES_BOARD: seq<Member> := [Member("name", Str("Sales"))] + [Member("tile", RefDict("metric", "Sum"))]
  const ORDERS: (string, string) := ("dataset", "Orders")
  const SUM: (string, string) := ("metric", "Sum")

  /** A bundle whose dashboard shows a metric, for a project that lacks the metric's dataset. */
  const UNMET: Request := Request(
    PLAIN, Target((kind: string) => [], map[]),
    Bundled(map[Metrics := [SUM_OF_ORDERS], Dashboards := [SALES_BOARD]]), map[])

  const SKIPPED: Planned := Planned(Metrics, "Sum", Skip(NeedsRef("dataset", "Orders")))
  const PLANNED: Planned := Planned(Dashboards, "Sales", Create(SALES_BOARD))

  lemma RefsOfRef(name: string, key: string, kind: string, to: string)
    requires key != "$ref" && key != "name"
    ensures var raw := [Member("name", Str(name))] + [Member(key, RefDict(kind, to))];
      && RefsIn(PLAIN, Obj(raw)) == [(kind, to)] && Get(raw, "name") == Some(Str(name)) && !IsRef(raw)
      && forall other :: other != "name" ==> Get(raw, other) == if other == key then Some(RefDict(kind, to)) else None
  {
    RefsInRefDict(PLAIN, kind, to);
    RefsOfOne(PLAIN, Member(key, RefDict(kind, to)));
    RefsOfNamed(PLAIN, name, [Member(key, RefDict(kind, to))]);
  }

  lemma UnmetEntries()
    ensures Entries(UNMET.bundle) == [Entry(Metrics, SUM_OF_ORDERS), Entry(Dashboards, SALES_BOARD)]
    ensures Met(UNMET) == [ORDERS, SUM]
    ensures Considered(UNMET, Entry(Metrics, SUM_OF_ORDERS)) && Considered(UNMET, Entry(Dashboards, SALES_BOARD))
  {
    TwoSections(UNMET.bundle, Metrics, Dashboards);
    var e1, e2 := Entry(Metrics, SUM_OF_ORDERS), Entry(Dashboards, SALES_BOARD);
    assert EntriesOf(Metrics, [SUM_OF_ORDERS]) == [e1] && EntriesOf(Dashboards, [SALES_BOARD]) == [e2];
    UnmetConsidered();
    AllRefsOfTwo(UNMET, e1, e2);
  }

  lemma UnmetConsidered()
    ensures Considered(UNMET, Entry(Metrics, SUM_OF_ORDERS)) && Considered(UNMET, Entry(Dashboards, SALES_BOARD))
    ensures RefsIn(PLAIN, Obj(SUM_OF_ORDERS)) == [ORDERS] && RefsIn(PLAIN, Obj(SALES_BOARD)) == [SUM]
  {
    RefsOfRef("Sum", "dataset", "dataset", "Orders");
    RefsOfRef("Sales", "tile", "metric", "Sum");
    assert FoldedNames(PLAIN, []) == {};
  }

  lemma AllRefsOfOne(rq: Request, e: Entry)
    ensures AllRefs(rq, [e]) == if Considered(rq, e) then EntryRefs(rq, e) else []
  {
    assert [e][1..] == [];
    assert AllRefs(rq, [e]) == (if Considered(rq, e) then EntryRefs(rq, e) else []) + AllRefs(rq, [e][1..]);
  }

  lemma AllRefsOfTwo(rq: Request, e1: Entry, e2: Entry)
    ensures AllRefs(rq, [e1, e2]) ==
      (if Considered(rq, e1) then EntryRefs(rq, e1) else []) + (if Considered(rq, e2) then EntryRefs(rq, e2) else [])
  {
    AllRefsOfOne(rq, e1);
    AllRefsOfOne(rq, e2);
    AllRefsAppend(rq, [e1], [e2]);
    assert [e1] + [e2] == [e1, e2];
  }

  lemma SumIsNamed()
    ensures SUM in MadeByBundle(UNMET) && ORDERS !in MadeByBundle(UNMET)
  {
    RefsOfRef("Sum", "dataset", "dataset", "Orders");
    assert SUM_OF_ORDERS in UNMET.bundle.Of(Metrics) && MakesKind(Metrics);
    assert PLAIN.KeyOf(Metrics.Kind(), SpelledName(PLAIN, SUM_OF_ORDERS)) == SUM;
  }

  lemma SumIsMet()
    ensures FirstOf(UNMET, [ORDERS, SUM], SUM) == Some(SUM) && FirstOf(UNMET, [ORDERS, SUM], ORDERS) == Some(ORDERS)
  {
    assert SUM.0 != ORDERS.0;
    assert FirstOf(UNMET, [ORDERS, SUM], SUM) == FirstOf(UNMET, [ORDERS, SUM][1..], SUM);
  }

  lemma MetricCannotBeMade()
    ensures |Entries(UNMET.bundle)| == 2 && !CanBeMade(UNMET, 0)
  {
    UnmetEntries();
    SumIsNamed();
    SumIsMet();
    RefsOfRef("Sum", "dataset", "dataset", "Orders");
    assert ORDERS in EntryRefs(UNMET, Entry(Metrics, SUM_OF_ORDERS));
    assert !RefIsProvided(UNMET, Met(UNMET), ORDERS);
  }

  lemma DashboardCanBeMade()
    ensures |Entries(UNMET.bundle)| == 2 && CanBeMade(UNMET, 1)
  {
    UnmetEntries();
    SumIsNamed();
    SumIsMet();
    RefsOfRef("Sales", "tile", "metric", "Sum");
  }

  lemma UnmetItems()
    ensures PlanImport(UNMET).Ok? && |Entries(UNMET.bundle)| == 2
    ensures !CanBeMade(UNMET, 0) && CanBeMade(UNMET, 1) && !WillBeMade(UNMET, SUM)
  {
    PlanOfUnmapped(UNMET);
    MetricCannotBeMade();
    DashboardCanBeMade();
    UnmetEntries();
  }

  /** The demotion is one pass over the references and judges no item again: an item may
      be planned although a reference it needs ends up missing. */
  lemma CreatedThoughMissing()
    ensures PlanImport(UNMET).Ok?
    ensures var plan := PlanImport(UNMET).value;
      && plan.items == [SKIPPED, PLANNED] && PLANNED.action == Create(SALES_BOARD)
      && SUM in RefsIn(PLAIN, Obj(SALES_BOARD))
      && SUM in plan.references && plan.references[SUM].status == Missing
  {
    UnmetItems();
    UnmetEntries();
    RefsOfRef("Sales", "tile", "metric", "Sum");
    CreateIsExact(UNMET, 1);
    CreateIsKnown(UNMET, 1);
    StatusIsExact(UNMET, SUM);
    SumIsMet();
    UnmetMetric();
    ItemsAreEntries(UNMET);
  }

  lemma UnmetMetric()
    ensures PlanImport(UNMET).Ok? && |PlanImport(UNMET).value.items| == 2 && PlanImport(UNMET).value.items[0] == SKIPPED
  {
    UnmetItems();
    UnmetEntries();
    SumIsNamed();
    LoopShape(UNMET);
    var entries := Entries(UNMET.bundle);
    IndexGrows(UNMET, entries, 1, 2);
    RefsOfRef("Sum", "dataset", "dataset", "Orders");
    assert entries[..1] == [entries[0]];
    AllRefsOfOne(UNMET, entries[0]);
    KnownAt(UNMET, entries, 1, ORDERS);
    assert FirstMissing(UNMET, IndexAt(UNMET, entries, 1).value, [ORDERS])
        == Some(Reference("dataset", "Orders", Missing, None));
  }

  // ------------------------------------------------------ offered, yet refused

  /** Two datasets of one name, as older projects have them, and the first of them chosen. */
  const TWO_ORDERS: Request := Request(
    PLAIN,
    Target((kind: string) => if kind == "dataset" then [Named(7, "Orders"), Named(8, "Orders")] else [], map[]),
    Bundled(map[Metrics := [SUM_OF_ORDERS]]),
    map["dataset:Orders" := "7"])

  /** Dataset 7 is in the project, and choosing it ends the planning as if it were not. */
  lemma OfferedYetRefused()
    ensures Named(7, "Orders") in TWO_ORDERS.target.listing("dataset")
    ensures ChosenFor(TWO_ORDERS, "dataset", "Orders") == Some("7") && PLAIN.parse(Str("7")) == Some(7)
    ensures PlanImport(TWO_ORDERS) == Err(NotInProject("dataset", "Orders"))
  {
    var e := Entry(Metrics, SUM_OF_ORDERS);
    TwoSections(TWO_ORDERS.bundle, Metrics, Recipes);
    assert EntriesOf(Metrics, [SUM_OF_ORDERS]) == [e];
    RefsOfRef("Sum", "dataset", "dataset", "Orders");
    assert FoldedNames(PLAIN, []) == {} && Considered(TWO_ORDERS, e);
    OnlyTheLast();
    assert AddRef(TWO_ORDERS, map[], ORDERS) == Err(NotInProject("dataset", "Orders"));
    assert PlanEntry(TWO_ORDERS, Plan([], map[]), e) == Err(NotInProject("dataset", "Orders"));
  }

  lemma OnlyTheLast()
    ensures Classify(TWO_ORDERS, "dataset", "Orders") == Err(NotInProject("dataset", "Orders"))
  {
    var listing := [Named(7, "Orders"), Named(8, "Orders")];
    assert TWO_ORDERS.target.listing("dataset") == listing && "dataset" + ":" + "Orders" == "dataset:Orders";
    KnownIds(PLAIN, listing, 7);
    assert PLAIN.fold(listing[1].name) == PLAIN.fold(listing[0].name);
    assert !IsLastOfName(PLAIN, listing, 0);
  }

  // ------------------------------------------------ checked before it is known

  const BY_NAME: Json := Obj([Member("name", Str("Orders"))])
  const LOOSE: seq<Member> := [Member("name", Str("A"))] + ([Member("dataset", BY_NAME)] + [Member("column", Str("x"))])
  const STRICT: seq<Member> := [Member("name", Str("B"))] + [Member("dataset", RefDict("dataset", "Orders"))]

  function WithOrders(raws: seq<seq<Member>>): Request {
    Request(
      PLAIN,
      Target((kind: string) => if kind == "dataset" then [Named(1, "Orders")] else [], map[1 := {"y"}]),
      Bundled(map[Metrics := raws]), map[])
  }

  lemma LooseRefs()
    ensures RefsIn(PLAIN, Obj(LOOSE)) == []
    ensures forall key ::
      Get(LOOSE, key) ==
        if key == "name" then Some(Str("A"))
        else if key == "dataset" then Some(BY_NAME)
        else if key == "column" then Some(Str("x"))
        else None
  {
    var d, c := Member("dataset", BY_NAME), Member("column", Str("x"));
    RefsOfOne(PLAIN, c);
    GetsOfPair(d, c);
    RefsOfNamed(PLAIN, "A", [d] + [c]);
    RefsOfOne(PLAIN, Member("name", Str("Orders")));
    assert RefsIn(PLAIN, BY_NAME) == [];
  }

  lemma GetsOfPair(a: Member, b: Member)
    ensures RefsInMembers(PLAIN, [a] + [b]) == RefsIn(PLAIN, a.value) + RefsIn(PLAIN, b.value)
    ensures forall key ::
      Get([a] + [b], key) == if a.key == key then Some(a.value) else if b.key == key then Some(b.value) else None
  {
    var both := [a] + [b];
    assert both[1..] == [b] && both[0] == a;
    RefsOfOne(PLAIN, b);
    assert RefsInMembers(PLAIN, both) == RefsIn(PLAIN, a.value) + RefsInMembers(PLAIN, both[1..]);
    forall key ensures Get(both, key) == if a.key == key then Some(a.value) else if b.key == key then Some(b.value)
        else None {
      assert Get(both, key) == if a.key == key then Some(a.value) else Get(both[1..], key);
    }
  }

  lemma LooseReads()
    ensures DatasetKey(PLAIN, Entry(Metrics, LOOSE)) == Some(ORDERS)
    ensures ColumnsUsed(PLAIN, Metrics, LOOSE) == {"x"}
  {
    LooseRefs();
    RefsOfOne(PLAIN, Member("name", Str("Orders")));
    assert TextAt(PLAIN, LOOSE, "column") == {"x"};
    assert ItemsAt(LOOSE, "dimensions") == [] && ItemsAt(LOOSE, "filters") == [];
    assert TextsOf(PLAIN, []) == {} && ColumnsOf(PLAIN, []) == {};
  }

  lemma OrdersLacksX(raws: seq<seq<Member>>)
    ensures IdHere(WithOrders(raws), ORDERS) == Some(1) && !HasColumns(WithOrders(raws), Entry(Metrics, LOOSE), ORDERS)
  {
    var listing := [Named(1, "Orders")];
    assert ByName(PLAIN, listing) == ByName(PLAIN, listing[..0])["Orders" := 1];
    LooseReads();
    ColumnsAreRead(PLAIN, Entry(Metrics, LOOSE), "x");
    assert "x" in {"x"} && "x" !in {"y"};
  }

  /** An item `a` that does not refer itself to the dataset it is checked against, and lacks a
      column of it; and an item `b` that refers to the dataset, as `p`. */
  ghost predicate LooseAndStrict(rq: Request, a: Entry, b: Entry, p: (string, string)) {
    && PlanImport(rq).Ok? && Considered(rq, a) && Considered(rq, b)
    && EntryRefs(rq, a) == [] && EntryRefs(rq, b) == [p] && IsProvided(rq, p.0, p.1)
    && DatasetKey(rq.text, a) == Some(rq.text.KeyOf(p.0, p.1)) && !HasColumns(rq, a, p)
  }

  lemma LooseFirst(rq: Request, a: Entry, b: Entry, p: (string, string))
    requires LooseAndStrict(rq, a, b, p) && Entries(rq.bundle) == [a, b]
    ensures MetTooLate(rq, [a, b], 0)
    ensures |PlanImport(rq).value.items| == 2 && PlanImport(rq).value.items[0].action == Create(a.raw)
  {
    assert [a, b][..1] == [a];
    AllRefsOfOne(rq, a);
    AllRefsOfTwo(rq, a, b);
    ItemsAreEntries(rq);
    CreateIsExact(rq, 0);
    CreateIsKnown(rq, 0);
  }

  lemma LooseSecond(rq: Request, a: Entry, b: Entry, p: (string, string))
    requires LooseAndStrict(rq, a, b, p) && Entries(rq.bundle) == [b, a]
    ensures |PlanImport(rq).value.items| == 2 && PlanImport(rq).value.items[1].action.Skip?
  {
    assert [b, a][..2] == [b, a];
    AllRefsOfTwo(rq, b, a);
    ItemsAreEntries(rq);
    CreateIsExact(rq, 1);
  }

  /** The columns of an item are looked for in a dataset only if something has referred to it by
      then: a metric is planned before another that refers to its dataset, and not after it. */
  lemma CheckedTooEarly()
    ensures PlanImport(WithOrders([LOOSE, STRICT])).Ok? && PlanImport(WithOrders([STRICT, LOOSE])).Ok?
    ensures var items, other :=
        PlanImport(WithOrders([LOOSE, STRICT])).value.items, PlanImport(WithOrders([STRICT, LOOSE])).value.items;
      |items| == |other| == 2 && items[0].action == Create(LOOSE) && other[1].action.Skip?
  {
    LooseThenStrict();
    StrictBeforeLoose();
  }

  lemma LooseThenStrict()
    ensures var plan := PlanImport(WithOrders([LOOSE, STRICT]));
      plan.Ok? && |plan.value.items| == 2 && plan.value.items[0].action == Create(LOOSE)
  {
    var raws, a, b := [LOOSE, STRICT], Entry(Metrics, LOOSE), Entry(Metrics, STRICT);
    LooseIsLoose(raws);
    MetricEntries(raws);
    assert EntriesOf(Metrics, raws) == [a, b];
    LooseFirst(WithOrders(raws), a, b, ORDERS);
  }

  lemma StrictBeforeLoose()
    ensures var plan := PlanImport(WithOrders([STRICT, LOOSE]));
      plan.Ok? && |plan.value.items| == 2 && plan.value.items[1].action.Skip?
  {
    var raws, a, b := [STRICT, LOOSE], Entry(Metrics, LOOSE), Entry(Metrics, STRICT);
    LooseIsLoose(raws);
    MetricEntries(raws);
    assert EntriesOf(Metrics, raws) == [b, a];
    LooseSecond(WithOrders(raws), a, b, ORDERS);
  }

  lemma MetricEntries(raws: seq<seq<Member>>)
    ensures Entries(WithOrders(raws).bundle) == EntriesOf(Metrics, raws)
  {
    TwoSections(WithOrders(raws).bundle, Metrics, Recipes);
    assert EntriesOf(Recipes, []) == [] && EntriesOf(Metrics, raws) + [] == EntriesOf(Metrics, raws);
  }

  lemma LooseIsLoose(raws: seq<seq<Member>>)
    ensures LooseAndStrict(WithOrders(raws), Entry(Metrics, LOOSE), Entry(Metrics, STRICT), ORDERS)
  {
    PlanOfUnmapped(WithOrders(raws));
    LooseReads();
    LooseRefs();
    RefsOfRef("B", "dataset", "dataset", "Orders");
    OrdersLacksX(raws);
    MetricIsConsidered(raws, LOOSE, "A");
    MetricIsConsidered(raws, STRICT, "B");
    assert IsProvided(WithOrders(raws), "dataset", "Orders") by {
      assert Named(1, "Orders") in WithOrders(raws).target.listing("dataset");
    }
  }

  lemma MetricIsConsidered(raws: seq<seq<Member>>, raw: seq<Member>, name: string)
    requires Get(raw, "name") == Some(Str(name)) && name != ""
    ensures Considered(WithOrders(raws), Entry(Metrics, raw))
  {
    assert FoldedNames(PLAIN, []) == {} && Metrics.Kind() != "dataset";
  }

  // -------------------------------------------- skipped at first, made the second time

  /** Once `b` is made nothing refers to the dataset any more, so `a` is not checked against it. */
  lemma Forgotten(rq: Request, create: Creator, a: Entry, b: Entry, p: (string, string))
    requires LooseAndStrict(rq, a, b, p) && Entries(rq.bundle) == [b, a] && Trimmed(rq) && OneChoice(rq)
    requires b.section != Contracts && rq.text.fold(EntryName(rq.text, a)) != rq.text.fold(EntryName(rq.text, b))
    requires |PlanImport(rq).value.items| == 2 && PlanImport(rq).value.items[0].action.Create?
    requires AllMade(rq.text, PlanImport(rq).value, create)
    ensures var later := After(rq, PlanImport(rq).value, create);
      && PlanImport(later).Ok? && |PlanImport(later).value.items| == 2
      && PlanImport(rq).value.items[1].action.Skip? && PlanImport(later).value.items[1].action.Create?
  {
    LooseSecond(rq, a, b, p);
    StrictIsTaken(rq, create, a, b);
    StillNewIsConsidered(rq, PlanImport(rq).value, create, a);
    StillNewIsConsidered(rq, PlanImport(rq).value, create, b);
    NothingRefersToIt(rq, PlanImport(rq).value, create, a, b, p);
    ImportAgain(rq, create, 1);
  }

  lemma StrictIsTaken(rq: Request, create: Creator, a: Entry, b: Entry)
    requires PlanImport(rq).Ok? && |PlanImport(rq).value.items| == 2 && Entries(rq.bundle) == [b, a]
        && Considered(rq, a)
    requires b.section != Contracts && rq.text.fold(EntryName(rq.text, a)) != rq.text.fold(EntryName(rq.text, b))
    requires PlanImport(rq).value.items[0].action.Create? && PlanImport(rq).value.items[1].action.Skip?
    requires AllMade(rq.text, PlanImport(rq).value, create)
    ensures Considered(After(rq, PlanImport(rq).value, create), a)
        && !Considered(After(rq, PlanImport(rq).value, create), b)
  {
    CreateIsKnown(rq, 0);
    TakenAgain(rq, create, 0);
    StillNew(rq, create, a, b);
  }

  lemma NothingRefersToIt(rq: Request, plan: Plan, create: Creator, a: Entry, b: Entry, p: (string, string))
    requires LooseAndStrict(rq, a, b, p) && Entries(rq.bundle) == [b, a]
    requires IsStillNew(rq, plan, create, a) && !IsStillNew(rq, plan, create, b)
    ensures NoLongerChecked(rq, plan, create, 1)
  {
    assert [b, a][..2] == [b, a];
    AllRefsOfTwo(rq, b, a);
  }

  lemma StillNew(rq: Request, create: Creator, a: Entry, b: Entry)
    requires PlanImport(rq).Ok? && |PlanImport(rq).value.items| == 2 && Considered(rq, a)
    requires PlanImport(rq).value.items[0] == Planned(b.section, EntryName(rq.text, b), Create(b.raw))
    requires PlanImport(rq).value.items[1].action.Skip? && b.section != Contracts
    requires rq.text.fold(EntryName(rq.text, a)) != rq.text.fold(EntryName(rq.text, b))
    ensures Considered(After(rq, PlanImport(rq).value, create), a)
  {
    var plan, kind := PlanImport(rq).value, a.section.Kind();
    forall n: Named | n in Additions(rq, plan, create, kind) ensures rq.text.fold(n.name)
        == rq.text.fold(EntryName(rq.text, b)) {
      InFlatten(AdditionEach(rq, plan, create, kind), n);
      var i :| 0 <= i < |plan.items| && n in AdditionEach(rq, plan, create, kind)[i];
      assert i == 0;
    }
  }

  /** A second import may make an item that the first one skipped for a column it lacks. */
  lemma MadeTheSecondTime()
    ensures var rq := WithOrders([STRICT, LOOSE]);
      && PlanImport(rq).Ok? && Trimmed(rq) && OneChoice(rq) && AllMade(PLAIN, PlanImport(rq).value, MAKES)
      && var later := After(rq, PlanImport(rq).value, MAKES);
         && PlanImport(later).Ok? && |PlanImport(rq).value.items| == |PlanImport(later).value.items| == 2
         && PlanImport(rq).value.items[1].action.Skip? && PlanImport(later).value.items[1].action.Create?
  {
    StrictThenLoose();
    Forgotten(WithOrders([STRICT, LOOSE]), MAKES, Entry(Metrics, LOOSE), Entry(Metrics, STRICT), ORDERS);
  }

  lemma StrictThenLoose()
    ensures var rq, a, b := WithOrders([STRICT, LOOSE]), Entry(Metrics, LOOSE), Entry(Metrics, STRICT);
      && LooseAndStrict(rq, a, b, ORDERS) && Entries(rq.bundle) == [b, a] && Trimmed(rq) && OneChoice(rq)
      && EntryName(PLAIN, a) != EntryName(PLAIN, b)
      && |PlanImport(rq).value.items| == 2 && PlanImport(rq).value.items[0].action.Create?
      && AllMade(PLAIN, PlanImport(rq).value, MAKES)
  {
    var raws := [STRICT, LOOSE];
    var rq, a, b := WithOrders(raws), Entry(Metrics, LOOSE), Entry(Metrics, STRICT);
    LooseIsLoose(raws);
    MetricEntries(raws);
    assert EntriesOf(Metrics, raws) == [b, a];
    StrictReads(raws);
    StrictIsMade(rq, a, b, ORDERS);
    MetricsAreTrimmed(raws);
    NamesOfBoth();
    NothingIsChosen(rq);
  }

  lemma NothingIsChosen(rq: Request)
    requires rq.mapping == map[]
    ensures OneChoice(rq)
  {
  }

  lemma NamesOfBoth()
    ensures EntryName(PLAIN, Entry(Metrics, LOOSE)) == "A" && EntryName(PLAIN, Entry(Metrics, STRICT)) == "B"
        && "A" != "B"
  {
    LooseRefs();
    RefsOfRef("B", "dataset", "dataset", "Orders");
    assert "A"[0] != "B"[0];
  }

  lemma StrictReads(raws: seq<seq<Member>>)
    ensures DatasetKey(PLAIN, Entry(Metrics, STRICT)) == Some(ORDERS)
    ensures HasColumns(WithOrders(raws), Entry(Metrics, STRICT), ORDERS)
  {
    StrictRefersToOrders();
    StrictReadsNothing();
  }

  lemma StrictRefersToOrders()
    ensures DatasetKey(PLAIN, Entry(Metrics, STRICT)) == Some(ORDERS)
  {
    RefsOfRef("B", "dataset", "dataset", "Orders");
    var ms := RefDict("dataset", "Orders").members;
    assert ms[1..][0] == ms[1] && Get(ms, "name") == Get(ms[1..], "name");
  }

  lemma StrictReadsNothing()
    ensures forall column :: !ReadsColumn(PLAIN, Entry(Metrics, STRICT), column)
  {
    StrictUsesNothing();
    forall column ensures !ReadsColumn(PLAIN, Entry(Metrics, STRICT), column) {
      ColumnsAreRead(PLAIN, Entry(Metrics, STRICT), column);
    }
  }

  lemma StrictUsesNothing()
    ensures ColumnsUsed(PLAIN, Metrics, STRICT) == {}
  {
    RefsOfRef("B", "dataset", "dataset", "Orders");
    assert ItemsAt(STRICT, "dimensions") == [] && ItemsAt(STRICT, "filters") == [];
    assert TextsOf(PLAIN, []) == {} && ColumnsOf(PLAIN, []) == {} && TextAt(PLAIN, STRICT, "column") == {};
  }

  lemma StrictIsMade(rq: Request, a: Entry, b: Entry, p: (string, string))
    requires LooseAndStrict(rq, a, b, p) && Entries(rq.bundle) == [b, a]
    requires DatasetKey(rq.text, b) == Some(rq.text.KeyOf(p.0, p.1)) && HasColumns(rq, b, p)
    ensures |PlanImport(rq).value.items| == 2 && PlanImport(rq).value.items[0].action.Create?
    ensures Met(rq) == [p]
  {
    assert [b, a][..1] == [b];
    AllRefsOfOne(rq, b);
    AllRefsOfTwo(rq, b, a);
    ItemsAreEntries(rq);
    CreateIsExact(rq, 0);
  }

  lemma MetricsAreTrimmed(raws: seq<seq<Member>>)
    requires raws == [STRICT, LOOSE]
    ensures Trimmed(WithOrders(raws))
  {
    LooseRefs();
    RefsOfRef("B", "dataset", "dataset", "Orders");
  }
}
