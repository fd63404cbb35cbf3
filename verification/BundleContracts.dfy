/**
 Contracts in a bundle (bundles.py). A contract has no name of its own: a project
 lists it under its dataset's name, a bundle item is called as it was in the
 project it came from, and a mapping may put it over a dataset of another name.
 */
module BundleContracts {
  import opened Common
  import opened BundleJson
  import opened BundleRefs
  import opened BundleRefsTheory
  import opened BundlePlan
  import opened BundlePlanTheory
  import opened BundlePlanExact
  import opened BundleImport
  import opened BundleImportTheory
  import opened BundleTwice
  import opened BundleWitnesses

  /** The dataset a contract's item is over: the id written there, or what its reference leads to. */
  function DatasetOf(rq: Request, e: Entry): Option<Id> {
    if IsRef(e.raw) then None
    else match Get(e.raw, "dataset")
      case Some(Str(t)) => rq.text.parse(Str(t))
      case Some(Obj(ms)) => if IsRef(ms) then RefLeadsTo(rq, RefPair(rq.text, ms)) else None
      case _ => None
  }

  /** It is the dataset the contract's create function reads, whatever the import has made by then. */
  lemma DatasetOfIsRead(rq: Request, create: Creator, i: nat)
    requires PlanImport(rq).Ok? && i < |PlanImport(rq).value.items|
    requires PlanImport(rq).value.items[i].action.Create?
    requires match Get(PlanImport(rq).value.items[i].action.raw, "dataset")
      case Some(Obj(ms)) => IsRef(ms) ==> RefPair(rq.text, ms).0 in EXTERNAL
      case _ => true
    ensures i < |Entries(rq.bundle)|
    ensures var plan := PlanImport(rq).value;
      DatasetRead(rq.text, Find(plan.references, ApplyUpTo(rq.text, plan, create, i).madeIds), plan.items[i].action.raw)
      == DatasetOf(rq, Entries(rq.bundle)[i])
  {
    CreateIsJustified(rq, i);
    var plan, raw := PlanImport(rq).value, Entries(rq.bundle)[i].raw;
    if !IsRef(raw) {
      match Get(raw, "dataset")
      case Some(Obj(ms)) =>
        if IsRef(ms) {
          var p := RefPair(rq.text, ms);
          RefOfMember(rq.text, raw, "dataset", ms);
          StatusIsExact(rq, rq.text.KeyOf(p.0, p.1));
          ExternalIsNotMade(rq.text, plan, create, i, rq.text.KeyOf(p.0, p.1));
        }
      case _ =>
    }
  }

  lemma RefOfMember(text: Text, raw: seq<Member>, key: string, ms: seq<Member>)
    requires !IsRef(raw) && Get(raw, key) == Some(Obj(ms)) && IsRef(ms)
    ensures RefPair(text, ms) in RefsIn(text, Obj(raw))
  {
    GetIsMember(raw, key);
    var k :| 0 <= k < |raw| && raw[k] == Member(key, Obj(ms));
    assert RefsIn(text, raw[k].value) == [RefPair(text, ms)];
    RefsInMembersAt(text, raw, RefPair(text, ms));
  }

  lemma ExternalIsNotMade(text: Text, plan: Plan, create: Creator, n: nat, key: Key)
    requires n <= |plan.items| && key.0 in EXTERNAL
    ensures key !in ApplyUpTo(text, plan, create, n).madeIds
  {
    MadeIdsAreProvided(text, plan, create, n, key);
    if j :| 0 <= j < n && Provides(text, plan, create, j, key) {
      SectionsAndKinds(plan.items[j].section, key.0);
    }
  }

  /** Datasets differ in id, and those in `covered` have a contract, listed under the dataset's name. */
  ghost predicate ListsContracts(rq: Request, covered: set<Id>) {
    var datasets, contracts := rq.target.listing("dataset"), FoldedNames(rq.text, rq.target.listing("contracts"));
    && (forall a, b :: a in datasets && b in datasets && a.id == b.id ==> a == b)
    && (forall d :: d in datasets && d.id in covered ==> rq.text.fold(d.name) in contracts)
    && (forall f :: f in contracts ==> exists d :: d in datasets && d.id in covered && rq.text.fold(d.name) == f)
  }

  /** No other dataset has this one's name but for case. */
  ghost predicate IsOnlyOfName(rq: Request, d: Named) {
    forall other :: other in rq.target.listing("dataset") && rq.text.fold(other.name) == rq.text.fold(d.name) ==>
      other == d
  }

  /** A contract planned over a dataset that already has one can be made, and a contract is listed
      under the dataset's own name; so the contract's item is not called as its dataset is. And it
      is so planned whenever that holds, if no other dataset has the name. */
  lemma PlannedOverAContract(rq: Request, covered: set<Id>, i: nat, d: Named)
    requires PlanImport(rq).Ok? && i < |Entries(rq.bundle)| && ListsContracts(rq, covered)
    requires Entries(rq.bundle)[i].section == Contracts && DatasetOf(rq, Entries(rq.bundle)[i]) == Some(d.id)
    requires d in rq.target.listing("dataset")
    ensures i < |PlanImport(rq).value.items|
    ensures PlanImport(rq).value.items[i].action.Create? && d.id in covered ==>
      CanBeMade(rq, i) && rq.text.fold(d.name) in Taken(rq, Contracts)
    ensures CanBeMade(rq, i) && rq.text.fold(d.name) in Taken(rq, Contracts) && IsOnlyOfName(rq, d) ==>
      PlanImport(rq).value.items[i].action.Create? && d.id in covered
    ensures rq.text.fold(EntryName(rq.text, Entries(rq.bundle)[i])) == rq.text.fold(d.name) && d.id in covered ==>
      PlanImport(rq).value.items[i].action.Skip?
  {
    CreateIsExact(rq, i);
    assert Contracts.Kind() == "contracts";
    if rq.text.fold(d.name) in Taken(rq, Contracts) {
      var other :| other in rq.target.listing("dataset") && other.id in covered
        && rq.text.fold(other.name) == rq.text.fold(d.name);
    }
  }

  /** A contract called as the dataset it refers to, for which nothing was chosen, is skipped
      when that dataset already has one, as promised. */
  lemma UnmappedIsSkipped(rq: Request, covered: set<Id>, i: nat, ms: seq<Member>, d: Named)
    requires PlanImport(rq).Ok? && i < |Entries(rq.bundle)| && ListsContracts(rq, covered)
    requires var e := Entries(rq.bundle)[i];
      && e.section == Contracts && Get(e.raw, "dataset") == Some(Obj(ms))
      && IsRef(ms) && RefPair(rq.text, ms).0 == "dataset"
      && DatasetOf(rq, e) == Some(d.id)
      && rq.text.fold(EntryName(rq.text, e)) == rq.text.fold(RefPair(rq.text, ms).1)
    requires var p := RefPair(rq.text, ms);
      var q := FirstOf(rq, Met(rq), rq.text.KeyOf(p.0, p.1));
      if q.Some? then ChosenFor(rq, q.value.0, q.value.1).None? else ChosenFor(rq, p.0, p.1).None?
    requires d in rq.target.listing("dataset") && d.id in covered
    ensures i < |PlanImport(rq).value.items| && PlanImport(rq).value.items[i].action.Skip?
  {
    var key := rq.text.KeyOf("dataset", RefPair(rq.text, ms).1);
    FirstOfIsMet(rq, Met(rq), key);
    var datasets := rq.target.listing("dataset");
    ByNameIsListed(rq.text, datasets, key.1);
    var n :| n in datasets && n.id == ByName(rq.text, datasets)[key.1] && rq.text.fold(n.name) == key.1;
    assert n == d;
    PlannedOverAContract(rq, covered, i, d);
  }

  // --------------------------------------------------------------- two witnesses

  const TERMS: seq<Member> := [Member("name", Str("Orders"))] + [Member("dataset", RefDict("dataset", "Orders"))]

  /** A contract for Orders, put over the dataset Sales. */
  function Mapped(contracts: seq<Named>): Request {
    Request(
      PLAIN,
      Target((kind: string) =>
        if kind == "dataset" then [Named(7, "Sales")] else if kind == "contracts" then contracts else [], map[]),
      Bundled(map[Contracts := [TERMS]]),
      map["dataset:Orders" := "7"])
  }

  lemma MappedEntries(contracts: seq<Named>)
    ensures Entries(Mapped(contracts).bundle) == [Entry(Contracts, TERMS)]
    ensures RefsIn(PLAIN, Obj(TERMS)) == [ORDERS] && !IsRef(TERMS) && Get(TERMS, "name") == Some(Str("Orders"))
    ensures Get(TERMS, "dataset") == Some(RefDict("dataset", "Orders"))
    ensures AllRefs(Mapped(contracts), [Entry(Contracts, TERMS)]) in {[], [ORDERS]}
  {
    TwoSections(Mapped(contracts).bundle, Contracts, Charts);
    assert EntriesOf(Contracts, [TERMS]) == [Entry(Contracts, TERMS)];
    RefsOfRef("Orders", "dataset", "dataset", "Orders");
    AllRefsOfOne(Mapped(contracts), Entry(Contracts, TERMS));
  }

  lemma SalesIsChosen(contracts: seq<Named>)
    ensures ChosenFor(Mapped(contracts), "dataset", "Orders") == Some("7")
    ensures ChoiceIsGood(Mapped(contracts), ORDERS) && IdHere(Mapped(contracts), ORDERS) == Some(7)
  {
    var listing := [Named(7, "Sales")];
    assert "dataset" + ":" + "Orders" == "dataset:Orders";
    assert Mapped(contracts).target.listing("dataset") == listing && IsLastOfName(PLAIN, listing, 0);
  }

  lemma MappedIsPlanned(contracts: seq<Named>)
    requires "Orders" !in FoldedNames(PLAIN, contracts)
    ensures PlanImport(Mapped(contracts)).Ok? && |PlanImport(Mapped(contracts)).value.items| == 1
    ensures PlanImport(Mapped(contracts)).value.items[0] == Planned(Contracts, "Orders", Create(TERMS))
    ensures Met(Mapped(contracts)) == [ORDERS]
  {
    MappedEntries(contracts);
    MappedCanBeMade(contracts);
    ItemsAreEntries(Mapped(contracts));
    CreateIsExact(Mapped(contracts), 0);
    CreateIsKnown(Mapped(contracts), 0);
  }

  lemma MappedCanBeMade(contracts: seq<Named>)
    requires "Orders" !in FoldedNames(PLAIN, contracts)
    ensures |Entries(Mapped(contracts).bundle)| == 1 && CanBeMade(Mapped(contracts), 0)
    ensures EntryName(PLAIN, Entry(Contracts, TERMS)) == "Orders"
    ensures PlanImport(Mapped(contracts)).Ok? && Met(Mapped(contracts)) == [ORDERS]
  {
    var rq, e := Mapped(contracts), Entry(Contracts, TERMS);
    MappedEntries(contracts);
    SalesIsChosen(contracts);
    PlanIsOk(rq);
    assert EntryName(PLAIN, e) == "Orders" && Considered(rq, e);
    AllRefsOfOne(rq, e);
  }

  /** The first import of a contract over a dataset that already has one is planned, not skipped. */
  lemma PlannedOverSales()
    ensures var rq := Mapped([Named(50, "Sales")]);
      && ListsContracts(rq, {7}) && DatasetOf(rq, Entry(Contracts, TERMS)) == Some(7)
      && PlanImport(rq).Ok? && PlanImport(rq).value.items == [Planned(Contracts, "Orders", Create(TERMS))]
  {
    SalesHasContract();
    MappedIsPlanned([Named(50, "Sales")]);
    LeadsToSales([Named(50, "Sales")]);
  }

  lemma SalesHasContract()
    ensures "Orders" !in FoldedNames(PLAIN, [Named(50, "Sales")])
    ensures ListsContracts(Mapped([Named(50, "Sales")]), {7})
  {
    var rq := Mapped([Named(50, "Sales")]);
    var datasets, contracts := rq.target.listing("dataset"), rq.target.listing("contracts");
    assert datasets == [Named(7, "Sales")] && contracts == [Named(50, "Sales")];
    assert Named(7, "Sales") in datasets && Named(50, "Sales") in contracts;
    assert forall f :: f in FoldedNames(PLAIN, contracts) ==> f == "Sales";
    assert |"Orders"| != |"Sales"|;
  }

  lemma LeadsToSales(contracts: seq<Named>)
    requires Met(Mapped(contracts)) == [ORDERS]
    ensures DatasetOf(Mapped(contracts), Entry(Contracts, TERMS)) == Some(7)
  {
    MappedEntries(contracts);
    SalesIsChosen(contracts);
    NameOfOrders();
    assert FirstOf(Mapped(contracts), [ORDERS], ORDERS) == Some(ORDERS);
  }

  lemma NameOfOrders()
    ensures IsRef(RefDict("dataset", "Orders").members)
        && RefPair(PLAIN, RefDict("dataset", "Orders").members) == ORDERS
  {
    var ms := RefDict("dataset", "Orders").members;
    assert ms[1..][0] == ms[1];
    assert Get(ms, "$ref") == Some(Str("dataset")) && Get(ms, "name") == Get(ms[1..], "name");
  }

  /** A contract made over a dataset of another name is planned again by a second import, although
      every create succeeded. */
  lemma PlannedTwice()
    ensures var rq := Mapped([]);
      && PlanImport(rq).Ok? && Trimmed(rq) && OneChoice(rq) && AllMade(PLAIN, PlanImport(rq).value, MAKES)
      && var later := After(rq, PlanImport(rq).value, MAKES);
         && PlanImport(later).Ok? && |PlanImport(rq).value.items| == |PlanImport(later).value.items| == 1
         && PlanImport(rq).value.items[0].action.Create? && PlanImport(later).value.items[0].action.Create?
  {
    var rq := Mapped([]);
    assert FoldedNames(PLAIN, []) == {};
    MappedIsPlanned([]);
    MappedIsTidy();
    StoredAsSales();
    NotCalledOrders(rq, PlanImport(rq).value);
    ImportAgain(rq, MAKES, 0);
  }

  lemma MappedIsTidy()
    requires Met(Mapped([])) == [ORDERS]
    ensures Trimmed(Mapped([])) && OneChoice(Mapped([])) && |Entries(Mapped([]).bundle)| == 1
  {
    MappedEntries([]);
    assert forall p :: p in Met(Mapped([])) ==> p == ORDERS;
  }

  lemma NotCalledOrders(rq: Request, plan: Plan)
    requires rq.text == PLAIN && |plan.items| == 1 && plan.items[0].action.Create?
    requires StoredName(rq, plan, MAKES, 0) == Some("Sales")
    ensures !ContractIsCalled(rq, plan, MAKES, "Orders")
  {
    assert |"Orders"| != |"Sales"|;
    assert !IsStoredAs(rq, plan, MAKES, 0, "Orders");
  }

  lemma StoredAsSales()
    requires PlanImport(Mapped([])).Ok? && PlanImport(Mapped([])).value.items
        == [Planned(Contracts, "Orders", Create(TERMS))]
    requires Met(Mapped([])) == [ORDERS]
    ensures StoredName(Mapped([]), PlanImport(Mapped([])).value, MAKES, 0) == Some("Sales")
  {
    MappedEntries([]);
    SalesIsChosen([]);
    NameOfOrders();
    LeadsToSales([]);
    DatasetOfIsRead(Mapped([]), MAKES, 0);
    assert NameIn([Named(7, "Sales")], 7) == Some("Sales");
  }
}
