/** Importing the same bundle again (bundles.py): nothing is made twice, and exactly when. */
module BundleTwice {
  import opened Common
  import opened BundleJson
  import opened BundleRefs
  import opened BundleRoundTrip
  import opened BundlePlan
  import opened BundlePlanTheory
  import opened BundlePlanExact
  import opened BundleImport
  import opened BundleImportTheory

  // ------------------------------------------------ the target after an import

  /** What a contract's create function reads as its dataset: the id written there, or what the
      reference written there leads to. */
  function DatasetRead(text: Text, find: Key -> Option<Id>, raw: seq<Member>): Option<Id> {
    if IsRef(raw) then None
    else match Get(raw, "dataset")
      case Some(Str(t)) => text.parse(Str(t))
      case Some(Obj(ms)) =>
        if IsRef(ms) then
          var (kind, name) := RefPair(text, ms);
          find(text.KeyOf(kind, name))
        else None
      case _ => None
  }

  /** It is what stands as text under "dataset" once the item is resolved. */
  lemma DatasetReadIsPayload(text: Text, find: Key -> Option<Id>, raw: seq<Member>)
    requires text.ReadsBack()
    ensures var payload := Resolve(text, find, Obj(raw));
      DatasetRead(text, find, raw) ==
        if !payload.Obj? then None
        else match Get(payload.members, "dataset")
          case Some(Str(t)) => text.parse(Str(t))
          case _ => None
  {
    if !IsRef(raw) {
      RefKeysAreOrdinary();
      ResolvedGet(text, find, raw, "dataset");
    }
  }

  lemma {:induction false} ResolvedGet(text: Text, find: Key -> Option<Id>, raw: seq<Member>, key: string)
    requires key !in LIST_REF_KEYS
    ensures var resolved := seq(|raw|, i requires 0 <= i < |raw| =>
        Member(raw[i].key, Kept(raw[i].key, Resolve(text, find, raw[i].value))));
      Get(resolved, key) ==
        match Get(raw, key)
        case None => None
        case Some(v) => Some(Resolve(text, find, v))
  {
    if raw != [] {
      var resolved := seq(|raw|, i requires 0 <= i < |raw| =>
        Member(raw[i].key, Kept(raw[i].key, Resolve(text, find, raw[i].value))));
      var rest := raw[1..];
      ResolvedGet(text, find, rest, key);
      assert resolved[1..] == seq(|rest|, i requires 0 <= i < |rest| =>
        Member(rest[i].key, Kept(rest[i].key, Resolve(text, find, rest[i].value))));
    }
  }

  /** `_names`: what the thing made from item `i` is called in the project afterwards.
      A contract has no name of its own: it is its dataset's. */
  function StoredName(rq: Request, plan: Plan, create: Creator, i: nat): Option<string>
    requires i < |plan.items| && plan.items[i].action.Create?
  {
    if plan.items[i].section != Contracts then Some(plan.items[i].name)
    else
      var find := Find(plan.references, ApplyUpTo(rq.text, plan, create, i).madeIds);
      match DatasetRead(rq.text, find, plan.items[i].action.raw)
      case None => None
      case Some(id) => NameIn(rq.target.listing("dataset"), id)
  }

  function NameIn(listing: seq<Named>, id: Id): Option<string> {
    if listing == [] then None
    else if listing[0].id == id then Some(listing[0].name)
    else NameIn(listing[1..], id)
  }

  lemma {:induction false} NameIsOfId(listing: seq<Named>, id: Id)
    ensures match NameIn(listing, id)
      case Some(name) => Named(id, name) in listing
      case None => forall n :: n in listing ==> n.id != id
  {
    if listing != [] && listing[0].id != id {
      NameIsOfId(listing[1..], id);
    }
  }

  /** A contract is listed under the name of the dataset it was made over, if the project has that
      dataset; anything else under its item's name, stripped. */
  lemma StoredNameIsExact(rq: Request, create: Creator, i: nat)
    requires PlanImport(rq).Ok? && i < |PlanImport(rq).value.items|
    requires PlanImport(rq).value.items[i].action.Create?
    ensures i < |Entries(rq.bundle)|
    ensures var plan, e := PlanImport(rq).value, Entries(rq.bundle)[i];
      var read := DatasetRead(rq.text, Find(plan.references, ApplyUpTo(rq.text, plan, create, i).madeIds), e.raw);
      match StoredName(rq, plan, create, i)
      case Some(name) =>
        if e.section == Contracts then read.Some? && Named(read.value, name) in rq.target.listing("dataset")
        else name == EntryName(rq.text, e)
      case None =>
        && e.section == Contracts
        && (read.Some? ==> forall n :: n in rq.target.listing("dataset") ==> n.id != read.value)
  {
    CreateIsKnown(rq, i);
    var plan := PlanImport(rq).value;
    var read := DatasetRead(rq.text, Find(plan.references, ApplyUpTo(rq.text, plan, create, i).madeIds),
                            plan.items[i].action.raw);
    if read.Some? {
      NameIsOfId(rq.target.listing("dataset"), read.value);
    }
  }

  /** What item `i` adds to the things of one kind. */
  function Addition(rq: Request, plan: Plan, create: Creator, kind: string, i: nat): seq<Named>
    requires i < |plan.items|
  {
    var p, id := plan.items[i], Outcome(rq.text, plan, create, i);
    if id.Some? && p.section.Kind() == kind && StoredName(rq, plan, create, i).Some?
    then [Named(id.value, StoredName(rq, plan, create, i).value)]
    else []
  }

  function AdditionEach(rq: Request, plan: Plan, create: Creator, kind: string): seq<seq<Named>> {
    seq(|plan.items|, i requires 0 <= i < |plan.items| => Addition(rq, plan, create, kind, i))
  }

  /** The things of one kind that an import made. */
  function Additions(rq: Request, plan: Plan, create: Creator, kind: string): seq<Named> {
    Flatten(AdditionEach(rq, plan, create, kind))
  }

  function After(rq: Request, plan: Plan, create: Creator): Request {
    rq.(target := rq.target.(listing := (kind: string) =>
      rq.target.listing(kind) + Additions(rq, plan, create, kind)))
  }

  // ---------------------------------------------------------------- assumptions

  /** Items other items refer to are named without spaces around, as every service stores them. */
  predicate Trimmed(rq: Request) {
    forall s, raw :: MakesKind(s) && raw in rq.bundle.Of(s) && EntryName(rq.text, Entry(s, raw)) != "" ==>
      rq.text.fold(EntryName(rq.text, Entry(s, raw))) == rq.text.fold(SpelledName(rq.text, raw))
  }

  /** The choices made for one reference do not depend on how an item spells it. */
  ghost predicate OneChoice(rq: Request) {
    var refs := Met(rq);
    forall p, q :: p in refs && q in refs && rq.text.KeyOf(p.0, p.1) == rq.text.KeyOf(q.0, q.1) ==>
      ChosenFor(rq, p.0, p.1) == ChosenFor(rq, q.0, q.1)
  }

  ghost predicate PlainDatasets(rq: Request) {
    forall i :: 0 <= i < |Entries(rq.bundle)| ==> PlainDataset(rq.text, Entries(rq.bundle)[i])
  }

  // ------------------------------------------------------------ names and ids

  lemma {:induction false} ByNameAppend(text: Text, first: seq<Named>, more: seq<Named>, folded: string)
    requires folded !in FoldedNames(text, more)
    ensures folded in ByName(text, first + more) <==> folded in ByName(text, first)
    ensures folded in ByName(text, first) ==> ByName(text, first + more)[folded] == ByName(text, first)[folded]
  {
    if more == [] {
      assert first + more == first;
    } else {
      var last := more[|more| - 1];
      assert last in more;
      assert (first + more)[..|first + more| - 1] == first + more[..|more| - 1];
      ByNameAppend(text, first, more[..|more| - 1], folded);
    }
  }

  /** The target has no thing of its name, and the bundle has. */
  ghost predicate IsNew(rq: Request, kind: string, x: Named) {
    && rq.text.fold(x.name) !in FoldedNames(rq.text, rq.target.listing(kind))
    && (kind, rq.text.fold(x.name)) in MadeByBundle(rq)
  }

  ghost predicate AreNew(rq: Request, kind: string, things: seq<Named>) {
    && (kind in EXTERNAL ==> things == [])
    && (kind in KINDS ==> forall x :: x in things ==> IsNew(rq, kind, x))
  }

  /** What an import adds is new to its section, and is one of the bundle's. */
  lemma AdditionsAreNew(rq: Request, create: Creator, kind: string)
    requires PlanImport(rq).Ok? && Trimmed(rq)
    ensures AreNew(rq, kind, Additions(rq, PlanImport(rq).value, create, kind))
  {
    var each := AdditionEach(rq, PlanImport(rq).value, create, kind);
    forall i | 0 <= i < |each| ensures AreNew(rq, kind, each[i]) {
      AdditionIsNew(rq, create, kind, i);
    }
    if kind in EXTERNAL {
      FlattenNothing(each);
    } else if kind in KINDS {
      FlattenKeeps(each, x => IsNew(rq, kind, x));
    }
  }

  lemma AdditionIsNew(rq: Request, create: Creator, kind: string, i: nat)
    requires PlanImport(rq).Ok? && i < |PlanImport(rq).value.items|
    requires Trimmed(rq)
    ensures AreNew(rq, kind, Addition(rq, PlanImport(rq).value, create, kind, i))
  {
    var p := PlanImport(rq).value.items[i];
    SectionsAndKinds(p.section, kind);
    if p.action.Create? && p.section.Kind() == kind && kind in KINDS {
      MadeItemIsNew(rq, i);
    }
  }

  lemma MadeItemIsNew(rq: Request, i: nat)
    requires PlanImport(rq).Ok? && i < |PlanImport(rq).value.items| && Trimmed(rq)
    requires var p := PlanImport(rq).value.items[i]; p.action.Create? && p.section.Kind() in KINDS
    ensures var p := PlanImport(rq).value.items[i];
      && p.section != Contracts
      && rq.text.fold(p.name) !in FoldedNames(rq.text, rq.target.listing(p.section.Kind()))
      && (p.section.Kind(), rq.text.fold(p.name)) in MadeByBundle(rq)
  {
    CreateIsKnown(rq, i);
    var e := Entries(rq.bundle)[i];
    SectionsAndKinds(e.section, e.section.Kind());
    assert SECTIONS[..|SECTIONS|] == SECTIONS && e in Entries(rq.bundle);
    EntryIsInBundle(rq.bundle, |SECTIONS|, e);
    assert MakesKind(e.section) && e.raw in rq.bundle.Of(e.section);
  }

  lemma {:induction false} EntryIsInBundle(bundle: Bundle, n: nat, e: Entry)
    requires n <= |SECTIONS| && e in EntriesFrom(bundle, SECTIONS[..n])
    ensures e.raw in bundle.Of(e.section)
  {
    assert n > 0;
    assert SECTIONS[..n][..n - 1] == SECTIONS[..n - 1];
    if e !in EntriesFrom(bundle, SECTIONS[..n - 1]) {
      assert e in EntriesOf(SECTIONS[n - 1], bundle.Of(SECTIONS[n - 1]));
    } else {
      EntryIsInBundle(bundle, n - 1, e);
    }
  }

  lemma StoredIsAdded(rq: Request, plan: Plan, create: Creator, i: nat)
    requires i < |plan.items| && plan.items[i].action.Create?
    requires Outcome(rq.text, plan, create, i).Some? && StoredName(rq, plan, create, i).Some?
    ensures Named(Outcome(rq.text, plan, create, i).value, StoredName(rq, plan, create, i).value)
      in Additions(rq, plan, create, plan.items[i].section.Kind())
  {
    var kind := plan.items[i].section.Kind();
    var stored := Named(Outcome(rq.text, plan, create, i).value, StoredName(rq, plan, create, i).value);
    assert AdditionEach(rq, plan, create, kind)[i] == [stored];
    InFlatten(AdditionEach(rq, plan, create, kind), stored);
  }

  // ----------------------------------------------------- references, both times

  /** What was known of a kind is known unchanged, and what is new the bundle has brought. */
  ghost predicate KnownPersists(rq: Request, later: Request, kind: string) {
    var before, after := Existing(rq, kind), Existing(later, kind);
    && (forall f :: f in before ==> f in after && after[f] == before[f])
    && (forall f :: f in after && f !in before ==> (kind, f) in MadeByBundle(rq))
  }

  lemma KnownAgain(rq: Request, create: Creator, kind: string)
    requires PlanImport(rq).Ok? && Trimmed(rq)
    ensures KnownPersists(rq, After(rq, PlanImport(rq).value, create), kind)
  {
    if kind in KINDS {
      var plan := PlanImport(rq).value;
      AdditionsAreNew(rq, create, kind);
      var listing, more := rq.target.listing(kind), Additions(rq, plan, create, kind);
      NewKnown(rq, kind, listing, more);
      assert Existing(rq, kind) == ByName(rq.text, listing);
      assert Existing(After(rq, plan, create), kind) == ByName(rq.text, listing + more);
    }
  }

  lemma NewKnown(rq: Request, kind: string, listing: seq<Named>, more: seq<Named>)
    requires kind in KINDS && listing == rq.target.listing(kind) && AreNew(rq, kind, more)
    ensures var before, after := ByName(rq.text, listing), ByName(rq.text, listing + more);
      && (forall f :: f in before ==> f in after && after[f] == before[f])
      && (forall f :: f in after && f !in before ==> (kind, f) in MadeByBundle(rq))
  {
    forall f | f in ByName(rq.text, listing)
      ensures f in ByName(rq.text, listing + more) && ByName(rq.text, listing + more)[f] == ByName(rq.text, listing)[f]
    {
      ByNameIsListed(rq.text, listing, f);
      ByNameAppend(rq.text, listing, more, f);
    }
    forall f | f in ByName(rq.text, listing + more) && f !in ByName(rq.text, listing)
      ensures (kind, f) in MadeByBundle(rq)
    {
      ByNameIsListed(rq.text, listing + more, f);
      ByNameIsListed(rq.text, listing, f);
      var n: Named :| n in listing + more && rq.text.fold(n.name) == f;
      assert n in more;
    }
  }

  lemma {:induction false} AllRefsOf(rq: Request, entries: seq<Entry>, p: (string, string))
    ensures p in AllRefs(rq, entries) <==>
      exists i :: 0 <= i < |entries| && Considered(rq, entries[i]) && p in EntryRefs(rq, entries[i])
  {
    if entries != [] {
      AllRefsOf(rq, entries[1..], p);
      if i :| 0 <= i < |entries| && Considered(rq, entries[i]) && p in EntryRefs(rq, entries[i]) {
        if i > 0 {
          assert entries[1..][i - 1] == entries[i];
        }
      }
      if j :| 0 <= j < |entries[1..]| && Considered(rq, entries[1..][j]) && p in EntryRefs(rq, entries[1..][j]) {
        assert entries[1..][j] == entries[j + 1];
      }
    }
  }

  /** Something made in this section is called so afterwards: a contract by its dataset, anything
      else as its item. */
  ghost predicate IsMade(rq: Request, plan: Plan, create: Creator, section: Section, name: string) {
    exists j :: 0 <= j < |plan.items| && plan.items[j].action.Create? && plan.items[j].section == section
      && IsStoredAs(rq, plan, create, j, name)
  }

  /** Some contract made is over a dataset of this name. */
  ghost predicate ContractIsCalled(rq: Request, plan: Plan, create: Creator, name: string) {
    IsMade(rq, plan, create, Contracts, name)
  }

  ghost predicate IsStoredAs(rq: Request, plan: Plan, create: Creator, j: nat, name: string)
    requires j < |plan.items| && plan.items[j].action.Create?
  {
    && Outcome(rq.text, plan, create, j).Some? && StoredName(rq, plan, create, j).Some?
    && rq.text.fold(StoredName(rq, plan, create, j).value) == rq.text.fold(name)
  }

  /** An item is named, new to the target, and still new once the import is done. */
  ghost predicate IsStillNew(rq: Request, plan: Plan, create: Creator, e: Entry) {
    Considered(rq, e) && !IsMade(rq, plan, create, e.section, EntryName(rq.text, e))
  }

  /** Those are the items looked at the second time. */
  lemma StillNewIsConsidered(rq: Request, plan: Plan, create: Creator, e: Entry)
    ensures Considered(After(rq, plan, create), e) <==> IsStillNew(rq, plan, create, e)
  {
    var kind, name := e.section.Kind(), EntryName(rq.text, e);
    var listing, more := rq.target.listing(kind), Additions(rq, plan, create, kind);
    if n: Named :| n in listing + more && rq.text.fold(n.name) == rq.text.fold(name) {
      if n !in listing {
        AddedIsMade(rq, plan, create, e.section, n, name);
      }
    }
    if n: Named :| n in listing && rq.text.fold(n.name) == rq.text.fold(name) {
      assert n in listing + more;
    }
    if IsMade(rq, plan, create, e.section, name) {
      var j :| 0 <= j < |plan.items| && plan.items[j].action.Create? && plan.items[j].section == e.section
        && IsStoredAs(rq, plan, create, j, name);
      StoredIsAdded(rq, plan, create, j);
      var stored := Named(Outcome(rq.text, plan, create, j).value, StoredName(rq, plan, create, j).value);
      assert stored in listing + more;
    }
  }

  lemma AddedIsMade(rq: Request, plan: Plan, create: Creator, section: Section, n: Named, name: string)
    requires n in Additions(rq, plan, create, section.Kind()) && rq.text.fold(n.name) == rq.text.fold(name)
    ensures IsMade(rq, plan, create, section, name)
  {
    var each := AdditionEach(rq, plan, create, section.Kind());
    InFlatten(each, n);
    var j :| 0 <= j < |each| && n in each[j];
    SectionsAndKinds(plan.items[j].section, section.Kind());
    SectionsAndKinds(section, section.Kind());
    assert IsStoredAs(rq, plan, create, j, name);
  }

  /** What is looked at the second time was looked at the first time. */
  lemma LookedAtBefore(rq: Request, create: Creator, entries: seq<Entry>, q: (string, string))
    requires PlanImport(rq).Ok? && q in AllRefs(After(rq, PlanImport(rq).value, create), entries)
    ensures q in AllRefs(rq, entries)
  {
    var later := After(rq, PlanImport(rq).value, create);
    AllRefsOf(later, entries, q);
    var i :| 0 <= i < |entries| && Considered(later, entries[i]) && q in EntryRefs(later, entries[i]);
    StillNewIsConsidered(rq, PlanImport(rq).value, create, entries[i]);
    AllRefsOf(rq, entries, q);
  }

  /** Two spellings of one name that lead to the same, the one before and the other after. */
  ghost predicate LeadAlike(rq: Request, later: Request, q: (string, string), again: (string, string)) {
    && rq.text.KeyOf(q.0, q.1) == rq.text.KeyOf(again.0, again.1)
    && (ChoiceIsGood(rq, q) ==> ChoiceIsGood(later, again))
    && (IsProvided(rq, q.0, q.1) <==> IsProvided(later, again.0, again.1))
    && (q.0 in EXTERNAL || IdHere(rq, q).Some? ==> IdHere(rq, q) == IdHere(later, again))
  }

  lemma IsThereIsKnown(rq: Request, kind: string, name: string)
    ensures IsThere(rq, kind, name) <==> rq.text.fold(name) in Existing(rq, kind)
  {
    if kind in KINDS {
      ByNameIsListed(rq.text, rq.target.listing(kind), rq.text.fold(name));
    }
  }

  lemma SpellingsLeadAlike(rq: Request, create: Creator, q: (string, string), again: (string, string))
    requires PlanImport(rq).Ok? && Trimmed(rq)
    requires rq.text.KeyOf(q.0, q.1) == rq.text.KeyOf(again.0, again.1)
    requires ChosenFor(rq, q.0, q.1) == ChosenFor(rq, again.0, again.1)
    ensures LeadAlike(rq, After(rq, PlanImport(rq).value, create), q, again)
  {
    var later := After(rq, PlanImport(rq).value, create);
    KnownAgain(rq, create, q.0);
    IsThereIsKnown(rq, q.0, q.1);
    IsThereIsKnown(later, again.0, again.1);
    MadeByBundleAgain(rq, later);
    if q.0 in EXTERNAL {
      AdditionsAreNew(rq, create, q.0);
      assert rq.target.listing(q.0) + [] == rq.target.listing(q.0);
      assert Existing(later, q.0) == Existing(rq, q.0);
    }
    GoodChoiceAgain(rq, later, q, again);
  }

  lemma MadeByBundleAgain(rq: Request, later: Request)
    requires later.text == rq.text && later.bundle == rq.bundle
    ensures MadeByBundle(later) == MadeByBundle(rq)
  {
  }

  lemma GoodChoiceAgain(rq: Request, later: Request, q: (string, string), again: (string, string))
    requires later.text == rq.text && later.mapping == rq.mapping && KnownPersists(rq, later, q.0) && q.0 == again.0
    requires ChosenFor(rq, q.0, q.1) == ChosenFor(rq, again.0, again.1)
    ensures ChoiceIsGood(rq, q) ==> ChoiceIsGood(later, again)
  {
    ChoiceIsClassified(rq, q);
    ChoiceIsClassified(later, again);
    if ChosenFor(rq, q.0, q.1).Some? && ChoiceIsGood(rq, q) {
      var id := rq.text.parse(Str(ChosenFor(rq, q.0, q.1).value)).value;
      var f :| f in Existing(rq, q.0) && Existing(rq, q.0)[f] == id;
      assert f in Existing(later, q.0) && Existing(later, q.0)[f] == id;
    }
  }

  /** What is met the second time was met the first time, and leads alike. */
  ghost predicate MetAlike(rq: Request, later: Request, key: Key, q: Option<(string, string)>,
        again: Option<(string, string)>) {
    again.Some? ==> q.Some? && rq.text.KeyOf(q.value.0, q.value.1) == key && LeadAlike(rq, later, q.value, again.value)
  }

  /** A name met the second time was met the first time, and its first spellings lead alike. */
  lemma MetAgain(rq: Request, create: Creator, entries: seq<Entry>, key: Key)
    requires PlanImport(rq).Ok? && Trimmed(rq) && OneChoice(rq)
    requires forall p :: p in AllRefs(rq, entries) ==> p in Met(rq)
    ensures var later := After(rq, PlanImport(rq).value, create);
      MetAlike(rq, later, key, FirstOf(rq, AllRefs(rq, entries), key), FirstOf(later, AllRefs(later, entries), key))
  {
    var later := After(rq, PlanImport(rq).value, create);
    FirstOfIsMet(later, AllRefs(later, entries), key);
    FirstOfIsMet(rq, AllRefs(rq, entries), key);
    if FirstOf(later, AllRefs(later, entries), key).Some? {
      var again := FirstOf(later, AllRefs(later, entries), key).value;
      LookedAtBefore(rq, create, entries, again);
      var q := FirstOf(rq, AllRefs(rq, entries), key).value;
      SpellingsLeadAlike(rq, create, q, again);
    }
  }

  lemma MetAgainAtAll(rq: Request, create: Creator, key: Key)
    requires PlanImport(rq).Ok? && Trimmed(rq) && OneChoice(rq)
    ensures var later := After(rq, PlanImport(rq).value, create);
      MetAlike(rq, later, key, FirstOf(rq, Met(rq), key), FirstOf(later, Met(later), key))
  {
    MetAgain(rq, create, Entries(rq.bundle), key);
  }

  lemma PrefixIsMet(rq: Request, n: nat)
    requires n <= |Entries(rq.bundle)|
    ensures forall p :: p in AllRefs(rq, Entries(rq.bundle)[..n]) ==> p in Met(rq)
  {
    var entries := Entries(rq.bundle);
    AllRefsAppend(rq, entries[..n], entries[n..]);
    assert entries == entries[..n] + entries[n..];
  }

  // ------------------------------------------------------ items, both times

  /** The second plan exists. */
  lemma PlanAgain(rq: Request, create: Creator)
    requires PlanImport(rq).Ok? && Trimmed(rq) && OneChoice(rq)
    ensures PlanImport(After(rq, PlanImport(rq).value, create)).Ok?
  {
    var later := After(rq, PlanImport(rq).value, create);
    PlanIsOk(rq);
    PlanIsOk(later);
    forall key | FirstOf(later, Met(later), key).Some? ensures ChoiceIsGood(later,
        FirstOf(later, Met(later), key).value) {
      MetAgainAtAll(rq, create, key);
      assert ChoiceIsGood(rq, FirstOf(rq, Met(rq), key).value);
    }
  }

  /** For an item looked at both times, what it refers to is provided the second time exactly
      when it was the first. */
  lemma ProvidedAgain(rq: Request, create: Creator, i: nat)
    requires PlanImport(rq).Ok? && Trimmed(rq) && OneChoice(rq) && i < |Entries(rq.bundle)|
    requires Considered(After(rq, PlanImport(rq).value, create), Entries(rq.bundle)[i])
    ensures var entries := Entries(rq.bundle);
      AllProvided(After(rq, PlanImport(rq).value, create), entries, entries[i])
      <==> AllProvided(rq, entries, entries[i])
  {
    var later, entries := After(rq, PlanImport(rq).value, create), Entries(rq.bundle);
    forall p | p in EntryRefs(rq, entries[i])
      ensures var key := rq.text.KeyOf(p.0, p.1);
        RefIsProvided(later, Met(later), key) <==> RefIsProvided(rq, Met(rq), key)
    {
      var key := rq.text.KeyOf(p.0, p.1);
      AllRefsOf(later, entries, p);
      FirstOfIsMet(later, Met(later), key);
      MetAgainAtAll(rq, create, key);
    }
  }

  /** What lacked nothing the first time lacks nothing the second time. */
  lemma LackingAgain(rq: Request, create: Creator, i: nat)
    requires PlanImport(rq).Ok? && Trimmed(rq) && OneChoice(rq) && i < |Entries(rq.bundle)|
    requires LacksNothing(rq, Entries(rq.bundle), i)
    ensures LacksNothing(After(rq, PlanImport(rq).value, create), Entries(rq.bundle), i)
  {
    var later, entries := After(rq, PlanImport(rq).value, create), Entries(rq.bundle);
    if DatasetKey(rq.text, entries[i]).Some? {
      PrefixIsMet(rq, i + 1);
      ColumnsAgain(rq, create, entries[..i + 1], entries[i], DatasetKey(rq.text, entries[i]).value);
    }
  }

  /** And the other way round, for an item whose dataset is a plain reference. */
  lemma PlainLackingAgain(rq: Request, create: Creator, i: nat)
    requires PlanImport(rq).Ok? && Trimmed(rq) && OneChoice(rq) && i < |Entries(rq.bundle)|
    requires Considered(After(rq, PlanImport(rq).value, create), Entries(rq.bundle)[i])
    requires PlainDataset(rq.text, Entries(rq.bundle)[i])
    requires LacksNothing(After(rq, PlanImport(rq).value, create), Entries(rq.bundle), i)
    ensures LacksNothing(rq, Entries(rq.bundle), i)
  {
    var later, entries := After(rq, PlanImport(rq).value, create), Entries(rq.bundle);
    if DatasetKey(rq.text, entries[i]).Some? {
      PrefixIsMet(rq, i + 1);
      ColumnsAgain(rq, create, entries[..i + 1], entries[i], DatasetKey(rq.text, entries[i]).value);
      PlainIsMet(later, entries, i);
    }
  }

  lemma ColumnsAgain(rq: Request, create: Creator, entries: seq<Entry>, e: Entry, key: Key)
    requires PlanImport(rq).Ok? && Trimmed(rq) && OneChoice(rq)
    requires forall p :: p in AllRefs(rq, entries) ==> p in Met(rq)
    requires key.0 == "dataset"
    ensures var later := After(rq, PlanImport(rq).value, create);
      SameColumns(rq, later, e, FirstOf(rq, AllRefs(rq, entries), key), FirstOf(later, AllRefs(later, entries), key))
  {
    var later := After(rq, PlanImport(rq).value, create);
    MetAgain(rq, create, entries, key);
    AfterKeeps(rq, PlanImport(rq).value, create);
    AlikeIsSameColumns(rq, later, key, e, AllRefs(rq, entries), AllRefs(later, entries));
  }

  lemma AfterKeeps(rq: Request, plan: Plan, create: Creator)
    ensures var later := After(rq, plan, create);
      && later.text == rq.text && later.bundle == rq.bundle && later.mapping == rq.mapping
      && later.target.columns == rq.target.columns
  {
  }

  /** What is still met is checked against the same columns. */
  ghost predicate SameColumns(rq: Request, later: Request, e: Entry, q: Option<(string, string)>,
        again: Option<(string, string)>) {
    again.Some? ==> q.Some? && (HasColumns(rq, e, q.value) <==> HasColumns(later, e, again.value))
  }

  lemma AlikeIsSameColumns(rq: Request, later: Request, key: Key, e: Entry, met: seq<(string, string)>,
                           metAgain: seq<(string, string)>)
    requires rq.text == later.text && rq.target.columns == later.target.columns && key.0 == "dataset"
    requires MetAlike(rq, later, key, FirstOf(rq, met, key), FirstOf(later, metAgain, key))
    ensures SameColumns(rq, later, e, FirstOf(rq, met, key), FirstOf(later, metAgain, key))
  {
  }

  ghost predicate RefersTo(rq: Request, e: Entry, key: Key) {
    exists p :: p in EntryRefs(rq, e) && rq.text.KeyOf(p.0, p.1) == key
  }

  /** No item that is still new refers to the name. */
  ghost predicate IsForgotten(rq: Request, plan: Plan, create: Creator, entries: seq<Entry>, key: Key) {
    forall j :: 0 <= j < |entries| && IsStillNew(rq, plan, create, entries[j]) ==> !RefersTo(rq, entries[j], key)
  }

  /** Item `i` is still new and provided for; it was skipped for a column its dataset lacks; and
      no item up to it that is still new refers to that dataset. */
  ghost predicate NoLongerChecked(rq: Request, plan: Plan, create: Creator, i: nat)
    requires i < |Entries(rq.bundle)|
  {
    var entries := Entries(rq.bundle);
    && IsStillNew(rq, plan, create, entries[i])
    && AllProvided(rq, entries, entries[i]) && !LacksNothing(rq, entries, i)
    && IsForgotten(rq, plan, create, entries[..i + 1], DatasetKey(rq.text, entries[i]).value)
  }

  /** A made item is in the project afterwards, except for a contract called after no dataset of its name. */
  lemma TakenAgain(rq: Request, create: Creator, i: nat)
    requires PlanImport(rq).Ok? && i < |PlanImport(rq).value.items| && PlanImport(rq).value.items[i].action.Create?
    requires AllMade(rq.text, PlanImport(rq).value, create)
    ensures i < |Entries(rq.bundle)|
    ensures var plan := PlanImport(rq).value;
      Considered(After(rq, plan, create), Entries(rq.bundle)[i]) <==>
        plan.items[i].section == Contracts && !ContractIsCalled(rq, plan, create, plan.items[i].name)
  {
    var plan := PlanImport(rq).value;
    CreateIsKnown(rq, i);
    StillNewIsConsidered(rq, plan, create, Entries(rq.bundle)[i]);
    if plan.items[i].section != Contracts {
      assert IsStoredAs(rq, plan, create, i, plan.items[i].name);
    }
  }

  /** What lacked a column is no longer checked for it exactly when nothing still new, up to the
      item, refers to its dataset. */
  lemma ForgottenIsExact(rq: Request, create: Creator, i: nat)
    requires PlanImport(rq).Ok? && Trimmed(rq) && OneChoice(rq) && i < |Entries(rq.bundle)|
    requires !LacksNothing(rq, Entries(rq.bundle), i)
    ensures var plan, entries := PlanImport(rq).value, Entries(rq.bundle);
      LacksNothing(After(rq, plan, create), entries, i)
      <==> IsForgotten(rq, plan, create, entries[..i + 1], DatasetKey(rq.text, entries[i]).value)
  {
    var plan, prefix := PlanImport(rq).value, Entries(rq.bundle)[..i + 1];
    var later, key := After(rq, plan, create), DatasetKey(rq.text, Entries(rq.bundle)[i]).value;
    PrefixIsMet(rq, i + 1);
    ColumnsAgain(rq, create, prefix, Entries(rq.bundle)[i], key);
    ForgottenIsNotMet(rq, plan, create, prefix, key);
  }

  lemma ForgottenIsNotMet(rq: Request, plan: Plan, create: Creator, entries: seq<Entry>, key: Key)
    ensures FirstOf(After(rq, plan, create), AllRefs(After(rq, plan, create), entries), key).None?
       <==> IsForgotten(rq, plan, create, entries, key)
  {
    var later := After(rq, plan, create);
    FirstOfIsMet(later, AllRefs(later, entries), key);
    if FirstOf(later, AllRefs(later, entries), key).Some? {
      var p := FirstOf(later, AllRefs(later, entries), key).value;
      AllRefsOf(later, entries, p);
      var j :| 0 <= j < |entries| && Considered(later, entries[j]) && p in EntryRefs(later, entries[j]);
      StillNewIsConsidered(rq, plan, create, entries[j]);
      assert p in EntryRefs(rq, entries[j]) && RefersTo(rq, entries[j], key);
    }
    if !IsForgotten(rq, plan, create, entries, key) {
      var j :| 0 <= j < |entries| && IsStillNew(rq, plan, create, entries[j]) && RefersTo(rq, entries[j], key);
      var p :| p in EntryRefs(rq, entries[j]) && rq.text.KeyOf(p.0, p.1) == key;
      StillNewIsConsidered(rq, plan, create, entries[j]);
      AllRefsOf(later, entries, p);
    }
  }

  /** Importing a bundle a second time makes item `i` again exactly when it is a contract and no
      contract made is over a dataset of its name; or anew, when the dataset whose column it
      lacks is no longer looked at. */
  lemma ImportAgain(rq: Request, create: Creator, i: nat)
    requires PlanImport(rq).Ok? && Trimmed(rq) && OneChoice(rq)
    requires AllMade(rq.text, PlanImport(rq).value, create) && i < |Entries(rq.bundle)|
    ensures var plan := PlanImport(rq).value;
      var later := After(rq, plan, create);
      && PlanImport(later).Ok? && i < |plan.items| == |PlanImport(later).value.items|
      && (PlanImport(later).value.items[i].action.Create? <==>
            || (plan.items[i].action.Create? && plan.items[i].section == Contracts
                && !ContractIsCalled(rq, plan, create, plan.items[i].name))
            || NoLongerChecked(rq, plan, create, i))
      && (PlainDataset(rq.text, Entries(rq.bundle)[i]) ==> !NoLongerChecked(rq, plan, create, i))
  {
    var later := After(rq, PlanImport(rq).value, create);
    PlanAgain(rq, create);
    ItemsAreEntries(rq);
    ItemsAreEntries(later);
    CreateIsExact(rq, i);
    CreateIsExact(later, i);
    StillNewIsConsidered(rq, PlanImport(rq).value, create, Entries(rq.bundle)[i]);
    if Considered(later, Entries(rq.bundle)[i]) {
      ProvidedAgain(rq, create, i);
      if LacksNothing(rq, Entries(rq.bundle), i) {
        LackingAgain(rq, create, i);
      } else {
        ForgottenIsExact(rq, create, i);
        if PlainDataset(rq.text, Entries(rq.bundle)[i]) && LacksNothing(later, Entries(rq.bundle), i) {
          PlainLackingAgain(rq, create, i);
        }
      }
    }
    if CanBeMade(rq, i) {
      TakenAgain(rq, create, i);
    }
  }

  /** Importing is idempotent: if every contract made is called as its item is, and every item's
      dataset is a plain reference, a second import makes nothing. */
  lemma NothingIsMadeTwice(rq: Request, create: Creator)
    requires PlanImport(rq).Ok? && Trimmed(rq) && OneChoice(rq)
    requires AllMade(rq.text, PlanImport(rq).value, create)
    requires PlainDatasets(rq)
    requires var plan := PlanImport(rq).value;
      forall j :: 0 <= j < |plan.items| && plan.items[j].action.Create? && plan.items[j].section == Contracts ==>
        IsStoredAs(rq, plan, create, j, plan.items[j].name)
    ensures var later := After(rq, PlanImport(rq).value, create);
      && PlanImport(later).Ok?
      && forall i :: 0 <= i < |PlanImport(later).value.items| ==> PlanImport(later).value.items[i].action.Skip?
  {
    var later := After(rq, PlanImport(rq).value, create);
    PlanAgain(rq, create);
    ItemsAreEntries(later);
    forall i | 0 <= i < |PlanImport(later).value.items| ensures PlanImport(later).value.items[i].action.Skip? {
      ImportAgain(rq, create, i);
    }
  }

  // -------------------------------------------------- references of the second plan

  /** What is there after the import was there before, or was made by it. */
  lemma ThereAfterwards(rq: Request, create: Creator, kind: string, name: string)
    requires PlanImport(rq).Ok? && Trimmed(rq) && AllMade(rq.text, PlanImport(rq).value, create)
    ensures IsThere(After(rq, PlanImport(rq).value, create), kind, name) <==>
      IsThere(rq, kind, name)
      || (rq.text.KeyOf(kind, name) in MadeByBundle(rq) && WillBeMade(rq, rq.text.KeyOf(kind, name)))
  {
    var plan, key := PlanImport(rq).value, rq.text.KeyOf(kind, name);
    if kind in KINDS {
      var listing, more := rq.target.listing(kind), Additions(rq, plan, create, kind);
      if n: Named :| n in listing + more && rq.text.fold(n.name) == key.1 {
        if n !in listing {
          AddedWillBeMade(rq, create, kind, n);
        }
      }
      if n: Named :| n in listing && rq.text.fold(n.name) == key.1 {
        assert n in listing + more;
      }
      if WillBeMade(rq, key) {
        WhatIsMadeIsAdded(rq, create, key);
        var n :| n in more && rq.text.fold(n.name) == key.1;
        assert n in listing + more;
      }
    } else {
      OnlyKindsAreMade(rq, key);
    }
  }

  lemma OnlyKindsAreMade(rq: Request, key: Key)
    ensures key in MadeByBundle(rq) ==> key.0 in KINDS && SectionOf(key.0) != Some(Contracts)
  {
  }

  lemma WhatIsMadeIsAdded(rq: Request, create: Creator, key: Key)
    requires PlanImport(rq).Ok? && AllMade(rq.text, PlanImport(rq).value, create)
    requires key.0 in KINDS && WillBeMade(rq, key)
    ensures exists n :: n in Additions(rq, PlanImport(rq).value, create, key.0) && rq.text.fold(n.name) == key.1
  {
    var plan := PlanImport(rq).value;
    var j :| 0 <= j < |Entries(rq.bundle)| && IsCalled(rq, Entries(rq.bundle)[j], key) && CanBeMade(rq, j);
    CreateIsExact(rq, j);
    CreateIsKnown(rq, j);
    SectionsAndKinds(plan.items[j].section, key.0);
    StoredIsAdded(rq, plan, create, j);
  }

  lemma AddedWillBeMade(rq: Request, create: Creator, kind: string, n: Named)
    requires PlanImport(rq).Ok? && Trimmed(rq) && kind in KINDS
    requires n in Additions(rq, PlanImport(rq).value, create, kind)
    ensures var key := rq.text.KeyOf(kind, n.name);
      key in MadeByBundle(rq) && WillBeMade(rq, key)
  {
    var plan := PlanImport(rq).value;
    AdditionsAreNew(rq, create, kind);
    var each := AdditionEach(rq, plan, create, kind);
    InFlatten(each, n);
    var j :| 0 <= j < |each| && n in each[j];
    SectionsAndKinds(plan.items[j].section, kind);
    CreateIsKnown(rq, j);
    CreateIsExact(rq, j);
    assert IsCalled(rq, Entries(rq.bundle)[j], rq.text.KeyOf(kind, n.name));
  }

  /** Nothing other items could refer to is planned the second time. */
  lemma NothingReferredToIsMade(rq: Request, create: Creator, key: Key)
    requires PlanImport(rq).Ok? && Trimmed(rq) && OneChoice(rq) && PlainDatasets(rq)
    requires AllMade(rq.text, PlanImport(rq).value, create) && key in MadeByBundle(rq)
    ensures !WillBeMade(After(rq, PlanImport(rq).value, create), key)
  {
    var later := After(rq, PlanImport(rq).value, create);
    OnlyKindsAreMade(rq, key);
    forall j | 0 <= j < |Entries(rq.bundle)| && SectionOf(key.0) == Some(Entries(rq.bundle)[j].section)
      ensures !CanBeMade(later, j)
    {
      NotMadeAgain(rq, create, j);
    }
  }

  lemma NotMadeAgain(rq: Request, create: Creator, j: nat)
    requires PlanImport(rq).Ok? && Trimmed(rq) && OneChoice(rq) && PlainDatasets(rq)
    requires AllMade(rq.text, PlanImport(rq).value, create)
    requires j < |Entries(rq.bundle)| && Entries(rq.bundle)[j].section != Contracts
    ensures !CanBeMade(After(rq, PlanImport(rq).value, create), j)
  {
    ImportAgain(rq, create, j);
    CreateIsExact(After(rq, PlanImport(rq).value, create), j);
    ItemsAreEntries(rq);
  }

  /** Replanning finds every reference it meets as the first plan left it, except that what was
      made is now matched. */
  lemma ReplanReferences(rq: Request, create: Creator, key: Key)
    requires PlanImport(rq).Ok? && Trimmed(rq) && OneChoice(rq) && PlainDatasets(rq)
    requires AllMade(rq.text, PlanImport(rq).value, create)
    ensures var later := After(rq, PlanImport(rq).value, create);
      && PlanImport(later).Ok?
      && (key in PlanImport(later).value.references ==>
            && key in PlanImport(rq).value.references
            && var first, again := PlanImport(rq).value.references[key], PlanImport(later).value.references[key];
               && again.status == (if first.status == Made then Matched else first.status)
               && (first.status != Made ==> again.id == first.id))
  {
    var later := After(rq, PlanImport(rq).value, create);
    PlanAgain(rq, create);
    StatusIsExact(rq, key);
    StatusIsExact(later, key);
    if key in PlanImport(later).value.references {
      MetAgainAtAll(rq, create, key);
      FirstOfIsMet(rq, Met(rq), key);
      FirstOfIsMet(later, Met(later), key);
      SameStatusAgain(rq, create, FirstOf(rq, Met(rq), key).value, FirstOf(later, Met(later), key).value);
    }
  }

  lemma SameStatusAgain(rq: Request, create: Creator, q: (string, string), again: (string, string))
    requires PlanImport(rq).Ok? && Trimmed(rq) && OneChoice(rq) && PlainDatasets(rq)
    requires AllMade(rq.text, PlanImport(rq).value, create)
    requires q in Met(rq) && again in Met(After(rq, PlanImport(rq).value, create))
    requires rq.text.KeyOf(q.0, q.1) == rq.text.KeyOf(again.0, again.1)
    ensures var later := After(rq, PlanImport(rq).value, create);
      && StatusOf(later, again) == (if StatusOf(rq, q) == Made then Matched else StatusOf(rq, q))
      && (StatusOf(rq, q) != Made ==> IdHere(rq, q) == IdHere(later, again))
  {
    var later, key := After(rq, PlanImport(rq).value, create), rq.text.KeyOf(q.0, q.1);
    LookedAtBefore(rq, create, Entries(rq.bundle), again);
    SpellingsLeadAlike(rq, create, q, again);
    ThereAfterwards(rq, create, again.0, again.1);
    if key in MadeByBundle(rq) {
      NothingReferredToIsMade(rq, create, key);
    }
    StatusFollows(rq, later, q, again);
  }

  lemma StatusFollows(rq: Request, later: Request, q: (string, string), again: (string, string))
    requires later.text == rq.text && later.bundle == rq.bundle && LeadAlike(rq, later, q, again)
    requires ChosenFor(rq, q.0, q.1) == ChosenFor(later, again.0, again.1)
    requires var key := rq.text.KeyOf(q.0, q.1);
      && (IsThere(later, again.0, again.1)
          <==> IsThere(rq, q.0, q.1) || (key in MadeByBundle(rq) && WillBeMade(rq, key)))
      && (key in MadeByBundle(rq) ==> !WillBeMade(later, key))
    ensures StatusOf(later, again) == (if StatusOf(rq, q) == Made then Matched else StatusOf(rq, q))
    ensures StatusOf(rq, q) != Made ==> IdHere(rq, q) == IdHere(later, again)
  {
    MadeByBundleAgain(rq, later);
    IsThereIsKnown(rq, q.0, q.1);
    IsThereIsKnown(later, again.0, again.1);
  }
}
