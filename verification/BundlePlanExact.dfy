/**
 What a plan will hold, said from the request alone (bundles.py, `plan_import`):
 which items are planned to be made, how each reference ends, and when the one
 loop may be read as two.
 */
module BundlePlanExact {
  import opened Common
  import opened BundleJson
  import opened BundleRefs
  import opened BundleRefsTheory
  import opened BundlePlan
  import opened BundlePlanTheory
  import opened BundleItems

  /** Every reference the loop looks at, in order. */
  function Met(rq: Request): seq<(string, string)> {
    AllRefs(rq, Entries(rq.bundle))
  }

  // -------------------------------------------------------- when there is a plan

  /** Listed thing `k` is the last of its name, but for case: what a look-up of that name leads to. */
  ghost predicate IsLastOfName(text: Text, listing: seq<Named>, k: int) {
    && 0 <= k < |listing|
    && forall m :: k < m < |listing| ==> text.fold(listing[m].name) != text.fold(listing[k].name)
  }

  lemma {:induction false} LastIsKnown(text: Text, listing: seq<Named>, k: int)
    requires IsLastOfName(text, listing, k)
    ensures var folded := text.fold(listing[k].name);
      folded in ByName(text, listing) && ByName(text, listing)[folded] == listing[k].id
  {
    var n := |listing| - 1;
    if k < n {
      assert text.fold(listing[n].name) != text.fold(listing[k].name);
      LastIsKnown(text, listing[..n], k);
    }
  }

  lemma {:induction false} KnownIsLast(text: Text, listing: seq<Named>, folded: string)
    requires folded in ByName(text, listing)
    ensures exists k ::
      && IsLastOfName(text, listing, k) && text.fold(listing[k].name) == folded
      && listing[k].id == ByName(text, listing)[folded]
  {
    var n := |listing| - 1;
    if text.fold(listing[n].name) == folded {
      assert IsLastOfName(text, listing, n);
    } else {
      KnownIsLast(text, listing[..n], folded);
      var k :| IsLastOfName(text, listing[..n], k) && text.fold(listing[k].name) == folded
        && listing[k].id == ByName(text, listing[..n])[folded];
      assert IsLastOfName(text, listing, k);
    }
  }

  /** The ids that can be chosen: of things listed alike, only the last one's. */
  lemma KnownIds(text: Text, listing: seq<Named>, id: Id)
    ensures id in ByName(text, listing).Values <==> exists k :: IsLastOfName(text, listing, k) && listing[k].id == id
  {
    if folded :| folded in ByName(text, listing) && ByName(text, listing)[folded] == id {
      KnownIsLast(text, listing, folded);
    }
    if k :| IsLastOfName(text, listing, k) && listing[k].id == id {
      LastIsKnown(text, listing, k);
    }
  }

  /** A bundle of ours, of this version or an older one. */
  predicate IsReadable(bundle: Bundle) {
    bundle.format == Str("pipewright.bundle") && bundle.version.Some? && bundle.version.value <= 1
  }

  /** What is no bundle of ours, or a newer one, is refused as such before anything is looked up. */
  lemma UnreadableIsRefused(rq: Request)
    ensures rq.bundle.format != Str("pipewright.bundle") ==> PlanImport(rq) == Err(NotABundle)
    ensures rq.bundle.format == Str("pipewright.bundle") && !IsReadable(rq.bundle) ==>
      PlanImport(rq) == Err(NewerVersion)
  {
  }

  /** Planning goes wrong exactly when this is no bundle of ours, or a choice made for the
      first spelling of some reference is no id, or not that of the last thing of its name. */
  lemma PlanIsOk(rq: Request)
    ensures PlanImport(rq).Ok? <==>
      IsReadable(rq.bundle) && forall key :: FirstOf(rq, Met(rq), key).Some? ==>
        ChoiceIsGood(rq, FirstOf(rq, Met(rq), key).value)
  {
    var entries := Entries(rq.bundle);
    assert entries[..0] == [] && entries[0..] == entries && entries[..|entries|] == entries;
    LoopReaches(rq, entries, 0, Plan([], map[]));
    IndexIsOk(rq, map[], Met(rq));
    forall q: (string, string) ensures Classify(rq, q.0, q.1).Ok? <==> ChoiceIsGood(rq, q) {
      ChoiceIsClassified(rq, q);
    }
  }

  /** If something was chosen for the name, it is the id of something there, the last listed of
      those called so but for case. */
  ghost predicate ChoiceIsGood(rq: Request, q: (string, string)) {
    var chosen := ChosenFor(rq, q.0, q.1);
    chosen.Some? ==>
      var id, listing := rq.text.parse(Str(chosen.value)), rq.target.listing(q.0);
      && id.Some? && q.0 in KINDS
      && exists k :: IsLastOfName(rq.text, listing, k) && listing[k].id == id.value
  }

  lemma ChoiceIsClassified(rq: Request, q: (string, string))
    ensures Classify(rq, q.0, q.1).Ok? <==> ChoiceIsGood(rq, q)
  {
    var chosen := ChosenFor(rq, q.0, q.1);
    if chosen.Some? && rq.text.parse(Str(chosen.value)).Some? && q.0 in KINDS {
      KnownIds(rq.text, rq.target.listing(q.0), rq.text.parse(Str(chosen.value)).value);
    }
  }

  // ------------------------------------------------------- which items are made

  /** What the first spelling of a name leads to in the target: what was chosen, or what is so called. */
  function IdHere(rq: Request, q: (string, string)): Option<Id> {
    match ChosenFor(rq, q.0, q.1)
    case Some(chosen) => rq.text.parse(Str(chosen))
    case None =>
      var existing, folded := Existing(rq, q.0), rq.text.fold(q.1);
      if folded in existing then Some(existing[folded]) else None
  }

  /** What a reference leads to in the target: by its first spelling, or by its own if no item
      that is looked at refers to it. */
  function RefLeadsTo(rq: Request, p: (string, string)): Option<Id> {
    match FirstOf(rq, Met(rq), rq.text.KeyOf(p.0, p.1))
    case None => IdHere(rq, p)
    case Some(q) => IdHere(rq, q)
  }

  /** The dataset an item's columns are looked for in, as a reference is looked up. */
  function DatasetKey(text: Text, e: Entry): Option<Key> {
    if e.section !in {Metrics, Charts, Checks} then None
    else match Get(e.raw, "dataset")
      case Some(Obj(ms)) => Some(text.KeyOf("dataset", SpelledName(text, ms)))
      case _ => None
  }

  /** Metrics, charts and checks are checked against the dataset that the dictionary under "dataset"
      names, whatever kind it says. */
  lemma DatasetIsSaid(text: Text, e: Entry, key: Key)
    ensures DatasetKey(text, e) == Some(key) <==> exists ms, name ::
      && e.section in {Metrics, Charts, Checks} && Says(e.raw, "dataset", Obj(ms))
      && IsSpelled(text, ms, name) && key == ("dataset", text.fold(name))
  {
    forall v ensures Get(e.raw, "dataset") == Some(v) <==> Says(e.raw, "dataset", v) {
      GetIsSaid(e.raw, "dataset", v);
    }
    forall ms, name ensures SpelledName(text, ms) == name <==> IsSpelled(text, ms, name) {
      SpellingIsSaid(text, ms, name);
    }
    if DatasetKey(text, e) == Some(key) {
      var ms := Get(e.raw, "dataset").value.members;
      assert Says(e.raw, "dataset", Obj(ms)) && IsSpelled(text, ms, SpelledName(text, ms));
    }
  }

  /** The dataset has the columns the item reads, as far as its columns are known. */
  ghost predicate HasColumns(rq: Request, e: Entry, q: (string, string)) {
    match IdHere(rq, q)
    case None => true
    case Some(id) =>
      id in rq.target.columns && rq.target.columns[id] != {} ==>
        forall column :: ReadsColumn(rq.text, e, column) ==> column in rq.target.columns[id]
  }

  /** The columns are there; only references met up to the item itself are looked in. */
  ghost predicate LacksNothing(rq: Request, entries: seq<Entry>, i: nat)
    requires i < |entries|
  {
    match DatasetKey(rq.text, entries[i])
    case None => true
    case Some(key) =>
      match FirstOf(rq, AllRefs(rq, entries[..i + 1]), key)
      case None => true
      case Some(q) => HasColumns(rq, entries[i], q)
  }

  ghost predicate RefIsProvided(rq: Request, met: seq<(string, string)>, key: Key) {
    match FirstOf(rq, met, key)
    case None => false
    case Some(q) => IsProvided(rq, q.0, q.1)
  }

  /** All an item refers to is provided, each by the spelling met first. */
  ghost predicate AllProvided(rq: Request, entries: seq<Entry>, e: Entry) {
    forall p :: p in EntryRefs(rq, e) ==> RefIsProvided(rq, AllRefs(rq, entries), rq.text.KeyOf(p.0, p.1))
  }

  /** Item `i` is named and new; outside workflows all it refers to was chosen, is there, or
      is named in the bundle; and its dataset has its columns. */
  ghost predicate CanBeMade(rq: Request, i: nat)
    requires i < |Entries(rq.bundle)|
  {
    var entries := Entries(rq.bundle);
    && Considered(rq, entries[i])
    && (entries[i].section == Workflows || AllProvided(rq, entries, entries[i]))
    && LacksNothing(rq, entries, i)
  }

  lemma KnownAt(rq: Request, entries: seq<Entry>, n: nat, key: Key)
    requires n <= |entries| && IndexAt(rq, entries, n).Ok?
    ensures var index, q := IndexAt(rq, entries, n).value, FirstOf(rq, AllRefs(rq, entries[..n]), key);
      && (key in index <==> q.Some?)
      && (q.Some? ==>
            && Classify(rq, q.value.0, q.value.1) == Ok(index[key])
            && FirstOf(rq, AllRefs(rq, entries), key) == q
            && index[key].id == IdHere(rq, q.value)
            && (index[key].status == Missing <==> !IsProvided(rq, q.value.0, q.value.1)))
  {
    IndexIsFirst(rq, map[], AllRefs(rq, entries[..n]), key);
    assert entries == entries[..n] + entries[n..];
    AllRefsAppend(rq, entries[..n], entries[n..]);
    FirstOfAppend(rq, AllRefs(rq, entries[..n]), AllRefs(rq, entries[n..]), key);
    var q := FirstOf(rq, AllRefs(rq, entries[..n]), key);
    if q.Some? {
      ClassifyIsTrue(rq, q.value.0, q.value.1);
    }
  }

  lemma {:induction false} MissingIsUnprovided(rq: Request, entries: seq<Entry>, n: nat, ps: seq<(string, string)>)
    requires n <= |entries| && IndexAt(rq, entries, n).Ok? && Covers(rq, IndexAt(rq, entries, n).value, ps)
    ensures FirstMissing(rq, IndexAt(rq, entries, n).value, ps).None? <==>
      forall p :: p in ps ==> RefIsProvided(rq, AllRefs(rq, entries), rq.text.KeyOf(p.0, p.1))
  {
    if ps != [] {
      assert ps[0] in ps;
      KnownAt(rq, entries, n, rq.text.KeyOf(ps[0].0, ps[0].1));
      MissingIsUnprovided(rq, entries, n, ps[1..]);
      assert forall p :: p in ps <==> p == ps[0] || p in ps[1..];
    }
  }

  lemma LackingIsExact(rq: Request, entries: seq<Entry>, i: nat, n: nat)
    requires i < |entries| && n <= |entries| && IndexAt(rq, entries, n).Ok?
    ensures Lacking(rq, IndexAt(rq, entries, n).value, entries[i]) == {} <==>
      match DatasetKey(rq.text, entries[i])
      case None => true
      case Some(key) =>
        match FirstOf(rq, AllRefs(rq, entries[..n]), key)
        case None => true
        case Some(q) => HasColumns(rq, entries[i], q)
  {
    if DatasetKey(rq.text, entries[i]).Some? {
      KnownAt(rq, entries, n, DatasetKey(rq.text, entries[i]).value);
    }
    forall column
      ensures column in ColumnsUsed(rq.text, entries[i].section, entries[i].raw)
         <==> ReadsColumn(rq.text, entries[i], column)
    {
      ColumnsAreRead(rq.text, entries[i], column);
    }
  }

  /** An item is planned to be made exactly when it can be. */
  lemma CreateIsExact(rq: Request, i: nat)
    requires PlanImport(rq).Ok? && i < |Entries(rq.bundle)|
    ensures i < |PlanImport(rq).value.items|
    ensures PlanImport(rq).value.items[i].action.Create? <==> CanBeMade(rq, i)
  {
    LoopShape(rq);
    var entries := Entries(rq.bundle);
    var e := entries[i];
    IndexGrows(rq, entries, i + 1, |entries|);
    if Considered(rq, e) {
      IndexCovers(rq, entries, i);
      MissingIsUnprovided(rq, entries, i + 1, EntryRefs(rq, e));
      LackingIsExact(rq, entries, i, i + 1);
    }
  }

  // --------------------------------------------------- how each reference ends

  /** Some item of the bundle that can be made is what `key` names. */
  ghost predicate WillBeMade(rq: Request, key: Key) {
    exists j :: 0 <= j < |Entries(rq.bundle)| && IsCalled(rq, Entries(rq.bundle)[j], key) && CanBeMade(rq, j)
  }

  predicate IsCalled(rq: Request, e: Entry, key: Key) {
    SectionOf(key.0) == Some(e.section) && rq.text.fold(EntryName(rq.text, e)) == key.1
  }

  lemma CreatedIsExact(rq: Request, key: Key)
    requires PlanImport(rq).Ok?
    ensures Created(rq, PlanImport(rq).value.items, key) <==> WillBeMade(rq, key)
  {
    var items, entries := PlanImport(rq).value.items, Entries(rq.bundle);
    ItemsAreEntries(rq);
    if Created(rq, items, key) {
      var j :| 0 <= j < |items| && Creates(rq, items[j], key);
      CreateIsKnown(rq, j);
      CreateIsExact(rq, j);
      assert IsCalled(rq, entries[j], key);
    }
    if WillBeMade(rq, key) {
      var j :| 0 <= j < |entries| && IsCalled(rq, entries[j], key) && CanBeMade(rq, j);
      CreateIsExact(rq, j);
      CreateIsKnown(rq, j);
      assert Creates(rq, items[j], key);
    }
  }

  /** How a reference first spelled `q` ends, by what was chosen, what is there, and what can be made. */
  ghost function StatusOf(rq: Request, q: (string, string)): Status {
    var key := rq.text.KeyOf(q.0, q.1);
    if ChosenFor(rq, q.0, q.1).Some? then Chosen
    else if IsThere(rq, q.0, q.1) then Matched
    else if key in MadeByBundle(rq) && WillBeMade(rq, key) then Made
    else Missing
  }

  /** The references of a finished plan are exactly those met, each with the status its first
      spelling deserves. */
  lemma StatusIsExact(rq: Request, key: Key)
    requires PlanImport(rq).Ok?
    ensures var references, q := PlanImport(rq).value.references, FirstOf(rq, Met(rq), key);
      && (key in references <==> q.Some?)
      && (q.Some? ==>
            && references[key].kind == q.value.0 && references[key].name == q.value.1
            && references[key].id == IdHere(rq, q.value)
            && references[key].status == StatusOf(rq, q.value))
  {
    LoopShape(rq);
    var entries := Entries(rq.bundle);
    assert entries[..|entries|] == entries;
    KnownAt(rq, entries, |entries|, key);
    FirstOfIsMet(rq, Met(rq), key);
    CreatedIsExact(rq, key);
    if FirstOf(rq, Met(rq), key).Some? {
      ReferencesAreTrue(rq, key);
    }
  }

  /** Why item `i` is planned, and when a reference it needs is missing all the same: when
      nothing was chosen for it or is there, and every item of the bundle so called is
      itself unnamed, not new, without something it refers to, or without its columns. */
  lemma CreateIsJustified(rq: Request, i: nat)
    requires PlanImport(rq).Ok? && i < |PlanImport(rq).value.items|
    requires PlanImport(rq).value.items[i].action.Create?
    ensures i < |Entries(rq.bundle)|
    ensures var plan, e := PlanImport(rq).value, Entries(rq.bundle)[i];
      && plan.items[i] == Planned(e.section, EntryName(rq.text, e), Create(e.raw))
      && CanBeMade(rq, i)
      && forall p :: p in EntryRefs(rq, e) ==>
           var key := rq.text.KeyOf(p.0, p.1);
           var q := FirstOf(rq, Met(rq), key);
           && q.Some? && key in plan.references
           && (e.section != Workflows ==>
                 (plan.references[key].status == Missing <==>
                    ChosenFor(rq, q.value.0, q.value.1).None? && !IsThere(rq, q.value.0, q.value.1)
                        && !WillBeMade(rq, key)))
  {
    CreateIsKnown(rq, i);
    CreateIsExact(rq, i);
    var e := Entries(rq.bundle)[i];
    forall p | p in EntryRefs(rq, e)
      ensures var key := rq.text.KeyOf(p.0, p.1);
        var q := FirstOf(rq, Met(rq), key);
        && q.Some? && key in PlanImport(rq).value.references
        && (e.section != Workflows ==>
              (PlanImport(rq).value.references[key].status == Missing <==>
                 ChosenFor(rq, q.value.0, q.value.1).None? && !IsThere(rq, q.value.0, q.value.1)
                     && !WillBeMade(rq, key)))
    {
      var key := rq.text.KeyOf(p.0, p.1);
      StatusIsExact(rq, key);
      FirstOfIsMet(rq, Met(rq), key);
      if e.section != Workflows {
        assert RefIsProvided(rq, Met(rq), key);
      }
    }
  }

  // --------------------------------------------------------- two items, one name

  /** Names taken are read once: two items are both planned under one name exactly when each
      can be made and their names are the same but for case. */
  lemma BothPlannedUnderOneName(rq: Request, i: nat, j: nat)
    requires PlanImport(rq).Ok? && i < |Entries(rq.bundle)| && j < |Entries(rq.bundle)|
    ensures var items, entries := PlanImport(rq).value.items, Entries(rq.bundle);
      && i < |items| && j < |items|
      && (items[i].action.Create? && items[j].action.Create?
          && items[i].section == items[j].section && rq.text.fold(items[i].name) == rq.text.fold(items[j].name)
          <==>
          && CanBeMade(rq, i) && CanBeMade(rq, j) && entries[i].section == entries[j].section
          && rq.text.fold(EntryName(rq.text, entries[i])) == rq.text.fold(EntryName(rq.text, entries[j])))
  {
    CreateIsExact(rq, i);
    CreateIsExact(rq, j);
    if PlanImport(rq).value.items[i].action.Create? {
      CreateIsKnown(rq, i);
    }
    if PlanImport(rq).value.items[j].action.Create? {
      CreateIsKnown(rq, j);
    }
  }

  // -------------------------------------------------------------- the two passes

  /** All item `i` refers to is provided, and its dataset lacks a column of it, but the dataset
      is first referred to by a later item: too late for the item to be checked against it. */
  ghost predicate MetTooLate(rq: Request, entries: seq<Entry>, i: nat)
    requires i < |entries|
  {
    && Considered(rq, entries[i]) && AllProvided(rq, entries, entries[i])
    && match DatasetKey(rq.text, entries[i])
       case None => false
       case Some(key) =>
         && FirstOf(rq, AllRefs(rq, entries[..i + 1]), key).None?
         && match FirstOf(rq, AllRefs(rq, entries), key)
            case None => false
            case Some(q) => !HasColumns(rq, entries[i], q)
  }

  /** Judged in turn is judged with every reference known, unless the dataset is met too late. */
  lemma JudgedInTurn(rq: Request, entries: seq<Entry>, i: nat)
    requires i < |entries| && IndexAt(rq, entries, |entries|).Ok?
    ensures IndexAt(rq, entries, i + 1).Ok?
    ensures Judge(rq, IndexAt(rq, entries, i + 1).value, entries[i])
         == Judge(rq, IndexAt(rq, entries, |entries|).value, entries[i])
       <==> !MetTooLate(rq, entries, i)
  {
    var n := |entries|;
    assert entries[..n] == entries;
    IndexGrows(rq, entries, i + 1, n);
    var small, large, e := IndexAt(rq, entries, i + 1).value, IndexAt(rq, entries, n).value, entries[i];
    if Considered(rq, e) {
      IndexCovers(rq, entries, i);
      MissingIsUnprovided(rq, entries, n, EntryRefs(rq, e));
      LackingIsExact(rq, entries, i, i + 1);
      LackingIsExact(rq, entries, i, n);
      if DatasetKey(rq.text, e).Some? {
        KnownAt(rq, entries, i + 1, DatasetKey(rq.text, e).value);
      }
    }
    JudgeStable(rq, small, large, e);
  }

  /** Although items are judged in turn while references are still being met, item `i` is
      judged as if all were known, exactly when its dataset is not met too late. */
  lemma JudgedAtTheEnd(rq: Request, i: nat)
    requires PlanImport(rq).Ok? && i < |Entries(rq.bundle)|
    ensures Loop(rq).Ok? && i < |PlanImport(rq).value.items|
    ensures PlanImport(rq).value.items[i] == Judge(rq, Loop(rq).value.references, Entries(rq.bundle)[i])
       <==> !MetTooLate(rq, Entries(rq.bundle), i)
  {
    LoopShape(rq);
    JudgedInTurn(rq, Entries(rq.bundle), i);
  }

  /** What is met too late to be skipped for is planned. */
  lemma TooLateIsPlanned(rq: Request, i: nat)
    requires PlanImport(rq).Ok? && i < |Entries(rq.bundle)| && MetTooLate(rq, Entries(rq.bundle), i)
    ensures i < |PlanImport(rq).value.items|
    ensures var e := Entries(rq.bundle)[i];
      PlanImport(rq).value.items[i] == Planned(e.section, EntryName(rq.text, e), Create(e.raw))
  {
    CreateIsExact(rq, i);
    CreateIsKnown(rq, i);
  }

  /** An item that stands twice in a bundle gets the same verdict twice, exactly when its dataset
      is met too late for both or for neither. */
  lemma TwinsArePlannedAlike(rq: Request, i: nat, j: nat)
    requires PlanImport(rq).Ok? && i < |Entries(rq.bundle)| && j < |Entries(rq.bundle)|
    requires Entries(rq.bundle)[i] == Entries(rq.bundle)[j]
    ensures i < |PlanImport(rq).value.items| && j < |PlanImport(rq).value.items|
    ensures PlanImport(rq).value.items[i] == PlanImport(rq).value.items[j] <==>
      (MetTooLate(rq, Entries(rq.bundle), i) <==> MetTooLate(rq, Entries(rq.bundle), j))
  {
    JudgedAtTheEnd(rq, i);
    JudgedAtTheEnd(rq, j);
    if MetTooLate(rq, Entries(rq.bundle), i) {
      TooLateIsPlanned(rq, i);
    }
    if MetTooLate(rq, Entries(rq.bundle), j) {
      TooLateIsPlanned(rq, j);
    }
  }

  /** The interleaved loop is two passes, classify every reference of every named, new item by
      its first spelling and then judge every item against them all, exactly when no item's
      dataset is met too late. */
  lemma TwoPass(rq: Request, entries: seq<Entry>)
    ensures PlanEntries(rq, Plan([], map[]), entries) == PlanInTwoPasses(rq, entries)
       <==> (AddRefs(rq, map[], AllRefs(rq, entries)).Ok? ==>
               forall i :: 0 <= i < |entries| ==> !MetTooLate(rq, entries, i))
  {
    var n := |entries|;
    assert entries[..0] == [] && entries[0..] == entries && entries[..n] == entries;
    LoopReaches(rq, entries, 0, Plan([], map[]));
    if IndexAt(rq, entries, n).Ok? {
      var index := IndexAt(rq, entries, n).value;
      var end := PlanEntries(rq, Plan([], map[]), entries).value;
      forall i | 0 <= i < n ensures end.items[i] == Judge(rq, index, entries[i]) <==> !MetTooLate(rq, entries, i) {
        JudgedInTurn(rq, entries, i);
      }
      assert end.items == JudgeAll(rq, index, entries) <==>
        forall i :: 0 <= i < n ==> end.items[i] == JudgeAll(rq, index, entries)[i];
    }
  }

  /** An item's dataset is a dataset reference where the item has one, as every export writes it. */
  predicate PlainDataset(text: Text, e: Entry) {
    e.section in {Metrics, Charts, Checks} ==>
      match Get(e.raw, "dataset")
      case Some(Obj(ms)) => !IsRef(e.raw) && IsRef(ms) && RefPair(text, ms).0 == "dataset"
      case _ => true
  }

  lemma DatasetIsRef(rq: Request, e: Entry, ms: seq<Member>)
    requires PlainDataset(rq.text, e) && e.section in {Metrics, Charts, Checks}
    requires Get(e.raw, "dataset") == Some(Obj(ms))
    ensures ("dataset", SpelledName(rq.text, ms)) in EntryRefs(rq, e)
  {
    GetIsMember(e.raw, "dataset");
    var i :| 0 <= i < |e.raw| && e.raw[i] == Member("dataset", Obj(ms));
    assert RefsIn(rq.text, e.raw[i].value) == [("dataset", SpelledName(rq.text, ms))];
    RefsInMembersAt(rq.text, e.raw, ("dataset", SpelledName(rq.text, ms)));
  }

  /** An item whose dataset is a plain reference refers to it itself. */
  lemma PlainIsMet(rq: Request, entries: seq<Entry>, i: nat)
    requires i < |entries| && Considered(rq, entries[i]) && PlainDataset(rq.text, entries[i])
    requires DatasetKey(rq.text, entries[i]).Some?
    ensures FirstOf(rq, AllRefs(rq, entries[..i + 1]), DatasetKey(rq.text, entries[i]).value).Some?
  {
    var e := entries[i];
    var ms := Get(e.raw, "dataset").value.members;
    DatasetIsRef(rq, e, ms);
    AllRefsHold(rq, entries[..i + 1], i, ("dataset", SpelledName(rq.text, ms)));
    FirstOfIsMet(rq, AllRefs(rq, entries[..i + 1]), DatasetKey(rq.text, e).value);
  }

  /** In an exported bundle no dataset is met too late. */
  lemma PlainIsInTime(rq: Request, entries: seq<Entry>, i: nat)
    requires i < |entries| && PlainDataset(rq.text, entries[i])
    ensures !MetTooLate(rq, entries, i)
  {
    if DatasetKey(rq.text, entries[i]).Some? && Considered(rq, entries[i]) {
      PlainIsMet(rq, entries, i);
    }
  }

  lemma TwoPassOfPlain(rq: Request)
    requires PlanImport(rq).Ok? && forall e :: e in Entries(rq.bundle) ==> PlainDataset(rq.text, e)
    ensures AddRefs(rq, map[], Met(rq)).Ok?
    ensures var index := AddRefs(rq, map[], Met(rq)).value;
      Loop(rq) == Ok(Plan(JudgeAll(rq, index, Entries(rq.bundle)), index))
  {
    var entries := Entries(rq.bundle);
    TwoPass(rq, entries);
    forall i | 0 <= i < |entries| ensures !MetTooLate(rq, entries, i) {
      assert entries[i] in entries;
      PlainIsInTime(rq, entries, i);
    }
  }

  lemma {:induction false} AllRefsHold(rq: Request, entries: seq<Entry>, i: nat, p: (string, string))
    requires i < |entries| && Considered(rq, entries[i]) && p in EntryRefs(rq, entries[i])
    ensures p in AllRefs(rq, entries)
  {
    if i > 0 {
      AllRefsHold(rq, entries[1..], i - 1, p);
    }
  }
}
