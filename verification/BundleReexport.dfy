/** Exporting from the project a bundle was imported into (bundles.py): exactly what comes back. */
module BundleReexport {
  import opened Common
  import opened BundleJson
  import opened BundleRefs
  import opened BundleRoundTrip
  import opened BundleRefsTheory
  import opened BundlePlan
  import opened BundlePlanTheory
  import opened BundlePlanExact
  import opened BundleImport
  import opened BundleImportTheory
  import opened BundleTwice

  // ------------------------------------------------------- what an export reads

  /** `_names`: the things of one kind by id. */
  function NamesById(listing: seq<Named>): map<Id, string> {
    if listing == [] then map[]
    else
      var last := listing[|listing| - 1];
      NamesById(listing[..|listing| - 1])[last.id := last.name]
  }

  /** The names an export of a project reads. */
  function NamesOf(target: Target): Names {
    map kind | kind in KINDS :: NamesById(target.listing(kind))
  }

  /** Things with one id are one thing. */
  ghost predicate KeyedById(listing: seq<Named>) {
    forall a, b :: a in listing && b in listing && a.id == b.id ==> a == b
  }

  lemma {:induction false} NamesAreListed(listing: seq<Named>, id: Id)
    ensures id in NamesById(listing) ==> Named(id, NamesById(listing)[id]) in listing
    ensures id !in NamesById(listing) ==> forall n :: n in listing ==> n.id != id
  {
    if listing != [] {
      var rest, last := listing[..|listing| - 1], listing[|listing| - 1];
      NamesAreListed(rest, id);
      assert listing == rest + [last];
    }
  }

  lemma NameIsListed(target: Target, kind: string, id: Id, name: string)
    requires kind in KINDS && KeyedById(target.listing(kind))
    ensures id in NamesOf(target)[kind] && NamesOf(target)[kind][id] == name
       <==> Named(id, name) in target.listing(kind)
  {
    NamesAreListed(target.listing(kind), id);
  }

  // ------------------------------------------------------------ what a name leads to

  /** Item `j` is the last before item `i` to have made what `key` names. */
  ghost predicate ProvidesLast(text: Text, plan: Plan, create: Creator, i: nat, j: int, key: Key)
    requires i <= |plan.items|
  {
    && 0 <= j < i && Provides(text, plan, create, j, key)
    && forall k :: j < k < i ==> !Provides(text, plan, create, k, key)
  }

  lemma {:induction false} MadeIdIsLast(text: Text, plan: Plan, create: Creator, i: nat, j: int, key: Key)
    requires i <= |plan.items| && ProvidesLast(text, plan, create, i, j, key)
    ensures var made := ApplyUpTo(text, plan, create, i).madeIds;
      key in made && Some(made[key]) == Outcome(text, plan, create, j)
  {
    if j < i - 1 {
      assert !Provides(text, plan, create, i - 1, key);
      MadeIdIsLast(text, plan, create, i - 1, j, key);
      StepKeeps(text, plan, create, i - 1, key);
    }
  }

  lemma StepKeeps(text: Text, plan: Plan, create: Creator, i: nat, key: Key)
    requires i < |plan.items| && !Provides(text, plan, create, i, key)
    requires key in ApplyUpTo(text, plan, create, i).madeIds
    ensures var made := ApplyUpTo(text, plan, create, i + 1).madeIds;
      key in made && made[key] == ApplyUpTo(text, plan, create, i).madeIds[key]
  {
  }

  ghost predicate IsLastSuch(p: int -> bool, n: nat, last: int) {
    0 <= last < n && p(last) && forall k :: last < k < n ==> !p(k)
  }

  /** Among the first `n` positions that satisfy something there is a last one. */
  lemma {:induction false} LastSuch(p: int -> bool, n: nat, j: int) returns (last: int)
    requires 0 <= j < n && p(j)
    ensures IsLastSuch(p, n, last)
  {
    if p(n - 1) {
      last := n - 1;
    } else {
      last := LastSuch(p, n - 1, j);
    }
  }

  lemma SomeProvidesLast(text: Text, plan: Plan, create: Creator, i: nat, key: Key)
    requires i <= |plan.items| && SomeProvides(text, plan, create, i, key)
    ensures exists j :: ProvidesLast(text, plan, create, i, j, key)
  {
    var p := (j: int) => 0 <= j < |plan.items| && Provides(text, plan, create, j, key);
    var j :| 0 <= j < i && Provides(text, plan, create, j, key);
    var last := LastSuch(p, i, j);
    forall k | last < k < i ensures !Provides(text, plan, create, k, key) {
      assert !p(k);
    }
    assert ProvidesLast(text, plan, create, i, last, key);
  }

  /** An item before `i` made what the reference names, the last to do so, and it is called as spelled. */
  ghost predicate CalledAsMade(rq: Request, plan: Plan, create: Creator, i: nat, p: (string, string))
    requires i <= |plan.items|
  {
    exists j :: ProvidesLast(rq.text, plan, create, i, j, rq.text.KeyOf(p.0, p.1)) && plan.items[j].name == p.1
  }

  /** A reference of item `i` is spelled as the thing it leads to is called: the target's own, or
      else what an item before `i` made. */
  ghost predicate SpelledAsCalled(rq: Request, plan: Plan, create: Creator, i: nat, p: (string, string))
    requires i < |plan.items|
  {
    match RefLeadsTo(rq, p)
    case Some(id) => Named(id, p.1) in rq.target.listing(p.0)
    case None => CalledAsMade(rq, plan, create, i, p)
  }

  ghost predicate AllSpelledAsCalled(rq: Request, plan: Plan, create: Creator, i: nat, v: Json)
    requires i < |plan.items|
  {
    forall p :: p in RefsIn(rq.text, v) ==> SpelledAsCalled(rq, plan, create, i, p)
  }

  /** Ids are keys, in the project as the import leaves it. */
  ghost predicate AllKeyedById(target: Target) {
    forall kind :: kind in KINDS ==> KeyedById(target.listing(kind))
  }

  /** What a reference leads to in the target is a thing of its kind there. */
  lemma LedToIsThere(rq: Request, q: (string, string))
    requires ChoiceIsGood(rq, q) && IdHere(rq, q).Some?
    ensures q.0 in KINDS && exists n :: n in rq.target.listing(q.0) && n.id == IdHere(rq, q).value
  {
    var id, listing := IdHere(rq, q).value, rq.target.listing(q.0);
    if ChosenFor(rq, q.0, q.1).Some? {
      var k :| IsLastOfName(rq.text, listing, k) && listing[k].id == id;
      assert listing[k] in listing;
    } else {
      ByNameIsListed(rq.text, listing, rq.text.fold(q.1));
    }
  }

  /** A planned item's reference has been met, and its first spelling leads where the plan says. */
  lemma LeadsAsPlanned(rq: Request, i: nat, p: (string, string))
    requires PlanImport(rq).Ok? && i < |PlanImport(rq).value.items|
    requires PlanImport(rq).value.items[i].action.Create?
    requires p in RefsIn(rq.text, Obj(PlanImport(rq).value.items[i].action.raw))
    ensures var references, key := PlanImport(rq).value.references, rq.text.KeyOf(p.0, p.1);
      && key in references && references[key].id == RefLeadsTo(rq, p)
      && (RefLeadsTo(rq, p).Some? ==>
            p.0 in KINDS && exists n :: n in rq.target.listing(p.0) && n.id == RefLeadsTo(rq, p).value)
  {
    var key := rq.text.KeyOf(p.0, p.1);
    CreateIsKnown(rq, i);
    StatusIsExact(rq, key);
    FirstOfIsMet(rq, Met(rq), key);
    PlanIsOk(rq);
    if RefLeadsTo(rq, p).Some? {
      LedToIsThere(rq, FirstOf(rq, Met(rq), key).value);
    }
  }

  /** What the target had keeps its name. */
  lemma TargetKeepsName(rq: Request, plan: Plan, create: Creator, kind: string, n: Named, name: string)
    requires kind in KINDS && KeyedById(After(rq, plan, create).target.listing(kind))
    requires n in rq.target.listing(kind)
    ensures var names := NamesOf(After(rq, plan, create).target);
      n.id in names[kind] && names[kind][n.id] == name <==> Named(n.id, name) in rq.target.listing(kind)
  {
    var listing, more := rq.target.listing(kind), Additions(rq, plan, create, kind);
    assert n in listing + more && (Named(n.id, name) in listing ==> Named(n.id, name) in listing + more);
    NameIsListed(After(rq, plan, create).target, kind, n.id, name);
  }

  /** What the import made is called as its item. */
  lemma MadeHasItsName(rq: Request, plan: Plan, create: Creator, j: nat, key: Key, name: string)
    requires j < |plan.items| && plan.items[j].action.Create? && Provides(rq.text, plan, create, j, key)
    requires AllKeyedById(After(rq, plan, create).target)
    ensures key.0 in KINDS
    ensures var names, id := NamesOf(After(rq, plan, create).target), Outcome(rq.text, plan, create, j).value;
      id in names[key.0] && names[key.0][id] == name <==> plan.items[j].name == name
  {
    var listing, more := rq.target.listing(key.0), Additions(rq, plan, create, key.0);
    var id := Outcome(rq.text, plan, create, j).value;
    SectionsAndKinds(plan.items[j].section, key.0);
    StoredIsAdded(rq, plan, create, j);
    assert Named(id, plan.items[j].name) in listing + more;
    assert KeyedById(After(rq, plan, create).target.listing(key.0));
    NameIsListed(After(rq, plan, create).target, key.0, id, name);
  }

  /** What leads nowhere in the target leads to what the import has made by then. */
  lemma FoundAsMade(rq: Request, plan: Plan, create: Creator, i: nat, j: int, p: (string, string))
    requires i <= |plan.items| && AllKeyedById(After(rq, plan, create).target)
    requires var key := rq.text.KeyOf(p.0, p.1); key in plan.references && plan.references[key].id.None?
    requires ProvidesLast(rq.text, plan, create, i, j, rq.text.KeyOf(p.0, p.1))
    ensures SameName(rq.text, NamesOf(After(rq, plan, create).target),
                     Find(plan.references, ApplyUpTo(rq.text, plan, create, i).madeIds), p)
      <==> plan.items[j].name == p.1
  {
    var key := rq.text.KeyOf(p.0, p.1);
    MadeIdIsLast(rq.text, plan, create, i, j, key);
    MadeHasItsName(rq, plan, create, j, key, p.1);
  }

  lemma OneIsLast(text: Text, plan: Plan, create: Creator, i: nat, j: int, k: int, key: Key)
    requires i <= |plan.items| && ProvidesLast(text, plan, create, i, j, key)
    requires ProvidesLast(text, plan, create, i, k, key)
    ensures j == k
  {
  }

  lemma SpelledAsMade(rq: Request, plan: Plan, create: Creator, i: nat, p: (string, string))
    requires i <= |plan.items| && AllKeyedById(After(rq, plan, create).target)
    requires var key := rq.text.KeyOf(p.0, p.1); key in plan.references && plan.references[key].id.None?
    ensures SameName(rq.text, NamesOf(After(rq, plan, create).target),
                     Find(plan.references, ApplyUpTo(rq.text, plan, create, i).madeIds), p)
      <==> CalledAsMade(rq, plan, create, i, p)
  {
    var key := rq.text.KeyOf(p.0, p.1);
    MadeIdsAreProvided(rq.text, plan, create, i, key);
    if SomeProvides(rq.text, plan, create, i, key) {
      SomeProvidesLast(rq.text, plan, create, i, key);
      var j :| ProvidesLast(rq.text, plan, create, i, j, key);
      FoundAsMade(rq, plan, create, i, j, p);
      forall k | ProvidesLast(rq.text, plan, create, i, k, key) ensures k == j {
        OneIsLast(rq.text, plan, create, i, j, k, key);
      }
    } else {
      forall k ensures !ProvidesLast(rq.text, plan, create, i, k, key) {
      }
    }
  }

  /** A reference of an item that was made is found under its spelling exactly when it is spelled
      as what it leads to is called. */
  lemma SpelledIsSame(rq: Request, create: Creator, i: nat, p: (string, string))
    requires PlanImport(rq).Ok? && i < |PlanImport(rq).value.items|
    requires PlanImport(rq).value.items[i].action.Create?
    requires p in RefsIn(rq.text, Obj(PlanImport(rq).value.items[i].action.raw))
    requires AllKeyedById(After(rq, PlanImport(rq).value, create).target)
    ensures var plan := PlanImport(rq).value;
      SameName(rq.text, NamesOf(After(rq, plan, create).target),
               Find(plan.references, ApplyUpTo(rq.text, plan, create, i).madeIds), p)
      <==> SpelledAsCalled(rq, plan, create, i, p)
  {
    var plan := PlanImport(rq).value;
    LeadsAsPlanned(rq, i, p);
    match RefLeadsTo(rq, p)
    case Some(id) =>
      var n :| n in rq.target.listing(p.0) && n.id == id;
      TargetKeepsName(rq, plan, create, p.0, n, p.1);
    case None =>
      SpelledAsMade(rq, plan, create, i, p);
  }

  // ------------------------------------------------------------------ what comes back

  /** The references of a part are its item's. */
  lemma PartRefs(text: Text, raw: seq<Member>, m: nat, p: (string, string))
    requires !IsRef(raw) && m < |raw| && p in RefsIn(text, raw[m].value)
    ensures p in RefsIn(text, Obj(raw))
  {
    RefsInMembersAt(text, raw, p);
  }

  lemma PartIsSpelled(rq: Request, create: Creator, i: nat, m: nat)
    requires PlanImport(rq).Ok? && i < |PlanImport(rq).value.items|
    requires PlanImport(rq).value.items[i].action.Create?
    requires var raw := PlanImport(rq).value.items[i].action.raw; !IsRef(raw) && m < |raw|
    requires AllKeyedById(After(rq, PlanImport(rq).value, create).target)
    ensures var plan := PlanImport(rq).value;
      var part, find := plan.items[i].action.raw[m].value,
        Find(plan.references, ApplyUpTo(rq.text, plan, create, i).madeIds);
      AllSameName(rq.text, NamesOf(After(rq, plan, create).target), find, part)
      <==> AllSpelledAsCalled(rq, plan, create, i, part)
  {
    var raw := PlanImport(rq).value.items[i].action.raw;
    forall p | p in RefsIn(rq.text, raw[m].value)
      ensures var plan := PlanImport(rq).value;
        SameName(rq.text, NamesOf(After(rq, plan, create).target),
                 Find(plan.references, ApplyUpTo(rq.text, plan, create, i).madeIds), p)
        <==> SpelledAsCalled(rq, plan, create, i, p)
    {
      PartRefs(rq.text, raw, m, p);
      SpelledIsSame(rq, create, i, p);
    }
  }

  /** What the create function of an item is given under each key. */
  lemma PayloadAt(text: Text, plan: Plan, before: Applied, i: nat, m: nat)
    requires i < |plan.items| && plan.items[i].action.Create?
    requires var raw := plan.items[i].action.raw; !IsRef(raw) && m < |raw| && raw[m].key !in LIST_REF_KEYS
    ensures var payload, raw := Payload(text, plan, before, i), plan.items[i].action.raw;
      && payload.Obj? && |payload.members| == |raw|
      && payload.members[m].value == Resolve(text, Find(plan.references, before.madeIds), raw[m].value)
  {
  }

  /** After any import, whichever creates were refused: a part of a planned item that was exported
      from a tree exports from the project it went to as the bundle has it, exactly when the tree
      had nothing that looks like a reference and each reference in it is spelled as what it leads
      to is called. */
  lemma PartComesBack(rq: Request, source: Names, create: Creator, i: nat, m: nat, v: Json)
    requires rq.text.ReadsBack() && PlanImport(rq).Ok? && i < |PlanImport(rq).value.items|
    requires PlanImport(rq).value.items[i].action.Create?
    requires var raw := PlanImport(rq).value.items[i].action.raw;
      !IsRef(raw) && m < |raw| && raw[m].key !in LIST_REF_KEYS && raw[m].value == ToRefs(rq.text, source, v)
    requires AllKeyedById(After(rq, PlanImport(rq).value, create).target)
    ensures var plan := PlanImport(rq).value;
      var part := plan.items[i].action.raw[m].value;
      var payload := Payload(rq.text, plan, ApplyUpTo(rq.text, plan, create, i), i);
      && payload.Obj? && m < |payload.members|
      && (ToRefs(rq.text, NamesOf(After(rq, plan, create).target), payload.members[m].value) == part
          <==> NoLookalike(v) && AllSpelledAsCalled(rq, plan, create, i, part))
  {
    var plan := PlanImport(rq).value;
    PartIsSpelled(rq, create, i, m);
    PayloadAt(rq.text, plan, ApplyUpTo(rq.text, plan, create, i), i, m);
    Reexport(rq.text, source, NamesOf(After(rq, plan, create).target),
             Find(plan.references, ApplyUpTo(rq.text, plan, create, i).madeIds), v);
  }

  /** And a reference that stands by itself in an item, as to its dataset, comes back exactly when
      it is so spelled. */
  lemma ReferenceComesBack(rq: Request, source: Names, create: Creator, i: nat, m: nat, kind: string, value: Json,
        name: string)
    requires rq.text.ReadsBack() && PlanImport(rq).Ok? && i < |PlanImport(rq).value.items|
    requires PlanImport(rq).value.items[i].action.Create? && Calls(rq.text, source, kind, value, name)
    requires var raw := PlanImport(rq).value.items[i].action.raw;
      !IsRef(raw) && m < |raw| && raw[m].key !in LIST_REF_KEYS && raw[m].value == Ref(rq.text, source, kind, value)
    requires AllKeyedById(After(rq, PlanImport(rq).value, create).target)
    ensures var plan := PlanImport(rq).value;
      var payload := Payload(rq.text, plan, ApplyUpTo(rq.text, plan, create, i), i);
      && payload.Obj? && m < |payload.members|
      && (var link, part := payload.members[m].value, plan.items[i].action.raw[m].value;
          Truthy(link) && Ref(rq.text, NamesOf(After(rq, plan, create).target), kind, link) == part
          <==> SpelledAsCalled(rq, plan, create, i, (kind, name)))
  {
    var plan := PlanImport(rq).value;
    PartIsSpelled(rq, create, i, m);
    PayloadAt(rq.text, plan, ApplyUpTo(rq.text, plan, create, i), i, m);
    RefsInRefDict(rq.text, kind, name);
    ReexportRef(rq.text, source, NamesOf(After(rq, plan, create).target),
                Find(plan.references, ApplyUpTo(rq.text, plan, create, i).madeIds), kind, value);
  }
}
