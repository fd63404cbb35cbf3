/** What becomes of each item of a bundle, and the reason given, from the request alone (bundles.py). */
module BundleVerdicts {
  import opened Common
  import opened BundlePlan
  import opened BundlePlanTheory
  import opened BundleItems
  import opened BundlePlanExact

  /** Reference `k` is the first of these that is not provided. */
  ghost predicate IsFirstUnprovided(rq: Request, ps: seq<(string, string)>, k: int) {
    && 0 <= k < |ps| && !RefIsProvided(rq, Met(rq), rq.text.KeyOf(ps[k].0, ps[k].1))
    && forall j :: 0 <= j < k ==> RefIsProvided(rq, Met(rq), rq.text.KeyOf(ps[j].0, ps[j].1))
  }

  /** The reason names the first reference not provided, as it is spelled where it is met first. */
  ghost predicate NamesFirstUnprovided(rq: Request, e: Entry, reason: Reason) {
    && reason.NeedsRef?
    && exists k :: IsFirstUnprovided(rq, EntryRefs(rq, e), k)
         && FirstOf(rq, Met(rq), rq.text.KeyOf(EntryRefs(rq, e)[k].0, EntryRefs(rq, e)[k].1))
            == Some((reason.kind, reason.name))
  }

  /** The reason lists the columns read that the dataset `q` leads to does not have. */
  ghost predicate ListsLacking(rq: Request, e: Entry, q: (string, string), reason: Reason) {
    && reason.LacksColumns? && IdHere(rq, q).Some? && IdHere(rq, q).value in rq.target.columns
    && forall column :: column in reason.columns <==>
         ReadsColumn(rq.text, e, column) && column !in rq.target.columns[IdHere(rq, q).value]
  }

  ghost predicate ListsItsLacking(rq: Request, i: nat, reason: Reason)
    requires i < |Entries(rq.bundle)|
  {
    var entries := Entries(rq.bundle);
    match DatasetKey(rq.text, entries[i])
    case None => false
    case Some(key) =>
      match FirstOf(rq, AllRefs(rq, entries[..i + 1]), key)
      case None => false
      case Some(q) => ListsLacking(rq, entries[i], q, reason)
  }

  lemma {:induction false} FirstMissingAt(rq: Request, entries: seq<Entry>, n: nat, ps: seq<(string, string)>)
      returns (k: int)
    requires n <= |entries| && IndexAt(rq, entries, n).Ok? && Covers(rq, IndexAt(rq, entries, n).value, ps)
    requires entries == Entries(rq.bundle)
    requires FirstMissing(rq, IndexAt(rq, entries, n).value, ps).Some?
    ensures IsFirstUnprovided(rq, ps, k)
    ensures FirstMissing(rq, IndexAt(rq, entries, n).value, ps)
         == Some(IndexAt(rq, entries, n).value[rq.text.KeyOf(ps[k].0, ps[k].1)])
  {
    assert ps[0] in ps;
    KnownAt(rq, entries, n, rq.text.KeyOf(ps[0].0, ps[0].1));
    if RefIsProvided(rq, Met(rq), rq.text.KeyOf(ps[0].0, ps[0].1)) {
      var before := FirstMissingAt(rq, entries, n, ps[1..]);
      k := before + 1;
      assert forall j :: 0 < j < |ps| ==> ps[j] == ps[1..][j - 1];
    } else {
      k := 0;
    }
  }

  /** An item skipped for a reference is skipped for the first that is not provided. */
  lemma FirstIsNamed(rq: Request, i: nat, n: nat)
    requires i < |Entries(rq.bundle)| && n <= |Entries(rq.bundle)| && IndexAt(rq, Entries(rq.bundle), n).Ok?
    requires Covers(rq, IndexAt(rq, Entries(rq.bundle), n).value, EntryRefs(rq, Entries(rq.bundle)[i]))
    requires FirstMissing(rq, IndexAt(rq, Entries(rq.bundle), n).value, EntryRefs(rq, Entries(rq.bundle)[i])).Some?
    ensures var r :=
        FirstMissing(rq, IndexAt(rq, Entries(rq.bundle), n).value, EntryRefs(rq, Entries(rq.bundle)[i])).value;
      NamesFirstUnprovided(rq, Entries(rq.bundle)[i], NeedsRef(r.kind, r.name))
  {
    var entries, ps := Entries(rq.bundle), EntryRefs(rq, Entries(rq.bundle)[i]);
    var k := FirstMissingAt(rq, entries, n, ps);
    assert ps[k] in ps;
    KnownAt(rq, entries, n, rq.text.KeyOf(ps[k].0, ps[k].1));
    FirstOfIsMet(rq, Met(rq), rq.text.KeyOf(ps[k].0, ps[k].1));
  }

  /** An item skipped for its columns is skipped for exactly those it reads and the dataset lacks. */
  lemma LackingIsListed(rq: Request, i: nat)
    requires i < |Entries(rq.bundle)| && IndexAt(rq, Entries(rq.bundle), i + 1).Ok?
    requires Lacking(rq, IndexAt(rq, Entries(rq.bundle), i + 1).value, Entries(rq.bundle)[i]) != {}
    ensures ListsItsLacking(rq, i,
      LacksColumns(Lacking(rq, IndexAt(rq, Entries(rq.bundle), i + 1).value, Entries(rq.bundle)[i])))
  {
    var entries := Entries(rq.bundle);
    KnownAt(rq, entries, i + 1, DatasetKey(rq.text, entries[i]).value);
    forall column
      ensures column in ColumnsUsed(rq.text, entries[i].section, entries[i].raw)
         <==> ReadsColumn(rq.text, entries[i], column)
    {
      ColumnsAreRead(rq.text, entries[i], column);
    }
  }

  /** What item `i` is reported as. */
  ghost predicate IsVerdict(rq: Request, i: nat, p: Planned)
    requires i < |Entries(rq.bundle)|
  {
    var entries := Entries(rq.bundle);
    var e := entries[i];
    && p.section == e.section
    && if IsNamed(rq.text, e, "") then p.name == "(no name)" && p.action == Skip(NoName)
       else
         && IsNamed(rq.text, e, p.name)
         && if AlreadyHas(rq, e) then p.action == Skip(AlreadyThere)
            else if e.section != Workflows && !AllProvided(rq, entries, e) then
              p.action.Skip? && NamesFirstUnprovided(rq, e, p.action.reason)
            else if !LacksNothing(rq, entries, i) then p.action.Skip? && ListsItsLacking(rq, i, p.action.reason)
            else p.action == Create(e.raw)
  }

  /** Every item of a plan is reported as it deserves: unnamed, already there, short of its first
      reference not provided, short of columns its dataset lacks, or to be made as it stands. */
  lemma VerdictIsExact(rq: Request, i: nat)
    requires PlanImport(rq).Ok? && i < |Entries(rq.bundle)|
    ensures i < |PlanImport(rq).value.items|
    ensures IsVerdict(rq, i, PlanImport(rq).value.items[i])
  {
    LoopShape(rq);
    var entries := Entries(rq.bundle);
    var e := entries[i];
    IndexGrows(rq, entries, i + 1, |entries|);
    NameIsSaid(rq.text, e, "");
    NameIsSaid(rq.text, e, EntryName(rq.text, e));
    ConsideredIsNew(rq, e);
    if Considered(rq, e) {
      ReasonIsExact(rq, i);
    }
  }

  /** The same for an item that is named and new. */
  lemma ReasonIsExact(rq: Request, i: nat)
    requires i < |Entries(rq.bundle)| && Considered(rq, Entries(rq.bundle)[i])
    requires IndexAt(rq, Entries(rq.bundle), i + 1).Ok?
    ensures var entries := Entries(rq.bundle);
      var e, p := entries[i], Judge(rq, IndexAt(rq, entries, i + 1).value, entries[i]);
      && p.section == e.section && p.name == EntryName(rq.text, e)
      && if e.section != Workflows && !AllProvided(rq, entries, e) then
           p.action.Skip? && NamesFirstUnprovided(rq, e, p.action.reason)
         else if !LacksNothing(rq, entries, i) then p.action.Skip? && ListsItsLacking(rq, i, p.action.reason)
         else p.action == Create(e.raw)
  {
    var entries := Entries(rq.bundle);
    var e, index := entries[i], IndexAt(rq, entries, i + 1).value;
    IndexCovers(rq, entries, i);
    MissingIsUnprovided(rq, entries, i + 1, EntryRefs(rq, e));
    LackingIsExact(rq, entries, i, i + 1);
    if FirstMissing(rq, index, EntryRefs(rq, e)).Some? {
      FirstIsNamed(rq, i, i + 1);
    }
    if Lacking(rq, index, e) != {} {
      LackingIsListed(rq, i);
    }
  }
}
