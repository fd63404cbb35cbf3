/** One row for each dataset name (dataset-origin.ts, `groupDatasets`). */
module DatasetGroups {
  import opened Common
  import opened Sorting

  /** A dataset record, as far as grouping reads it; `created` orders as its timestamp does. */
  datatype Dataset = Dataset(
    id: string,
    name: string,
    created: int,
    isDerived: bool,
    fromPipeline: bool,
    runId: Option<string>,
    hasParent: bool,
    hasFile: bool)

  datatype Origin = Upload | Database | Recipe | Feed | Other

  datatype Hints = Hints(runTypes: map<string, string>, feeds: set<string>)

  datatype Group = Group(name: string, latest: Dataset, versions: seq<Dataset>, origin: Origin)

  function RunOrigin(runType: string): Option<Origin> {
    if runType in {"dataset_upload", "dataset_ingestion"} then Some(Upload)
    else if runType == "database_extraction" then Some(Database)
    else if runType in {"dataset_transformation", "dataset_transformation_replay"} then Some(Recipe)
    else None
  }

  function OriginOf(d: Dataset, hints: Hints): Origin {
    var runOrigin :=
      if d.runId.Some? && d.runId.value in hints.runTypes then RunOrigin(hints.runTypes[d.runId.value]) else None;
    if d.id in hints.feeds then Feed
    else if d.isDerived || d.fromPipeline then Recipe
    else if runOrigin.Some? then runOrigin.value
    else if d.hasFile && !d.hasParent && d.runId.None? then Upload
    else Other
  }

  /** The run that wrote it is known, and of one of these types. */
  predicate RanAs(d: Dataset, hints: Hints, types: set<string>) {
    d.runId.Some? && d.runId.value in hints.runTypes && hints.runTypes[d.runId.value] in types
  }

  /** When a dataset counts as each origin: a live feed's above all, then a recipe's, by its record
      or by its run; an upload by its run, or by a file with neither run nor parent. */
  lemma OriginIsExact(d: Dataset, hints: Hints)
    ensures OriginOf(d, hints) == Feed <==> d.id in hints.feeds
    ensures OriginOf(d, hints) == Recipe <==>
      && d.id !in hints.feeds
      && (d.isDerived || d.fromPipeline
          || RanAs(d, hints, {"dataset_transformation", "dataset_transformation_replay"}))
    ensures OriginOf(d, hints) == Database <==>
      d.id !in hints.feeds && !d.isDerived && !d.fromPipeline && RanAs(d, hints, {"database_extraction"})
    ensures OriginOf(d, hints) == Upload <==>
      && d.id !in hints.feeds && !d.isDerived && !d.fromPipeline
      && (|| RanAs(d, hints, {"dataset_upload", "dataset_ingestion"})
          || (d.hasFile && !d.hasParent && d.runId.None?))
  {
  }

  predicate NotOlder(a: Dataset, b: Dataset) {
    a.created >= b.created
  }

  predicate GroupNotOlder(a: Group, b: Group) {
    a.latest.created >= b.latest.created
  }

  /** `byName`: keys in the order first met, each with its records in the order met. */
  datatype Buckets = Buckets(order: seq<string>, records: map<string, seq<Dataset>>)

  function Put(key: Dataset -> string, buckets: Buckets, d: Dataset): Buckets {
    if key(d) in buckets.records then buckets.(records := buckets.records[key(d) := buckets.records[key(d)] + [d]])
    else Buckets(buckets.order + [key(d)], buckets.records[key(d) := [d]])
  }

  function Collect(key: Dataset -> string, datasets: seq<Dataset>): Buckets {
    if datasets == [] then Buckets([], map[])
    else Put(key, Collect(key, datasets[..|datasets| - 1]), datasets[|datasets| - 1])
  }

  function GroupOf(hints: Hints, records: seq<Dataset>): Group
    requires records != []
  {
    var versions := Sort(NotOlder, records);
    SortIsSome(records);
    Group(versions[0].name, versions[0], versions, OriginOf(versions[0], hints))
  }

  lemma SortIsSome(records: seq<Dataset>)
    ensures |Sort(NotOlder, records)| == |records|
  {
    SortSorts(NotOlder, records);
  }

  // ----------------------------------------------------------------- buckets

  function Having(key: Dataset -> string, k: string): Dataset -> bool {
    (d: Dataset) => key(d) == k
  }

  lemma {:induction false} FilterAppend<T>(p: T -> bool, a: seq<T>, b: seq<T>)
    ensures Filter(p, a + b) == Filter(p, a) + Filter(p, b)
  {
    if a == [] {
      assert a + b == b;
    } else {
      FilterAppend(p, a[1..], b);
      assert (a + b)[0] == a[0] && (a + b)[1..] == a[1..] + b;
    }
  }

  /** A bucket holds exactly the records of its key, in order; every key met has one, once. */
  lemma {:induction false} CollectSplits(key: Dataset -> string, datasets: seq<Dataset>)
    ensures var b := Collect(key, datasets);
      && AllDifferent(b.order)
      && (forall k :: k in b.order <==> k in b.records)
      && (forall k :: k in b.records <==> exists d :: d in datasets && key(d) == k)
      && (forall k :: k in b.records ==> b.records[k] == Filter(Having(key, k), datasets) && b.records[k] != [])
  {
    if datasets != [] {
      var before, last := datasets[..|datasets| - 1], datasets[|datasets| - 1];
      CollectSplits(key, before);
      var known, b := Collect(key, before), Collect(key, datasets);
      assert datasets == before + [last];
      forall k ensures Filter(Having(key, k), datasets)
          == Filter(Having(key, k), before) + (if key(last) == k then [last] else []) {
        FilterAppend(Having(key, k), before, [last]);
        assert [last][1..] == [];
      }
      forall k ensures k in b.records <==> exists d :: d in datasets && key(d) == k {
        assert k in b.records <==> k in known.records || k == key(last);
      }
      if key(last) !in known.records {
        FilterNone(Having(key, key(last)), before);
      }
    }
  }

  lemma {:induction false} FilterNone<T>(p: T -> bool, s: seq<T>)
    requires forall x :: x in s ==> !p(x)
    ensures Filter(p, s) == []
  {
    if s != [] {
      assert s[0] in s;
      FilterNone(p, s[1..]);
    }
  }

  // ------------------------------------------------------------------ groups

  /** A group is its key's records: all of them, newest first, ties as they came. */
  ghost predicate IsGroupOf(key: Dataset -> string, datasets: seq<Dataset>, hints: Hints, k: string, g: Group) {
    && g.versions != [] && g.latest == g.versions[0] && g.name == g.latest.name
    && multiset(g.versions) == multiset(Filter(Having(key, k), datasets))
    && (forall i, j :: 0 <= i < j < |g.versions| ==> g.versions[i].created >= g.versions[j].created)
    && g.origin == OriginOf(g.latest, hints)
    && forall t: int :: Filter(CreatedAt(t), g.versions) == Filter(CreatedAt(t), Filter(Having(key, k), datasets))
  }

  function CreatedAt(t: int): Dataset -> bool {
    (d: Dataset) => d.created == t
  }

  lemma DatasetsCompare()
    ensures TotalPreorder(NotOlder)
  {
  }

  lemma GroupsCompare()
    ensures TotalPreorder(GroupNotOlder)
  {
  }

  lemma GroupOfRecords(key: Dataset -> string, datasets: seq<Dataset>, hints: Hints, k: string)
    requires Filter(Having(key, k), datasets) != []
    ensures IsGroupOf(key, datasets, hints, k, GroupOf(hints, Filter(Having(key, k), datasets)))
  {
    var records := Filter(Having(key, k), datasets);
    DatasetsCompare();
    SortSorts(NotOlder, records);
    forall t: int ensures Filter(CreatedAt(t), Sort(NotOlder, records)) == Filter(CreatedAt(t), records) {
      SortIsStable(NotOlder, CreatedAt(t), records);
    }
  }

  /** The groups' keys and the groups, before they are ordered. */
  ghost predicate IsGrouping(key: Dataset -> string, datasets: seq<Dataset>, hints: Hints, keys: seq<string>,
        groups: seq<Group>) {
    && |keys| == |groups| && AllDifferent(keys)
    && (forall k :: k in keys <==> exists d :: d in datasets && key(d) == k)
    && forall i :: 0 <= i < |keys| ==> IsGroupOf(key, datasets, hints, keys[i], groups[i])
  }

  function Versions(groups: seq<Group>): multiset<Dataset> {
    if groups == [] then multiset{} else Versions(groups[..|groups| - 1]) + multiset(groups[|groups| - 1].versions)
  }

  /** The groups, newest first by their latest; every record is in them as often as it was given. */
  method GroupDatasets(key: Dataset -> string, datasets: seq<Dataset>, hints: Hints)
    returns (groups: seq<Group>, ghost keys: seq<string>, ghost unordered: seq<Group>)
    ensures IsGrouping(key, datasets, hints, keys, unordered)
    ensures groups == Sort(GroupNotOlder, unordered)
    ensures multiset(groups) == multiset(unordered)
    ensures forall i, j :: 0 <= i < j < |groups| ==> groups[i].latest.created >= groups[j].latest.created
    ensures Versions(groups) == multiset(datasets)
  {
    var buckets := FillBuckets(key, datasets);
    CollectSplits(key, datasets);
    keys := buckets.order;
    groups := GroupEach(key, datasets, hints, buckets);
    unordered := groups;
    GroupsCompare();
    SortSorts(GroupNotOlder, unordered);
    groups := Sort(GroupNotOlder, groups);
    NothingLost(key, datasets, hints, keys, unordered);
    VersionsSorted(GroupNotOlder, unordered);
  }

  method FillBuckets(key: Dataset -> string, datasets: seq<Dataset>) returns (buckets: Buckets)
    ensures buckets == Collect(key, datasets)
  {
    buckets := Buckets([], map[]);
    for i := 0 to |datasets|
      invariant buckets == Collect(key, datasets[..i])
    {
      assert datasets[..i + 1][..i] == datasets[..i];
      buckets := Put(key, buckets, datasets[i]);
    }
    assert datasets[..|datasets|] == datasets;
  }

  method GroupEach(key: Dataset -> string, datasets: seq<Dataset>, hints: Hints,
        buckets: Buckets) returns (groups: seq<Group>)
    requires forall k :: k in buckets.order ==>
      k in buckets.records && buckets.records[k] == Filter(Having(key, k), datasets) && buckets.records[k] != []
    ensures |groups| == |buckets.order|
    ensures forall j :: 0 <= j < |groups| ==> IsGroupOf(key, datasets, hints, buckets.order[j], groups[j])
  {
    groups := [];
    for i := 0 to |buckets.order|
      invariant |groups| == i
      invariant forall j :: 0 <= j < i ==> IsGroupOf(key, datasets, hints, buckets.order[j], groups[j])
    {
      var k := buckets.order[i];
      assert k in buckets.order;
      GroupOfRecords(key, datasets, hints, k);
      groups := groups + [GroupOf(hints, buckets.records[k])];
    }
  }

  // ------------------------------------------------------------ conservation

  function InKeys(key: Dataset -> string, keys: seq<string>): Dataset -> bool {
    (d: Dataset) => key(d) in keys
  }

  lemma {:induction false} FilterSplits(key: Dataset -> string, datasets: seq<Dataset>, keys: seq<string>, k: string)
    requires k !in keys
    ensures multiset(Filter(InKeys(key, keys + [k]), datasets))
         == multiset(Filter(InKeys(key, keys), datasets)) + multiset(Filter(Having(key, k), datasets))
  {
    if datasets != [] {
      FilterSplits(key, datasets[1..], keys, k);
      FilterStep(InKeys(key, keys + [k]), datasets);
      FilterStep(InKeys(key, keys), datasets);
      FilterStep(Having(key, k), datasets);
    }
  }

  lemma FilterStep<T>(p: T -> bool, s: seq<T>)
    requires s != []
    ensures multiset(Filter(p, s)) == (if p(s[0]) then multiset{s[0]} else multiset{}) + multiset(Filter(p, s[1..]))
  {
  }

  lemma {:induction false} FilterAll<T>(p: T -> bool, s: seq<T>)
    requires forall x :: x in s ==> p(x)
    ensures Filter(p, s) == s
  {
    if s != [] {
      assert s[0] in s;
      FilterAll(p, s[1..]);
    }
  }

  lemma {:induction false} VersionsOfKeys(key: Dataset -> string, datasets: seq<Dataset>, keys: seq<string>,
        groups: seq<Group>)
    requires |keys| == |groups| && AllDifferent(keys)
    requires forall i :: 0 <= i < |keys| ==>
      multiset(groups[i].versions) == multiset(Filter(Having(key, keys[i]), datasets))
    ensures Versions(groups) == multiset(Filter(InKeys(key, keys), datasets))
  {
    if keys == [] {
      FilterNone(InKeys(key, keys), datasets);
    } else {
      var n := |keys| - 1;
      VersionsOfKeys(key, datasets, keys[..n], groups[..n]);
      assert keys == keys[..n] + [keys[n]] && keys[n] !in keys[..n];
      FilterSplits(key, datasets, keys[..n], keys[n]);
    }
  }

  lemma NothingLost(key: Dataset -> string, datasets: seq<Dataset>, hints: Hints, keys: seq<string>, groups: seq<Group>)
    requires IsGrouping(key, datasets, hints, keys, groups)
    ensures Versions(groups) == multiset(datasets)
  {
    forall i | 0 <= i < |keys|
      ensures multiset(groups[i].versions) == multiset(Filter(Having(key, keys[i]), datasets))
    {
      assert IsGroupOf(key, datasets, hints, keys[i], groups[i]);
    }
    VersionsOfKeys(key, datasets, keys, groups);
    FilterAll(InKeys(key, keys), datasets);
  }

  lemma {:induction false} VersionsAppend(a: seq<Group>, b: seq<Group>)
    ensures Versions(a + b) == Versions(a) + Versions(b)
  {
    if b == [] {
      assert a + b == a;
    } else {
      assert (a + b)[..|a + b| - 1] == a + b[..|b| - 1];
      VersionsAppend(a, b[..|b| - 1]);
    }
  }

  lemma VersionsOfOne(g: Group)
    ensures Versions([g]) == multiset(g.versions)
  {
    assert [g][..0] == [];
    assert Versions([g]) == Versions([g][..0]) + multiset([g][0].versions);
  }

  lemma VersionsCons(g: Group, groups: seq<Group>)
    ensures Versions([g] + groups) == multiset(g.versions) + Versions(groups)
  {
    VersionsOfOne(g);
    VersionsAppend([g], groups);
  }

  lemma {:induction false} VersionsInsert(le: (Group, Group) -> bool, g: Group, groups: seq<Group>)
    ensures Versions(Insert(le, g, groups)) == multiset(g.versions) + Versions(groups)
  {
    if groups == [] || le(g, groups[0]) {
      VersionsCons(g, groups);
    } else {
      VersionsInsert(le, g, groups[1..]);
      VersionsCons(groups[0], Insert(le, g, groups[1..]));
      VersionsCons(groups[0], groups[1..]);
      assert groups == [groups[0]] + groups[1..];
    }
  }

  /** Putting groups in order keeps their versions. */
  lemma {:induction false} VersionsSorted(le: (Group, Group) -> bool, groups: seq<Group>)
    ensures Versions(Sort(le, groups)) == Versions(groups)
  {
    if groups != [] {
      VersionsSorted(le, groups[1..]);
      VersionsInsert(le, groups[0], Sort(le, groups[1..]));
      VersionsCons(groups[0], groups[1..]);
      assert groups == [groups[0]] + groups[1..];
    }
  }

  /** A group's latest record is its newest. */
  lemma LatestIsNewest(key: Dataset -> string, datasets: seq<Dataset>, hints: Hints, k: string, g: Group, d: Dataset)
    requires IsGroupOf(key, datasets, hints, k, g) && d in datasets && key(d) == k
    ensures d in g.versions && g.latest.created >= d.created && key(g.latest) == k
  {
    FilterHolds(Having(key, k), datasets, d);
    assert d in multiset(g.versions);
    assert g.versions[0] in multiset(g.versions) && g.latest in Filter(Having(key, k), datasets);
    FilterHolds(Having(key, k), datasets, g.latest);
  }

  lemma {:induction false} FilterHolds<T>(p: T -> bool, s: seq<T>, x: T)
    ensures x in Filter(p, s) <==> x in s && p(x)
  {
    if s != [] {
      FilterHolds(p, s[1..], x);
    }
  }
}
