/** What `locate` answers, on areas, tabs and patterns (navigation.ts). */
module Locations {
  import opened Common
  import opened Paths
  import opened Navigation
  import opened Addresses

  // -------------------------------------------------------- reading an address

  /** The segments of an address, without its query. */
  function Parts(pathname: string): seq<string> {
    Segments(Split('?', pathname)[0])
  }

  predicate IsInProject(pathname: string) {
    |Parts(pathname)| >= 2 && Parts(pathname)[0] == "projects"
  }

  function ScopeOf(pathname: string): Scope {
    if IsInProject(pathname) then Project else Global
  }

  function ProjectOf(pathname: string): Option<string> {
    if IsInProject(pathname) then Some(Parts(pathname)[1]) else None
  }

  /** What patterns are held against: within a project, what follows its id. */
  function Asked(pathname: string): seq<string> {
    if IsInProject(pathname) then Parts(pathname)[2..] else Parts(pathname)
  }

  /** An address is read by its segments alone; its slashes do not matter, nor does its query. */
  lemma ReadIsParts(pathname: string)
    ensures var at := Read(pathname);
      && at.scope == ScopeOf(pathname) && at.projectId == ProjectOf(pathname)
      && Segments(at.path) == Asked(pathname)
      && (at.scope == Project ==> (at.path == "" <==> Asked(pathname) == []))
  {
    SegmentsOfDropped(Split('?', pathname)[0]);
    SegmentsOfEmpty();
    assert Segments(Clean(pathname)) == Parts(pathname);
    if IsInProject(pathname) {
      SegmentsAreSegments(Clean(pathname));
      ScopedSegments(Parts(pathname)[2..]);
    }
  }

  lemma FitsIsMeans(pathname: string, pattern: string)
    ensures Fits(Read(pathname), pattern) <==> Means(Segments(pattern), Asked(pathname))
  {
    ReadIsParts(pathname);
    SegmentsOfEmpty();
  }

  // ------------------------------------------------------------ all candidates

  lemma TabCandidates(a: nat, t: nat, tab: Tab, c: Candidate)
    ensures c in OfTab(a, t, tab) <==>
      c.area == a && c.tab == t && (c.pattern == tab.path || c.pattern in tab.also) && c.own == (c.pattern == tab.path)
  {
    var patterns := [tab.path] + tab.also;
    assert c.pattern in patterns <==> c.pattern == tab.path || c.pattern in tab.also;
    if c.area == a && c.tab == t && c.pattern in patterns && c.own == (c.pattern == tab.path) {
      var i :| 0 <= i < |patterns| && patterns[i] == c.pattern;
      assert OfTab(a, t, tab)[i] == c;
    }
  }

  predicate IsOfTab(tab: Tab, c: Candidate) {
    (c.pattern == tab.path || c.pattern in tab.also) && c.own == (c.pattern == tab.path)
  }

  lemma {:induction false} TabsCandidates(a: nat, tabs: seq<Tab>, c: Candidate)
    ensures c in OfTabs(a, tabs) <==> c.area == a && c.tab < |tabs| && IsOfTab(tabs[c.tab], c)
  {
    if tabs != [] {
      TabsCandidates(a, tabs[..|tabs| - 1], c);
      TabCandidates(a, |tabs| - 1, tabs[|tabs| - 1], c);
    }
  }

  /** Every pattern of every tab of the scope is tried, and nothing else. */
  lemma {:induction false} AllCandidates(scope: Scope, areas: seq<Area>, c: Candidate)
    ensures c in OfAreas(scope, areas) <==>
      InTree(areas, c.area, c.tab) && areas[c.area].scope == scope && IsOfTab(areas[c.area].tabs[c.tab], c)
  {
    if areas != [] {
      var n := |areas| - 1;
      AllCandidates(scope, areas[..n], c);
      TabsCandidates(n, areas[n].tabs, c);
    }
  }

  // ------------------------------------------------------------------ the answer

  /** The places of a pattern that are neither `*` nor `**`. */
  function LiteralPlaces(want: seq<string>): set<nat> {
    set i: nat | i < |want| && want[i] != "*" && want[i] != "**"
  }

  lemma {:induction false} LiteralsAreCounted(want: seq<string>)
    ensures Literals(want) == |LiteralPlaces(want)|
  {
    if want == [] {
      assert LiteralPlaces(want) == {};
    } else {
      var n := |want| - 1;
      LiteralsAreCounted(want[..n]);
      LiteralsAppend(want[..n], want[n]);
      assert want == want[..n] + [want[n]];
      assert LiteralPlaces(want) == LiteralPlaces(want[..n]) + if want[n] != "*" && want[n] != "**" then {n} else {};
    }
  }

  lemma {:induction false} LiteralsAppend(want: seq<string>, last: string)
    ensures Literals(want + [last]) == Literals(want) + if last == "*" || last == "**" then 0 else 1
  {
    if want == [] {
      assert want + [last] == [last] && [last][1..] == [];
    } else {
      assert (want + [last])[1..] == want[1..] + [last];
      LiteralsAppend(want[1..], last);
    }
  }

  /** One of the tab's patterns, its own path or another, fits what is asked for. */
  ghost predicate Fitting(areas: seq<Area>, pathname: string, a: nat, t: nat, pattern: string) {
    && InTree(areas, a, t) && areas[a].scope == ScopeOf(pathname)
    && (pattern == areas[a].tabs[t].path || pattern in areas[a].tabs[t].also)
    && Means(Segments(pattern), Asked(pathname))
  }

  /** Two for each literal segment, and one for being the tab's own path. */
  function WeightOf(tab: Tab, pattern: string): nat {
    2 * |LiteralPlaces(Segments(pattern))| + if pattern == tab.path then 1 else 0
  }

  /** No fitting pattern weighs more, and none of an earlier tab weighs as much. */
  ghost predicate IsHeaviest(areas: seq<Area>, pathname: string, a: nat, t: nat, pattern: string) {
    && Fitting(areas, pathname, a, t, pattern)
    && forall a': nat, t': nat, other :: Fitting(areas, pathname, a', t', other) ==>
         && WeightOf(areas[a'].tabs[t'], other) <= WeightOf(areas[a].tabs[t], pattern)
         && (Before(a', t', a, t) ==>
               WeightOf(areas[a'].tabs[t'], other) < WeightOf(areas[a].tabs[t], pattern))
  }

  lemma FittingIsCandidate(areas: seq<Area>, pathname: string, a: nat, t: nat, pattern: string)
    requires InTree(areas, a, t)
    ensures var c, at := Candidate(a, t, pattern, pattern == areas[a].tabs[t].path), Read(pathname);
      && (Fitting(areas, pathname, a, t, pattern) <==> c in OfAreas(at.scope, areas) && Fits(at, pattern))
      && c.Weight() == WeightOf(areas[a].tabs[t], pattern)
  {
    ReadIsParts(pathname);
    FitsIsMeans(pathname, pattern);
    AllCandidates(Read(pathname).scope, areas, Candidate(a, t, pattern, pattern == areas[a].tabs[t].path));
    LiteralsAreCounted(Segments(pattern));
  }

  lemma CandidateIsOfTree(areas: seq<Area>, scope: Scope, c: Candidate)
    requires c in OfAreas(scope, areas)
    ensures InTree(areas, c.area, c.tab) && c.own == (c.pattern == areas[c.area].tabs[c.tab].path)
  {
    AllCandidates(scope, areas, c);
  }

  /** The first of the heaviest candidates outweighs every pattern that fits. */
  lemma Outweighs(areas: seq<Area>, pathname: string, i: nat, a: nat, t: nat, other: string)
    requires IsFirstHeaviest(Read(pathname), OfAreas(Read(pathname).scope, areas), i)
    requires Fitting(areas, pathname, a, t, other)
    ensures var c := OfAreas(Read(pathname).scope, areas)[i];
      && WeightOf(areas[a].tabs[t], other) <= c.Weight()
      && (Before(a, t, c.area, c.tab) ==> WeightOf(areas[a].tabs[t], other) < c.Weight())
  {
    FittingIsCandidate(areas, pathname, a, t, other);
    AreasOrdered(Read(pathname).scope, areas);
    FirstOutweighs(Read(pathname), OfAreas(Read(pathname).scope, areas), i,
                   Candidate(a, t, other, other == areas[a].tabs[t].path));
  }

  lemma FirstOutweighs(at: Reading, cs: seq<Candidate>, i: nat, c: Candidate)
    requires IsFirstHeaviest(at, cs, i) && InTreeOrder(cs) && c in cs && Fits(at, c.pattern)
    ensures c.Weight() <= cs[i].Weight()
    ensures Before(c.area, c.tab, cs[i].area, cs[i].tab) ==> c.Weight() < cs[i].Weight()
  {
    var j :| 0 <= j < |cs| && cs[j] == c;
  }

  /** The first of the heaviest candidates is so among all patterns that fit. */
  lemma HeaviestOfAll(areas: seq<Area>, pathname: string, i: nat)
    requires IsFirstHeaviest(Read(pathname), OfAreas(Read(pathname).scope, areas), i)
    ensures var c := OfAreas(Read(pathname).scope, areas)[i];
      && InTree(areas, c.area, c.tab) && c.own == (c.pattern == areas[c.area].tabs[c.tab].path)
      && IsHeaviest(areas, pathname, c.area, c.tab, c.pattern)
  {
    var c := OfAreas(Read(pathname).scope, areas)[i];
    CandidateIsOfTree(areas, Read(pathname).scope, c);
    FittingIsCandidate(areas, pathname, c.area, c.tab, c.pattern);
    forall a: nat, t: nat, other | Fitting(areas, pathname, a, t, other)
      ensures WeightOf(areas[a].tabs[t], other) <= WeightOf(areas[c.area].tabs[c.tab], c.pattern)
      ensures Before(a, t, c.area, c.tab) ==>
        WeightOf(areas[a].tabs[t], other) < WeightOf(areas[c.area].tabs[c.tab], c.pattern)
    {
      Outweighs(areas, pathname, i, a, t, other);
    }
  }

  /** An address is located exactly when some tab of its scope has a pattern that fits, its path or
      another; the answer is the first tab in the tree with a fitting pattern of the greatest weight,
      and it is the tab's root exactly when that pattern is the tab's own path. */
  lemma LocateIsExact(areas: seq<Area>, pathname: string)
    ensures Locate(areas, pathname).None? <==>
      forall a: nat, t: nat, pattern :: !Fitting(areas, pathname, a, t, pattern)
    ensures Locate(areas, pathname).Some? ==>
      var at := Locate(areas, pathname).value;
      && at.projectId == ProjectOf(pathname)
      && exists pattern ::
           && IsHeaviest(areas, pathname, at.area, at.tab, pattern)
           && at.isTabRoot == (pattern == areas[at.area].tabs[at.tab].path)
  {
    var cs := OfAreas(Read(pathname).scope, areas);
    ReadIsParts(pathname);
    BestIsFirstHeaviest(Read(pathname), cs);
    match Best(Read(pathname), cs)
    case None =>
      forall a: nat, t: nat, pattern ensures !Fitting(areas, pathname, a, t, pattern) {
        if InTree(areas, a, t) {
          FittingIsCandidate(areas, pathname, a, t, pattern);
        }
      }
    case Some(c) =>
      var i :| 0 <= i < |cs| && IsFirstHeaviest(Read(pathname), cs, i) && cs[i] == c;
      HeaviestOfAll(areas, pathname, i);
  }

  /** Nothing after a question mark changes what is located. */
  lemma QueryDoesNotMatter(areas: seq<Area>, path: string, query: string)
    requires !Has('?', path)
    ensures Locate(areas, path + "?" + query) == Locate(areas, path)
  {
    SplitAt('?', path, query);
    SplitWhole('?', path);
  }
}
