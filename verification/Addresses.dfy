/** The address of a tab leads back to that tab (navigation.ts, `locate` against `tabHref`). */
module Addresses {
  import opened Common
  import opened Paths
  import opened Navigation

  // ------------------------------------------------ reading an address of a tab

  /** What the tree's own data keeps: no query, no wildcard, and in a project a path that is absolute or "". */
  predicate PlainPath(area: Area, tab: Tab) {
    && !Has('?', tab.path)
    && IsLiteral(Segments(tab.path))
    && (area.scope == Project ==> tab.path == "" || tab.path[0] == '/')
  }

  predicate PlainId(id: string) {
    id != "" && !Has('/', id) && !Has('?', id)
  }

  lemma CleanSegments(pathname: string)
    requires !Has('?', pathname)
    ensures Segments(Clean(pathname)) == Segments(pathname)
  {
    SplitWhole('?', pathname);
    SegmentsOfDropped(pathname);
    SegmentsOfEmpty();
  }

  lemma NothingAdded(c: char, a: string, b: string)
    ensures Has(c, a + b) <==> Has(c, a) || Has(c, b)
  {
  }

  lemma TwoSegments(first: string, id: string)
    requires first != "" && !Has('/', first) && id != "" && !Has('/', id)
    ensures Segments(first + "/" + id) == [first, id]
  {
    SegmentOf(first);
    SegmentOf(id);
    SegmentsAt(first, id);
  }

  lemma RootedSegments(head: string, path: string)
    requires path == "" || path[0] == '/'
    ensures Segments("/" + head + path) == Segments(head) + Segments(path)
  {
    SegmentsOfRooted(head + path);
    assert "/" + head + path == "/" + (head + path);
    SegmentsOfEmpty();
    if path == "" {
      assert head + path == head;
    } else {
      var rest := path[1..];
      assert path == "/" + rest;
      SegmentsOfRooted(rest);
      SegmentsAt(head, rest);
      assert head + path == head + "/" + rest;
    }
  }

  lemma ProjectHrefSegments(id: string, path: string)
    requires PlainId(id) && (path == "" || path[0] == '/')
    ensures Segments("/projects/" + id + path) == ["projects", id] + Segments(path)
  {
    TwoSegments("projects", id);
    RootedSegments("projects" + "/" + id, path);
    assert "/projects/" + id + path == "/" + ("projects" + "/" + id) + path by {
      assert "/projects/" == "/" + "projects" + "/";
    }
  }

  lemma ScopedSegments(parts: seq<string>)
    requires AreSegments(parts)
    ensures var path := DropSlash("/" + Join(parts));
      Segments(path) == parts && (path == "" <==> parts == [])
  {
    SegmentsOfJoin(parts);
    SegmentsOfEmpty();
    SegmentsOfRooted(Join(parts));
    var path := "/" + Join(parts);
    if parts != [] {
      assert path[|path| - 1] == Join(parts)[|Join(parts)| - 1];
    }
  }

  /** A project tab's address reads as that project and that path. */
  lemma ReadProjectHref(id: string, path: string)
    requires PlainId(id) && !Has('?', path) && (path == "" || path[0] == '/')
    ensures var at := Read("/projects/" + id + path);
      && at.scope == Project && at.projectId == Some(id) && Segments(at.path) == Segments(path)
      && (at.path == "" <==> Segments(path) == [])
  {
    var href := "/projects/" + id + path;
    NothingAdded('?', "/projects/" + id, path);
    NothingAdded('?', "/projects/", id);
    CleanSegments(href);
    ProjectHrefSegments(id, path);
    var parts := Segments(href);
    assert parts[2..] == Segments(path);
    SegmentsAreSegments(path);
    ScopedSegments(Segments(path));
  }

  /** Reading a global path: as itself, unless it begins as a project's address does. */
  predicate LooksLikeProject(path: string) {
    |Segments(path)| >= 2 && Segments(path)[0] == "projects"
  }

  lemma ReadGlobalHref(path: string)
    requires !Has('?', path)
    ensures var at := Read(path);
      if LooksLikeProject(path) then at.projectId.Some?
      else at.scope == Global && at.projectId == None && Segments(at.path) == Segments(path)
  {
    CleanSegments(path);
  }

  // ---------------------------------------------------------- the best match

  lemma {:induction false} BestIsFirstHeaviest(at: Reading, cs: seq<Candidate>)
    ensures Best(at, cs).None? ==> forall i :: 0 <= i < |cs| ==> !Fits(at, cs[i].pattern)
    ensures Best(at, cs).Some? ==>
      exists i :: 0 <= i < |cs| && IsFirstHeaviest(at, cs, i) && Best(at, cs) == Some(cs[i])
  {
    if cs != [] {
      var rest, last := cs[..|cs| - 1], cs[|cs| - 1];
      BestIsFirstHeaviest(at, rest);
      assert cs == rest + [last];
      if Best(at, rest).Some? {
        var i :| 0 <= i < |rest| && IsFirstHeaviest(at, rest, i) && Best(at, rest) == Some(rest[i]);
        HeaviestGrows(at, rest, i, last);
      } else if Fits(at, last.pattern) {
        assert IsFirstHeaviest(at, cs, |cs| - 1);
      }
    }
  }

  lemma HeaviestGrows(at: Reading, cs: seq<Candidate>, i: nat, c: Candidate)
    requires IsFirstHeaviest(at, cs, i)
    ensures IsFirstHeaviest(at, cs + [c], if Fits(at, c.pattern) && c.Weight() > cs[i].Weight() then |cs| else i)
  {
  }

  /** It fits, nothing that fits outweighs it, and what comes before it weighs less. */
  ghost predicate IsFirstHeaviest(at: Reading, cs: seq<Candidate>, i: nat) {
    && i < |cs| && Fits(at, cs[i].pattern)
    && forall j :: 0 <= j < |cs| && Fits(at, cs[j].pattern) ==>
         cs[j].Weight() <= cs[i].Weight() && (j < i ==> cs[j].Weight() < cs[i].Weight())
  }

  // ------------------------------------------------------------- the whole tree

  predicate InTree(areas: seq<Area>, a: nat, t: nat) {
    a < |areas| && t < |areas[a].tabs|
  }

  predicate Before(a: nat, t: nat, a': nat, t': nat) {
    a < a' || (a == a' && t < t')
  }

  /** A candidate of one of this tree's tabs, in this scope. */
  predicate Belongs(scope: Scope, areas: seq<Area>, c: Candidate) {
    && InTree(areas, c.area, c.tab) && areas[c.area].scope == scope
    && (c.own ==> c.pattern == areas[c.area].tabs[c.tab].path)
  }

  ghost predicate InTreeOrder(cs: seq<Candidate>) {
    forall i, j :: 0 <= i < j < |cs| ==> !Before(cs[j].area, cs[j].tab, cs[i].area, cs[i].tab)
  }

  /** Candidates come in the order of areas and tabs, each of its own tab. */
  ghost predicate Ordered(scope: Scope, areas: seq<Area>, cs: seq<Candidate>) {
    (forall i :: 0 <= i < |cs| ==> Belongs(scope, areas, cs[i])) && InTreeOrder(cs)
  }

  lemma {:induction false} TabsOrdered(a: nat, tabs: seq<Tab>)
    ensures var cs := OfTabs(a, tabs);
      && (forall i :: 0 <= i < |cs| ==>
            cs[i].area == a && cs[i].tab < |tabs| && (cs[i].own ==> cs[i].pattern == tabs[cs[i].tab].path))
      && (forall i, j :: 0 <= i < j < |cs| ==> cs[i].tab <= cs[j].tab)
      && (forall t :: 0 <= t < |tabs| ==> Candidate(a, t, tabs[t].path, true) in cs)
  {
    if tabs != [] {
      var n := |tabs| - 1;
      TabsOrdered(a, tabs[..n]);
      var own := OfTab(a, n, tabs[n]);
      assert own[0] == Candidate(a, n, tabs[n].path, true);
      assert forall t :: 0 <= t < n ==> tabs[..n][t] == tabs[t];
    }
  }

  lemma BelongsStill(scope: Scope, areas: seq<Area>, c: Candidate)
    requires areas != [] && Belongs(scope, areas[..|areas| - 1], c)
    ensures Belongs(scope, areas, c) && c.area < |areas| - 1
  {
  }

  lemma OrderGoesOn(cs: seq<Candidate>, more: seq<Candidate>, n: nat)
    requires InTreeOrder(cs) && InTreeOrder(more)
    requires forall i :: 0 <= i < |cs| ==> cs[i].area < n
    requires forall i :: 0 <= i < |more| ==> more[i].area == n
    ensures InTreeOrder(cs + more)
  {
  }

  lemma TabsBelong(scope: Scope, areas: seq<Area>, n: nat)
    requires n < |areas| && areas[n].scope == scope
    ensures Ordered(scope, areas, OfTabs(n, areas[n].tabs))
    ensures forall i :: 0 <= i < |OfTabs(n, areas[n].tabs)| ==> OfTabs(n, areas[n].tabs)[i].area == n
  {
    TabsOrdered(n, areas[n].tabs);
  }

  lemma OrderedAppend(scope: Scope, areas: seq<Area>, cs: seq<Candidate>)
    requires areas != [] && Ordered(scope, areas[..|areas| - 1], cs)
    ensures var last := areas[|areas| - 1];
      Ordered(scope, areas, cs + if last.scope == scope then OfTabs(|areas| - 1, last.tabs) else [])
  {
    var n := |areas| - 1;
    forall i | 0 <= i < |cs| ensures Belongs(scope, areas, cs[i]) && cs[i].area < n {
      BelongsStill(scope, areas, cs[i]);
    }
    if areas[n].scope == scope {
      TabsBelong(scope, areas, n);
      OrderGoesOn(cs, OfTabs(n, areas[n].tabs), n);
    } else {
      assert cs + [] == cs;
    }
  }

  ghost predicate HasOwnPaths(scope: Scope, areas: seq<Area>, cs: seq<Candidate>) {
    forall a: nat, t: nat :: InTree(areas, a, t) && areas[a].scope == scope ==>
      Candidate(a, t, areas[a].tabs[t].path, true) in cs
  }

  lemma {:induction false} AreasOrdered(scope: Scope, areas: seq<Area>)
    ensures Ordered(scope, areas, OfAreas(scope, areas)) && HasOwnPaths(scope, areas, OfAreas(scope, areas))
  {
    if areas != [] {
      var n := |areas| - 1;
      AreasOrdered(scope, areas[..n]);
      OrderedAppend(scope, areas, OfAreas(scope, areas[..n]));
      TabsOrdered(n, areas[n].tabs);
      forall a: nat, t: nat | InTree(areas, a, t) && areas[a].scope == scope
        ensures Candidate(a, t, areas[a].tabs[t].path, true) in OfAreas(scope, areas)
      {
        if a < n {
          assert InTree(areas[..n], a, t) && areas[..n][a] == areas[a];
        }
      }
    }
  }

  /** Another tab of the scope, earlier in the tree, has the same path. */
  ghost predicate HasEarlierTwin(areas: seq<Area>, a: nat, t: nat)
    requires InTree(areas, a, t)
  {
    exists a': nat, t': nat :: InTree(areas, a', t') && Before(a', t', a, t) && areas[a'].scope == areas[a].scope
      && Segments(areas[a'].tabs[t'].path) == Segments(areas[a].tabs[t].path)
  }

  /** At its own address, a tab is found unless an earlier tab has the same path; what is found is a tab's root. */
  lemma TabIsFound(areas: seq<Area>, a: nat, t: nat, at: Reading)
    requires InTree(areas, a, t) && IsLiteral(Segments(areas[a].tabs[t].path))
    requires at.scope == areas[a].scope && Segments(at.path) == Segments(areas[a].tabs[t].path)
    requires at.scope == Project ==> (at.path == "" <==> Segments(at.path) == [])
    ensures var best := Best(at, OfAreas(at.scope, areas));
      && best.Some? && best.value.own
      && ((best.value.area == a && best.value.tab == t) <==> !HasEarlierTwin(areas, a, t))
  {
    var cs := OfAreas(at.scope, areas);
    AreasOrdered(at.scope, areas);
    BestIsFirstHeaviest(at, cs);
    var mine := Candidate(a, t, areas[a].tabs[t].path, true);
    OwnPathFits(at, mine);
    var m :| 0 <= m < |cs| && cs[m] == mine;
    var i :| 0 <= i < |cs| && IsFirstHeaviest(at, cs, i) && Best(at, cs) == Some(cs[i]);
    HeaviestIsOwn(at, cs[i], mine);
    if HasEarlierTwin(areas, a, t) {
      TwinIsFirst(areas, a, t, at, cs, i);
    } else {
      OnlyThisOne(areas, a, t, cs, i, m);
    }
  }

  lemma OnlyThisOne(areas: seq<Area>, a: nat, t: nat, cs: seq<Candidate>, i: nat, m: nat)
    requires InTree(areas, a, t) && !HasEarlierTwin(areas, a, t) && InTreeOrder(cs)
    requires i <= m < |cs| && cs[m].area == a && cs[m].tab == t
    requires Belongs(areas[a].scope, areas, cs[i]) && cs[i].own
    requires Segments(cs[i].pattern) == Segments(areas[a].tabs[t].path)
    ensures cs[i].area == a && cs[i].tab == t
  {
  }

  lemma TwinIsFirst(areas: seq<Area>, a: nat, t: nat, at: Reading, cs: seq<Candidate>, i: nat)
    requires InTree(areas, a, t) && IsLiteral(Segments(areas[a].tabs[t].path)) && HasEarlierTwin(areas, a, t)
    requires at.scope == areas[a].scope && Segments(at.path) == Segments(areas[a].tabs[t].path)
    requires at.scope == Project ==> (at.path == "" <==> Segments(at.path) == [])
    requires cs == OfAreas(at.scope, areas) && IsFirstHeaviest(at, cs, i)
        && cs[i].Weight() == 2 * |Segments(at.path)| + 1
    ensures !(cs[i].area == a && cs[i].tab == t)
  {
    AreasOrdered(at.scope, areas);
    var a': nat, t': nat :| InTree(areas, a', t') && Before(a', t', a, t) && areas[a'].scope == areas[a].scope
      && Segments(areas[a'].tabs[t'].path) == Segments(areas[a].tabs[t].path);
    var twin := Candidate(a', t', areas[a'].tabs[t'].path, true);
    OwnPathFits(at, twin);
    var k :| 0 <= k < |cs| && cs[k] == twin;
    assert i <= k;
    if i < k {
      assert !Before(cs[k].area, cs[k].tab, cs[i].area, cs[i].tab);
    }
  }

  lemma OwnPathFits(at: Reading, c: Candidate)
    requires c.own && Segments(c.pattern) == Segments(at.path) && IsLiteral(Segments(at.path))
    requires at.scope == Project ==> (at.path == "" <==> Segments(at.path) == [])
    ensures Fits(at, c.pattern) && c.Weight() == 2 * |Segments(at.path)| + 1
  {
    SegmentsOfEmpty();
    LiteralFitsItself(Segments(at.path));
    LiteralsBound(Segments(at.path));
  }

  lemma HeaviestIsOwn(at: Reading, c: Candidate, mine: Candidate)
    requires Fits(at, c.pattern) && c.Weight() >= mine.Weight() == 2 * |Segments(at.path)| + 1
    ensures c.own && Segments(c.pattern) == Segments(at.path) && c.Weight() == mine.Weight()
  {
    SegmentsOfEmpty();
    if at.scope == Project && c.pattern == "" {
      assert Segments(c.pattern) == [];
    } else {
      FitsWithFewerLiterals(Segments(c.pattern), Segments(at.path));
    }
  }

  /** The address of a project's tab is located as that tab of that project, exactly when no
      earlier project tab has the same path, whatever other patterns the tree has. */
  lemma ProjectAddressInverts(areas: seq<Area>, a: nat, t: nat, id: string)
    requires InTree(areas, a, t) && areas[a].scope == Project && PlainPath(areas[a], areas[a].tabs[t]) && PlainId(id)
    ensures TabHref(areas[a], areas[a].tabs[t], Some(id)).Some?
    ensures Locate(areas, TabHref(areas[a], areas[a].tabs[t], Some(id)).value) == Some(Location(a, t, Some(id), true))
       <==> !HasEarlierTwin(areas, a, t)
  {
    var path := areas[a].tabs[t].path;
    ReadProjectHref(id, path);
    TabIsFound(areas, a, t, Read("/projects/" + id + path));
  }

  /** The address of a global tab is located as that tab, exactly when no earlier global tab has
      the same path and the path does not begin as a project's address does. */
  lemma GlobalAddressInverts(areas: seq<Area>, a: nat, t: nat, project: Option<string>)
    requires InTree(areas, a, t) && areas[a].scope == Global && PlainPath(areas[a], areas[a].tabs[t])
    ensures TabHref(areas[a], areas[a].tabs[t], project).Some?
    ensures Locate(areas, TabHref(areas[a], areas[a].tabs[t], project).value) == Some(Location(a, t, None, true))
       <==> !HasEarlierTwin(areas, a, t) && !LooksLikeProject(areas[a].tabs[t].path)
  {
    var path := areas[a].tabs[t].path;
    ReadGlobalHref(path);
    if !LooksLikeProject(path) {
      TabIsFound(areas, a, t, Read(path));
    }
  }
}
