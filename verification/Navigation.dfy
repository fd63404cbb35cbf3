/** Which page an address belongs to, and the address of a page (navigation.ts). */
module Navigation {
  import opened Common
  import opened Paths

  datatype Scope = Project | Global

  datatype Tab = Tab(id: string, path: string, also: seq<string>)

  datatype Area = Area(id: string, scope: Scope, tabs: seq<Tab>)

  /** A place in the tree, by area and tab. */
  datatype Location = Location(area: nat, tab: nat, projectId: Option<string>, isTabRoot: bool)

  // ---------------------------------------------------------------- matching

  /** What a pattern means: every segment literal or one `*` each, save a trailing `**` for one or more. */
  predicate Means(want: seq<string>, have: seq<string>) {
    if want == [] then have == []
    else if want[0] == "**" then |want| == 1 && have != []
    else have != [] && (want[0] == "*" || want[0] == have[0]) && Means(want[1..], have[1..])
  }

  method MatchesPattern(pattern: string, path: string) returns (fits: bool)
    ensures fits == Means(Segments(pattern), Segments(path))
  {
    var want, have := Segments(pattern), Segments(path);
    for index := 0 to |want|
      invariant index <= |have|
      invariant Means(want, have) == Means(want[index..], have[index..])
    {
      var part := want[index];
      if part == "**" {
        return index == |want| - 1 && |have| > index;
      }
      if index >= |have| {
        return false;
      }
      if part != "*" && part != have[index] {
        return false;
      }
      assert want[index..][1..] == want[index + 1..] && have[index..][1..] == have[index + 1..];
    }
    return |want| == |have|;
  }

  /** `Means` in one sentence: `**` stands only at the end, and everything before lines up. */
  lemma {:induction false} MeansLinesUp(want: seq<string>, have: seq<string>)
    ensures Means(want, have) <==>
      if want != [] && want[|want| - 1] == "**" then
        && |want| <= |have|
        && forall i :: 0 <= i < |want| - 1 ==> want[i] != "**" && (want[i] == "*" || want[i] == have[i])
      else
        && |want| == |have|
        && forall i :: 0 <= i < |want| ==> want[i] != "**" && (want[i] == "*" || want[i] == have[i])
  {
    if want != [] && want[0] != "**" && have != [] {
      MeansLinesUp(want[1..], have[1..]);
      assert |want| > 1 ==> want[1..][|want[1..]| - 1] == want[|want| - 1];
      assert forall i :: 1 <= i < |want| ==> want[i] == want[1..][i - 1];
      assert forall i :: 1 <= i < |have| ==> have[i] == have[1..][i - 1];
    }
  }

  function Literals(want: seq<string>): nat {
    if want == [] then 0 else (if want[0] == "*" || want[0] == "**" then 0 else 1) + Literals(want[1..])
  }

  predicate IsLiteral(want: seq<string>) {
    "*" !in want && "**" !in want
  }

  lemma {:induction false} LiteralsBound(want: seq<string>)
    ensures Literals(want) <= |want|
    ensures Literals(want) == |want| <==> IsLiteral(want)
  {
    if want != [] {
      LiteralsBound(want[1..]);
      assert want == [want[0]] + want[1..];
    }
  }

  /** A pattern that fits has at most as many literals as the path has segments, and as many only
      when it is the path. */
  lemma {:induction false} FitsWithFewerLiterals(want: seq<string>, have: seq<string>)
    requires Means(want, have)
    ensures Literals(want) <= |have|
    ensures Literals(want) == |have| ==> want == have
  {
    if want != [] && want[0] != "**" {
      FitsWithFewerLiterals(want[1..], have[1..]);
      assert want == [want[0]] + want[1..] && have == [have[0]] + have[1..];
    } else if want != [] {
      assert want[1..] == [];
    }
  }

  lemma {:induction false} LiteralFitsItself(want: seq<string>)
    requires IsLiteral(want)
    ensures Means(want, want)
  {
    if want != [] {
      assert want[0] in want;
      LiteralFitsItself(want[1..]);
    }
  }

  // ------------------------------------------------------------------ locate

  /** `clean`, `projectId`, `scope` and `scopedPath`. */
  datatype Reading = Reading(scope: Scope, path: string, projectId: Option<string>)

  function Clean(pathname: string): string {
    var dropped := DropSlashes(Split('?', pathname)[0]);
    if dropped == "" then "/" else dropped
  }

  function DropSlash(path: string): string {
    if path != "" && path[|path| - 1] == '/' then path[..|path| - 1] else path
  }

  function Read(pathname: string): Reading {
    var clean := Clean(pathname);
    var parts := Segments(clean);
    if |parts| >= 2 && parts[0] == "projects" then
      Reading(Project, DropSlash("/" + Join(parts[2..])), Some(parts[1]))
    else Reading(Global, clean, None)
  }

  function Fits(at: Reading, pattern: string): bool {
    if at.scope == Project && pattern == "" then at.path == "" else Means(Segments(pattern), Segments(at.path))
  }

  /** One pattern of one tab; `own` when it is the tab's path. */
  datatype Candidate = Candidate(area: nat, tab: nat, pattern: string, own: bool)
  {
    function Weight(): nat {
      Literals(Segments(pattern)) * 2 + if own then 1 else 0
    }
  }

  function Better(at: Reading, best: Option<Candidate>, c: Candidate): Option<Candidate> {
    if Fits(at, c.pattern) && (best.None? || c.Weight() > best.value.Weight()) then Some(c) else best
  }

  /** The heaviest fitting candidate, the first of equals. */
  function Best(at: Reading, cs: seq<Candidate>): Option<Candidate> {
    if cs == [] then None else Better(at, Best(at, cs[..|cs| - 1]), cs[|cs| - 1])
  }

  function OfTab(area: nat, tab: nat, t: Tab): seq<Candidate> {
    var patterns := [t.path] + t.also;
    seq(|patterns|, i requires 0 <= i < |patterns| => Candidate(area, tab, patterns[i], patterns[i] == t.path))
  }

  function OfTabs(area: nat, tabs: seq<Tab>): seq<Candidate> {
    if tabs == [] then [] else OfTabs(area, tabs[..|tabs| - 1]) + OfTab(area, |tabs| - 1, tabs[|tabs| - 1])
  }

  function OfAreas(scope: Scope, areas: seq<Area>): seq<Candidate> {
    if areas == [] then []
    else
      var last := areas[|areas| - 1];
      OfAreas(scope, areas[..|areas| - 1]) + (if last.scope == scope then OfTabs(|areas| - 1, last.tabs) else [])
  }

  function Locate(areas: seq<Area>, pathname: string): Option<Location> {
    var at := Read(pathname);
    match Best(at, OfAreas(at.scope, areas))
    case None => None
    case Some(c) => Some(Location(c.area, c.tab, at.projectId, c.own))
  }

  lemma BestAppend(at: Reading, cs: seq<Candidate>, c: Candidate)
    ensures Best(at, cs + [c]) == Better(at, Best(at, cs), c)
  {
  }

  method FindLocation(areas: seq<Area>, pathname: string) returns (location: Option<Location>)
    ensures location == Locate(areas, pathname)
  {
    var at := Read(pathname);
    var best: Option<Candidate> := None;
    for a := 0 to |areas|
      invariant best == Best(at, OfAreas(at.scope, areas[..a]))
    {
      assert areas[..a + 1][..a] == areas[..a];
      if areas[a].scope == at.scope {
        best := BestOfArea(at, best, OfAreas(at.scope, areas[..a]), a, areas[a]);
      } else {
        assert OfAreas(at.scope, areas[..a]) + [] == OfAreas(at.scope, areas[..a]);
      }
    }
    assert areas[..|areas|] == areas;
    return if best.None? then None
      else Some(Location(best.value.area, best.value.tab, at.projectId, best.value.own));
  }

  lemma OfTabsNext(before: seq<Candidate>, a: nat, tabs: seq<Tab>, t: nat)
    requires t < |tabs|
    ensures before + OfTabs(a, tabs[..t]) + OfTab(a, t, tabs[t]) == before + OfTabs(a, tabs[..t + 1])
  {
    assert tabs[..t + 1][..t] == tabs[..t];
  }

  method BestOfArea(at: Reading, best: Option<Candidate>, ghost before: seq<Candidate>, a: nat, area: Area)
    returns (best': Option<Candidate>)
    requires best == Best(at, before)
    ensures best' == Best(at, before + OfTabs(a, area.tabs))
  {
    best' := best;
    assert before + [] == before;
    for t := 0 to |area.tabs|
      invariant best' == Best(at, before + OfTabs(a, area.tabs[..t]))
    {
      OfTabsNext(before, a, area.tabs, t);
      best' := BestOfTab(at, best', before + OfTabs(a, area.tabs[..t]), a, t, area.tabs[t]);
    }
    assert area.tabs[..|area.tabs|] == area.tabs;
  }

  method BestOfTab(at: Reading, best: Option<Candidate>, ghost before: seq<Candidate>, a: nat, t: nat, tab: Tab)
    returns (best': Option<Candidate>)
    requires best == Best(at, before)
    ensures best' == Best(at, before + OfTab(a, t, tab))
  {
    best' := best;
    var patterns := [tab.path] + tab.also;
    ghost var all := OfTab(a, t, tab);
    assert before + all[..0] == before;
    for p := 0 to |patterns|
      invariant best' == Best(at, before + all[..p])
    {
      var c := Candidate(a, t, patterns[p], patterns[p] == tab.path);
      assert before + all[..p + 1] == (before + all[..p]) + [c];
      BestAppend(at, before + all[..p], c);
      var fits := DoesFit(at, c.pattern);
      if fits && (best'.None? || c.Weight() > best'.value.Weight()) {
        best' := Some(c);
      }
    }
    assert all[..|patterns|] == all;
  }

  method DoesFit(at: Reading, pattern: string) returns (fits: bool)
    ensures fits == Fits(at, pattern)
  {
    if at.scope == Project && pattern == "" {
      return at.path == "";
    }
    fits := MatchesPattern(pattern, at.path);
  }

  /** Where a tab lives; nowhere when it needs a project and none is open. */
  function TabHref(area: Area, tab: Tab, projectId: Option<string>): Option<string> {
    if area.scope == Global then Some(tab.path)
    else if projectId.None? || projectId.value == "" then None
    else Some("/projects/" + projectId.value + tab.path)
  }
}
