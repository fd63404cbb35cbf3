/** The plugin host: `load_enabled`, `_load_one` and `unload_all` over the module's state (plugins.py). */
module PluginHost {
  import opened Common
  import opened Paths
  import opened PluginRuns
  import opened Plugins

  // ----------------------------------------------------------- enabled names

  /** The names in order, each where it first appears. */
  function Firsts(names: seq<string>): seq<string> {
    if names == [] then []
    else
      var before, last := Firsts(names[..|names| - 1]), names[|names| - 1];
      if last in before then before else before + [last]
  }

  function Stripped(strip: string -> string, parts: seq<string>): seq<string> {
    if parts == [] then []
    else
      var before, last := Stripped(strip, parts[..|parts| - 1]), strip(parts[|parts| - 1]);
      if last == "" then before else before + [last]
  }

  lemma {:induction false} FirstsKeepAll(names: seq<string>)
    ensures AllDifferent(Firsts(names))
    ensures forall n :: n in Firsts(names) <==> n in names
  {
    if names != [] {
      var rest, last := names[..|names| - 1], names[|names| - 1];
      FirstsKeepAll(rest);
      assert names == rest + [last];
    }
  }

  /** Some part is this name, blanks aside. */
  ghost predicate IsGiven(strip: string -> string, parts: seq<string>, name: string) {
    exists p :: 0 <= p < |parts| && strip(parts[p]) == name
  }

  /** Some part is the first name, and no part up to it is the second. */
  ghost predicate GivenBefore(strip: string -> string, parts: seq<string>, first: string, second: string) {
    exists p :: 0 <= p < |parts| && strip(parts[p]) == first && !IsGiven(strip, parts[..p + 1], second)
  }

  /** Every name that is given, and in the order of where each is given first. */
  ghost predicate AsGiven(strip: string -> string, parts: seq<string>, names: seq<string>) {
    && (forall n :: n in names <==> n != "" && IsGiven(strip, parts, n))
    && forall i, j :: 0 <= i < j < |names| ==> GivenBefore(strip, parts, names[i], names[j])
  }

  lemma {:induction false} FirstsAreGiven(strip: string -> string, parts: seq<string>)
    ensures AsGiven(strip, parts, Firsts(Stripped(strip, parts)))
  {
    if parts == [] {
      NothingIsGiven(strip);
    } else {
      var rest, last := parts[..|parts| - 1], parts[|parts| - 1];
      assert parts == rest + [last];
      FirstsAreGiven(strip, rest);
      NextIsGiven(strip, rest, last, Firsts(Stripped(strip, rest)));
      FirstsNext(strip, rest, last);
    }
  }

  lemma NothingIsGiven(strip: string -> string)
    ensures AsGiven(strip, [], Firsts(Stripped(strip, [])))
  {
  }

  lemma FirstsNext(strip: string -> string, parts: seq<string>, last: string)
    ensures var names, name := Firsts(Stripped(strip, parts)), strip(last);
      Firsts(Stripped(strip, parts + [last])) == if name == "" || name in names then names else names + [name]
  {
    var before, name := Stripped(strip, parts), strip(last);
    assert (parts + [last])[..|parts|] == parts;
    assert name != "" ==> (before + [name])[..|before|] == before;
  }

  lemma GivenStill(strip: string -> string, parts: seq<string>, last: string, n: string)
    ensures IsGiven(strip, parts + [last], n) <==> IsGiven(strip, parts, n) || strip(last) == n
  {
    var all := parts + [last];
    if p :| 0 <= p < |parts| && strip(parts[p]) == n {
      assert all[p] == parts[p];
    }
    assert all[|parts|] == last;
  }

  lemma GivenInPrefix(strip: string -> string, parts: seq<string>, n: nat, name: string)
    requires n <= |parts|
    ensures IsGiven(strip, parts[..n], name) ==> IsGiven(strip, parts, name)
  {
    if IsGiven(strip, parts[..n], name) {
      var p :| 0 <= p < |parts[..n]| && strip(parts[..n][p]) == name;
      assert parts[p] == parts[..n][p];
    }
  }

  lemma BeforeStill(strip: string -> string, parts: seq<string>, last: string, first: string, second: string)
    ensures GivenBefore(strip, parts, first, second) ==> GivenBefore(strip, parts + [last], first, second)
    ensures IsGiven(strip, parts, first) && !IsGiven(strip, parts, second) ==>
      GivenBefore(strip, parts + [last], first, second)
  {
    var all := parts + [last];
    if p :| 0 <= p < |parts| && strip(parts[p]) == first && !IsGiven(strip, parts[..p + 1], second) {
      assert all[p] == parts[p] && all[..p + 1] == parts[..p + 1];
    }
    if IsGiven(strip, parts, first) && !IsGiven(strip, parts, second) {
      var p :| 0 <= p < |parts| && strip(parts[p]) == first;
      assert all[p] == parts[p] && all[..p + 1] == parts[..p + 1];
      GivenInPrefix(strip, parts, p + 1, second);
    }
  }

  lemma NextIsGiven(strip: string -> string, parts: seq<string>, last: string, names: seq<string>)
    requires AsGiven(strip, parts, names)
    ensures var name := strip(last);
      AsGiven(strip, parts + [last], if name == "" || name in names then names else names + [name])
  {
    var name := strip(last);
    var names' := if name == "" || name in names then names else names + [name];
    forall n ensures n in names' <==> n != "" && IsGiven(strip, parts + [last], n) {
      GivenStill(strip, parts, last, n);
    }
    forall i, j | 0 <= i < j < |names'| ensures GivenBefore(strip, parts + [last], names'[i], names'[j]) {
      BeforeStill(strip, parts, last, names'[i], names'[j]);
      assert names'[i] == names[i] && names[i] in names;
    }
  }

  /** `_names`: the setting's parts between commas, stripped, empty ones dropped, each once. */
  method EnabledNames(strip: string -> string, setting: string) returns (seen: seq<string>)
    ensures seen == Firsts(Stripped(strip, Split(',', setting)))
    ensures AllDifferent(seen) && AsGiven(strip, Split(',', setting), seen)
  {
    var parts := Split(',', setting);
    seen := [];
    for i := 0 to |parts|
      invariant seen == Firsts(Stripped(strip, parts[..i]))
    {
      assert parts[..i + 1][..i] == parts[..i];
      var name := strip(parts[i]);
      if name != "" {
        assert (Stripped(strip, parts[..i]) + [name])[..|Stripped(strip, parts[..i])|] == Stripped(strip, parts[..i]);
        if name !in seen {
          seen := seen + [name];
        }
      }
    }
    assert parts[..|parts|] == parts;
    FirstsKeepAll(Stripped(strip, parts));
    FirstsAreGiven(strip, parts);
  }

  function NotChosen(listed: seq<string>, enabled: seq<string>): seq<Status> {
    if listed == [] then []
    else
      var before, last := NotChosen(listed[..|listed| - 1], enabled), listed[|listed| - 1];
      if last in enabled then before else before + [Status(last, NotEnabled)]
  }

  /** Listed as not enabled are exactly those found and not enabled. */
  lemma {:induction false} OthersAreListed(listed: seq<string>, enabled: seq<string>)
    ensures forall s :: s in NotChosen(listed, enabled) <==>
      s.state == NotEnabled && s.name in listed && s.name !in enabled
  {
    if listed != [] {
      var rest, last := listed[..|listed| - 1], listed[|listed| - 1];
      OthersAreListed(rest, enabled);
      assert listed == rest + [last];
    }
  }

  class Host {
    var registries: Registries
    const reserved: Reserved
    var statuses: seq<Status>
    /** `_UNDO`: how to take back what each loaded plugin added, in load order. */
    var undo: seq<(string, seq<Undo>)>
    /** `_LOADED`. */
    var loaded: bool

    /** What the registries held before any plugin, and what the loaded plugins added. */
    ghost var base: Registries
    ghost var added: seq<Contribution>
    /** Nothing tried so far shared a slot with something already there. */
    ghost var clean: bool

    ghost predicate Valid()
      reads this
    {
      InOrder(base, reserved, Kept())
    }

    /** The books as the fields keep them. */
    ghost function Kept(): Books
      reads this
    {
      Books(registries, undo, added, clean)
    }

    constructor (registries: Registries, reserved: Reserved)
      ensures Valid() && base == this.registries == registries && this.reserved == reserved
      ensures statuses == [] && undo == [] && !loaded && added == [] && clean
    {
      this.registries, this.reserved, statuses, undo, loaded := registries, reserved, [], [], false;
      base, added, clean := registries, [], true;
    }

    /** One of the `_add_*` loops. */
    method Add(cs: seq<Contribution>, steps: seq<Undo>) returns (ok: bool, steps': seq<Undo>)
      modifies this`registries
      ensures Progress(registries, steps', ok) == AddAll(old(registries), reserved, steps, cs)
    {
      steps' := steps;
      for i := 0 to |cs|
        invariant AddAll(registries, reserved, steps', cs[i..]) == AddAll(old(registries), reserved, steps, cs)
      {
        assert cs[i..][0] == cs[i] && cs[i..][1..] == cs[i + 1..];
        if !IsAdded(registries, reserved, cs[i]) {
          registries := Built(registries, cs[i]);
          return false, steps';
        }
        registries := Put(registries, cs[i]);
        steps' := steps' + [Remove(cs[i].kind, cs[i].name)];
        if cs[i].course != Fine {
          return false, steps';
        }
      }
      assert cs[|cs|..] == [];
      return true, steps';
    }

    /** Takes back the steps recorded, the last one first. */
    method Undo(steps: seq<Undo>)
      modifies this`registries
      ensures registries == old(registries) - SlotsOf(steps)
    {
      var i := |steps|;
      assert steps[..i] == steps;
      while i > 0
        invariant 0 <= i <= |steps|
        invariant UndoAll(registries, steps[..i]) == UndoAll(old(registries), steps)
      {
        i := i - 1;
        assert steps[..i + 1][..i] == steps[..i];
        registries := TakeBack(registries, steps[i]);
      }
      UndoAllTakesOut(old(registries), steps);
    }

    /** A plugin is loaded whole or leaves nothing people see; nor anything else, unless
        something it tried shared a slot with what was there. */
    method LoadOne(name: string, source: Source) returns (status: Status)
      requires Valid()
      modifies this`registries, this`undo, this`added, this`clean
      ensures Valid() && base == old(base) && Kept() == LoadedOne(old(Kept()), reserved, name, source)
      ensures status == Status(name, if old(Accepted(registries, reserved, name, source)) then IsLoaded else Refused)
      ensures status.state == IsLoaded ==>
        && registries == PutAll(old(registries), source.plugin.All())
        && added == old(added) + source.plugin.All()
        && undo == old(undo) + [(name, Removals(source.plugin.All()))]
      ensures status.state != IsLoaded ==>
        SameOffer(registries, old(registries)) && added == old(added) && undo == old(undo)
      ensures clean && status.state != IsLoaded ==> registries == old(registries)
      ensures clean == (old(clean) && old(LeavesNoTrace(registries, reserved, name, source)))
    {
      if !source.Gives? || source.plugin.name != name {
        return Status(name, Refused);
      }
      var passes := SdkCheck(source.plugin);
      if !passes {
        return Status(name, Refused);
      }
      InstalledIs(base, reserved, Kept(), name, source.plugin.All());
      var ok := Install(name, source.plugin);
      status := Status(name, if ok then IsLoaded else Refused);
    }

    /** Everything the plugin brings, added and recorded; or taken back at the first refusal. */
    method Install(name: string, plugin: Plugin) returns (ok: bool)
      modifies this`registries, this`undo, this`added, this`clean
      ensures Kept() == Installed(old(Kept()), reserved, name, plugin.All())
      ensures ok == AddAll(old(registries), reserved, [], plugin.All()).ok
    {
      clean := clean && TriedHarmlessly(registries, reserved, plugin.All());
      var steps;
      ok, steps := AddPlugin(plugin);
      if !ok {
        Undo(steps);
      } else {
        undo := undo + [(name, steps)];
        added := added + plugin.All();
      }
    }

    /** The four loops, one after the other. */
    method AddPlugin(plugin: Plugin) returns (ok: bool, steps: seq<Undo>)
      modifies this`registries
      ensures Progress(registries, steps, ok) == AddAll(old(registries), reserved, [], plugin.All())
    {
      ghost var r := registries;
      AddAllAppend(r, reserved, [], plugin.tools, plugin.functions);
      AddAllAppend(r, reserved, [], plugin.tools + plugin.functions, plugin.charts);
      AddAllAppend(r, reserved, [], plugin.tools + plugin.functions + plugin.charts, plugin.connectors);
      ok, steps := Add(plugin.tools, []);
      if ok {
        ok, steps := Add(plugin.functions, steps);
      }
      if ok {
        ok, steps := Add(plugin.charts, steps);
      }
      if ok {
        ok, steps := Add(plugin.connectors, steps);
      }
    }

    /** `check(plugin)`, as far as it matters here. */
    method SdkCheck(plugin: Plugin) returns (passes: bool)
      ensures passes == plugin.PassesSdk()
    {
      var cs := plugin.All();
      passes := plugin.otherSdkChecks;
      for i := 0 to |cs|
        invariant passes == (plugin.otherSdkChecks && NothingTwice(cs[..i]))
      {
        for j := 0 to i
          invariant passes == (plugin.otherSdkChecks && NothingTwice(cs[..i])
            && forall k :: 0 <= k < j ==> cs[k].kind == cs[i].kind ==> cs[k].name != cs[i].name)
        {
          if cs[j].kind == cs[i].kind && cs[j].name == cs[i].name {
            passes := false;
          }
        }
      }
      assert cs[..|cs|] == cs;
    }

    /** Takes back every plugin's steps, plugin by plugin in load order. */
    method UndoEach()
      modifies this`registries
      ensures registries == old(registries) - SlotsOf(Steps(undo))
    {
      for i := 0 to |undo|
        invariant registries == old(registries) - SlotsOf(Steps(undo[..i]))
      {
        StepsAppend(undo[..i], undo[i]);
        assert undo[..i + 1] == undo[..i] + [undo[i]];
        SlotsOfAppend(Steps(undo[..i]), undo[i].1);
        Undo(undo[i].1);
      }
      assert undo[..|undo|] == undo;
    }

    /** Everything plugins added is taken back, although plugins are undone in load order. */
    method UnloadAll()
      requires Valid()
      modifies this
      ensures Valid() && base == old(base) && added == [] && undo == [] && statuses == [] && !loaded
      ensures clean == old(clean)
      ensures registries == old(registries) - SlotsOf(Steps(old(undo)))
      ensures SameOffer(registries, base)
      ensures clean ==> registries == base
    {
      UndoEach();
      AfterUnload(base, reserved, added, clean, old(registries));
      undo, statuses, loaded, added := [], [], false, [];
    }

    /** Once per process: everything found and not enabled is listed, and each enabled name
        is answered in order, with the books as loading each in turn leaves them. */
    method LoadEnabled(enabled: seq<string>, found: map<string, Source>, listed: seq<string>)
      requires Valid()
      requires forall n :: n in listed <==> n in found
      modifies this
      ensures Valid() && base == old(base) && loaded
      ensures old(loaded) ==> Kept() == old(Kept()) && statuses == old(statuses)
      ensures !old(loaded) ==>
        && Kept() == LoadedAll(old(Kept()), reserved, enabled, found)
        && statuses == old(statuses) + NotChosen(listed, enabled) + AnswersTo(old(Kept()), reserved, enabled, found)
    {
      if loaded {
        return;
      }
      loaded := true;
      ListOthers(listed, enabled);
      LoadEach(enabled, found);
    }

    method ListOthers(listed: seq<string>, enabled: seq<string>)
      modifies this`statuses
      ensures statuses == old(statuses) + NotChosen(listed, enabled)
    {
      for i := 0 to |listed|
        invariant statuses == old(statuses) + NotChosen(listed[..i], enabled)
      {
        assert listed[..i + 1][..i] == listed[..i];
        if listed[i] !in enabled {
          statuses := statuses + [Status(listed[i], NotEnabled)];
        }
      }
      assert listed[..|listed|] == listed;
    }

    method LoadEach(enabled: seq<string>, found: map<string, Source>)
      requires Valid()
      modifies this`registries, this`undo, this`added, this`clean, this`statuses
      ensures Valid() && base == old(base)
      ensures Kept() == LoadedAll(old(Kept()), reserved, enabled, found)
      ensures statuses == old(statuses) + AnswersTo(old(Kept()), reserved, enabled, found)
    {
      for i := 0 to |enabled|
        invariant Valid() && base == old(base)
        invariant Kept() == LoadedAll(old(Kept()), reserved, enabled[..i], found)
        invariant statuses == old(statuses) + AnswersTo(old(Kept()), reserved, enabled[..i], found)
      {
        assert enabled[..i + 1][..i] == enabled[..i];
        var status := LoadNext(enabled[i], found);
        statuses := statuses + [status];
      }
      assert enabled[..|enabled|] == enabled;
    }

    method LoadNext(name: string, found: map<string, Source>) returns (status: Status)
      requires Valid()
      modifies this`registries, this`undo, this`added, this`clean
      ensures Valid() && base == old(base)
      ensures Kept() == LoadedNext(old(Kept()), reserved, name, found)
      ensures status == old(AnswerTo(registries, reserved, name, found))
    {
      status := Status(name, NotFound);
      if name in found {
        status := LoadOne(name, found[name]);
      }
    }
  }
}
