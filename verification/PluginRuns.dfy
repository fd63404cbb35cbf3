/**
 What loading plugins amounts to, plugin by plugin and over whole runs (plugins.py):
 the state as a value, and what loading and unloading do to it.
 */
module PluginRuns {
  import opened Common
  import opened Plugins

  /** What loading a plugin's code gives. */
  datatype Source = ImportFails | NotAPlugin | Gives(plugin: Plugin)

  datatype State = IsLoaded | Refused | NotEnabled | NotFound

  datatype Status = Status(name: string, state: State)

  // -------------------------------------------------------------- accounting

  /** Every step recorded, plugin by plugin. */
  function Steps(undo: seq<(string, seq<Undo>)>): seq<Undo> {
    if undo == [] then [] else Steps(undo[..|undo| - 1]) + undo[|undo| - 1].1
  }

  lemma {:induction false} PutAllAppend(r: Registries, a: seq<Contribution>, b: seq<Contribution>)
    ensures PutAll(r, a + b) == PutAll(PutAll(r, a), b)
  {
    if b == [] {
      assert a + b == a;
    } else {
      assert (a + b)[..|a + b| - 1] == a + b[..|b| - 1];
      PutAllAppend(r, a, b[..|b| - 1]);
    }
  }

  lemma {:induction false} SameOfferPut(a: Registries, b: Registries, cs: seq<Contribution>)
    requires SameOffer(a, b)
    ensures SameOffer(PutAll(a, cs), PutAll(b, cs))
  {
    if cs != [] {
      SameOfferPut(a, b, cs[..|cs| - 1]);
    }
  }

  /** What is new to the registries now is new to the base, and to everything added so far. */
  lemma NewToAll(base: Registries, r: Registries, reserved: Reserved, added: seq<Contribution>, cs: seq<Contribution>)
    requires NoneClash(base, reserved, added) && NothingTwice(added) && SameOffer(r, PutAll(base, added))
    requires NoneClash(r, reserved, cs) && NothingTwice(cs)
    ensures NoneClash(base, reserved, added + cs) && NothingTwice(added + cs)
  {
    forall i | 0 <= i < |cs|
      ensures !Clashes(base, reserved, cs[i])
      ensures forall j :: 0 <= j < |added| ==> added[j].kind == cs[i].kind ==> added[j].name != cs[i].name
    {
      PutAllAt(base, added, (Main(cs[i].kind), cs[i].name));
      forall j | 0 <= j < |added| && added[j].kind == cs[i].kind ensures added[j].name != cs[i].name {
        SlotsOfRemovals(added, (Main(added[j].kind), added[j].name));
        PutAllAt(base, added, (Main(added[j].kind), added[j].name));
      }
    }
  }

  lemma FreeInBase(base: Registries, reserved: Reserved, added: seq<Contribution>, cs: seq<Contribution>)
    requires AllFree(base, added) && AllFree(PutAll(base, added), cs)
    ensures AllFree(base, added + cs)
  {
    forall i | 0 <= i < |cs| ensures SlotsFree(base, cs[i]) {
      forall slot | slot in Slots(cs[i].kind, cs[i].name) ensures slot !in base {
        PutAllAt(base, added, slot);
      }
    }
  }

  lemma TakingBackSame(a: Registries, b: Registries, slots: set<Slot>)
    requires SameOffer(a, b)
    ensures SameOffer(a - slots, b - slots)
  {
  }

  /** The plugin is itself, passes the SDK's checks, and everything it brings is accepted. */
  ghost predicate Accepted(r: Registries, reserved: Reserved, name: string, source: Source) {
    && source.Gives?
    && source.plugin.name == name
    && source.plugin.PassesSdk()
    && FailAt(r, reserved, source.plugin.All()) == |source.plugin.All()|
  }

  /** Said of the plugin and of the registries it comes to. */
  lemma AcceptedMeans(r: Registries, reserved: Reserved, name: string, source: Source)
    ensures Accepted(r, reserved, name, source) <==>
      && source.Gives? && source.plugin.name == name && source.plugin.otherSdkChecks
      && NothingTwice(source.plugin.All())
      && var plugin := source.plugin;
         forall c :: c in plugin.tools + plugin.functions + plugin.charts + plugin.connectors ==>
           c.course == Fine && IsFree(r, reserved, c)
  {
    if source.Gives? && NothingTwice(source.plugin.All()) {
      AcceptedExactly(r, reserved, source.plugin.All());
    }
  }

  lemma {:induction false} AddAllAppend(r: Registries, reserved: Reserved, undo: seq<Undo>, a: seq<Contribution>,
        b: seq<Contribution>)
    ensures var first := AddAll(r, reserved, undo, a);
      AddAll(r, reserved, undo, a + b) == if first.ok then AddAll(first.registries, reserved, first.undo, b) else first
    decreases |a|
  {
    if a == [] {
      assert a + b == b;
    } else {
      assert (a + b)[1..] == a[1..] + b;
      if IsAdded(r, reserved, a[0]) {
        AddAllAppend(Put(r, a[0]), reserved, undo + [Remove(a[0].kind, a[0].name)], a[1..], b);
      }
    }
  }

  /** In every state, what people see is the base and, beside it, what the loaded plugins
      added; and while nothing tried has shared a slot, so it is behind the scenes. */
  ghost predicate Consistent(base: Registries, reserved: Reserved, added: seq<Contribution>, clean: bool,
        now: Registries) {
    && NoneClash(base, reserved, added) && NothingTwice(added)
    && SameOffer(now, PutAll(base, added))
    && (clean ==> now == PutAll(base, added) && AllFree(base, added))
  }

  ghost predicate TriedHarmlessly(r: Registries, reserved: Reserved, cs: seq<Contribution>) {
    AllHarmless(r, reserved, Tried(r, reserved, cs))
  }

  lemma AfterLoad(base: Registries, reserved: Reserved, added: seq<Contribution>, clean: bool, now: Registries,
        cs: seq<Contribution>)
    requires Consistent(base, reserved, added, clean, now)
    requires NothingTwice(cs) && AddAll(now, reserved, [], cs).ok
    ensures FailAt(now, reserved, cs) == |cs|
    ensures AddAll(now, reserved, [], cs) == Progress(PutAll(now, cs), Removals(cs), true)
    ensures Consistent(base, reserved, added + cs, clean && TriedHarmlessly(now, reserved, cs), PutAll(now, cs))
    ensures Removals(added + cs) == Removals(added) + Removals(cs)
  {
    AddAllIs(now, reserved, cs);
    AllFine(now, reserved, cs);
    StaysConsistent(base, reserved, added, clean, now, cs, TriedHarmlessly(now, reserved, cs));
    RemovalsAppend(added, cs);
  }

  lemma StaysConsistent(base: Registries, reserved: Reserved, added: seq<Contribution>, clean: bool, now: Registries,
                        cs: seq<Contribution>, harmless: bool)
    requires Consistent(base, reserved, added, clean, now)
    requires NothingTwice(cs) && NoneClash(now, reserved, cs) && (harmless ==> AllFree(now, cs))
    ensures Consistent(base, reserved, added + cs, clean && harmless, PutAll(now, cs))
  {
    NewToAll(base, now, reserved, added, cs);
    PutAllAppend(base, added, cs);
    SameOfferPut(now, PutAll(base, added), cs);
    if clean && harmless {
      FreeInBase(base, reserved, added, cs);
    }
  }

  lemma RemovalsAppend(a: seq<Contribution>, b: seq<Contribution>)
    ensures Removals(a + b) == Removals(a) + Removals(b)
  {
  }

  lemma AllFine(now: Registries, reserved: Reserved, cs: seq<Contribution>)
    requires FailAt(now, reserved, cs) == |cs|
    ensures NoneClash(now, reserved, cs)
    ensures TriedHarmlessly(now, reserved, cs) ==> AllFree(now, cs)
  {
  }

  lemma AfterRefusal(base: Registries, reserved: Reserved, added: seq<Contribution>, clean: bool, now: Registries,
        cs: seq<Contribution>)
    requires Consistent(base, reserved, added, clean, now)
    requires NothingTwice(cs) && !AddAll(now, reserved, [], cs).ok
    ensures var p := AddAll(now, reserved, [], cs);
      var after := p.registries - SlotsOf(p.undo);
      && Consistent(base, reserved, added, clean && TriedHarmlessly(now, reserved, cs), after)
      && SameOffer(after, now) && (TriedHarmlessly(now, reserved, cs) ==> after == now)
      && FailAt(now, reserved, cs) != |cs|
  {
    AddAllIs(now, reserved, cs);
    RefusedLeavesNothing(now, reserved, cs);
    var p := AddAll(now, reserved, [], cs);
    UndoAllTakesOut(p.registries, p.undo);
    SameOfferTrans(p.registries - SlotsOf(p.undo), now, PutAll(base, added));
  }

  lemma AfterUnload(base: Registries, reserved: Reserved, added: seq<Contribution>, clean: bool, now: Registries)
    requires Consistent(base, reserved, added, clean, now)
    ensures var after := now - SlotsOf(Removals(added));
      && SameOffer(after, base) && (clean ==> after == base) && Consistent(base, reserved, [], clean, after)
  {
    PutAndTakeBack(base, reserved, added);
    TakingBackSame(now, PutAll(base, added), SlotsOf(Removals(added)));
    SameOfferTrans(now - SlotsOf(Removals(added)), PutAll(base, added) - SlotsOf(Removals(added)), base);
  }

  lemma StepsAppend(undo: seq<(string, seq<Undo>)>, one: (string, seq<Undo>))
    ensures Steps(undo + [one]) == Steps(undo) + one.1
  {
  }

  /** Nothing this plugin gets to try shares a slot with what is there. */
  ghost predicate LeavesNoTrace(r: Registries, reserved: Reserved, name: string, source: Source) {
    source.Gives? && source.plugin.name == name && source.plugin.PassesSdk() ==>
      TriedHarmlessly(r, reserved, source.plugin.All())
  }

  predicate IsAnswer(name: string, found: map<string, Source>, status: Status) {
    status.name == name && status.state in (if name in found then {IsLoaded, Refused} else {NotFound})
  }

  /** One status for each enabled name, in order, saying what became of it. */
  ghost predicate Answers(enabled: seq<string>, found: map<string, Source>, statuses: seq<Status>) {
    |statuses| == |enabled| && forall i :: 0 <= i < |enabled| ==> IsAnswer(enabled[i], found, statuses[i])
  }

  /** What a plugin brings, if its status says it is loaded. */
  function BroughtBy(found: map<string, Source>, status: Status): seq<Contribution> {
    if status.state == IsLoaded && status.name in found
        && found[status.name].Gives? then found[status.name].plugin.All() else []
  }

  function StepsOf(found: map<string, Source>, status: Status): seq<(string, seq<Undo>)> {
    if status.state == IsLoaded then [(status.name, Removals(BroughtBy(found, status)))] else []
  }

  /** What the plugins said to be loaded have recorded, in load order. */
  function LoadedSteps(found: map<string, Source>, statuses: seq<Status>): seq<(string, seq<Undo>)> {
    if statuses == [] then []
    else LoadedSteps(found, statuses[..|statuses| - 1]) + StepsOf(found, statuses[|statuses| - 1])
  }

  /** Everything the plugins said to be loaded bring. */
  function LoadedContributions(found: map<string, Source>, statuses: seq<Status>): seq<Contribution> {
    if statuses == [] then []
    else LoadedContributions(found, statuses[..|statuses| - 1]) + BroughtBy(found, statuses[|statuses| - 1])
  }

  lemma LoadedOneMore(undo: seq<(string, seq<Undo>)>, added: seq<Contribution>, found: map<string, Source>,
                      statuses: seq<Status>, status: Status)
    ensures undo + LoadedSteps(found, statuses) + StepsOf(found, status)
        == undo + LoadedSteps(found, statuses + [status])
    ensures added + LoadedContributions(found, statuses) + BroughtBy(found, status)
         == added + LoadedContributions(found, statuses + [status])
  {
    assert (statuses + [status])[..|statuses|] == statuses;
  }

  lemma SameOfferTrans(a: Registries, b: Registries, c: Registries)
    requires SameOffer(a, b) && SameOffer(b, c)
    ensures SameOffer(a, c)
  {
  }

  /** A plugin named as one of the catalogue's own families is refused for its tool's name,
      and the catalogue's tool of that name is left with the plugin's handler. */
  lemma RefusedYetFelt(own: Thing, theirs: Thing)
    requires own != theirs
    ensures var name := "nested.flatten";
      var before: Registries := map[(Tools, name) := own, (Extensions, name) := own];
      var p := AddAll(before, {}, [], [Contribution(Tool, name, theirs, Fine)]);
      && !p.ok
      && SameOffer(UndoAll(p.registries, p.undo), before)
      && UndoAll(p.registries, p.undo)[(Extensions, name)] == theirs
  {
  }

  // ------------------------------------------------------------------ whole runs

  /** The host's books: the registries, how to take back what each loaded plugin added, what
      they added, and whether nothing tried so far shared a slot with something already there. */
  datatype Books = Books(
    registries: Registries, undo: seq<(string, seq<Undo>)>, added: seq<Contribution>, clean: bool)

  /** Everything a plugin brings, added and recorded; or taken back at the first refusal. */
  ghost function Installed(b: Books, reserved: Reserved, name: string, cs: seq<Contribution>): Books {
    var p := AddAll(b.registries, reserved, [], cs);
    var clean := b.clean && TriedHarmlessly(b.registries, reserved, cs);
    if p.ok then Books(p.registries, b.undo + [(name, p.undo)], b.added + cs, clean)
    else Books(p.registries - SlotsOf(p.undo), b.undo, b.added, clean)
  }

  ghost predicate GetsToTry(name: string, source: Source) {
    source.Gives? && source.plugin.name == name && source.plugin.PassesSdk()
  }

  ghost function LoadedOne(b: Books, reserved: Reserved, name: string, source: Source): Books {
    if GetsToTry(name, source) then Installed(b, reserved, name, source.plugin.All()) else b
  }

  ghost function LoadedNext(b: Books, reserved: Reserved, name: string, found: map<string, Source>): Books {
    if name in found then LoadedOne(b, reserved, name, found[name]) else b
  }

  /** The books after loading every enabled name in order. */
  ghost function LoadedAll(b: Books, reserved: Reserved, enabled: seq<string>, found: map<string, Source>): Books {
    if enabled == [] then b
    else LoadedNext(LoadedAll(b, reserved, enabled[..|enabled| - 1], found), reserved, enabled[|enabled| - 1], found)
  }

  /** What each enabled name is answered, in order. */
  ghost function AnswersTo(b: Books, reserved: Reserved, enabled: seq<string>, found: map<string,
      Source>): seq<Status> {
    if enabled == [] then []
    else
      var before, last := enabled[..|enabled| - 1], enabled[|enabled| - 1];
      AnswersTo(b, reserved, before, found) + [AnswerTo(LoadedAll(b, reserved, before, found).registries, reserved,
          last, found)]
  }

  ghost function AnswerTo(r: Registries, reserved: Reserved, name: string, found: map<string, Source>): Status {
    Status(name, if name !in found then NotFound else if Accepted(r, reserved, name, found[name]) then IsLoaded
        else Refused)
  }

  ghost predicate InOrder(base: Registries, reserved: Reserved, b: Books) {
    Steps(b.undo) == Removals(b.added) && Consistent(base, reserved, b.added, b.clean, b.registries)
  }

  /** What installing comes to, in a consistent state. */
  lemma InstalledIs(base: Registries, reserved: Reserved, b: Books, name: string, cs: seq<Contribution>)
    requires InOrder(base, reserved, b) && NothingTwice(cs)
    ensures var after := Installed(b, reserved, name, cs);
      && InOrder(base, reserved, after)
      && AddAll(b.registries, reserved, [], cs).ok == (FailAt(b.registries, reserved, cs) == |cs|)
      && if FailAt(b.registries, reserved, cs) == |cs| then
           && after.registries == PutAll(b.registries, cs) && after.added == b.added + cs
           && after.undo == b.undo + [(name, Removals(cs))]
         else
           && SameOffer(after.registries, b.registries) && after.added == b.added && after.undo == b.undo
           && (after.clean ==> after.registries == b.registries)
  {
    if AddAll(b.registries, reserved, [], cs).ok {
      AfterLoad(base, reserved, b.added, b.clean, b.registries, cs);
      StepsAppend(b.undo, (name, Removals(cs)));
    } else {
      AfterRefusal(base, reserved, b.added, b.clean, b.registries, cs);
    }
  }

  lemma {:induction false} LoadedInOrder(base: Registries, reserved: Reserved, b: Books, enabled: seq<string>,
                                         found: map<string, Source>)
    requires InOrder(base, reserved, b)
    ensures InOrder(base, reserved, LoadedAll(b, reserved, enabled, found))
  {
    if enabled != [] {
      var before, last := enabled[..|enabled| - 1], enabled[|enabled| - 1];
      LoadedInOrder(base, reserved, b, before, found);
      if last in found && GetsToTry(last, found[last]) {
        InstalledIs(base, reserved, LoadedAll(b, reserved, before, found), last, found[last].plugin.All());
      }
    }
  }

  lemma {:induction false} AnswersInOrder(b: Books, reserved: Reserved, enabled: seq<string>, found: map<string,
        Source>)
    ensures Answers(enabled, found, AnswersTo(b, reserved, enabled, found))
  {
    if enabled != [] {
      AnswersInOrder(b, reserved, enabled[..|enabled| - 1], found);
    }
  }

  /** What has been added and recorded since is what the plugins said to be loaded bring, in load order. */
  ghost predicate Accounts(b: Books, after: Books, found: map<string, Source>, answers: seq<Status>) {
    after.undo == b.undo + LoadedSteps(found, answers) && after.added == b.added + LoadedContributions(found, answers)
  }

  lemma AccountsOneMore(b: Books, now: Books, next: Books, found: map<string, Source>, answers: seq<Status>,
        answer: Status)
    requires Accounts(b, now, found, answers)
    requires next.undo == now.undo + StepsOf(found, answer) && next.added == now.added + BroughtBy(found, answer)
    ensures Accounts(b, next, found, answers + [answer])
  {
    LoadedOneMore(b.undo, b.added, found, answers, answer);
  }

  lemma {:induction false} AnswersAccount(base: Registries, reserved: Reserved, b: Books, enabled: seq<string>,
                                          found: map<string, Source>)
    requires InOrder(base, reserved, b)
    ensures Accounts(b, LoadedAll(b, reserved, enabled, found), found, AnswersTo(b, reserved, enabled, found))
  {
    if enabled != [] {
      var before, last := enabled[..|enabled| - 1], enabled[|enabled| - 1];
      AnswersAccount(base, reserved, b, before, found);
      LoadedInOrder(base, reserved, b, before, found);
      var now := LoadedAll(b, reserved, before, found);
      AnswerAccounts(base, reserved, now, last, found);
      AccountsOneMore(b, now, LoadedNext(now, reserved, last, found), found, AnswersTo(b, reserved, before, found),
                      AnswerTo(now.registries, reserved, last, found));
    } else {
      assert b.undo + [] == b.undo && b.added + [] == b.added;
    }
  }

  lemma AnswerAccounts(base: Registries, reserved: Reserved, b: Books, name: string, found: map<string, Source>)
    requires InOrder(base, reserved, b)
    ensures var after, answer := LoadedNext(b, reserved, name, found), AnswerTo(b.registries, reserved, name, found);
      after.undo == b.undo + StepsOf(found, answer) && after.added == b.added + BroughtBy(found, answer)
  {
    if name in found && GetsToTry(name, found[name]) {
      InstalledIs(base, reserved, b, name, found[name].plugin.All());
    }
  }

  ghost function Fresh(base: Registries): Books {
    Books(base, [], [], true)
  }

  lemma FreshIsInOrder(base: Registries, reserved: Reserved)
    ensures InOrder(base, reserved, Fresh(base))
  {
    assert Removals([]) == [];
  }

  /** Loading any plugins and unloading them all gives back what people saw; and every registry,
      if nothing any of them tried shared a slot with what was there. */
  lemma LoadThenUnload(base: Registries, reserved: Reserved, enabled: seq<string>, found: map<string, Source>)
    ensures var b := LoadedAll(Fresh(base), reserved, enabled, found);
      var back := b.registries - SlotsOf(Steps(b.undo));
      SameOffer(back, base) && (b.clean ==> back == base)
  {
    FreshIsInOrder(base, reserved);
    LoadedInOrder(base, reserved, Fresh(base), enabled, found);
    var b := LoadedAll(Fresh(base), reserved, enabled, found);
    AfterUnload(base, reserved, b.added, b.clean, b.registries);
  }

  /** Nothing a plugin brings has a slot taken, behind the scenes either, and none of its tools
      raises once it is built. */
  ghost predicate BringsNew(base: Registries, cs: seq<Contribution>) {
    forall i :: 0 <= i < |cs| ==> SlotsFree(base, cs[i]) && (cs[i].kind == Tool ==> cs[i].course != RaisesOnceBuilt)
  }

  ghost predicate Disjoint(a: seq<Contribution>, b: seq<Contribution>) {
    forall i, j :: 0 <= i < |a| && 0 <= j < |b| ==> a[i].kind == b[j].kind ==> a[i].name != b[j].name
  }

  /** Each enabled plugin that gets to try brings only what is new to the registries as they were
      before any plugin, and to what the others bring. */
  ghost predicate AllApart(base: Registries, enabled: seq<string>, found: map<string, Source>) {
    && (forall n :: n in enabled && n in found && GetsToTry(n, found[n]) ==> BringsNew(base, found[n].plugin.All()))
    && (forall m, n ::
          (m in enabled && n in enabled && m != n && m in found && n in found
           && GetsToTry(m, found[m]) && GetsToTry(n, found[n])) ==>
            Disjoint(found[m].plugin.All(), found[n].plugin.All()))
  }

  /** Everything added so far one of the enabled plugins brings. */
  ghost predicate AddedBy(enabled: seq<string>, found: map<string, Source>, added: seq<Contribution>) {
    forall i :: 0 <= i < |added| ==>
      IsBrought(enabled, found, added[i])
  }

  ghost predicate IsBrought(enabled: seq<string>, found: map<string, Source>, c: Contribution) {
    exists n :: n in enabled && IsBroughtBy(n, found, c)
  }

  ghost predicate IsBroughtBy(name: string, found: map<string, Source>, c: Contribution) {
    name in found && GetsToTry(name, found[name]) && c in found[name].plugin.All()
  }

  lemma {:induction false} ApartLeavesNoTrace(base: Registries, reserved: Reserved, enabled: seq<string>,
                                              found: map<string, Source>)
    requires AllDifferent(enabled) && AllApart(base, enabled, found)
    ensures var b := LoadedAll(Fresh(base), reserved, enabled, found);
      InOrder(base, reserved, b) && b.clean && AddedBy(enabled, found, b.added)
  {
    FreshIsInOrder(base, reserved);
    if enabled != [] {
      var before, last := enabled[..|enabled| - 1], enabled[|enabled| - 1];
      assert enabled == before + [last];
      ApartLeavesNoTrace(base, reserved, before, found);
      var b := LoadedAll(Fresh(base), reserved, before, found);
      AddedStays(before, last, found, b.added);
      if last in found && GetsToTry(last, found[last]) {
        AddedIsApart(base, before, last, found, b.added);
        NewIsHarmless(base, reserved, b.added, found[last].plugin.All());
        InstalledIs(base, reserved, b, last, found[last].plugin.All());
      }
    }
  }

  lemma AddedStays(before: seq<string>, last: string, found: map<string, Source>, added: seq<Contribution>)
    requires AddedBy(before, found, added)
    ensures AddedBy(before + [last], found, added)
    ensures last in found && GetsToTry(last, found[last]) ==>
      AddedBy(before + [last], found, added + found[last].plugin.All())
  {
    var enabled := before + [last];
    assert last in enabled;
    if last in found && GetsToTry(last, found[last]) {
      assert forall c :: c in found[last].plugin.All() ==> IsBroughtBy(last, found, c);
    }
    forall i | 0 <= i < |added| ensures IsBrought(enabled, found, added[i]) {
      assert IsBrought(before, found, added[i]);
      var n :| n in before && IsBroughtBy(n, found, added[i]);
      assert n in enabled;
    }
  }

  lemma AddedIsApart(base: Registries, before: seq<string>, last: string, found: map<string, Source>,
        added: seq<Contribution>)
    requires AddedBy(before, found, added) && last !in before && last in found && GetsToTry(last, found[last])
    requires AllApart(base, before + [last], found)
    ensures forall i :: 0 <= i < |added| ==> Disjoint([added[i]], found[last].plugin.All())
    ensures BringsNew(base, found[last].plugin.All())
  {
    var enabled := before + [last];
    assert last in enabled;
    forall i | 0 <= i < |added| ensures Disjoint([added[i]], found[last].plugin.All()) {
      assert IsBrought(before, found, added[i]);
      var n :| n in before && IsBroughtBy(n, found, added[i]);
      assert n in enabled;
      var k :| 0 <= k < |found[n].plugin.All()| && found[n].plugin.All()[k] == added[i];
      assert Disjoint(found[n].plugin.All(), found[last].plugin.All());
    }
  }

  lemma NewIsHarmless(base: Registries, reserved: Reserved, added: seq<Contribution>, cs: seq<Contribution>)
    requires BringsNew(base, cs) && forall i :: 0 <= i < |added| ==> Disjoint([added[i]], cs)
    ensures TriedHarmlessly(PutAll(base, added), reserved, cs)
  {
    var now := PutAll(base, added);
    var tried := Tried(now, reserved, cs);
    forall j | 0 <= j < |tried| ensures Harmless(now, reserved, tried[j]) {
      assert tried[j] == cs[j];
      forall i | 0 <= i < |added| ensures added[i].kind == cs[j].kind ==> added[i].name != cs[j].name {
        assert [added[i]][0] == added[i];
      }
      StaysFree(base, added, cs[j]);
    }
  }

  lemma StaysFree(base: Registries, added: seq<Contribution>, c: Contribution)
    requires SlotsFree(base, c) && forall i :: 0 <= i < |added| ==> added[i].kind == c.kind ==> added[i].name != c.name
    ensures SlotsFree(PutAll(base, added), c)
  {
    forall slot | slot in Slots(c.kind, c.name) ensures slot !in PutAll(base, added) {
      PutAllAt(base, added, slot);
      SlotsOfRemovals(added, slot);
    }
  }

  /** Loading plugins that bring only new things, and unloading them, gives back every registry. */
  lemma ApartIsRestored(base: Registries, reserved: Reserved, enabled: seq<string>, found: map<string, Source>)
    requires AllDifferent(enabled) && AllApart(base, enabled, found)
    ensures var b := LoadedAll(Fresh(base), reserved, enabled, found);
      b.registries - SlotsOf(Steps(b.undo)) == base
  {
    ApartLeavesNoTrace(base, reserved, enabled, found);
    LoadThenUnload(base, reserved, enabled, found);
  }
}
