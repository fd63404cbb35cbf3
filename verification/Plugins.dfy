/**
 Loading plugins (plugins.py): each enabled plugin adds what it brings to shared
 registries, one thing at a time, and is taken back out when any of it is refused.

 The registries are the source's dictionaries. A tool has two entries, in the
 tool library and among the extension handlers, and a function has two, in the
 function catalogue and among its handlers (service_transformations/plugin_host.py).
 */
module Plugins {
  /** What a registry holds under a name: a declaration or a handler, by identity. */
  type Thing = nat

  datatype Registry = Tools | Extensions | Functions | Handlers | Charts | Connectors

  type Slot = (Registry, string)

  /** All the registries at once: what each holds under each name. */
  type Registries = map<Slot, Thing>

  datatype Kind = Tool | Function | Chart | Connector

  /** How building, adding and checking one contribution go, apart from names already taken. */
  datatype Course = Fine | RaisesFirst | RaisesOnceBuilt | FailsItsChecks

  /** One thing a plugin brings, under the name the registries know it by. */
  datatype Contribution = Contribution(kind: Kind, name: string, thing: Thing, course: Course)

  datatype Plugin = Plugin(
    name: string,
    otherSdkChecks: bool,
    tools: seq<Contribution>,
    functions: seq<Contribution>,
    charts: seq<Contribution>,
    connectors: seq<Contribution>)
  {
    function All(): seq<Contribution> {
      tools + functions + charts + connectors
    }

    /** The SDK's own checks, of which "adds nothing twice" matters here. */
    ghost predicate PassesSdk() {
      otherSdkChecks && NothingTwice(All())
    }
  }

  ghost predicate NothingTwice(cs: seq<Contribution>) {
    forall i, j :: 0 <= i < j < |cs| ==> cs[i].kind == cs[j].kind ==> cs[i].name != cs[j].name
  }

  /** Names no function may take besides the catalogue's own: aliases, `if` and `ifs`. */
  type Reserved = set<string>

  /** How to take one thing back. */
  datatype Undo = Remove(kind: Kind, name: string)

  // ------------------------------------------------- one contribution, and back

  /** The registry people see a kind of thing in. */
  function Main(kind: Kind): Registry {
    match kind
    case Tool => Tools
    case Function => Functions
    case Chart => Charts
    case Connector => Connectors
  }

  /** Everywhere a thing of this kind and name is kept. */
  function Slots(kind: Kind, name: string): set<Slot> {
    match kind
    case Tool => {(Tools, name), (Extensions, name)}
    case Function => {(Functions, name), (Handlers, name)}
    case Chart => {(Charts, name)}
    case Connector => {(Connectors, name)}
  }

  predicate Clashes(r: Registries, reserved: Reserved, c: Contribution) {
    (Main(c.kind), c.name) in r || (c.kind == Function && c.name in reserved)
  }

  function Put(r: Registries, c: Contribution): Registries {
    r + map slot | slot in Slots(c.kind, c.name) :: c.thing
  }

  function TakeBack(r: Registries, undo: Undo): Registries {
    r - Slots(undo.kind, undo.name)
  }

  /** What building a contribution leaves before it is added: a tool's specification
      puts its extension handler in place as it is built, whatever name it has. */
  function Built(r: Registries, c: Contribution): Registries {
    if c.kind == Tool && c.course != RaisesFirst then r[(Extensions, c.name) := c.thing] else r
  }

  /** Added to the registries, with its way back recorded. */
  predicate IsAdded(r: Registries, reserved: Reserved, c: Contribution) {
    c.course in {Fine, FailsItsChecks} && !Clashes(r, reserved, c)
  }

  predicate Passes(r: Registries, reserved: Reserved, c: Contribution) {
    c.course == Fine && !Clashes(r, reserved, c)
  }

  datatype Progress = Progress(registries: Registries, undo: seq<Undo>, ok: bool)

  /** The four `_add_*` loops, up to the first refusal or exception. */
  function AddAll(r: Registries, reserved: Reserved, undo: seq<Undo>, cs: seq<Contribution>): Progress
    decreases |cs|
  {
    if cs == [] then Progress(r, undo, true)
    else if IsAdded(r, reserved, cs[0]) then
      var next, undo' := Put(r, cs[0]), undo + [Remove(cs[0].kind, cs[0].name)];
      if cs[0].course == Fine then AddAll(next, reserved, undo', cs[1..]) else Progress(next, undo', false)
    else Progress(Built(r, cs[0]), undo, false)
  }

  /** Taking back the steps recorded, the last one first. */
  function UndoAll(r: Registries, undo: seq<Undo>): Registries
    decreases |undo|
  {
    if undo == [] then r else UndoAll(TakeBack(r, undo[|undo| - 1]), undo[..|undo| - 1])
  }

  // ------------------------------------------------------- what adding amounts to

  function PutAll(r: Registries, cs: seq<Contribution>): Registries {
    if cs == [] then r else Put(PutAll(r, cs[..|cs| - 1]), cs[|cs| - 1])
  }

  function Removals(cs: seq<Contribution>): seq<Undo> {
    seq(|cs|, i requires 0 <= i < |cs| => Remove(cs[i].kind, cs[i].name))
  }

  function SlotsOf(undo: seq<Undo>): set<Slot> {
    set u, slot | u in undo && slot in Slots(u.kind, u.name) :: slot
  }

  lemma SlotsOfAppend(a: seq<Undo>, b: seq<Undo>)
    ensures SlotsOf(a + b) == SlotsOf(a) + SlotsOf(b)
  {
  }

  /** Running the steps backwards takes out exactly the slots they name. */
  lemma {:induction false} UndoAllTakesOut(r: Registries, undo: seq<Undo>)
    ensures UndoAll(r, undo) == r - SlotsOf(undo)
    decreases |undo|
  {
    if undo != [] {
      var last, rest := undo[|undo| - 1], undo[..|undo| - 1];
      UndoAllTakesOut(TakeBack(r, last), rest);
      SlotsOfAppend(rest, [last]);
      assert undo == rest + [last];
      assert SlotsOf([last]) == Slots(last.kind, last.name) by { assert last in [last]; }
    }
  }

  lemma SlotsOfRemovals(cs: seq<Contribution>, slot: Slot)
    ensures slot in SlotsOf(Removals(cs)) <==> exists i :: 0 <= i < |cs| && slot in Slots(cs[i].kind, cs[i].name)
  {
    if i :| 0 <= i < |cs| && slot in Slots(cs[i].kind, cs[i].name) {
      assert Removals(cs)[i] == Remove(cs[i].kind, cs[i].name);
    }
  }

  lemma {:induction false} PutAllAt(r: Registries, cs: seq<Contribution>, slot: Slot)
    ensures slot !in SlotsOf(Removals(cs)) ==> (slot in PutAll(r, cs) <==> slot in r)
    ensures slot !in SlotsOf(Removals(cs)) && slot in r ==> PutAll(r, cs)[slot] == r[slot]
    ensures slot in SlotsOf(Removals(cs)) ==> slot in PutAll(r, cs)
  {
    SlotsOfRemovals(cs, slot);
    if cs != [] {
      var rest, last := cs[..|cs| - 1], cs[|cs| - 1];
      PutAllAt(r, rest, slot);
      SlotsOfRemovals(rest, slot);
      assert forall i :: 0 <= i < |rest| ==> rest[i] == cs[i];
      assert slot in SlotsOf(Removals(cs)) <==> slot in SlotsOf(Removals(rest)) || slot in Slots(last.kind, last.name);
    }
  }

  /** Alike in what people see: tools, functions, chart types and connectors. */
  ghost predicate SameOffer(a: Registries, b: Registries) {
    forall slot: Slot :: slot.0 !in {Extensions, Handlers} ==>
      (slot in a <==> slot in b) && (slot in a && slot in b ==> a[slot] == b[slot])
  }

  ghost predicate NoneClash(r: Registries, reserved: Reserved, cs: seq<Contribution>) {
    forall i :: 0 <= i < |cs| ==> !Clashes(r, reserved, cs[i])
  }

  /** None of the slots these take is taken, behind the scenes either. */
  predicate SlotsFree(r: Registries, c: Contribution) {
    match c.kind
    case Tool => (Tools, c.name) !in r && (Extensions, c.name) !in r
    case Function => (Functions, c.name) !in r && (Handlers, c.name) !in r
    case Chart => (Charts, c.name) !in r
    case Connector => (Connectors, c.name) !in r
  }

  ghost predicate AllFree(r: Registries, cs: seq<Contribution>) {
    forall i :: 0 <= i < |cs| ==> SlotsFree(r, cs[i])
  }

  /** Adding things under new names and taking them out again changes nothing people see,
      and nothing at all exactly when no slot was taken. */
  lemma PutAndTakeBack(r: Registries, reserved: Reserved, cs: seq<Contribution>)
    requires NoneClash(r, reserved, cs)
    ensures SameOffer(PutAll(r, cs) - SlotsOf(Removals(cs)), r)
    ensures AllFree(r, cs) <==> PutAll(r, cs) - SlotsOf(Removals(cs)) == r
  {
    PutIsTakenOut(r, cs);
    MainSlotsAreNew(r, reserved, cs);
    FreeIsDisjoint(r, cs);
  }

  lemma PutIsTakenOut(r: Registries, cs: seq<Contribution>)
    ensures PutAll(r, cs) - SlotsOf(Removals(cs)) == r - SlotsOf(Removals(cs))
  {
    var out := SlotsOf(Removals(cs));
    forall slot
      ensures slot in PutAll(r, cs) - out <==> slot in r && slot !in out
      ensures slot in PutAll(r, cs) - out ==> (PutAll(r, cs) - out)[slot] == r[slot]
    {
      PutAllAt(r, cs, slot);
    }
  }

  lemma MainSlotsAreNew(r: Registries, reserved: Reserved, cs: seq<Contribution>)
    requires NoneClash(r, reserved, cs)
    ensures SameOffer(r - SlotsOf(Removals(cs)), r)
  {
  }

  lemma FreeIsDisjoint(r: Registries, cs: seq<Contribution>)
    ensures AllFree(r, cs) <==> r - SlotsOf(Removals(cs)) == r
  {
    if AllFree(r, cs) {
      forall slot | slot in r ensures slot !in SlotsOf(Removals(cs)) {
        SlotsOfRemovals(cs, slot);
        assert forall i :: 0 <= i < |cs| ==> SlotsFree(r, cs[i]);
      }
    } else {
      var i :| 0 <= i < |cs| && !SlotsFree(r, cs[i]);
      var slot :| slot in Slots(cs[i].kind, cs[i].name) && slot in r;
      SlotsOfRemovals(cs, slot);
      assert slot !in r - SlotsOf(Removals(cs));
    }
  }

  // ---------------------------------------------------- where adding stops

  /** The first contribution refused, or all of them. */
  function FailAt(r: Registries, reserved: Reserved, cs: seq<Contribution>): (n: nat)
    ensures n <= |cs|
    ensures forall i :: 0 <= i < n ==> Passes(r, reserved, cs[i])
    ensures n < |cs| ==> !Passes(r, reserved, cs[n])
  {
    if cs == [] || !Passes(r, reserved, cs[0]) then 0 else 1 + FailAt(r, reserved, cs[1..])
  }

  lemma PutAllClashes(r: Registries, reserved: Reserved, cs: seq<Contribution>, c: Contribution)
    requires forall i :: 0 <= i < |cs| ==> cs[i].kind == c.kind ==> cs[i].name != c.name
    ensures Clashes(PutAll(r, cs), reserved, c) == Clashes(r, reserved, c)
  {
  }

  /** What adding leaves, when nothing is there twice: everything before the first refusal,
      and of the refused one what its refusal came too late for. */
  function Outcome(r: Registries, reserved: Reserved, cs: seq<Contribution>): Progress {
    var n := FailAt(r, reserved, cs);
    if n == |cs| then Progress(PutAll(r, cs), Removals(cs), true)
    else if IsAdded(r, reserved, cs[n]) then Progress(PutAll(r, cs[..n + 1]), Removals(cs[..n + 1]), false)
    else Progress(Built(PutAll(r, cs[..n]), cs[n]), Removals(cs[..n]), false)
  }

  lemma {:induction false} AddAllFrom(r: Registries, reserved: Reserved, cs: seq<Contribution>, k: nat)
    requires NothingTwice(cs) && k <= FailAt(r, reserved, cs)
    ensures AddAll(PutAll(r, cs[..k]), reserved, Removals(cs[..k]), cs[k..]) == Outcome(r, reserved, cs)
    decreases |cs| - k
  {
    if k < FailAt(r, reserved, cs) {
      AddAllGoesOn(r, reserved, cs, k);
      AddAllFrom(r, reserved, cs, k + 1);
    } else if k < |cs| {
      AddAllStops(r, reserved, cs, k);
    } else {
      assert cs[..k] == cs;
    }
  }

  lemma AddOne(r: Registries, reserved: Reserved, cs: seq<Contribution>, k: nat)
    requires NothingTwice(cs) && k < |cs|
    ensures cs[k..][0] == cs[k] && cs[k..][1..] == cs[k + 1..]
    ensures IsAdded(PutAll(r, cs[..k]), reserved, cs[k]) == IsAdded(r, reserved, cs[k])
    ensures PutAll(r, cs[..k + 1]) == Put(PutAll(r, cs[..k]), cs[k])
    ensures Removals(cs[..k + 1]) == Removals(cs[..k]) + [Remove(cs[k].kind, cs[k].name)]
  {
    PutAllClashes(r, reserved, cs[..k], cs[k]);
    assert cs[..k + 1][..k] == cs[..k] && cs[..k + 1][k] == cs[k];
  }

  lemma AddAllGoesOn(r: Registries, reserved: Reserved, cs: seq<Contribution>, k: nat)
    requires NothingTwice(cs) && k < |cs| && Passes(r, reserved, cs[k])
    ensures AddAll(PutAll(r, cs[..k]), reserved, Removals(cs[..k]), cs[k..])
         == AddAll(PutAll(r, cs[..k + 1]), reserved, Removals(cs[..k + 1]), cs[k + 1..])
  {
    AddOne(r, reserved, cs, k);
  }

  lemma AddAllStops(r: Registries, reserved: Reserved, cs: seq<Contribution>, k: nat)
    requires NothingTwice(cs) && k < |cs| && k == FailAt(r, reserved, cs)
    ensures AddAll(PutAll(r, cs[..k]), reserved, Removals(cs[..k]), cs[k..]) == Outcome(r, reserved, cs)
  {
    AddOne(r, reserved, cs, k);
  }

  lemma AddAllIs(r: Registries, reserved: Reserved, cs: seq<Contribution>)
    requires NothingTwice(cs)
    ensures AddAll(r, reserved, [], cs) == Outcome(r, reserved, cs)
  {
    AddAllFrom(r, reserved, cs, 0);
    assert cs[..0] == [] && cs[0..] == cs && Removals([]) == [];
  }

  // ------------------------------------------------- accepted whole, and then there

  /** Nothing of its kind has the name; nor, for a function, is the name an alias or a keyword. */
  predicate IsFree(r: Registries, reserved: Reserved, c: Contribution) {
    match c.kind
    case Tool => (Tools, c.name) !in r
    case Function => (Functions, c.name) !in r && c.name !in reserved
    case Chart => (Charts, c.name) !in r
    case Connector => (Connectors, c.name) !in r
  }

  /** A plugin that brings nothing twice is accepted exactly when everything it brings builds,
      passes its checks, and has a name that was free before the plugin came. */
  lemma AcceptedExactly(r: Registries, reserved: Reserved, cs: seq<Contribution>)
    requires NothingTwice(cs)
    ensures AddAll(r, reserved, [], cs).ok <==>
      forall i :: 0 <= i < |cs| ==> cs[i].course == Fine && IsFree(r, reserved, cs[i])
    ensures AddAll(r, reserved, [], cs).ok <==> FailAt(r, reserved, cs) == |cs|
  {
    AddAllIs(r, reserved, cs);
    forall i | 0 <= i < |cs|
      ensures Passes(r, reserved, cs[i]) <==> cs[i].course == Fine && IsFree(r, reserved, cs[i])
    {
    }
  }

  /** Tools are kept with their handlers, and functions with theirs. */
  predicate IsKeptIn(kind: Kind, registry: Registry) {
    match registry
    case Tools => kind == Tool
    case Extensions => kind == Tool
    case Functions => kind == Function
    case Handlers => kind == Function
    case Charts => kind == Chart
    case Connectors => kind == Connector
  }

  ghost predicate IsOf(cs: seq<Contribution>, slot: Slot, i: int) {
    0 <= i < |cs| && cs[i].name == slot.1 && IsKeptIn(cs[i].kind, slot.0)
  }

  /** Once added, each thing is what every registry of its kind has under its name, and nothing
      else has changed. */
  lemma {:induction false} AddedIsThere(r: Registries, cs: seq<Contribution>, slot: Slot)
    requires NothingTwice(cs)
    ensures forall i :: IsOf(cs, slot, i) ==> slot in PutAll(r, cs) && PutAll(r, cs)[slot] == cs[i].thing
    ensures (forall i :: !IsOf(cs, slot, i)) ==>
      (slot in PutAll(r, cs) <==> slot in r) && (slot in r ==> PutAll(r, cs)[slot] == r[slot])
  {
    if cs != [] {
      var rest, n := cs[..|cs| - 1], |cs| - 1;
      AddedIsThere(r, rest, slot);
      assert forall i :: 0 <= i < n ==> (IsOf(cs, slot, i) <==> IsOf(rest, slot, i));
      assert IsOf(cs, slot, n) <==> slot in Slots(cs[n].kind, cs[n].name);
    }
  }

  // ------------------------------------------------------- a refused plugin

  /** Attempting `c` leaves no trace behind once it is undone: what is added takes no slot already
      taken, and what is refused unadded is no tool already built, or one with the handler that
      was there. */
  predicate Harmless(r: Registries, reserved: Reserved, c: Contribution) {
    if IsAdded(r, reserved, c) then SlotsFree(r, c)
    else c.kind == Tool && c.course != RaisesFirst ==> (Extensions, c.name) in r && r[(Extensions, c.name)] == c.thing
  }

  /** The contributions reached before the plugin was refused, the refused one included. */
  function Tried(r: Registries, reserved: Reserved, cs: seq<Contribution>): seq<Contribution> {
    var n := FailAt(r, reserved, cs);
    if n == |cs| then cs else cs[..n + 1]
  }

  ghost predicate AllHarmless(r: Registries, reserved: Reserved, cs: seq<Contribution>) {
    forall i :: 0 <= i < |cs| ==> Harmless(r, reserved, cs[i])
  }

  /** Nothing that people see is left, and nothing at all exactly when all tried was harmless. */
  ghost predicate LeavesNothing(r: Registries, reserved: Reserved, cs: seq<Contribution>, after: Registries) {
    SameOffer(after, r) && (after == r <==> AllHarmless(r, reserved, Tried(r, reserved, cs)))
  }

  /** What is left of a refused plugin: nothing that people see; and nothing at all exactly
      when nothing it added took a slot already taken behind the scenes, and the one refused
      before it was added is not a tool that was already built, or is one whose handler was
      there already. */
  lemma RefusedLeavesNothing(r: Registries, reserved: Reserved, cs: seq<Contribution>)
    requires NothingTwice(cs) && !AddAll(r, reserved, [], cs).ok
    ensures var p := AddAll(r, reserved, [], cs);
      LeavesNothing(r, reserved, cs, UndoAll(p.registries, p.undo))
  {
    AddAllIs(r, reserved, cs);
    var n := FailAt(r, reserved, cs);
    if IsAdded(r, reserved, cs[n]) {
      UndoAllTakesOut(PutAll(r, cs[..n + 1]), Removals(cs[..n + 1]));
      TriedAreAdded(r, reserved, cs, n);
      RefusedAdded(r, reserved, Tried(r, reserved, cs));
    } else {
      UndoAllTakesOut(Built(PutAll(r, cs[..n]), cs[n]), Removals(cs[..n]));
      LeftUnadded(r, reserved, cs, n);
    }
  }

  lemma TriedAreAdded(r: Registries, reserved: Reserved, cs: seq<Contribution>, n: nat)
    requires n < |cs| && n == FailAt(r, reserved, cs) && IsAdded(r, reserved, cs[n])
    ensures var tried := Tried(r, reserved, cs);
      tried == cs[..n + 1] && forall i :: 0 <= i < |tried| ==> IsAdded(r, reserved, tried[i])
  {
  }

  lemma LeftUnadded(r: Registries, reserved: Reserved, cs: seq<Contribution>, n: nat)
    requires NothingTwice(cs) && n < |cs| && n == FailAt(r, reserved, cs) && !IsAdded(r, reserved, cs[n])
    ensures LeavesNothing(r, reserved, cs, Built(PutAll(r, cs[..n]), cs[n]) - SlotsOf(Removals(cs[..n])))
  {
    var done, c := cs[..n], cs[n];
    TriedUnadded(r, reserved, cs, n);
    RefusedUnadded(r, reserved, done, c);
    HarmlessAppend(r, reserved, done, c);
  }

  lemma TriedUnadded(r: Registries, reserved: Reserved, cs: seq<Contribution>, n: nat)
    requires NothingTwice(cs) && n < |cs| && n == FailAt(r, reserved, cs)
    ensures Tried(r, reserved, cs) == cs[..n] + [cs[n]]
    ensures var done := cs[..n];
      forall i :: 0 <= i < |done| ==>
        Passes(r, reserved, done[i]) && (done[i].kind == cs[n].kind ==> done[i].name != cs[n].name)
  {
  }

  lemma RefusedAdded(r: Registries, reserved: Reserved, tried: seq<Contribution>)
    requires forall i :: 0 <= i < |tried| ==> IsAdded(r, reserved, tried[i])
    ensures var after := PutAll(r, tried) - SlotsOf(Removals(tried));
      SameOffer(after, r) && (after == r <==> AllHarmless(r, reserved, tried))
  {
    PutAndTakeBack(r, reserved, tried);
    HarmlessIsFree(r, reserved, tried);
  }

  lemma HarmlessIsFree(r: Registries, reserved: Reserved, cs: seq<Contribution>)
    requires forall i :: 0 <= i < |cs| ==> IsAdded(r, reserved, cs[i])
    ensures AllFree(r, cs) <==> AllHarmless(r, reserved, cs)
  {
  }

  lemma HarmlessAppend(r: Registries, reserved: Reserved, cs: seq<Contribution>, c: Contribution)
    ensures AllHarmless(r, reserved, cs + [c]) <==> AllHarmless(r, reserved, cs) && Harmless(r, reserved, c)
  {
    assert (cs + [c])[|cs|] == c && forall i :: 0 <= i < |cs| ==> (cs + [c])[i] == cs[i];
  }

  lemma RefusedUnadded(r: Registries, reserved: Reserved, done: seq<Contribution>, c: Contribution)
    requires forall i :: 0 <= i < |done| ==>
      Passes(r, reserved, done[i]) && (done[i].kind == c.kind ==> done[i].name != c.name)
    requires !IsAdded(r, reserved, c)
    ensures var after := Built(PutAll(r, done), c) - SlotsOf(Removals(done));
      && SameOffer(after, r) && (after == r <==> AllHarmless(r, reserved, done) && Harmless(r, reserved, c))
  {
    PutAndTakeBack(r, reserved, done);
    HarmlessIsFree(r, reserved, done);
    if c.kind == Tool && c.course != RaisesFirst {
      HandlerIsKept(done, c);
      PutIsTakenOut(r, done);
      HandlerLeft(r, PutAll(r, done), SlotsOf(Removals(done)), (Extensions, c.name), c.thing);
    }
  }

  lemma HandlerIsKept(done: seq<Contribution>, c: Contribution)
    requires c.kind == Tool && forall i :: 0 <= i < |done| ==> done[i].kind == c.kind ==> done[i].name != c.name
    ensures (Extensions, c.name) !in SlotsOf(Removals(done))
  {
    SlotsOfRemovals(done, (Extensions, c.name));
  }

  lemma HandlerLeft(r: Registries, put: Registries, undone: set<Slot>, slot: Slot, thing: Thing)
    requires SameOffer(put - undone, r) && slot.0 == Extensions && slot !in undone && put - undone == r - undone
    ensures SameOffer(put[slot := thing] - undone, r)
    ensures put[slot := thing] - undone == r <==> put - undone == r && slot in r && r[slot] == thing
  {
    var left, after := put - undone, put[slot := thing] - undone;
    assert after == left[slot := thing];
    assert slot in left ==> left[slot] == r[slot];
  }
}
