/** What sign-ins and syncs keep, over any run of them (sso_flow.py, scim_sync.py). */
module SignInTheory {
  import opened Common
  import opened DirectorySync
  import opened SignIn

  ghost function Reach(settings: Settings, names: Names, w: World, events: seq<Event>): World {
    if events == [] then w
    else Step(settings, names, Reach(settings, names, w, events[..|events| - 1]), events[|events| - 1])
  }

  /** What the browsers are told, in order. */
  ghost function Answers(settings: Settings, names: Names, w: World, events: seq<Event>): seq<Outcome> {
    if events == [] then []
    else
      var before, e := events[..|events| - 1], events[|events| - 1];
      var now := Reach(settings, names, w, before);
      Answers(settings, names, w, before) +
      (match e
       case Begins(_, _, _, _, _, _) => [Begin(settings, now, e).1]
       case CallsBack(_, _, _) => [CallBack(settings, now, e).1]
       case _ => [])
  }

  predicate Timed(e: Event) {
    !e.Syncs?
  }

  /** The clock never runs backwards. */
  ghost predicate InTime(events: seq<Event>) {
    forall i, j :: 0 <= i < j < |events| && Timed(events[i]) && Timed(events[j]) ==> events[i].now <= events[j].now
  }

  /** No state is drawn twice. */
  ghost predicate Fresh(events: seq<Event>) {
    forall i, j :: 0 <= i < j < |events| && events[i].Begins? && events[j].Begins? ==>
      events[i].state != events[j].state
  }

  lemma PrefixKeeps(events: seq<Event>, n: nat)
    requires n <= |events|
    ensures InTime(events) ==> InTime(events[..n])
    ensures Fresh(events) ==> Fresh(events[..n])
  {
  }

  // ------------------------------------------------------ what a state check means

  /** The sign-in begun at `b` with this state has not been called back since. */
  ghost predicate Pending(events: seq<Event>, state: string, b: nat) {
    && b < |events| && events[b].Begins? && events[b].discovered && events[b].state == state
    && forall k :: b < k < |events| && events[k].CallsBack? ==> events[k].state != state
  }

  /** A stored state was stored before and not called back, or has just been begun. */
  lemma WhyStored(settings: Settings, names: Names, w: World, e: Event, state: string)
    requires settings.configured && state != "" && state in Step(settings, names, w, e).states
    ensures var kept := Step(settings, names, w, e).states[state];
      if state in w.states then kept == w.states[state] && (e.CallsBack? ==> e.state != state)
      else e.Begins? && e.discovered && e.state == state && kept == Kept(e)
  {
  }

  /** Every stored state is what was kept of a pending sign-in. */
  lemma {:induction false} StoredIsPending(settings: Settings, names: Names, rows: Accounts, events: seq<Event>,
        state: string)
    requires settings.configured && state != "" && state in Reach(settings, names, World(rows, map[]), events).states
    ensures exists b: nat :: (Pending(events, state, b)
      && Reach(settings, names, World(rows, map[]), events).states[state] == Kept(events[b]))
  {
    if events != [] {
      var n := |events| - 1;
      var before, e := events[..n], events[n];
      var w := Reach(settings, names, World(rows, map[]), before);
      WhyStored(settings, names, w, e, state);
      if state in w.states {
        StoredIsPending(settings, names, rows, before, state);
        var b: nat :| Pending(before, state, b) && w.states[state] == Kept(before[b]);
        StillPending(before, e, state, b);
      } else {
        assert Pending(events, state, n);
      }
      assert events == before + [e];
    }
  }

  lemma StillPending(before: seq<Event>, e: Event, state: string, b: nat)
    requires Pending(before, state, b) && (e.CallsBack? ==> e.state != state)
    ensures Pending(before + [e], state, b) && (before + [e])[b] == before[b]
  {
  }

  lemma StaysStored(settings: Settings, names: Names, w: World, e: Event, state: string)
    requires state in w.states && (e.CallsBack? ==> e.state != state)
    requires e.Sweeps? ==> e.now <= w.states[state].expiresAt
    ensures var after := Step(settings, names, w, e).states;
      state in after && after[state] == w.states[state]
  {
  }

  /** Every pending sign-in that has not expired is stored. */
  lemma {:induction false} PendingIsStored(settings: Settings, names: Names, rows: Accounts, events: seq<Event>,
        state: string, b: nat, now: int)
    requires settings.configured && InTime(events) && Fresh(events) && state != "" && Pending(events, state, b)
    requires now <= events[b].now + STATE_TTL
    requires forall i :: 0 <= i < |events| && Timed(events[i]) ==> events[i].now <= now
    ensures var w := Reach(settings, names, World(rows, map[]), events);
      state in w.states && w.states[state].expiresAt == events[b].now + STATE_TTL
  {
    var n := |events| - 1;
    var before, e := events[..n], events[n];
    PrefixKeeps(events, n);
    var w := Reach(settings, names, World(rows, map[]), before);
    if b < n {
      assert Pending(before, state, b) && before[b] == events[b];
      PendingIsStored(settings, names, rows, before, state, b, now);
      StaysStored(settings, names, w, e, state);
    } else {
      assert events == before + [e];
      NotBegunYet(settings, names, rows, before, e);
    }
  }

  lemma NotBegunYet(settings: Settings, names: Names, rows: Accounts, before: seq<Event>, e: Event)
    requires settings.configured && e.Begins? && e.state != "" && Fresh(before + [e])
    ensures e.state !in Reach(settings, names, World(rows, map[]), before).states
  {
    BegunOnce(before, e);
    if e.state in Reach(settings, names, World(rows, map[]), before).states {
      StoredIsPending(settings, names, rows, before, e.state);
    }
  }

  lemma BegunOnce(before: seq<Event>, e: Event)
    requires Fresh(before + [e]) && e.Begins?
    ensures forall k :: 0 <= k < |before| && before[k].Begins? ==> before[k].state != e.state
  {
    forall k | 0 <= k < |before| && before[k].Begins? ensures before[k].state != e.state {
      assert (before + [e])[k] == before[k] && (before + [e])[|before|] == e;
    }
  }

  /** A callback passes the state check exactly when its sign-in was begun here, has not been
      called back before, and began no more than STATE_TTL ago, whatever was swept meanwhile. */
  lemma StateCheckIsExact(settings: Settings, names: Names, rows: Accounts, events: seq<Event>, n: nat)
    requires settings.configured && InTime(events) && Fresh(events) && n < |events| && events[n].CallsBack?
    ensures var state, now := events[n].state, events[n].now;
      StatePasses(Reach(settings, names, World(rows, map[]), events[..n]), state, now)
      <==> state != "" && exists b: nat :: Pending(events[..n], state, b) && now <= events[b].now + STATE_TTL
  {
    var before, state, now := events[..n], events[n].state, events[n].now;
    PrefixKeeps(events, n);
    var w := Reach(settings, names, World(rows, map[]), before);
    if StatePasses(w, state, now) {
      StoredIsPending(settings, names, rows, before, state);
    }
    if b: nat :| state != "" && Pending(before, state, b) && now <= events[b].now + STATE_TTL {
      PendingIsStored(settings, names, rows, before, state, b, now);
    }
  }

  /** A sign-in that comes back continues with the verifier and nonce it was begun with, and
      ends at the path it was begun for, which always begins with a slash. */
  lemma ContinuesWhatWasBegun(settings: Settings, names: Names, rows: Accounts, events: seq<Event>, n: nat)
    requires settings.configured && n < |events| && events[n].CallsBack?
    requires StatePasses(Reach(settings, names, World(rows, map[]), events[..n]), events[n].state, events[n].now)
    ensures var w, state := Reach(settings, names, World(rows, map[]), events[..n]), events[n].state;
      exists b: nat :: Pending(events[..n], state, b)
        && w.states[state].verifier == events[b].verifier && w.states[state].nonce == events[b].nonce
        && match CallBack(settings, w, events[n]).1
           case SignedIn(_, path) => path == SafePath(events[b].nextPath) && path[..1] == "/"
           case _ => true
  {
    StoredIsPending(settings, names, rows, events[..n], events[n].state);
  }

  /** A begun state passes the check at most once. */
  lemma StatePassesOnce(settings: Settings, names: Names, rows: Accounts, events: seq<Event>, i: nat, j: nat)
    requires settings.configured && InTime(events) && Fresh(events)
    requires i < j < |events| && events[i].CallsBack? && events[j].CallsBack? && events[i].state == events[j].state
    requires StatePasses(Reach(settings, names, World(rows, map[]), events[..i]), events[i].state, events[i].now)
    ensures !StatePasses(Reach(settings, names, World(rows, map[]), events[..j]), events[j].state, events[j].now)
  {
    var state := events[i].state;
    StateCheckIsExact(settings, names, rows, events, i);
    StateCheckIsExact(settings, names, rows, events, j);
    var b: nat :| Pending(events[..i], state, b);
    forall c: nat ensures !Pending(events[..j], state, c) {
      assert events[..j][i] == events[i] && events[..j][b] == events[b] == events[..i][b];
      assert c != b ==> !Pending(events[..j], state, c);
    }
  }

  /** What a sweep leaves: the states that have not expired, as they were, and the same accounts. */
  lemma SweepIsExact(settings: Settings, names: Names, w: World, now: int)
    ensures var after := Step(settings, names, w, Sweeps(now));
      && after.rows == w.rows
      && (forall s :: s in after.states <==> s in w.states && now <= w.states[s].expiresAt)
      && forall s :: s in after.states ==> after.states[s] == w.states[s]
  {
  }

  // ------------------------------------------------------ sweeping goes unnoticed

  function Unswept(events: seq<Event>): seq<Event> {
    if events == [] then []
    else
      var before, e := Unswept(events[..|events| - 1]), events[|events| - 1];
      if e.Sweeps? then before else before + [e]
  }

  /** The same answer, up to the wording of a refusal. */
  predicate Alike(a: Outcome, b: Outcome) {
    a == b || (a.Refused? && b.Refused?)
  }

  ghost predicate AllAlike(a: seq<Outcome>, b: seq<Outcome>) {
    |a| == |b| && forall i :: 0 <= i < |a| ==> Alike(a[i], b[i])
  }

  /** `swept` has everything of `kept` but states that some sweep found expired. */
  ghost predicate SweptFrom(events: seq<Event>, swept: World, kept: World) {
    && swept.rows == kept.rows
    && (forall s :: s in swept.states ==> s in kept.states && swept.states[s] == kept.states[s])
    && (forall s :: s in kept.states && s !in swept.states ==>
          exists k :: 0 <= k < |events| && events[k].Sweeps? && kept.states[s].expiresAt < events[k].now)
  }

  lemma {:induction false} StoredWasBegun(settings: Settings, names: Names, rows: Accounts, events: seq<Event>,
        state: string)
    requires state in Reach(settings, names, World(rows, map[]), Unswept(events)).states
    ensures exists k :: 0 <= k < |events| && events[k].Begins? && events[k].state == state
  {
    if events != [] {
      var n := |events| - 1;
      var before, e := events[..n], events[n];
      if state in Reach(settings, names, World(rows, map[]), Unswept(before)).states {
        StoredWasBegun(settings, names, rows, before, state);
        var k :| 0 <= k < |before| && before[k].Begins? && before[k].state == state;
        assert events[k] == before[k];
      } else {
        assert !e.Sweeps? && Unswept(events)[..|Unswept(events)| - 1] == Unswept(before);
      }
    }
  }

  lemma SweptGrows(before: seq<Event>, e: Event, swept: World, kept: World)
    requires SweptFrom(before, swept, kept)
    ensures SweptFrom(before + [e], swept, kept)
  {
    forall s | s in kept.states && s !in swept.states
      ensures exists k ::
        0 <= k < |before + [e]| && (before + [e])[k].Sweeps? && kept.states[s].expiresAt < (before + [e])[k].now
    {
      var k :| 0 <= k < |before| && before[k].Sweeps? && kept.states[s].expiresAt < before[k].now;
      assert (before + [e])[k] == before[k];
    }
  }

  lemma SweepUnnoticed(events: seq<Event>, now: int, swept: World, kept: World)
    requires SweptFrom(events, swept, kept) && events != [] && events[|events| - 1] == Sweeps(now)
    ensures SweptFrom(events, swept.(states := swept.states - Expired(swept.states, now)), kept)
  {
  }

  lemma BeginUnnoticed(settings: Settings, events: seq<Event>, e: Event, swept: World, kept: World)
    requires SweptFrom(events, swept, kept) && e.Begins? && e.state !in kept.states
    ensures SweptFrom(events, Begin(settings, swept, e).0, Begin(settings, kept, e).0)
    ensures Begin(settings, swept, e).1 == Begin(settings, kept, e).1
  {
  }

  lemma CallBackUnnoticed(settings: Settings, events: seq<Event>, e: Event, swept: World, kept: World)
    requires SweptFrom(events, swept, kept) && e.CallsBack?
    requires forall k :: 0 <= k < |events| && events[k].Sweeps? ==> events[k].now <= e.now
    ensures SweptFrom(events, CallBack(settings, swept, e).0, CallBack(settings, kept, e).0)
    ensures Alike(CallBack(settings, swept, e).1, CallBack(settings, kept, e).1)
  {
  }

  lemma StepUnnoticed(settings: Settings, names: Names, before: seq<Event>, e: Event, swept: World, kept: World)
    requires SweptFrom(before, swept, kept) && InTime(before + [e])
    requires e.Begins? ==> e.state !in kept.states
    ensures SweptFrom(before + [e], Step(settings, names, swept, e), if e.Sweeps? then kept
        else Step(settings, names, kept, e))
    ensures e.Begins? ==> Begin(settings, swept, e).1 == Begin(settings, kept, e).1
    ensures e.CallsBack? ==> Alike(CallBack(settings, swept, e).1, CallBack(settings, kept, e).1)
  {
    var events, n := before + [e], |before|;
    SweptGrows(before, e, swept, kept);
    match e
    case Begins(_, _, _, _, _, _) => BeginUnnoticed(settings, events, e, swept, kept);
    case CallsBack(_, _, _) =>
      assert events[n] == e;
      forall k | 0 <= k < |events| && events[k].Sweeps? ensures events[k].now <= e.now {
        assert k < n;
      }
      CallBackUnnoticed(settings, events, e, swept, kept);
    case Sweeps(now) => SweepUnnoticed(events, now, swept, kept);
    case Syncs(_, _, _) =>
  }

  /** A state that is only now drawn is not stored. */
  lemma NotStoredYet(settings: Settings, names: Names, rows: Accounts, before: seq<Event>, e: Event)
    requires Fresh(before + [e]) && e.Begins?
    ensures e.state !in Reach(settings, names, World(rows, map[]), Unswept(before)).states
  {
    forall k | 0 <= k < |before| && before[k].Begins? ensures before[k].state != e.state {
      assert (before + [e])[k] == before[k] && (before + [e])[|before|] == e;
    }
    if e.state in Reach(settings, names, World(rows, map[]), Unswept(before)).states {
      StoredWasBegun(settings, names, rows, before, e.state);
    }
  }

  /** Adding sweeps to a run, anywhere, changes no account and no callback's success or failure. */
  lemma {:induction false} SweepsUnnoticed(settings: Settings, names: Names, rows: Accounts, events: seq<Event>)
    requires InTime(events) && Fresh(events)
    ensures SweptFrom(events, Reach(settings, names, World(rows, map[]), events),
        Reach(settings, names, World(rows, map[]), Unswept(events)))
    ensures AllAlike(Answers(settings, names, World(rows, map[]), events),
        Answers(settings, names, World(rows, map[]), Unswept(events)))
  {
    if events != [] {
      var n := |events| - 1;
      var before, e := events[..n], events[n];
      PrefixKeeps(events, n);
      SweepsUnnoticed(settings, names, rows, before);
      var w := World(rows, map[]);
      var swept, kept := Reach(settings, names, w, before), Reach(settings, names, w, Unswept(before));
      assert events == before + [e];
      if e.Begins? {
        NotStoredYet(settings, names, rows, before, e);
      }
      StepUnnoticed(settings, names, before, e, swept, kept);
      if !e.Sweeps? {
        assert Unswept(events) == Unswept(before) + [e]
            && (Unswept(before) + [e])[..|Unswept(before)|] == Unswept(before);
      }
      AnswersUnnoticed(settings, names, rows, before, e);
    }
  }

  lemma AnswersUnnoticed(settings: Settings, names: Names, rows: Accounts, before: seq<Event>, e: Event)
    requires AllAlike(Answers(settings, names, World(rows, map[]), before),
        Answers(settings, names, World(rows, map[]), Unswept(before)))
    requires var w := World(rows, map[]);
      var swept, kept := Reach(settings, names, w, before), Reach(settings, names, w, Unswept(before));
      && (e.Begins? ==> Begin(settings, swept, e).1 == Begin(settings, kept, e).1)
      && (e.CallsBack? ==> Alike(CallBack(settings, swept, e).1, CallBack(settings, kept, e).1))
    ensures AllAlike(Answers(settings, names, World(rows, map[]), before + [e]),
        Answers(settings, names, World(rows, map[]), Unswept(before + [e])))
  {
    var w := World(rows, map[]);
    AnswersNext(settings, names, w, before, e);
    if e.Sweeps? {
      assert Unswept(before + [e]) == Unswept(before);
    } else {
      assert (before + [e])[..|before|] == before && Unswept(before + [e]) == Unswept(before) + [e];
      AnswersNext(settings, names, w, Unswept(before), e);
    }
  }

  lemma AnswersNext(settings: Settings, names: Names, w: World, before: seq<Event>, e: Event)
    ensures var now := Reach(settings, names, w, before);
      Answers(settings, names, w, before + [e]) == Answers(settings, names, w, before) +
        (match e
         case Begins(_, _, _, _, _, _) => [Begin(settings, now, e).1]
         case CallsBack(_, _, _) => [CallBack(settings, now, e).1]
         case _ => [])
  {
    assert (before + [e])[..|before|] == before;
  }

  /** Two runs that differ only in their sweeps answer every browser alike and leave the same accounts. */
  lemma SweepsMayGoAnywhere(settings: Settings, names: Names, rows: Accounts, a: seq<Event>, b: seq<Event>)
    requires InTime(a) && Fresh(a) && InTime(b) && Fresh(b) && Unswept(a) == Unswept(b)
    ensures AllAlike(Answers(settings, names, World(rows, map[]), a), Answers(settings, names, World(rows, map[]), b))
    ensures Reach(settings, names, World(rows, map[]), a).rows == Reach(settings, names, World(rows, map[]), b).rows
  {
    SweepsUnnoticed(settings, names, rows, a);
    SweepsUnnoticed(settings, names, rows, b);
  }

  // ------------------------------------------------------ who can be deactivated

  /** Accounts are only added, by provisioning, as the directory's; whose an account is never changes;
      and no step but a sync deactivates one, and then one of the directory's. */
  lemma StepKeepsLocals(settings: Settings, names: Names, w: World, e: Event)
    ensures var after := Step(settings, names, w, e).rows;
      && |w.rows| <= |after| <= |w.rows| + 1
      && (|after| > |w.rows| ==> e.CallsBack? && after[|w.rows|].source == Sso && after[|w.rows|].active)
      && forall i :: 0 <= i < |w.rows| ==>
           && after[i].source == w.rows[i].source && after[i].username == w.rows[i].username
           && (after[i].active != w.rows[i].active ==> e.Syncs? && w.rows[i].active && w.rows[i].source == Sso)
  {
    match e
    case CallsBack(_, _, provider) =>
    case Syncs(managed, snapshot, _) =>
      if ListsManaged(w.rows, managed) {
        RunIsSafe(names, w.rows, managed, snapshot);
        var d := Decide(w.rows, AbsentInOrder(names, w.rows, managed, snapshot));
        assert forall i :: i in SetOf(d.deactivate) ==> i in Absent(names, w.rows, snapshot);
      }
    case _ =>
  }

  /** In any run, a local account is never deactivated, even after it signs in through the
      provider; and every account of the directory was there as one, or was made by a sign-in. */
  lemma {:induction false} LocalsAreNeverSwept(settings: Settings, names: Names, w: World, events: seq<Event>, i: nat)
    requires i < |Reach(settings, names, w, events).rows|
    ensures var end := Reach(settings, names, w, events).rows[i];
      if i < |w.rows| then
        && end.source == w.rows[i].source
        && (w.rows[i].source == Local ==> end.active == w.rows[i].active)
        && (!w.rows[i].active ==> !end.active)
      else end.source == Sso
  {
    if events != [] {
      var before := events[..|events| - 1];
      StepKeepsLocals(settings, names, Reach(settings, names, w, before), events[|events| - 1]);
      if i < |Reach(settings, names, w, before).rows| {
        LocalsAreNeverSwept(settings, names, w, before, i);
      } else {
        RowsGrow(settings, names, w, before);
      }
    }
  }

  lemma {:induction false} RowsGrow(settings: Settings, names: Names, w: World, events: seq<Event>)
    ensures |w.rows| <= |Reach(settings, names, w, events).rows|
  {
    if events != [] {
      RowsGrow(settings, names, w, events[..|events| - 1]);
      StepKeepsLocals(settings, names, Reach(settings, names, w, events[..|events| - 1]), events[|events| - 1]);
    }
  }

  // ----------------------------------------------------------- the last admin

  /** A step takes away the last active admin exactly when it is a sign-in by that very
      account, whose provider gives it another role than admin and than the default. */
  ghost predicate DemotesLastAdmin(settings: Settings, w: World, e: Event) {
    && e.CallsBack? && settings.configured && StatePasses(w, e.state, e.now) && e.provider.Vouches?
    && e.provider.identity.role !in {"admin", settings.defaultRole}
    && FindUser(w.rows, e.provider.identity.username).Some?
    && ActiveAdmins(w.rows) == {FindUser(w.rows, e.provider.identity.username).value}
  }

  lemma LastAdminLost(settings: Settings, names: Names, w: World, e: Event)
    requires ActiveAdmins(w.rows) != {}
    ensures ActiveAdmins(Step(settings, names, w, e).rows) == {} <==> DemotesLastAdmin(settings, w, e)
  {
    match e
    case CallsBack(_, _, provider) =>
      if settings.configured && StatePasses(w, e.state, e.now) && provider.Vouches?
         && Provision(settings, w.rows, provider.identity).Ok? {
        AdminsAfterProvision(settings, w.rows, provider.identity);
      }
    case Syncs(managed, snapshot, _) =>
      if ListsManaged(w.rows, managed) {
        RunIsSafe(names, w.rows, managed, snapshot);
      }
    case _ =>
  }

  lemma AdminsAfterProvision(settings: Settings, rows: Accounts, identity: Identity)
    requires ActiveAdmins(rows) != {} && Provision(settings, rows, identity).Ok?
    ensures ActiveAdmins(Provision(settings, rows, identity).value.0) == {} <==>
      && identity.role !in {"admin", settings.defaultRole}
      && FindUser(rows, identity.username).Some?
      && ActiveAdmins(rows) == {FindUser(rows, identity.username).value}
  {
    var after := Provision(settings, rows, identity).value.0;
    match FindUser(rows, identity.username)
    case Some(i) =>
      assert forall j :: j != i ==> (j in ActiveAdmins(after) <==> j in ActiveAdmins(rows));
      if ActiveAdmins(after) == {} {
        var j :| j in ActiveAdmins(rows);
        assert j == i;
        assert ActiveAdmins(rows) == {i};
      }
    case None =>
      var j :| j in ActiveAdmins(rows);
      assert j in ActiveAdmins(after);
  }

  /** Syncs alone, any number of them over any directories, leave an active admin if there was one. */
  lemma {:induction false} SyncsKeepAnAdmin(settings: Settings, names: Names, w: World, events: seq<Event>)
    requires ActiveAdmins(w.rows) != {} && forall i :: 0 <= i < |events| ==> !events[i].CallsBack?
    ensures ActiveAdmins(Reach(settings, names, w, events).rows) != {}
  {
    if events != [] {
      var before := events[..|events| - 1];
      SyncsKeepAnAdmin(settings, names, w, before);
      LastAdminLost(settings, names, Reach(settings, names, w, before), events[|events| - 1]);
    }
  }

  /** The only admin begins a sign-in and comes back from the provider, whose groups now make them
      an analyst: nobody is left to administer. */
  lemma LastAdminIsDemoted(names: Names)
    ensures var settings := Settings(true, true, "viewer");
      var start := World([Account("ada", "admin", true, Sso, 0, None, None)], map[]);
      var run := [Begins(0, true, "s", "v", "n", "/"),
                  CallsBack(STATE_TTL, "s", Vouches(Identity("ada", "analyst", None, None)))];
      && ActiveAdmins(start.rows) != {}
      && Answers(settings, names, start, run) == [Begun, SignedIn(0, "/")]
      && ActiveAdmins(Reach(settings, names, start, run).rows) == {}
  {
    var settings := Settings(true, true, "viewer");
    var rows := [Account("ada", "admin", true, Sso, 0, None, None)];
    var begins := Begins(0, true, "s", "v", "n", "/");
    var callsBack := CallsBack(STATE_TTL, "s", Vouches(Identity("ada", "analyst", None, None)));
    ReachTwo(settings, names, World(rows, map[]), begins, callsBack);
    assert FindUser(rows, "ada") == Some(0) && 0 in ActiveAdmins(rows);
    assert SafePath("/") == "/";
  }

  lemma ReachTwo(settings: Settings, names: Names, w: World, begins: Event, callsBack: Event)
    requires begins.Begins? && callsBack.CallsBack?
    ensures var between := Begin(settings, w, begins);
      && Reach(settings, names, w, [begins, callsBack]) == CallBack(settings, between.0, callsBack).0
      && Answers(settings, names, w, [begins, callsBack]) == [between.1, CallBack(settings, between.0, callsBack).1]
  {
    var run := [begins, callsBack];
    assert run[..1] == [begins] && [begins][..0] == [];
    assert Reach(settings, names, w, [begins][..0]) == w && Answers(settings, names, w, [begins][..0]) == [];
    assert Reach(settings, names, w, run[..1]) == Begin(settings, w, begins).0;
  }
}
