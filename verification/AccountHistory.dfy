/** What becomes of each account, field by field, over any run of sign-ins and syncs (sso_flow.py, scim_sync.py). */
module AccountHistory {
  import opened Common
  import opened DirectorySync
  import opened SignIn
  import opened SignInTheory

  // -------------------------------------------------------------------- one step

  /** The account of this name; the last, should a table hold several. */
  ghost predicate IsUser(rows: Accounts, username: string, i: int) {
    && 0 <= i < |rows| && rows[i].username == username
    && forall j :: i < j < |rows| ==> rows[j].username != username
  }

  lemma {:induction false} FindUserIsExact(rows: Accounts, username: string)
    ensures match FindUser(rows, username)
      case Some(i) => IsUser(rows, username, i)
      case None => forall i :: 0 <= i < |rows| ==> rows[i].username != username
  {
    if rows != [] {
      FindUserIsExact(rows[..|rows| - 1], username);
    }
  }

  /** A callback that passes the state check and for which the provider vouches. */
  ghost predicate Arrives(settings: Settings, w: World, e: Event) {
    e.CallsBack? && settings.configured && StatePasses(w, e.state, e.now) && e.provider.Vouches?
  }

  /** Account `i` signs in: it is the one vouched for, and is active. */
  ghost predicate SignsInAs(settings: Settings, w: World, e: Event, i: int) {
    && Arrives(settings, w, e) && IsUser(w.rows, e.provider.identity.username, i) && w.rows[i].active
  }

  /** An account is made: nobody is called so, and accounts may be made on arrival. */
  ghost predicate Joins(settings: Settings, w: World, e: Event) {
    && Arrives(settings, w, e) && settings.allowJit
    && forall i :: 0 <= i < |w.rows| ==> w.rows[i].username != e.provider.identity.username
  }

  /** Account `i` is deactivated by a sync. */
  ghost predicate IsDropped(names: Names, w: World, e: Event, i: int) {
    && e.Syncs? && !e.dryRun && ListsManaged(w.rows, e.managed) && 0 <= i
    && IsGone(names, w.rows, e.snapshot, i) && !IsKeptAdmin(names, w.rows, e.managed, e.snapshot, i)
  }

  ghost predicate IsTold(told: Option<string>) {
    told.Some? && told.value != ""
  }

  /** What a new account holds: what the provider vouched for, and nothing more. */
  ghost predicate IsMadeFrom(account: Account, identity: Identity) {
    && account.username == identity.username && account.role == identity.role
    && account.email == identity.email && account.displayName == identity.displayName
    && account.active && account.source == Sso && account.tokenVersion == 0
  }

  /** What a step leaves of account `i`: a sign-in tells its email and display name, if they are
      not empty, and its role, if it is not the default one; a sync may deactivate it and void its
      sessions; and nothing else changes anything. */
  ghost predicate Follows(settings: Settings, names: Names, w: World, e: Event, i: nat, after: Account)
    requires i < |w.rows|
  {
    var before, signsIn := w.rows[i], SignsInAs(settings, w, e, i);
    && after.username == before.username && after.source == before.source
    && after.role == (if signsIn && e.provider.identity.role != settings.defaultRole
                      then e.provider.identity.role else before.role)
    && after.email == (if signsIn && IsTold(e.provider.identity.email)
                       then e.provider.identity.email else before.email)
    && after.displayName == (if signsIn && IsTold(e.provider.identity.displayName)
                             then e.provider.identity.displayName else before.displayName)
    && after.active == (before.active && !IsDropped(names, w, e, i))
    && after.tokenVersion == before.tokenVersion + if IsDropped(names, w, e, i) then 1 else 0
  }

  lemma ArrivalIsExact(settings: Settings, names: Names, w: World, e: Event)
    requires Arrives(settings, w, e)
    ensures var after := CallBack(settings, w, e).0.rows;
      && |after| == |w.rows| + (if Joins(settings, w, e) then 1 else 0)
      && (Joins(settings, w, e) ==> IsMadeFrom(after[|w.rows|], e.provider.identity))
      && forall i :: 0 <= i < |w.rows| ==> Follows(settings, names, w, e, i, after[i])
  {
    FindUserIsExact(w.rows, e.provider.identity.username);
  }

  /** One step on the user table, field by field. */
  lemma StepIsExact(settings: Settings, names: Names, w: World, e: Event)
    ensures var after := Step(settings, names, w, e).rows;
      && |after| == |w.rows| + (if Joins(settings, w, e) then 1 else 0)
      && (Joins(settings, w, e) ==> IsMadeFrom(after[|w.rows|], e.provider.identity))
      && forall i :: 0 <= i < |w.rows| ==> Follows(settings, names, w, e, i, after[i])
  {
    match e
    case CallsBack(_, _, _) =>
      if Arrives(settings, w, e) {
        ArrivalIsExact(settings, names, w, e);
      }
    case Syncs(managed, snapshot, _) =>
      if ListsManaged(w.rows, managed) {
        SyncIsExact(names, w.rows, managed, snapshot);
      }
    case _ =>
  }

  // ---------------------------------------------------------------------- a run

  /** Some callback of the run vouched for this name with this role. */
  ghost predicate VouchedFor(events: seq<Event>, username: string, role: string) {
    exists k :: VouchesAt(events, k, username, role)
  }

  ghost predicate VouchesAt(events: seq<Event>, k: int, username: string, role: string) {
    && 0 <= k < |events| && events[k].CallsBack? && events[k].provider.Vouches?
    && events[k].provider.identity.username == username && events[k].provider.identity.role == role
  }

  lemma VouchedForStill(before: seq<Event>, e: Event, username: string, role: string)
    ensures VouchedFor(before, username, role) ==> VouchedFor(before + [e], username, role)
    ensures VouchesAt([e], 0, username, role) ==> VouchedFor(before + [e], username, role)
  {
    var events := before + [e];
    if k :| VouchesAt(before, k, username, role) {
      assert events[k] == before[k] && VouchesAt(events, k, username, role);
    }
    if VouchesAt([e], 0, username, role) {
      assert events[|before|] == e && VouchesAt(events, |before|, username, role);
    }
  }

  /** Every account at the end of a run has the role it had at the start, or one the provider
      vouched for with its name; and every account added since was vouched for with its name. */
  lemma {:induction false} RolesAreVouchedFor(settings: Settings, names: Names, w: World, events: seq<Event>, i: nat)
    requires i < |Reach(settings, names, w, events).rows|
    ensures var end := Reach(settings, names, w, events).rows[i];
      || (i < |w.rows| && end.role == w.rows[i].role)
      || VouchedFor(events, end.username, end.role)
    ensures i < |w.rows| ==> Reach(settings, names, w, events).rows[i].username == w.rows[i].username
  {
    if events != [] {
      var before, e := events[..|events| - 1], events[|events| - 1];
      var now := Reach(settings, names, w, before);
      assert events == before + [e];
      StepIsExact(settings, names, now, e);
      RowsGrow(settings, names, w, before);
      var end := Step(settings, names, now, e).rows[i];
      VouchedForStill(before, e, end.username, end.role);
      if i < |now.rows| {
        RolesAreVouchedFor(settings, names, w, before, i);
        assert Follows(settings, names, now, e, i, end);
      }
    }
  }

  /** Nobody becomes an admin but by a callback that vouches for them as one. */
  lemma AdminsAreVouchedFor(settings: Settings, names: Names, w: World, events: seq<Event>, i: nat)
    requires i in ActiveAdmins(Reach(settings, names, w, events).rows)
    ensures || i in ActiveAdmins(w.rows)
      || VouchedFor(events, Reach(settings, names, w, events).rows[i].username, "admin")
  {
    RolesAreVouchedFor(settings, names, w, events, i);
    LocalsAreNeverSwept(settings, names, w, events, i);
  }

  /** In any run an account's sessions are voided exactly when a sync deactivates it, which happens
      once at most, since nothing makes it active again. */
  lemma {:induction false} SessionsEndOnce(settings: Settings, names: Names, w: World, events: seq<Event>, i: nat)
    requires i < |w.rows|
    ensures i < |Reach(settings, names, w, events).rows|
    ensures var end := Reach(settings, names, w, events).rows[i];
      && w.rows[i].tokenVersion <= end.tokenVersion <= w.rows[i].tokenVersion + 1
      && (end.tokenVersion > w.rows[i].tokenVersion <==> w.rows[i].active && !end.active)
      && (!w.rows[i].active ==> !end.active)
  {
    if events != [] {
      var before, e := events[..|events| - 1], events[|events| - 1];
      SessionsEndOnce(settings, names, w, before, i);
      StepIsExact(settings, names, Reach(settings, names, w, before), e);
      var now := Reach(settings, names, w, before);
      assert Follows(settings, names, now, e, i, Step(settings, names, now, e).rows[i]);
    }
  }

  // ------------------------------------------------------------- who is signed in

  /** The sign-in of this state was begun for this path, is pending, and began at most ten minutes ago. */
  ghost predicate ReturnsTo(events: seq<Event>, state: string, now: int, path: string) {
    exists b: nat :: Pending(events, state, b) && now - events[b].now <= 600
      && path == if events[b].nextPath != "" && events[b].nextPath[0] == '/' then events[b].nextPath else "/"
  }

  /** In any run, a callback signs account `i` in, at this path, exactly when its sign-in was begun
      here for the path, has not come back before and is at most ten minutes old, and the provider
      vouches for an active account, or for somebody new where accounts may be made. */
  lemma SignedInExactly(settings: Settings, names: Names, rows: Accounts, events: seq<Event>, n: nat, i: nat,
        path: string)
    requires settings.configured && InTime(events) && Fresh(events) && n < |events| && events[n].CallsBack?
    ensures var w, e := Reach(settings, names, World(rows, map[]), events[..n]), events[n];
      CallBack(settings, w, e).1 == SignedIn(i, path) <==>
        && e.provider.Vouches? && e.state != "" && ReturnsTo(events[..n], e.state, e.now, path)
        && (|| (IsUser(w.rows, e.provider.identity.username, i) && w.rows[i].active)
            || (settings.allowJit && i == |w.rows|
                && forall j :: 0 <= j < |w.rows| ==> w.rows[j].username != e.provider.identity.username))
  {
    var w, e := Reach(settings, names, World(rows, map[]), events[..n]), events[n];
    StateCheckIsExact(settings, names, rows, events, n);
    if StatePasses(w, e.state, e.now) {
      PathIsKept(settings, names, rows, events, n, path);
      if e.provider.Vouches? {
        WhoIsSignedIn(settings, w, e, i, path);
      }
    }
  }

  lemma WhoIsSignedIn(settings: Settings, w: World, e: Event, i: nat, path: string)
    requires Arrives(settings, w, e)
    ensures CallBack(settings, w, e).1 == SignedIn(i, path) <==>
      && w.states[e.state].nextPath == path
      && (|| (IsUser(w.rows, e.provider.identity.username, i) && w.rows[i].active)
          || (settings.allowJit && i == |w.rows|
              && forall j :: 0 <= j < |w.rows| ==> w.rows[j].username != e.provider.identity.username))
  {
    FindUserIsExact(w.rows, e.provider.identity.username);
  }

  lemma PathIsKept(settings: Settings, names: Names, rows: Accounts, events: seq<Event>, n: nat, path: string)
    requires settings.configured && InTime(events) && Fresh(events) && n < |events| && events[n].CallsBack?
    requires StatePasses(Reach(settings, names, World(rows, map[]), events[..n]), events[n].state, events[n].now)
    ensures var w := Reach(settings, names, World(rows, map[]), events[..n]);
      w.states[events[n].state].nextPath == path <==> ReturnsTo(events[..n], events[n].state, events[n].now, path)
  {
    var before, state, now := events[..n], events[n].state, events[n].now;
    PrefixKeeps(events, n);
    StoredIsPending(settings, names, rows, before, state);
    var w := Reach(settings, names, World(rows, map[]), before);
    var b: nat :| Pending(before, state, b) && w.states[state] == Kept(before[b]);
    forall c: nat | Pending(before, state, c) ensures c == b {
    }
  }

  /** In any run, a sign-in is begun whenever sign-on is set up and the provider answers, its state
      being new; it is then kept for its callback, and otherwise nothing is. */
  lemma BegunExactly(settings: Settings, names: Names, rows: Accounts, events: seq<Event>, n: nat)
    requires Fresh(events) && settings.configured && n < |events| && events[n].Begins? && events[n].state != ""
    ensures var w, e := Reach(settings, names, World(rows, map[]), events[..n]), events[n];
      && (Begin(settings, w, e).1 == Begun <==> e.discovered)
      && Begin(settings, w, e).0.rows == w.rows
      && Begin(settings, w, e).0.states.Keys == w.states.Keys + if e.discovered then {e.state} else {}
  {
    PrefixKeeps(events, n + 1);
    assert events[..n + 1] == events[..n] + [events[n]];
    NotBegunYet(settings, names, rows, events[..n], events[n]);
  }

  /** Where sign-on is not set up, nothing is begun, nobody is signed in, and nothing is kept. */
  lemma {:induction false} NothingUnlessConfigured(settings: Settings, names: Names, rows: Accounts, events: seq<Event>)
    requires !settings.configured
    ensures Reach(settings, names, World(rows, map[]), events).states == map[]
    ensures forall a :: a in Answers(settings, names, World(rows, map[]), events) ==> a == Refused(NotConfigured)
  {
    if events != [] {
      NothingUnlessConfigured(settings, names, rows, events[..|events| - 1]);
    }
  }
}
