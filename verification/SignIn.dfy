/**
 Signing in through an identity provider (sso_flow.py), and the directory sync that
 shares the user table with it (scim_sync.py), as one machine.
 */
module SignIn {
  import opened Common
  import opened DirectorySync

  const STATE_TTL: nat := 600

  datatype LoginState = LoginState(verifier: string, nonce: string, nextPath: string, expiresAt: int)

  datatype Identity = Identity(username: string, role: string, email: Option<string>, displayName: Option<string>)

  datatype Settings = Settings(configured: bool, allowJit: bool, defaultRole: string)

  /** What the provider's part of a callback comes to: discovery, code exchange, keys and token. */
  datatype Provider = Fails | Vouches(identity: Identity)

  datatype World = World(rows: Accounts, states: map<string, LoginState>)

  datatype Reason = NotConfigured | NoProvider | StateTaken | DidNotStartHere | TookTooLong | ProviderFailed
      | Inactive | NoAccount

  datatype Outcome = Begun | Refused(reason: Reason) | SignedIn(account: nat, nextPath: string)

  // --------------------------------------------------------------- provisioning

  function FindUser(rows: Accounts, username: string): (found: Option<nat>)
    ensures found.Some? ==> found.value < |rows| && rows[found.value].username == username
    ensures found.None? ==> forall i :: 0 <= i < |rows| ==> rows[i].username != username
  {
    if rows == [] then None
    else if rows[|rows| - 1].username == username then Some(|rows| - 1)
    else FindUser(rows[..|rows| - 1], username)
  }

  function NonBlank(told: Option<string>, known: Option<string>): Option<string> {
    if told.Some? && told.value != "" then told else known
  }

  /** What signing in tells about an existing account: the default role changes nobody's. */
  function Refreshed(settings: Settings, account: Account, identity: Identity): Account {
    account.(
      email := NonBlank(identity.email, account.email),
      displayName := NonBlank(identity.displayName, account.displayName),
      role := if identity.role != settings.defaultRole then identity.role else account.role)
  }

  function NewAccount(identity: Identity): Account {
    Account(identity.username, identity.role, true, Sso, 0, identity.email, identity.displayName)
  }

  function Provision(settings: Settings, rows: Accounts, identity: Identity): Result<(Accounts, nat), Reason> {
    match FindUser(rows, identity.username)
    case Some(i) =>
      if !rows[i].active then Err(Inactive)
      else Ok((rows[i := Refreshed(settings, rows[i], identity)], i))
    case None =>
      if !settings.allowJit then Err(NoAccount)
      else Ok((rows + [NewAccount(identity)], |rows|))
  }

  // -------------------------------------------------------------------- steps

  datatype Event =
    | Begins(now: int, discovered: bool, state: string, verifier: string, nonce: string, nextPath: string)
    | CallsBack(now: int, state: string, provider: Provider)
    | Sweeps(now: int)
    | Syncs(managed: seq<nat>, snapshot: set<string>, dryRun: bool)

  function SafePath(path: string): string {
    if path != "" && path[0] == '/' then path else "/"
  }

  /** What is kept of a sign-in until its callback. */
  function Kept(e: Event): LoginState
    requires e.Begins?
  {
    LoginState(e.verifier, e.nonce, SafePath(e.nextPath), e.now + STATE_TTL)
  }

  function Begin(settings: Settings, w: World, e: Event): (World, Outcome)
    requires e.Begins?
  {
    if !settings.configured then (w, Refused(NotConfigured))
    else if !e.discovered then (w, Refused(NoProvider))
    else if e.state in w.states then (w, Refused(StateTaken))
    else (w.(states := w.states[e.state := Kept(e)]), Begun)
  }

  /** The state check: begun here, not used since, and not too long ago. */
  predicate StatePasses(w: World, state: string, now: int) {
    state != "" && state in w.states && w.states[state].expiresAt >= now
  }

  function CallBack(settings: Settings, w: World, e: Event): (World, Outcome)
    requires e.CallsBack?
  {
    if !settings.configured then (w, Refused(NotConfigured))
    else if e.state == "" || e.state !in w.states then (w, Refused(DidNotStartHere))
    else
      var used := w.(states := w.states - {e.state});
      if w.states[e.state].expiresAt < e.now then (used, Refused(TookTooLong))
      else if e.provider.Fails? then (used, Refused(ProviderFailed))
      else
        match Provision(settings, w.rows, e.provider.identity)
        case Err(reason) => (used, Refused(reason))
        case Ok((rows, i)) => (World(rows, used.states), SignedIn(i, w.states[e.state].nextPath))
  }

  function Expired(states: map<string, LoginState>, now: int): set<string> {
    set s | s in states && states[s].expiresAt < now
  }

  lemma SweptIsExact(before: map<string, LoginState>, after: map<string, LoginState>, now: int)
    requires after == before - Expired(before, now)
    ensures forall s :: s in after <==> s in before && before[s].expiresAt >= now
    ensures forall s :: s in after ==> after[s] == before[s]
    ensures before.Keys - after.Keys == Expired(before, now)
  {
  }

  function Sync(names: Names, w: World, e: Event): World
    requires e.Syncs? && ListsManaged(w.rows, e.managed)
  {
    RunIsSafe(names, w.rows, e.managed, e.snapshot);
    var d := Decide(w.rows, AbsentInOrder(names, w.rows, e.managed, e.snapshot));
    if e.dryRun then w else w.(rows := Deactivated(w.rows, SetOf(d.deactivate)))
  }

  /** One event. A sync whose query would not list the managed accounts there are cannot happen. */
  ghost function Step(settings: Settings, names: Names, w: World, e: Event): World {
    match e
    case Begins(_, _, _, _, _, _) => Begin(settings, w, e).0
    case CallsBack(_, _, _) => CallBack(settings, w, e).0
    case Sweeps(now) => w.(states := w.states - Expired(w.states, now))
    case Syncs(managed, _, _) => if ListsManaged(w.rows, managed) then Sync(names, w, e) else w
  }

  // ------------------------------------------------------- the code, in place

  class Gateway {
    const settings: Settings
    const names: Names
    var rows: Accounts
    var states: map<string, LoginState>

    constructor (settings: Settings, names: Names, rows: Accounts)
      ensures this.settings == settings && this.names == names && this.rows == rows && states == map[]
    {
      this.settings, this.names, this.rows, states := settings, names, rows, map[];
    }

    function Now(): World
      reads this
    {
      World(rows, states)
    }

    method BeginLogin(e: Event) returns (outcome: Outcome)
      requires e.Begins?
      modifies this`states
      ensures (Now(), outcome) == Begin(settings, old(Now()), e)
    {
      if !settings.configured {
        return Refused(NotConfigured);
      }
      if !e.discovered {
        return Refused(NoProvider);
      }
      if e.state in states {
        return Refused(StateTaken);
      }
      states := states[e.state := LoginState(e.verifier, e.nonce, SafePath(e.nextPath), e.now + STATE_TTL)];
      return Begun;
    }

    method ProvisionUser(identity: Identity) returns (r: Result<nat, Reason>)
      modifies this`rows
      ensures match Provision(settings, old(rows), identity)
        case Err(reason) => r == Err(reason) && rows == old(rows)
        case Ok((after, i)) => r == Ok(i) && rows == after
    {
      var found := FindUser(rows, identity.username);
      if found.Some? {
        var i := found.value;
        if !rows[i].active {
          return Err(Inactive);
        }
        var account := rows[i];
        if identity.email.Some? && identity.email.value != "" {
          account := account.(email := identity.email);
        }
        if identity.displayName.Some? && identity.displayName.value != "" {
          account := account.(displayName := identity.displayName);
        }
        if identity.role != settings.defaultRole {
          account := account.(role := identity.role);
        }
        rows := rows[i := account];
        return Ok(i);
      }
      if !settings.allowJit {
        return Err(NoAccount);
      }
      rows := rows + [NewAccount(identity)];
      return Ok(|rows| - 1);
    }

    method CompleteLogin(e: Event) returns (outcome: Outcome)
      requires e.CallsBack?
      modifies this
      ensures (Now(), outcome) == CallBack(settings, old(Now()), e)
    {
      if !settings.configured {
        return Refused(NotConfigured);
      }
      if e.state == "" || e.state !in states {
        return Refused(DidNotStartHere);
      }
      var row := states[e.state];
      if row.expiresAt < e.now {
        states := states - {e.state};
        return Refused(TookTooLong);
      }
      states := states - {e.state};
      if e.provider.Fails? {
        return Refused(ProviderFailed);
      }
      var user := ProvisionUser(e.provider.identity);
      if user.Err? {
        return Refused(user.error);
      }
      return SignedIn(user.value, row.nextPath);
    }

    method SweepExpiredStates(now: int) returns (swept: nat)
      modifies this`states
      ensures states == old(states) - Expired(old(states), now)
      ensures swept == |Expired(old(states), now)|
      ensures forall s :: s in states <==> s in old(states) && old(states)[s].expiresAt >= now
      ensures forall s :: s in states ==> states[s] == old(states)[s]
      ensures swept == |old(states).Keys - states.Keys|
    {
      swept := Delete(Expired(states, now));
      SweptIsExact(old(states), states, now);
    }

    /** The loop that deletes the rows found. */
    method Delete(expired: set<string>) returns (swept: nat)
      requires expired <= states.Keys
      modifies this`states
      ensures states == old(states) - expired && swept == |expired|
    {
      var todo := expired;
      swept := 0;
      while todo != {}
        invariant todo <= expired && swept + |todo| == |expired|
        invariant states == old(states) - (expired - todo)
      {
        var s :| s in todo;
        assert expired - (todo - {s}) == (expired - todo) + {s};
        states := states - {s};
        todo := todo - {s};
        swept := swept + 1;
      }
    }
  }
}
