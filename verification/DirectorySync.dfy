/** Deactivating accounts that have left the directory (scim_sync.py). */
module DirectorySync {
  import opened Common

  datatype Source = Local | Sso

  datatype Account = Account(
    username: string,
    role: string,
    active: bool,
    source: Source,
    tokenVersion: int,
    email: Option<string>,
    displayName: Option<string>)

  /** The user table. A row's place in it is its id. */
  type Accounts = seq<Account>

  /** How names are compared: `str.lower` and `str.strip`. */
  datatype Names = Names(lower: string -> string, strip: string -> string)
  {
    function Present(snapshot: set<string>): set<string> {
      set n | n in snapshot && strip(n) != "" :: lower(strip(n))
    }
  }

  // ------------------------------------------------------------------ reading

  function ActiveAdmins(rows: Accounts): set<nat> {
    set i: nat | i < |rows| && rows[i].active && rows[i].role == "admin"
  }

  predicate IsManaged(rows: Accounts, i: nat) {
    i < |rows| && rows[i].source == Sso && rows[i].active
  }

  function Absent(names: Names, rows: Accounts, snapshot: set<string>): set<nat> {
    set i: nat | i < |rows| && IsManaged(rows, i) && names.lower(rows[i].username) !in names.Present(snapshot)
  }

  /** The managed accounts, in whatever order the query gives them. */
  ghost predicate ListsManaged(rows: Accounts, managed: seq<nat>) {
    && (forall i :: i in managed <==> IsManaged(rows, i))
    && AllDifferent(managed)
  }

  function AbsentInOrder(names: Names, rows: Accounts, managed: seq<nat>, snapshot: set<string>): seq<nat> {
    if managed == [] then []
    else
      var before, i := AbsentInOrder(names, rows, managed[..|managed| - 1], snapshot), managed[|managed| - 1];
      if i < |rows| && names.lower(rows[i].username) !in names.Present(snapshot) then before + [i] else before
  }

  // ----------------------------------------------------------------- deciding

  datatype Decision = Decision(deactivate: seq<nat>, skip: seq<nat>)

  predicate InTable(rows: Accounts, ids: seq<nat>) {
    forall k :: 0 <= k < |ids| ==> ids[k] < |rows|
  }

  function Consider(rows: Accounts, d: Decision, i: nat): Decision
    requires i < |rows|
  {
    if rows[i].role == "admin" && ActiveAdmins(rows) - (SetOf(d.deactivate) + {i}) == {}
    then d.(skip := d.skip + [i])
    else d.(deactivate := d.deactivate + [i])
  }

  function Decide(rows: Accounts, absent: seq<nat>): Decision
    requires InTable(rows, absent)
  {
    if absent == [] then Decision([], [])
    else Consider(rows, Decide(rows, absent[..|absent| - 1]), absent[|absent| - 1])
  }

  function Deactivated(rows: Accounts, ids: set<nat>): Accounts {
    seq(|rows|, i requires 0 <= i < |rows| =>
      if i in ids then rows[i].(active := false, tokenVersion := rows[i].tokenVersion + 1) else rows[i])
  }

  class UserTable {
    var rows: Accounts

    constructor (rows: Accounts)
      ensures this.rows == rows
    {
      this.rows := rows;
    }

    /** `deactivate_absent_sso_users`; what is reported is what was decided, dry run or not. */
    method DeactivateAbsent(names: Names, managed: seq<nat>, snapshot: set<string>, dryRun: bool) returns (d: Decision)
      requires ListsManaged(rows, managed)
      modifies this
      ensures InTable(old(rows), AbsentInOrder(names, old(rows), managed, snapshot))
      ensures d == Decide(old(rows), AbsentInOrder(names, old(rows), managed, snapshot))
      ensures rows == if dryRun then old(rows) else Deactivated(old(rows), SetOf(d.deactivate))
      ensures !dryRun ==> IsSynced(names, old(rows), managed, snapshot, rows)
    {
      var absent: seq<nat> := [];
      for k := 0 to |managed|
        invariant absent == AbsentInOrder(names, rows, managed[..k], snapshot)
        invariant InTable(rows, absent)
      {
        assert managed[..k + 1][..k] == managed[..k];
        var i := managed[k];
        assert i in managed;
        if names.lower(rows[i].username) !in names.Present(snapshot) {
          absent := absent + [i];
        }
      }
      assert managed[..|managed|] == managed;
      AbsentAreAbsent(names, rows, managed, snapshot);
      d := Decision([], []);
      for k := 0 to |absent|
        invariant d == Decide(rows, absent[..k])
      {
        assert absent[..k + 1][..k] == absent[..k];
        var i := absent[k];
        if rows[i].role == "admin" && ActiveAdmins(rows) - (SetOf(d.deactivate) + {i}) == {} {
          d := d.(skip := d.skip + [i]);
        } else {
          d := d.(deactivate := d.deactivate + [i]);
        }
      }
      assert absent[..|absent|] == absent;
      DecidePartitions(rows, absent);
      if !dryRun {
        SyncIsExact(names, rows, managed, snapshot);
        Deactivate(d.deactivate);
      }
    }

    method Deactivate(ids: seq<nat>)
      requires InTable(rows, ids) && AllDifferent(ids)
      modifies this
      ensures rows == Deactivated(old(rows), SetOf(ids))
    {
      for k := 0 to |ids|
        invariant rows == Deactivated(old(rows), SetOf(ids[..k]))
      {
        var i := ids[k];
        assert i in ids && i !in ids[..k];
        assert ids[..k + 1] == ids[..k] + [i];
        assert SetOf(ids[..k + 1]) == SetOf(ids[..k]) + {i};
        rows := rows[i := rows[i].(active := false, tokenVersion := rows[i].tokenVersion + 1)];
      }
      assert ids[..|ids|] == ids;
    }
  }

  // -------------------------------------------------------------- what it means

  lemma {:induction false} AbsentAreAbsent(names: Names, rows: Accounts, managed: seq<nat>, snapshot: set<string>)
    requires AllDifferent(managed) && forall i :: i in managed ==> IsManaged(rows, i)
    ensures var absent := AbsentInOrder(names, rows, managed, snapshot);
      && AllDifferent(absent) && InTable(rows, absent)
      && (forall i :: i in absent <==> i in managed && i in Absent(names, rows, snapshot))
  {
    if managed != [] {
      var rest, last := managed[..|managed| - 1], managed[|managed| - 1];
      assert managed == rest + [last];
      assert last in managed && last !in rest;
      AbsentAreAbsent(names, rows, rest, snapshot);
    }
  }

  /** Every absent account is deactivated or skipped, once. */
  lemma {:induction false} DecidePartitions(rows: Accounts, absent: seq<nat>)
    requires InTable(rows, absent) && AllDifferent(absent)
    ensures var d := Decide(rows, absent);
      && AllDifferent(d.deactivate) && InTable(rows, d.deactivate)
      && SetOf(d.deactivate) !! SetOf(d.skip) && SetOf(d.deactivate) + SetOf(d.skip) == SetOf(absent)
      && |d.deactivate| + |d.skip| == |absent|
  {
    if absent != [] {
      var rest, last := absent[..|absent| - 1], absent[|absent| - 1];
      assert absent == rest + [last] && last !in rest;
      DecidePartitions(rows, rest);
      assert SetOf(absent) == SetOf(rest) + {last};
      ConsiderPartitions(rows, Decide(rows, rest), last);
    }
  }

  lemma ConsiderPartitions(rows: Accounts, d: Decision, i: nat)
    requires i < |rows| && i !in SetOf(d.deactivate) + SetOf(d.skip)
    requires AllDifferent(d.deactivate) && InTable(rows, d.deactivate) && SetOf(d.deactivate) !! SetOf(d.skip)
    ensures var after := Consider(rows, d, i);
      && AllDifferent(after.deactivate) && InTable(rows, after.deactivate)
      && SetOf(after.deactivate) !! SetOf(after.skip)
      && SetOf(after.deactivate) + SetOf(after.skip) == SetOf(d.deactivate) + SetOf(d.skip) + {i}
      && |after.deactivate| + |after.skip| == |d.deactivate| + |d.skip| + 1
  {
  }

  /** Nobody is skipped, or one is: the last active admin, all the others being deactivated. */
  ghost predicate KeepsLastAdmin(rows: Accounts, d: Decision) {
    var admins := ActiveAdmins(rows);
    if d.skip == [] then admins == {} || admins - SetOf(d.deactivate) != {}
    else |d.skip| == 1 && admins - SetOf(d.deactivate) == {d.skip[0]}
  }

  lemma {:induction false} DecideKeepsLastAdmin(rows: Accounts, absent: seq<nat>)
    requires InTable(rows, absent) && AllDifferent(absent) && forall i :: i in absent ==> rows[i].active
    ensures KeepsLastAdmin(rows, Decide(rows, absent))
  {
    if absent != [] {
      var rest, last := absent[..|absent| - 1], absent[|absent| - 1];
      assert absent == rest + [last] && last in absent && last !in rest;
      DecideKeepsLastAdmin(rows, rest);
      DecidePartitions(rows, rest);
      ConsiderKeepsLastAdmin(rows, Decide(rows, rest), last);
    }
  }

  lemma ConsiderKeepsLastAdmin(rows: Accounts, d: Decision, i: nat)
    requires i < |rows| && rows[i].active && i !in SetOf(d.deactivate) && i !in SetOf(d.skip)
    requires KeepsLastAdmin(rows, d)
    ensures KeepsLastAdmin(rows, Consider(rows, d, i))
  {
  }

  // ------------------------------------------------------------------ one run

  /** What a decision is worth, in sets: it divides the absent accounts into deactivated and
      skipped; skips one exactly when every active admin is absent; and leaves an active admin. */
  ghost predicate IsSafe(rows: Accounts, absent: set<nat>, d: Decision) {
    var admins := ActiveAdmins(rows);
    && SetOf(d.deactivate) !! SetOf(d.skip)
    && SetOf(d.deactivate) + SetOf(d.skip) == absent
    && |d.skip| <= 1
    && (d.skip != [] <==> admins != {} && admins <= absent)
    && (admins != {} ==> ActiveAdmins(Deactivated(rows, SetOf(d.deactivate))) != {})
  }

  lemma DecideIsSafe(rows: Accounts, absent: seq<nat>)
    requires InTable(rows, absent) && AllDifferent(absent) && forall i :: i in absent ==> rows[i].active
    ensures IsSafe(rows, SetOf(absent), Decide(rows, absent))
    ensures KeepsLastAdmin(rows, Decide(rows, absent))
  {
    var d, admins := Decide(rows, absent), ActiveAdmins(rows);
    DecidePartitions(rows, absent);
    DecideKeepsLastAdmin(rows, absent);
    AdminsAfter(rows, SetOf(d.deactivate));
    SafeInSets(admins, SetOf(absent), SetOf(d.deactivate), d.skip);
  }

  lemma SafeInSets(admins: set<nat>, absent: set<nat>, gone: set<nat>, skip: seq<nat>)
    requires gone + SetOf(skip) == absent
    requires if skip == [] then admins == {} || admins - gone != {} else |skip| == 1 && admins - gone == {skip[0]}
    ensures |skip| <= 1
    ensures skip != [] <==> admins != {} && admins <= absent
    ensures admins != {} ==> admins - gone != {}
  {
    if skip == [] {
      assert SetOf(skip) == {};
    } else {
      assert skip[0] in SetOf(skip);
      assert admins <= gone + {skip[0]};
    }
  }

  /** A run is safe, whatever the directory says and however the query orders its rows. */
  lemma RunIsSafe(names: Names, rows: Accounts, managed: seq<nat>, snapshot: set<string>)
    requires ListsManaged(rows, managed)
    ensures var absent := AbsentInOrder(names, rows, managed, snapshot);
      InTable(rows, absent) && IsSafe(rows, Absent(names, rows, snapshot), Decide(rows, absent))
  {
    var absent := AbsentInOrder(names, rows, managed, snapshot);
    AbsentAreAbsent(names, rows, managed, snapshot);
    assert SetOf(absent) == Absent(names, rows, snapshot);
    DecideIsSafe(rows, absent);
  }

  /** A safe run deactivates as many as any choice that leaves an admin could. */
  lemma SafeIsFull(rows: Accounts, absent: set<nat>, d: Decision, choice: set<nat>)
    requires IsSafe(rows, absent, d) && choice <= absent
    requires ActiveAdmins(rows) != {} ==> ActiveAdmins(Deactivated(rows, choice)) != {}
    ensures |choice| <= |SetOf(d.deactivate)|
  {
    AdminsAfter(rows, choice);
    if d.skip == [] {
      assert SetOf(d.skip) == {};
      SubsetIsSmaller(choice, SetOf(d.deactivate));
    } else {
      assert SetOf(d.skip) == {d.skip[0]};
      var out :| out in ActiveAdmins(rows) - choice;
      SubsetIsSmaller(choice, absent - {out});
      assert SetOf(d.deactivate) == absent - {d.skip[0]};
    }
  }

  lemma AdminsAfter(rows: Accounts, ids: set<nat>)
    ensures ActiveAdmins(Deactivated(rows, ids)) == ActiveAdmins(rows) - ids
  {
  }

  /** Running again over the same directory deactivates nobody, and skips whom it skipped. */
  lemma RunningAgainDoesNothing(names: Names, rows: Accounts, managed: seq<nat>, snapshot: set<string>, again: seq<nat>)
    requires ListsManaged(rows, managed)
    requires InTable(rows, AbsentInOrder(names, rows, managed, snapshot))
    requires var d := Decide(rows, AbsentInOrder(names, rows, managed, snapshot));
      ListsManaged(Deactivated(rows, SetOf(d.deactivate)), again)
    ensures var d := Decide(rows, AbsentInOrder(names, rows, managed, snapshot));
      var after := Deactivated(rows, SetOf(d.deactivate));
      var absent := AbsentInOrder(names, after, again, snapshot);
      InTable(after, absent) && Decide(after, absent) == Decision([], d.skip)
  {
    var absent := AbsentInOrder(names, rows, managed, snapshot);
    AbsentAreAbsent(names, rows, managed, snapshot);
    assert SetOf(absent) == Absent(names, rows, snapshot);
    DecideIsSafe(rows, absent);
    var d := Decide(rows, absent);
    var after := Deactivated(rows, SetOf(d.deactivate));
    var left := AbsentInOrder(names, after, again, snapshot);
    AbsentAreAbsent(names, after, again, snapshot);
    assert SetOf(left) == Absent(names, after, snapshot);
    StillAbsent(names, rows, snapshot, SetOf(d.deactivate));
    assert SetOf(left) == SetOf(d.skip);
    AdminsAfter(rows, SetOf(d.deactivate));
    DecideLeftOver(after, left, d.skip);
  }

  lemma StillAbsent(names: Names, rows: Accounts, snapshot: set<string>, gone: set<nat>)
    ensures Absent(names, Deactivated(rows, gone), snapshot) == Absent(names, rows, snapshot) - gone
  {
  }

  lemma DecideLeftOver(rows: Accounts, left: seq<nat>, skip: seq<nat>)
    requires InTable(rows, left) && AllDifferent(left) && SetOf(left) == SetOf(skip) && |skip| <= 1
    requires skip != [] ==> ActiveAdmins(rows) == {skip[0]}
    ensures Decide(rows, left) == Decision([], skip)
  {
    if skip == [] {
      SomeInSet(left);
    } else {
      assert skip == [skip[0]];
      OnlyOne(left, skip[0]);
      assert left[..0] == [] && skip == [skip[0]] && SetOf<nat>([]) == {};
      assert skip[0] in ActiveAdmins(rows);
      assert ActiveAdmins(rows) - ({} + {skip[0]}) == {};
    }
  }

  lemma SomeInSet(ids: seq<nat>)
    requires AllDifferent(ids)
    ensures ids != [] ==> ids[0] in SetOf(ids)
    ensures |ids| > 1 ==> ids[1] in SetOf(ids) && ids[0] != ids[1]
  {
  }

  lemma OnlyOne(ids: seq<nat>, u: nat)
    requires AllDifferent(ids) && SetOf(ids) == SetOf([u])
    ensures ids == [u]
  {
    assert [u][0] == u && u in [u] && u in SetOf([u]) && u in SetOf(ids);
    SomeInSet(ids);
  }

  // ------------------------------------------------- who exactly is deactivated

  /** The directory lists the account: some name of it, blanks around it and case aside. */
  ghost predicate IsListed(names: Names, snapshot: set<string>, account: Account) {
    exists n ::
      n in snapshot && names.strip(n) != "" && names.lower(names.strip(n)) == names.lower(account.username)
  }

  /** An active account of the directory's that the directory no longer lists. */
  ghost predicate IsGone(names: Names, rows: Accounts, snapshot: set<string>, i: int) {
    0 <= i < |rows| && rows[i].source == Sso && rows[i].active && !IsListed(names, snapshot, rows[i])
  }

  lemma AbsentIsGone(names: Names, rows: Accounts, snapshot: set<string>, i: nat)
    ensures i in Absent(names, rows, snapshot) <==> IsGone(names, rows, snapshot, i)
  {
  }

  /** All active admins are gone. */
  ghost predicate AdminsAreGone(names: Names, rows: Accounts, snapshot: set<string>) {
    forall i :: 0 <= i < |rows| && rows[i].active && rows[i].role == "admin" ==> IsGone(names, rows, snapshot, i)
  }

  /** `i` is in the list, has the property, and nothing after it has. */
  ghost predicate IsLastWith(ids: seq<nat>, has: nat -> bool, i: nat) {
    exists k :: IsLastAt(ids, has, i, k)
  }

  ghost predicate IsLastAt(ids: seq<nat>, has: nat -> bool, i: nat, k: int) {
    0 <= k < |ids| && ids[k] == i && has(i) && forall m :: k < m < |ids| ==> !has(ids[m])
  }

  lemma LastWithNext(ids: seq<nat>, last: nat, has: nat -> bool, i: nat)
    ensures IsLastWith(ids + [last], has, i) <==> if has(last) then i == last else IsLastWith(ids, has, i)
  {
    var all := ids + [last];
    if has(last) {
      assert all[|ids|] == last;
      assert IsLastAt(all, has, last, |ids|);
    } else {
      if k :| IsLastAt(all, has, i, k) {
        forall m | k < m < |ids| ensures !has(ids[m]) {
          assert all[m] == ids[m];
        }
        assert IsLastAt(ids, has, i, k);
      }
      if k :| IsLastAt(ids, has, i, k) {
        assert IsLastAt(all, has, i, k);
      }
    }
  }

  function IsAdminOf(rows: Accounts): nat -> bool {
    (i: nat) => i < |rows| && rows[i].role == "admin"
  }

  lemma ConsiderSkips(rows: Accounts, d: Decision, last: nat, i: nat)
    requires last < |rows|
    ensures i in Consider(rows, d, last).skip <==>
      || i in d.skip
      || (i == last && rows[last].role == "admin" && ActiveAdmins(rows) <= SetOf(d.deactivate) + {last})
  {
  }

  lemma AbsentNext(admins: set<nat>, rest: seq<nat>, last: nat)
    ensures SetOf(rest + [last]) == SetOf(rest) + {last}
    ensures last !in admins ==> (admins <= SetOf(rest + [last]) <==> admins <= SetOf(rest))
  {
    assert (rest + [last])[|rest|] == last;
    assert forall x :: x in rest + [last] <==> x in rest || x == last;
  }

  /** Who is skipped: the last admin considered, exactly when every active admin is absent. */
  lemma {:induction false} SkippedIsLastAdmin(rows: Accounts, absent: seq<nat>, i: nat)
    requires InTable(rows, absent) && AllDifferent(absent) && forall j :: j in absent ==> rows[j].active
    ensures i in Decide(rows, absent).skip <==>
      ActiveAdmins(rows) <= SetOf(absent) && IsLastWith(absent, IsAdminOf(rows), i)
  {
    if absent != [] {
      var rest, last := absent[..|absent| - 1], absent[|absent| - 1];
      assert absent == rest + [last] && last in absent && last !in rest;
      SkippedIsLastAdmin(rows, rest, i);
      ConsiderSkips(rows, Decide(rows, rest), last, i);
      LastWithNext(rest, last, IsAdminOf(rows), i);
      AbsentNext(ActiveAdmins(rows), rest, last);
      if rows[last].role == "admin" {
        NoneSkippedYet(rows, rest, last);
      }
    }
  }

  /** While an active admin has not been considered, nobody has been skipped. */
  lemma NoneSkippedYet(rows: Accounts, rest: seq<nat>, admin: nat)
    requires InTable(rows, rest) && AllDifferent(rest) && forall j :: j in rest ==> rows[j].active
    requires admin in ActiveAdmins(rows) && admin !in rest
    ensures Decide(rows, rest).skip == [] && SetOf(Decide(rows, rest).deactivate) == SetOf(rest)
  {
    DecideIsSafe(rows, rest);
    DecidePartitions(rows, rest);
    assert admin !in SetOf(rest);
    assert SetOf(Decide(rows, rest).skip) == {};
  }

  function IsGoneAdminOf(names: Names, rows: Accounts, snapshot: set<string>): nat -> bool {
    (i: nat) => i in Absent(names, rows, snapshot) && rows[i].role == "admin"
  }

  /** The last admin considered is the last of the query's rows that is gone and an admin. */
  lemma {:induction false} LastOfQuery(names: Names, rows: Accounts, managed: seq<nat>, snapshot: set<string>, i: nat)
    requires forall j :: j in managed ==> IsManaged(rows, j)
    ensures IsLastWith(AbsentInOrder(names, rows, managed, snapshot), IsAdminOf(rows), i)
       <==> IsLastWith(managed, IsGoneAdminOf(names, rows, snapshot), i)
  {
    if managed != [] {
      var rest, last := managed[..|managed| - 1], managed[|managed| - 1];
      assert managed == rest + [last] && last in managed;
      LastOfQuery(names, rows, rest, snapshot, i);
      LastWithNext(rest, last, IsGoneAdminOf(names, rows, snapshot), i);
      LastWithNext(AbsentInOrder(names, rows, rest, snapshot), last, IsAdminOf(rows), i);
    }
  }

  /** Kept for the platform's sake: all active admins are gone, and among the query's rows no gone
      admin comes after this one. */
  ghost predicate IsKeptAdmin(names: Names, rows: Accounts, managed: seq<nat>, snapshot: set<string>, i: nat) {
    && AdminsAreGone(names, rows, snapshot)
    && i < |rows| && rows[i].role == "admin"
    && exists k ::
         && 0 <= k < |managed| && managed[k] == i
         && forall m :: k < m < |managed| ==>
              !(IsGone(names, rows, snapshot, managed[m]) && rows[managed[m]].role == "admin")
  }

  /** A sync deactivates exactly the accounts that are gone, save the one admin kept. */
  lemma DeactivatedAreGone(names: Names, rows: Accounts, managed: seq<nat>, snapshot: set<string>, i: nat)
    requires ListsManaged(rows, managed)
    ensures InTable(rows, AbsentInOrder(names, rows, managed, snapshot))
    ensures i in SetOf(Decide(rows, AbsentInOrder(names, rows, managed, snapshot)).deactivate) <==>
      IsGone(names, rows, snapshot, i) && !IsKeptAdmin(names, rows, managed, snapshot, i)
  {
    var absent := AbsentInOrder(names, rows, managed, snapshot);
    AbsentAreAbsent(names, rows, managed, snapshot);
    assert SetOf(absent) == Absent(names, rows, snapshot);
    DecidePartitions(rows, absent);
    SkippedIsLastAdmin(rows, absent, i);
    LastOfQuery(names, rows, managed, snapshot, i);
    KeptIsLast(names, rows, managed, snapshot, i);
    assert i in SetOf(Decide(rows, absent).skip) <==> i in Decide(rows, absent).skip;
    AbsentIsGone(names, rows, snapshot, i);
  }

  lemma KeptIsLast(names: Names, rows: Accounts, managed: seq<nat>, snapshot: set<string>, i: nat)
    ensures IsGone(names, rows, snapshot, i) ==>
      (IsKeptAdmin(names, rows, managed, snapshot, i) <==>
         && ActiveAdmins(rows) <= Absent(names, rows, snapshot)
         && IsLastWith(managed, IsGoneAdminOf(names, rows, snapshot), i))
  {
    forall j: nat ensures j in Absent(names, rows, snapshot) <==> IsGone(names, rows, snapshot, j) {
      AbsentIsGone(names, rows, snapshot, j);
    }
    var has := IsGoneAdminOf(names, rows, snapshot);
    if IsGone(names, rows, snapshot, i) && IsKeptAdmin(names, rows, managed, snapshot, i) {
      var k :|
        && 0 <= k < |managed| && managed[k] == i
        && forall m :: k < m < |managed| ==>
             !(IsGone(names, rows, snapshot, managed[m]) && rows[managed[m]].role == "admin");
      assert IsLastAt(managed, has, i, k);
    }
    if k :| IsLastAt(managed, has, i, k) {
      forall m | k < m < |managed|
        ensures !(IsGone(names, rows, snapshot, managed[m]) && rows[managed[m]].role == "admin")
      {
        assert !has(managed[m]);
      }
    }
  }

  /** The table after a sync: those deactivated are inactive and their sessions void, and nothing
      else has changed. */
  ghost predicate IsSynced(names: Names, before: Accounts, managed: seq<nat>, snapshot: set<string>, after: Accounts) {
    && |after| == |before|
    && forall i :: 0 <= i < |before| ==>
         if IsGone(names, before, snapshot, i) && !IsKeptAdmin(names, before, managed, snapshot, i)
         then after[i] == before[i].(active := false, tokenVersion := before[i].tokenVersion + 1)
         else after[i] == before[i]
  }

  lemma SyncIsExact(names: Names, rows: Accounts, managed: seq<nat>, snapshot: set<string>)
    requires ListsManaged(rows, managed)
    ensures InTable(rows, AbsentInOrder(names, rows, managed, snapshot))
    ensures var d := Decide(rows, AbsentInOrder(names, rows, managed, snapshot));
      IsSynced(names, rows, managed, snapshot, Deactivated(rows, SetOf(d.deactivate)))
  {
    AbsentAreAbsent(names, rows, managed, snapshot);
    forall i: nat
      ensures i in SetOf(Decide(rows, AbsentInOrder(names, rows, managed, snapshot)).deactivate) <==>
        IsGone(names, rows, snapshot, i) && !IsKeptAdmin(names, rows, managed, snapshot, i)
    {
      DeactivatedAreGone(names, rows, managed, snapshot, i);
    }
  }
}
