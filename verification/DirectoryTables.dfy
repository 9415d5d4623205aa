/** The local directory tables, what one sink call does to them, which impacts a change owes,
    and what that adds up to over whole runs of sink calls. */
module DirectoryTables {
  import opened Wrappers

  type Id = nat

  datatype UserRow = UserRow(email: string, firstName: Option<string>, lastName: Option<string>, extensions: string)

  /** `members` holds (group, user) pairs. */
  datatype Tables = Tables(users: map<Id, UserRow>, groups: map<Id, string>, members: set<(Id, Id)>)

  datatype Impact = UserChanged(id: Id) | GroupChanged(id: Id)

  /** A sink call; a key that is not of the sink's kind carries no id. */
  datatype Call =
    | ProjectUser(key: Option<Id>, row: UserRow)
    | RetractUser(key: Option<Id>)
    | ProjectGroup(key: Option<Id>, name: string, memberIds: seq<Id>)
    | RetractGroup(key: Option<Id>)

  /** The foreign key of the membership table. */
  ghost predicate ForeignKeys(t: Tables) {
    forall p :: p in t.members ==> p.0 in t.groups
  }

  function MembersOf(t: Tables, group: Id): set<Id> {
    set p | p in t.members && p.0 == group :: p.1
  }

  function GroupsOf(t: Tables, user: Id): set<Id> {
    set p | p in t.members && p.1 == user :: p.0
  }

  lemma MemberIff(t: Tables, group: Id, user: Id)
    ensures user in MembersOf(t, group) <==> (group, user) in t.members
    ensures group in GroupsOf(t, user) <==> (group, user) in t.members
  {}

  /** The membership table with one group's members replaced. */
  function WithMembers(members: set<(Id, Id)>, group: Id, users: set<Id>): set<(Id, Id)> {
    (set p | p in members && p.0 != group) + (set u | u in users :: (group, u))
  }

  function IdSet(ids: seq<Id>): set<Id> {
    set i | i in ids
  }

  /** What a call that commits leaves in the tables. */
  function Applied(t: Tables, call: Call): Tables {
    if call.key.None? then t
    else
      var id := call.key.value;
      match call
      case ProjectUser(_, row) => t.(users := t.users[id := row])
      case RetractUser(_) => t.(users := t.users - {id})
      case ProjectGroup(_, name, ids) =>
        t.(groups := t.groups[id := name], members := WithMembers(t.members, id, IdSet(ids)))
      case RetractGroup(_) =>
        t.(groups := t.groups - {id}, members := WithMembers(t.members, id, {}))
  }

  lemma AppliedKeepsForeignKeys(t: Tables, call: Call)
    requires ForeignKeys(t)
    ensures ForeignKeys(Applied(t, call))
  {}

  // ----- what a change owes -----

  function Row<V>(m: map<Id, V>, id: Id): Option<V> {
    if id in m then Some(m[id]) else None
  }

  /** A user is owed a notice when its row changed or it was dropped from a group; a group, when
      its row or its member set changed, or the row of one of its members was deleted. */
  ghost predicate Owed(t: Tables, after: Tables, impact: Impact) {
    match impact
    case UserChanged(u) =>
      || Row(t.users, u) != Row(after.users, u)
      || exists g :: Dropped(t, after, g, u)
    case GroupChanged(g) =>
      || Row(t.groups, g) != Row(after.groups, g)
      || MembersOf(t, g) != MembersOf(after, g)
      || exists u :: (g, u) in t.members && u in t.users && u !in after.users
  }

  ghost predicate Dropped(t: Tables, after: Tables, group: Id, user: Id) {
    (group, user) in t.members && (group, user) !in after.members
  }

  ghost predicate Enumerates(batch: seq<Impact>, t: Tables, after: Tables) {
    && (forall i, j :: 0 <= i < j < |batch| ==> batch[i] != batch[j])
    && (forall impact :: impact in batch <==> Owed(t, after, impact))
  }

  /** Nothing is owed exactly when nothing changed. */
  lemma NothingOwedIff(batch: seq<Impact>, t: Tables, after: Tables)
    requires Enumerates(batch, t, after)
    ensures batch == [] <==> t == after
  {
    if t == after && batch != [] {
      NothingOwed(t, batch[0]);
      assert false;
    }
    if batch == [] {
      forall g: Id, u: Id
        ensures (g, u) in t.members <==> (g, u) in after.members
      {
        assert !Owed(t, after, GroupChanged(g));
        MemberIff(t, g, u);
        MemberIff(after, g, u);
      }
      SamePairs(t.members, after.members);
      forall u: Id
        ensures Row(t.users, u) == Row(after.users, u)
      {
        assert !Owed(t, after, UserChanged(u));
      }
      SameRows(t.users, after.users);
      forall g: Id
        ensures Row(t.groups, g) == Row(after.groups, g)
      {
        assert !Owed(t, after, GroupChanged(g));
      }
      SameRows(t.groups, after.groups);
    }
  }

  lemma SameRows<V>(a: map<Id, V>, b: map<Id, V>)
    requires forall id: Id :: Row(a, id) == Row(b, id)
    ensures a == b
  {
    forall id | id in a || id in b
      ensures id in a && id in b && a[id] == b[id]
    {
      assert Row(a, id) == Row(b, id);
    }
  }

  // ----- a sink call as a step -----

  /** `staged` is everything the stager has been handed in committed transactions. */
  datatype Directory = Directory(tables: Tables, staged: seq<Impact>, progress: nat)

  /** A failed call leaves everything as it was. A call that succeeds commits its table change
      with exactly the notices it owes, in one batch, and bumps the progress iff it changed
      something. Without a stager no notice is kept. */
  ghost predicate Step(d: Directory, next: Directory, call: Call, staging: bool, ok: bool) {
    if !ok then next == d
    else
      && next.tables == Applied(d.tables, call)
      && next.progress == d.progress + (if next.tables == d.tables then 0 else 1)
      && |d.staged| <= |next.staged| && next.staged[..|d.staged|] == d.staged
      && (if staging then Enumerates(next.staged[|d.staged|..], d.tables, next.tables)
          else next.staged == d.staged)
  }

  ghost predicate IsRun(states: seq<Directory>, calls: seq<Call>, oks: seq<bool>, staging: bool) {
    && |states| == |calls| + 1 && |oks| == |calls|
    && ForeignKeys(states[0].tables)
    && forall i :: 0 <= i < |calls| ==> Step(states[i], states[i + 1], calls[i], staging, oks[i])
  }

  /** Every state of a run meets the foreign key that `RetractGroup` counts on. */
  lemma {:induction false} RunKeepsForeignKeys(
      states: seq<Directory>, calls: seq<Call>, oks: seq<bool>, staging: bool, at: nat)
    requires IsRun(states, calls, oks, staging) && at <= |calls|
    ensures ForeignKeys(states[at].tables)
    decreases at
  {
    if at > 0 {
      var last: nat := at - 1;
      RunKeepsForeignKeys(states, calls, oks, staging, last);
      assert Step(states[last], states[last + 1], calls[last], staging, oks[last]);
      AppliedKeepsForeignKeys(states[last].tables, calls[last]);
    }
  }

  /** An unchanged projection stages nothing and bumps nothing; any change does both. */
  lemma UnchangedIsSilent(d: Directory, next: Directory, call: Call)
    requires Step(d, next, call, true, true)
    ensures next.staged == d.staged <==> next.tables == d.tables
    ensures next.progress == d.progress <==> next.tables == d.tables
  {
    NothingOwedIff(next.staged[|d.staged|..], d.tables, next.tables);
    assert next.staged == next.staged[..|d.staged|] + next.staged[|d.staged|..];
  }

  // ----- coverage over whole runs -----

  lemma {:induction false} StagedGrows(
      states: seq<Directory>, calls: seq<Call>, oks: seq<bool>, staging: bool, from: nat, till: nat)
    requires IsRun(states, calls, oks, staging) && from <= till <= |calls|
    ensures states[from].staged <= states[till].staged
    decreases till
  {
    if from < till {
      var last: nat := till - 1;
      StagedGrows(states, calls, oks, staging, from, last);
      assert Step(states[last], states[last + 1], calls[last], staging, oks[last]);
    }
  }

  /** The notices of one step are among those of any stretch that contains it. */
  lemma StepNotices(
      states: seq<Directory>, calls: seq<Call>, oks: seq<bool>, from: nat, at: nat, till: nat, impact: Impact)
    requires IsRun(states, calls, oks, true) && from <= at < till <= |calls|
    requires Owed(states[at].tables, states[at + 1].tables, impact)
    ensures |states[from].staged| <= |states[till].staged|
    ensures impact in states[till].staged[|states[from].staged|..]
  {
    var d, next := states[at], states[at + 1];
    assert Step(d, next, calls[at], true, oks[at]);
    if !oks[at] {
      NothingOwed(d.tables, impact);
    }
    StagedGrows(states, calls, oks, true, from, at);
    StagedGrows(states, calls, oks, true, at + 1, till);
    var i :| 0 <= i < |next.staged[|d.staged|..]| && next.staged[|d.staged|..][i] == impact;
    assert next.staged[|d.staged| + i] == states[till].staged[|d.staged| + i];
    assert states[till].staged[|states[from].staged|..][|d.staged| + i - |states[from].staged|] == impact;
  }

  lemma NothingOwed(t: Tables, impact: Impact)
    ensures !Owed(t, t, impact)
  {}

  /** What a difference between two tables asks of the notices sent in between. */
  ghost predicate Named(a: Tables, b: Tables, notices: seq<Impact>, g: Id, u: Id) {
    && (Dropped(a, b, g, u) ==> GroupChanged(g) in notices && UserChanged(u) in notices)
    && (Dropped(b, a, g, u) ==> GroupChanged(g) in notices)
    && (Row(a.users, u) != Row(b.users, u) ==> UserChanged(u) in notices)
    && (Row(a.groups, g) != Row(b.groups, g) ==> GroupChanged(g) in notices)
  }

  lemma DifferenceIsOwed(a: Tables, b: Tables, g: Id, u: Id)
    ensures Dropped(a, b, g, u) ==> Owed(a, b, GroupChanged(g)) && Owed(a, b, UserChanged(u))
    ensures Dropped(b, a, g, u) ==> Owed(a, b, GroupChanged(g))
    ensures Row(a.users, u) != Row(b.users, u) ==> Owed(a, b, UserChanged(u))
    ensures Row(a.groups, g) != Row(b.groups, g) ==> Owed(a, b, GroupChanged(g))
  {
    MemberIff(a, g, u);
    MemberIff(b, g, u);
  }

  /** Between any two points of a run: a pair that is gone has named both its group and its
      user, a pair that is new has named its group, and a row that differs has named itself. */
  lemma {:induction false} RunCovers(
      states: seq<Directory>, calls: seq<Call>, oks: seq<bool>, from: nat, till: nat, g: Id, u: Id)
    requires IsRun(states, calls, oks, true) && from <= till <= |calls|
    ensures |states[from].staged| <= |states[till].staged|
    ensures Named(states[from].tables, states[till].tables, states[till].staged[|states[from].staged|..], g, u)
    decreases till
  {
    StagedGrows(states, calls, oks, true, from, till);
    if from < till {
      hide Step, Owed;
      var last: nat := till - 1;
      RunCovers(states, calls, oks, from, last, g, u);
      StagedGrows(states, calls, oks, true, last, till);
      var start := |states[from].staged|;
      var earlier, all := states[last].staged[start..], states[till].staged[start..];
      assert earlier <= all;
      assert forall impact :: impact in earlier ==> impact in all;
      DifferenceIsOwed(states[last].tables, states[last + 1].tables, g, u);
      forall impact | Owed(states[last].tables, states[last + 1].tables, impact)
        ensures impact in all
      {
        StepNotices(states, calls, oks, from, last, till, impact);
      }
    }
  }

  /** The notices of a group projection, exactly: the group if anything moved, and the users
      dropped from it. A user that only joined is not named. */
  lemma GroupProjectionNotices(d: Directory, next: Directory, g: Id, name: string, ids: seq<Id>, h: Id, u: Id)
    requires Step(d, next, ProjectGroup(Some(g), name, ids), true, true)
    ensures var notices := next.staged[|d.staged|..];
            && (GroupChanged(h) in notices <==> h == g && next.tables != d.tables)
            && (UserChanged(u) in notices <==> (g, u) in d.tables.members && u !in ids)
  {
    var t, after := d.tables, next.tables;
    forall v
      ensures (g, v) in after.members <==> v in ids
    {
      assert v in IdSet(ids) <==> v in ids;
      if v in ids {
        assert (g, v) in set w | w in IdSet(ids) :: (g, w);
      }
    }
    forall k, v | k != g
      ensures (k, v) in after.members <==> (k, v) in t.members
    {
      assert (k, v).0 == k;
    }
    forall v
      ensures Dropped(t, after, g, v) <==> (g, v) in t.members && v !in ids
    {}
    if h != g {
      forall v
        ensures v in MembersOf(t, h) <==> v in MembersOf(after, h)
      {
        MemberIff(t, h, v);
        MemberIff(after, h, v);
      }
      assert MembersOf(t, h) == MembersOf(after, h);
      assert !Owed(t, after, GroupChanged(h));
    } else if t == after {
      NothingOwed(t, GroupChanged(h));
    } else {
      NothingOwedIff(next.staged[|d.staged|..], t, after);
      assert Row(t.groups, g) != Row(after.groups, g) || MembersOf(t, g) != MembersOf(after, g) by {
        if Row(t.groups, g) == Row(after.groups, g) && MembersOf(t, g) == MembersOf(after, g) {
          forall k: Id, v: Id
            ensures (k, v) in t.members <==> (k, v) in after.members
          {
            MemberIff(t, k, v);
            MemberIff(after, k, v);
          }
          SamePairs(t.members, after.members);
          SameRows(t.groups, after.groups);
        }
      }
    }
  }

  lemma SamePairs(a: set<(Id, Id)>, b: set<(Id, Id)>)
    requires forall g: Id, u: Id :: (g, u) in a <==> (g, u) in b
    ensures a == b
  {
    forall p: (Id, Id)
      ensures p in a <==> p in b
    {
      assert p == (p.0, p.1);
    }
  }

  /** A member whose user row is deleted names every group it is in. */
  lemma RetractedUserNamesItsGroups(
      states: seq<Directory>, calls: seq<Call>, oks: seq<bool>, at: nat, g: Id, u: Id)
    requires IsRun(states, calls, oks, true) && at < |calls|
    requires oks[at] && calls[at] == RetractUser(Some(u))
    requires u in states[at].tables.users && (g, u) in states[at].tables.members
    ensures |states[at].staged| <= |states[at + 1].staged|
    ensures GroupChanged(g) in states[at + 1].staged[|states[at].staged|..]
    ensures UserChanged(u) in states[at + 1].staged[|states[at].staged|..]
  {
    assert Step(states[at], states[at + 1], calls[at], true, oks[at]);
    assert Owed(states[at].tables, states[at + 1].tables, GroupChanged(g));
    assert Owed(states[at].tables, states[at + 1].tables, UserChanged(u));
  }

  // ----- dropping the stager -----

  /** The calls that succeeded, in order. */
  ghost function Succeeded(calls: seq<Call>, oks: seq<bool>): seq<Call>
    requires |calls| == |oks|
    decreases |calls|
  {
    if calls == [] then []
    else
      var front := Succeeded(calls[..|calls| - 1], oks[..|oks| - 1]);
      if oks[|oks| - 1] then front + [calls[|calls| - 1]] else front
  }

  ghost function AppliedAll(t: Tables, calls: seq<Call>): Tables
    decreases |calls|
  {
    if calls == [] then t else Applied(AppliedAll(t, calls[..|calls| - 1]), calls[|calls| - 1])
  }

  ghost function Changes(t: Tables, calls: seq<Call>): nat
    decreases |calls|
  {
    if calls == [] then 0
    else
      var front := calls[..|calls| - 1];
      Changes(t, front) + (if AppliedAll(t, calls) == AppliedAll(t, front) then 0 else 1)
  }

  /** Tables and progress after a run are a function of where it began and of the calls that
      succeeded; whether there is a stager plays no part. */
  lemma {:induction false} TablesFollowCalls(
      states: seq<Directory>, calls: seq<Call>, oks: seq<bool>, staging: bool)
    requires IsRun(states, calls, oks, staging)
    ensures var start, end, done := states[0], states[|calls|], Succeeded(calls, oks);
            && end.tables == AppliedAll(start.tables, done)
            && end.progress == start.progress + Changes(start.tables, done)
    decreases |calls|
  {
    if calls != [] {
      var n := |calls| - 1;
      assert Step(states[n], states[n + 1], calls[n], staging, oks[n]);
      forall i | 0 <= i < n
        ensures Step(states[..n + 1][i], states[..n + 1][i + 1], calls[..n][i], staging, oks[..n][i])
      {
        assert Step(states[i], states[i + 1], calls[i], staging, oks[i]);
      }
      TablesFollowCalls(states[..n + 1], calls[..n], oks[..n], staging);
      var front := Succeeded(calls[..n], oks[..n]);
      assert (front + [calls[n]])[..|front|] == front;
    }
  }

  /** Two consumers, one with a stager and one without, that start alike and get the same calls
      through end with the same tables and the same progress, however often either failed. */
  lemma StagerlessTwin(
      a: seq<Directory>, aCalls: seq<Call>, aOks: seq<bool>, b: seq<Directory>, bCalls: seq<Call>, bOks: seq<bool>)
    requires IsRun(a, aCalls, aOks, true) && IsRun(b, bCalls, bOks, false)
    requires a[0].tables == b[0].tables && a[0].progress == b[0].progress
    requires Succeeded(aCalls, aOks) == Succeeded(bCalls, bOks)
    ensures a[|aCalls|].tables == b[|bCalls|].tables
    ensures a[|aCalls|].progress == b[|bCalls|].progress
  {
    TablesFollowCalls(a, aCalls, aOks, true);
    TablesFollowCalls(b, bCalls, bOks, false);
  }
}
