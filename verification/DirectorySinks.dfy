/** The user and group sinks over one connection: statements that may fail, a transaction that
    commits table changes and impacts together, and the stagerless single-statement path. */
module DirectorySinks {
  import opened Arithmetic
  import opened Wrappers
  import opened DirectoryTables

  /** What moved in a group's membership. */
  datatype MembershipDiff = MembershipDiff(removed: set<Id>, added: set<Id>) {
    static function Between(current: set<Id>, projected: set<Id>): MembershipDiff {
      MembershipDiff(current - projected, projected - current)
    }

    predicate Moved() {
      removed != {} || added != {}
    }
  }

  /** A database connection. `left` statements still succeed; the next one fails. */
  class Connection {
    var tables: Tables
    var left: nat

    constructor (tables: Tables, left: nat)
      ensures this.tables == tables && this.left == left
    {
      this.tables, this.left := tables, left;
    }

    method Statement() returns (ok: bool)
      modifies this`left
      ensures ok <==> old(left) > 0
      ensures left == old(left) - One(ok)
    {
      ok := left > 0;
      if ok {
        left := left - 1;
      }
    }

    /** `affected` says whether a row was inserted or changed. */
    method UpsertUser(id: Id, row: UserRow) returns (affected: Option<bool>)
      modifies this
      ensures affected.Some? <==> old(left) > 0
      ensures affected.None? ==> tables == old(tables) && left == 0
      ensures affected.Some? ==>
                && left == old(left) - 1 && tables == old(tables).(users := old(tables).users[id := row])
                && (affected.value <==> Row(old(tables).users, id) != Some(row))
    {
      var ok := Statement();
      if !ok {
        return None;
      }
      affected := Some(!(id in tables.users && tables.users[id] == row));
      tables := tables.(users := tables.users[id := row]);
    }

    method UpsertGroup(id: Id, name: string) returns (affected: Option<bool>)
      modifies this
      ensures affected.Some? <==> old(left) > 0
      ensures affected.None? ==> tables == old(tables) && left == 0
      ensures affected.Some? ==>
                && left == old(left) - 1 && tables == old(tables).(groups := old(tables).groups[id := name])
                && (affected.value <==> Row(old(tables).groups, id) != Some(name))
    {
      var ok := Statement();
      if !ok {
        return None;
      }
      affected := Some(!(id in tables.groups && tables.groups[id] == name));
      tables := tables.(groups := tables.groups[id := name]);
    }

    method DeleteUser(id: Id) returns (deleted: Option<bool>)
      modifies this
      ensures deleted.Some? <==> old(left) > 0
      ensures deleted.None? ==> tables == old(tables) && left == 0
      ensures deleted.Some? ==>
                && left == old(left) - 1 && tables == old(tables).(users := old(tables).users - {id})
                && (deleted.value <==> id in old(tables).users)
    {
      var ok := Statement();
      if !ok {
        return None;
      }
      deleted := Some(id in tables.users);
      tables := tables.(users := tables.users - {id});
    }

    /** The membership table's foreign key cascades. */
    method DeleteGroup(id: Id) returns (deleted: Option<bool>)
      modifies this
      ensures deleted.Some? <==> old(left) > 0
      ensures deleted.None? ==> tables == old(tables) && left == 0
      ensures deleted.Some? ==>
                && left == old(left) - 1
                && tables == old(tables).(groups := old(tables).groups - {id},
                                          members := WithMembers(old(tables).members, id, {}))
                && (deleted.value <==> id in old(tables).groups)
    {
      var ok := Statement();
      if !ok {
        return None;
      }
      deleted := Some(id in tables.groups);
      tables := tables.(groups := tables.groups - {id}, members := WithMembers(tables.members, id, {}));
    }

    method LockedMembers(group: Id) returns (users: Option<set<Id>>)
      modifies this`left
      ensures users == if old(left) > 0 then Some(MembersOf(tables, group)) else None
      ensures left == old(left) - One(users.Some?)
    {
      var ok := Statement();
      users := if ok then Some(MembersOf(tables, group)) else None;
    }

    method MembershipsOf(user: Id) returns (groups: Option<set<Id>>)
      modifies this`left
      ensures groups == if old(left) > 0 then Some(GroupsOf(tables, user)) else None
      ensures left == old(left) - One(groups.Some?)
    {
      var ok := Statement();
      groups := if ok then Some(GroupsOf(tables, user)) else None;
    }

    method LockedGroup(group: Id) returns (found: Option<bool>)
      modifies this`left
      ensures found == if old(left) > 0 then Some(group in tables.groups) else None
      ensures left == old(left) - One(found.Some?)
    {
      var ok := Statement();
      found := if ok then Some(group in tables.groups) else None;
    }

    /** Deletes the removed pairs and inserts the added ones, each only if there are any. */
    method Rewrite(diff: MembershipDiff, group: Id, ghost projected: set<Id>) returns (ok: bool)
      requires diff == MembershipDiff.Between(MembersOf(tables, group), projected)
      modifies this
      ensures ok <==> Moves(diff) <= old(left)
      ensures ok ==>
                && left == old(left) - Moves(diff)
                && tables == old(tables).(members := WithMembers(old(tables).members, group, projected))
    {
      ghost var before := tables;
      if diff.removed != {} {
        ok := Statement();
        if !ok {
          return;
        }
        tables := tables.(members := set p | p in tables.members && !(p.0 == group && p.1 in diff.removed));
      }
      if diff.added != {} {
        ok := Statement();
        if !ok {
          return;
        }
        tables := tables.(members := tables.members + set u | u in diff.added :: (group, u));
      }
      RewrittenMembers(before, group, diff, projected, tables.members);
      ok := true;
    }

    // ----- what each sink call writes; `None` when a statement failed -----

    method WriteUser(id: Id, row: UserRow) returns (impacts: Option<seq<Impact>>)
      modifies this
      ensures impacts.Some? <==> old(left) >= 1
      ensures impacts.None? ==> tables == old(tables)
      ensures impacts.Some? ==>
                && left == old(left) - 1 && tables == Applied(old(tables), ProjectUser(Some(id), row))
                && Enumerates(impacts.value, old(tables), tables)
    {
      var changed := UpsertUser(id, row);
      if changed.None? {
        return None;
      }
      impacts := Some(if changed.value then [UserChanged(id)] else []);
      UserNotices(old(tables), id, row, impacts.value);
    }

    method EraseUser(id: Id, staging: bool) returns (impacts: Option<seq<Impact>>)
      modifies this
      ensures impacts.Some? <==> old(left) >= 1 + One(staging && id in old(tables).users)
      ensures impacts.None? && !staging ==> tables == old(tables)
      ensures impacts.Some? ==>
                && left == old(left) - 1 - One(staging && id in old(tables).users)
                && tables == Applied(old(tables), RetractUser(Some(id)))
                && (impacts.value == [] <==> tables == old(tables))
                && (staging ==> Enumerates(impacts.value, old(tables), tables))
    {
      var deleted := DeleteUser(id);
      if deleted.None? {
        return None;
      }
      if !deleted.value {
        assert tables == old(tables);
        return Some([]);
      }
      var batch := [UserChanged(id)];
      if staging {
        var groups := MembershipsOf(id);
        if groups.None? {
          return None;
        }
        batch := PushGroups(batch, groups.value);
        UserGoneNotices(old(tables), id, batch);
      }
      assert id in old(tables).users && id !in tables.users;
      impacts := Some(batch);
    }

    method WriteGroup(id: Id, name: string, memberIds: seq<Id>) returns (impacts: Option<seq<Impact>>)
      modifies this
      ensures impacts.Some? <==> old(left) >= 2 + MembershipMoves(old(tables), id, memberIds)
      ensures impacts.Some? ==>
                && left == old(left) - 2 - MembershipMoves(old(tables), id, memberIds)
                && tables == Applied(old(tables), ProjectGroup(Some(id), name, memberIds))
                && Enumerates(impacts.value, old(tables), tables)
    {
      ghost var before := tables;
      var nameChanged := UpsertGroup(id, name);
      if nameChanged.None? {
        return None;
      }
      var projected := IdSet(memberIds);
      var current := LockedMembers(id);
      if current.None? {
        return None;
      }
      var diff := MembershipDiff.Between(current.value, projected);
      assert current.value == MembersOf(before, id);
      if diff.Moved() {
        var ok := Rewrite(diff, id, projected);
        if !ok {
          return None;
        }
      } else {
        SameMembership(before, id, projected);
      }
      if !nameChanged.value && !diff.Moved() {
        NoGroupNotices(before, tables, id);
        return Some([]);
      }
      var batch := PushUsers([GroupChanged(id)], diff.removed);
      GroupNotices(before, id, name, memberIds, batch);
      impacts := Some(batch);
    }

    method EraseGroup(id: Id) returns (impacts: Option<seq<Impact>>)
      requires ForeignKeys(tables)
      modifies this
      ensures impacts.Some? <==> old(left) >= (if id in old(tables).groups then 3 else 1)
      ensures impacts.Some? ==>
                && left == old(left) - (if id in old(tables).groups then 3 else 1)
                && tables == Applied(old(tables), RetractGroup(Some(id)))
                && Enumerates(impacts.value, old(tables), tables)
    {
      var found := LockedGroup(id);
      if found.None? {
        return None;
      }
      if !found.value {
        NoSuchGroup(tables, id);
        return Some([]);
      }
      var members := LockedMembers(id);
      if members.None? {
        return None;
      }
      var deleted := DeleteGroup(id);
      if deleted.None? {
        return None;
      }
      var batch := PushUsers([GroupChanged(id)], members.value);
      GroupGoneNotices(old(tables), id, batch);
      impacts := Some(batch);
    }

    /** The stagerless retraction is the one DELETE. */
    method EraseGroupOnly(id: Id) returns (impacts: Option<seq<Impact>>)
      requires ForeignKeys(tables)
      modifies this
      ensures impacts.Some? <==> old(left) >= 1
      ensures impacts.None? ==> tables == old(tables)
      ensures impacts.Some? ==>
                && left == old(left) - 1 && tables == Applied(old(tables), RetractGroup(Some(id)))
                && (impacts.value == [] <==> tables == old(tables))
    {
      var deleted := DeleteGroup(id);
      if deleted.None? {
        return None;
      }
      if !deleted.value {
        NoSuchGroup(old(tables), id);
      }
      impacts := Some(if deleted.value then [GroupChanged(id)] else []);
    }
  }

  // ----- pushing one impact for each id of a set -----

  ghost predicate Distinct(batch: seq<Impact>) {
    forall i, j :: 0 <= i < j < |batch| ==> batch[i] != batch[j]
  }

  method PushUsers(first: seq<Impact>, users: set<Id>) returns (batch: seq<Impact>)
    requires Distinct(first) && forall u :: u in users ==> UserChanged(u) !in first
    ensures Distinct(batch)
    ensures forall i :: i in batch <==> i in first || (i.UserChanged? && i.id in users)
  {
    batch := first;
    var rest := users;
    while rest != {}
      invariant rest <= users && Distinct(batch)
      invariant forall i :: i in batch <==> i in first || (i.UserChanged? && i.id in users - rest)
    {
      var u :| u in rest;
      batch := batch + [UserChanged(u)];
      rest := rest - {u};
    }
  }

  method PushGroups(first: seq<Impact>, groups: set<Id>) returns (batch: seq<Impact>)
    requires Distinct(first) && forall g :: g in groups ==> GroupChanged(g) !in first
    ensures Distinct(batch)
    ensures forall i :: i in batch <==> i in first || (i.GroupChanged? && i.id in groups)
  {
    batch := first;
    var rest := groups;
    while rest != {}
      invariant rest <= groups && Distinct(batch)
      invariant forall i :: i in batch <==> i in first || (i.GroupChanged? && i.id in groups - rest)
    {
      var g :| g in rest;
      batch := batch + [GroupChanged(g)];
      rest := rest - {g};
    }
  }

  // ----- the batches are what is owed -----

  function Moves(diff: MembershipDiff): nat {
    One(diff.removed != {}) + One(diff.added != {})
  }

  function MembershipMoves(t: Tables, group: Id, memberIds: seq<Id>): nat {
    Moves(MembershipDiff.Between(MembersOf(t, group), IdSet(memberIds)))
  }

  lemma RewrittenMembers(
      before: Tables, group: Id, diff: MembershipDiff, projected: set<Id>, members: set<(Id, Id)>)
    requires diff == MembershipDiff.Between(MembersOf(before, group), projected)
    requires forall p: (Id, Id) :: p in members <==>
               || (p in before.members && !(p.0 == group && p.1 in diff.removed))
               || (p.0 == group && p.1 in diff.added)
    ensures members == WithMembers(before.members, group, projected)
  {}

  lemma SameMembership(t: Tables, group: Id, projected: set<Id>)
    requires MembersOf(t, group) == projected
    ensures WithMembers(t.members, group, projected) == t.members
  {}

  /** Who belongs to what once one group's members are replaced. */
  lemma MembersAfter(t: Tables, group: Id, users: set<Id>, g: Id, u: Id)
    ensures (g, u) in WithMembers(t.members, group, users) <==>
            if g == group then u in users else (g, u) in t.members
  {}

  lemma UserNotices(t: Tables, id: Id, row: UserRow, batch: seq<Impact>)
    requires batch == if Row(t.users, id) != Some(row) then [UserChanged(id)] else []
    ensures Enumerates(batch, t, Applied(t, ProjectUser(Some(id), row)))
  {}

  lemma UserGoneNotices(t: Tables, id: Id, batch: seq<Impact>)
    requires id in t.users && Distinct(batch)
    requires forall i :: i in batch <==> i == UserChanged(id) || (i.GroupChanged? && i.id in GroupsOf(t, id))
    ensures Enumerates(batch, t, Applied(t, RetractUser(Some(id))))
  {
    forall i: Impact
      ensures i in batch <==> Owed(t, Applied(t, RetractUser(Some(id))), i)
    {
      if i.GroupChanged? {
        MemberIff(t, i.id, id);
      }
    }
  }

  lemma NoGroupNotices(t: Tables, after: Tables, id: Id)
    requires after.users == t.users && after.members == t.members
    requires id in t.groups && after.groups == t.groups[id := t.groups[id]]
    ensures after == t && Enumerates([], t, after)
  {}

  lemma GroupNotices(t: Tables, id: Id, name: string, memberIds: seq<Id>, batch: seq<Impact>)
    requires Distinct(batch)
    requires Row(t.groups, id) != Some(name) || MembersOf(t, id) != IdSet(memberIds)
    requires forall i :: i in batch <==>
               || i == GroupChanged(id)
               || (i.UserChanged? && i.id in MembersOf(t, id) - IdSet(memberIds))
    ensures Enumerates(batch, t, Applied(t, ProjectGroup(Some(id), name, memberIds)))
  {
    OneGroupOwed(t, Applied(t, ProjectGroup(Some(id), name, memberIds)), id, IdSet(memberIds), batch);
  }

  lemma GroupGoneNotices(t: Tables, id: Id, batch: seq<Impact>)
    requires id in t.groups && Distinct(batch)
    requires forall i :: i in batch <==> i == GroupChanged(id) || (i.UserChanged? && i.id in MembersOf(t, id))
    ensures Enumerates(batch, t, Applied(t, RetractGroup(Some(id))))
  {
    OneGroupOwed(t, Applied(t, RetractGroup(Some(id))), id, {}, batch);
  }

  /** A call on one group that moved its row or its members owes the group and the users it
      dropped. */
  lemma OneGroupOwed(t: Tables, after: Tables, id: Id, users: set<Id>, batch: seq<Impact>)
    requires after.users == t.users && after.members == WithMembers(t.members, id, users)
    requires forall g: Id :: g != id ==> Row(after.groups, g) == Row(t.groups, g)
    requires Row(after.groups, id) != Row(t.groups, id) || MembersOf(t, id) != users
    requires Distinct(batch)
    requires forall i :: i in batch <==> i == GroupChanged(id) || (i.UserChanged? && i.id in MembersOf(t, id) - users)
    ensures Enumerates(batch, t, after)
  {
    forall i: Impact
      ensures i in batch <==> Owed(t, after, i)
    {
      match i
      case GroupChanged(g) =>
        forall u
          ensures u in MembersOf(after, g) <==> if g == id then u in users else u in MembersOf(t, g)
        {
          MembersAfter(t, id, users, g, u);
          MemberIff(t, g, u);
          MemberIff(after, g, u);
        }
        assert MembersOf(after, g) == if g == id then users else MembersOf(t, g);
      case UserChanged(u) =>
        forall g
          ensures Dropped(t, after, g, u) <==> g == id && u in MembersOf(t, id) - users
        {
          MembersAfter(t, id, users, g, u);
          MemberIff(t, g, u);
        }
        assert Dropped(t, after, id, u) <==> u in MembersOf(t, id) - users;
        assert Row(after.users, u) == Row(t.users, u);
    }
  }

  lemma NoSuchGroup(t: Tables, id: Id)
    requires ForeignKeys(t) && id !in t.groups
    ensures Applied(t, RetractGroup(Some(id))) == t
    ensures Enumerates([], t, t)
  {}

  // ----- the sinks -----

  /** How many statements a call takes: begin or acquire, its writes, the stager's insert when it
      has something to stage, and the commit where there is a transaction. */
  function Needed(t: Tables, call: Call, staging: bool): nat {
    if call.key.None? then 0
    else
      var id := call.key.value;
      var stage := One(staging && Applied(t, call) != t);
      match call
      case ProjectUser(_, _) => 2 + stage + One(staging)
      case RetractUser(_) => 2 + One(staging && id in t.users) + stage + One(staging)
      case ProjectGroup(_, _, memberIds) => 3 + MembershipMoves(t, id, memberIds) + stage + 1
      case RetractGroup(_) =>
        if staging then 1 + (if id in t.groups then 3 else 1) + stage + 1 else 2
  }

  /** The sinks share one context: the tables, the stager (if any) and the progress count.
      Each call may use `budget` statements before one fails. */
  class DirectoryConsumer {
    const staging: bool
    var tables: Tables
    var staged: seq<Impact>
    var progress: nat

    ghost function State(): Directory
      reads this
    {
      Directory(tables, staged, progress)
    }

    constructor (tables: Tables, staging: bool)
      ensures State() == Directory(tables, [], 0) && this.staging == staging
    {
      this.tables, this.staging, this.staged, this.progress := tables, staging, [], 0;
    }

    method Settle(impacts: seq<Impact>)
      modifies this`progress
      ensures progress == old(progress) + One(impacts != [])
    {
      if impacts != [] {
        progress := progress + 1;
      }
    }

    /** Ends a transaction: stage, commit, settle. Only the commit moves what others see. */
    method Commit(conn: Connection, impacts: Option<seq<Impact>>) returns (ok: bool)
      modifies this, conn
      ensures ok <==> impacts.Some? && old(conn.left) >= 1 + One(staging && impacts.value != [])
      ensures !ok ==> State() == old(State())
      ensures ok ==>
                && tables == old(conn.tables)
                && staged == (if staging then old(staged) + impacts.value else old(staged))
                && progress == old(progress) + One(impacts.value != [])
    {
      if impacts.None? {
        return false;
      }
      if staging && impacts.value != [] {
        ok := conn.Statement();
        if !ok {
          return;
        }
      }
      ok := conn.Statement();
      if !ok {
        return;
      }
      tables := conn.tables;
      if staging {
        staged := staged + impacts.value;
      }
      Settle(impacts.value);
    }

    /** Ends a stagerless single statement, which committed itself if it ran at all. */
    method Finish(conn: Connection, impacts: Option<seq<Impact>>) returns (ok: bool)
      modifies this
      ensures ok <==> impacts.Some?
      ensures tables == conn.tables && staged == old(staged)
      ensures progress == old(progress) + One(ok && impacts.value != [])
    {
      tables := conn.tables;
      if impacts.None? {
        return false;
      }
      Settle(impacts.value);
      ok := true;
    }

    method ProjectUser(key: Option<Id>, row: UserRow, budget: nat) returns (ok: bool)
      modifies this
      ensures Step(old(State()), State(), Call.ProjectUser(key, row), staging, ok)
      ensures ok <==> Needed(old(tables), Call.ProjectUser(key, row), staging) <= budget
    {
      if key.None? {
        return true;
      }
      if budget == 0 {
        return false;
      }
      var conn := new Connection(tables, budget - 1);
      var impacts := conn.WriteUser(key.value, row);
      if impacts.Some? {
        NothingOwedIff(impacts.value, tables, conn.tables);
      }
      if staging {
        ok := Commit(conn, impacts);
      } else {
        ok := Finish(conn, impacts);
      }
      if ok && staging {
        Appended(old(staged), impacts.value);
      }
    }

    method RetractUser(key: Option<Id>, budget: nat) returns (ok: bool)
      modifies this
      ensures Step(old(State()), State(), Call.RetractUser(key), staging, ok)
      ensures ok <==> Needed(old(tables), Call.RetractUser(key), staging) <= budget
    {
      if key.None? {
        return true;
      }
      if budget == 0 {
        return false;
      }
      var conn := new Connection(tables, budget - 1);
      var impacts := conn.EraseUser(key.value, staging);
      if staging {
        ok := Commit(conn, impacts);
      } else {
        ok := Finish(conn, impacts);
      }
      if ok && staging {
        Appended(old(staged), impacts.value);
      }
    }

    method ProjectGroup(key: Option<Id>, name: string, memberIds: seq<Id>, budget: nat) returns (ok: bool)
      modifies this
      ensures Step(old(State()), State(), Call.ProjectGroup(key, name, memberIds), staging, ok)
      ensures ok <==> Needed(old(tables), Call.ProjectGroup(key, name, memberIds), staging) <= budget
    {
      if key.None? {
        return true;
      }
      if budget == 0 {
        return false;
      }
      var conn := new Connection(tables, budget - 1);
      var impacts := conn.WriteGroup(key.value, name, memberIds);
      if impacts.Some? {
        NothingOwedIff(impacts.value, tables, conn.tables);
      }
      ok := Commit(conn, impacts);
      if ok && staging {
        Appended(old(staged), impacts.value);
      }
    }

    method RetractGroup(key: Option<Id>, budget: nat) returns (ok: bool)
      requires ForeignKeys(tables)
      modifies this
      ensures Step(old(State()), State(), Call.RetractGroup(key), staging, ok)
      ensures ok <==> Needed(old(tables), Call.RetractGroup(key), staging) <= budget
    {
      if key.None? {
        return true;
      }
      if budget == 0 {
        return false;
      }
      var conn := new Connection(tables, budget - 1);
      if !staging {
        var impacts := conn.EraseGroupOnly(key.value);
        ok := Finish(conn, impacts);
        return;
      }
      var impacts := conn.EraseGroup(key.value);
      if impacts.Some? {
        NothingOwedIff(impacts.value, tables, conn.tables);
      }
      ok := Commit(conn, impacts);
      if ok {
        Appended(old(staged), impacts.value);
      }
    }
  }

  lemma Appended(staged: seq<Impact>, batch: seq<Impact>)
    ensures (staged + batch)[..|staged|] == staged && (staged + batch)[|staged|..] == batch
  {}
}
