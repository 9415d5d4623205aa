/** The projection meets the directory: a consumer's copy, kept in the group and user tables
    through the sinks, shows what the bucket holds, and its impacts cover every difference. */
module DirectoryProjection {
  import opened Wrappers
  import opened KvKeys
  import opened DirectoryTables
  import P = KvProjection

  datatype PublishedGroup = PublishedGroup(name: string, memberIds: seq<Id>)

  const USERS_KEY_PREFIX: KvPrefix := "identity/users/"
  const GROUPS_KEY_PREFIX: KvPrefix := "identity/groups/"

  /** How the text after the prefix names an id; `None` if it names none. */
  type Parse = string -> Option<Id>

  /** Keys are canonical: an id has one text. */
  ghost predicate Canonical(parse: Parse) {
    forall a, b :: parse(a).Some? && parse(a) == parse(b) ==> a == b
  }

  function IdOf(prefix: KvPrefix, parse: Parse, key: KvKey): Option<Id> {
    if Matches(prefix, key) then parse(key[|prefix|..]) else None
  }

  lemma OneKeyPerId(prefix: KvPrefix, parse: Parse, a: KvKey, b: KvKey)
    requires Canonical(parse)
    requires IdOf(prefix, parse, a).Some? && IdOf(prefix, parse, a) == IdOf(prefix, parse, b)
    ensures a == b
  {
    assert a == prefix + a[|prefix|..] && b == prefix + b[|prefix|..];
  }

  // ----- sink calls as the consumers make them -----

  datatype SinkOp<V> = Project(key: KvKey, value: V) | Retract(key: KvKey)

  function Kept<V>(rows: map<KvKey, V>, op: SinkOp<V>): map<KvKey, V> {
    if op.Project? then rows[op.key := op.value] else rows - {op.key}
  }

  function KeptAll<V>(rows: map<KvKey, V>, ops: seq<SinkOp<V>>): map<KvKey, V>
    decreases |ops|
  {
    if ops == [] then rows else Kept(KeptAll(rows, ops[..|ops| - 1]), ops[|ops| - 1])
  }

  lemma {:induction false} KeptInTurn<V>(rows: map<KvKey, V>, a: seq<SinkOp<V>>, b: seq<SinkOp<V>>)
    ensures KeptAll(rows, a + b) == KeptAll(KeptAll(rows, a), b)
    decreases |b|
  {
    if b == [] {
      assert a + b == a;
    } else {
      KeptInTurn(rows, a, b[..|b| - 1]);
      assert (a + b)[..|a + b| - 1] == a + b[..|b| - 1];
    }
  }

  /** The sink calls of a stretch of the watched log. */
  function WatchOps<V>(sel: P.Selection<V>, entries: seq<P.Entry<V>>): seq<SinkOp<V>>
    decreases |entries|
  {
    if entries == [] then []
    else
      var before, entry := WatchOps(sel, entries[..|entries| - 1]), entries[|entries| - 1];
      if !P.Watched(sel, entry.key) then before
      else if entry.Put? && P.DecidePut(sel, entry.value).Project? then before + [Project(entry.key, entry.value)]
      else before + [Retract(entry.key)]
  }

  lemma {:induction false} WatchOpsFollow<V>(
      sel: P.Selection<V>, rows: map<KvKey, V>, entries: seq<P.Entry<V>>)
    ensures KeptAll(rows, WatchOps(sel, entries)) == P.Follow(sel, rows, entries)
    decreases |entries|
  {
    if entries != [] {
      WatchOpsFollow(sel, rows, entries[..|entries| - 1]);
      var before, all := WatchOps(sel, entries[..|entries| - 1]), WatchOps(sel, entries);
      if P.Watched(sel, entries[|entries| - 1].key) {
        assert all[..|all| - 1] == before;
      }
    }
  }

  // ----- the tables mirror the copies -----

  datatype Op = OnGroup(group: SinkOp<PublishedGroup>) | OnUser(user: SinkOp<UserRow>)

  datatype Copies = Copies(groups: map<KvKey, PublishedGroup>, users: map<KvKey, UserRow>)

  function CallOf(parse: Parse, op: Op): Call {
    match op
    case OnGroup(Project(key, value)) => ProjectGroup(IdOf(GROUPS_KEY_PREFIX, parse, key), value.name, value.memberIds)
    case OnGroup(Retract(key)) => RetractGroup(IdOf(GROUPS_KEY_PREFIX, parse, key))
    case OnUser(Project(key, value)) => ProjectUser(IdOf(USERS_KEY_PREFIX, parse, key), value)
    case OnUser(Retract(key)) => RetractUser(IdOf(USERS_KEY_PREFIX, parse, key))
  }

  function CopiesAfter(copies: Copies, op: Op): Copies {
    match op
    case OnGroup(group) => copies.(groups := Kept(copies.groups, group))
    case OnUser(user) => copies.(users := Kept(copies.users, user))
  }

  /** The group's row and members are the published ones, or there are none. */
  ghost predicate ShowsGroup(t: Tables, id: Id, group: Option<PublishedGroup>) {
    match group
    case None => id !in t.groups && MembersOf(t, id) == {}
    case Some(value) => Row(t.groups, id) == Some(value.name) && MembersOf(t, id) == IdSet(value.memberIds)
  }

  ghost predicate Mirrors(parse: Parse, t: Tables, copies: Copies) {
    && (forall k: KvKey :: IdOf(GROUPS_KEY_PREFIX, parse, k).Some? ==>
          ShowsGroup(t, IdOf(GROUPS_KEY_PREFIX, parse, k).value, Lookup(copies.groups, k)))
    && (forall k: KvKey :: IdOf(USERS_KEY_PREFIX, parse, k).Some? ==>
          Row(t.users, IdOf(USERS_KEY_PREFIX, parse, k).value) == Lookup(copies.users, k))
  }

  lemma EmptyMirrors(parse: Parse)
    ensures Mirrors(parse, Tables(map[], map[], {}), Copies(map[], map[]))
  {}

  lemma OneGroupMoves(t: Tables, id: Id, name: string, memberIds: seq<Id>, other: Id, group: Option<PublishedGroup>)
    ensures ShowsGroup(Applied(t, ProjectGroup(Some(id), name, memberIds)), id, Some(PublishedGroup(name, memberIds)))
    ensures ShowsGroup(Applied(t, RetractGroup(Some(id))), id, None)
    ensures other != id && ShowsGroup(t, other, group) ==>
              && ShowsGroup(Applied(t, ProjectGroup(Some(id), name, memberIds)), other, group)
              && ShowsGroup(Applied(t, RetractGroup(Some(id))), other, group)
  {
    MembersReplaced(t, id, IdSet(memberIds), id);
    MembersReplaced(t, id, {}, id);
    MembersReplaced(t, id, IdSet(memberIds), other);
    MembersReplaced(t, id, {}, other);
  }

  lemma MembersReplaced(t: Tables, id: Id, users: set<Id>, g: Id)
    ensures var after := t.(members := WithMembers(t.members, id, users));
            MembersOf(after, g) == if g == id then users else MembersOf(t, g)
  {
    var after := t.(members := WithMembers(t.members, id, users));
    forall u
      ensures u in MembersOf(after, g) <==> if g == id then u in users else u in MembersOf(t, g)
    {
      MemberIff(t, g, u);
      MemberIff(after, g, u);
      if u in users {
        assert (id, u) in set w | w in users :: (id, w);
      }
    }
  }

  /** A sink call that succeeds keeps the tables mirroring the copies. */
  lemma OpMirrors(parse: Parse, t: Tables, copies: Copies, op: Op)
    requires Canonical(parse) && Mirrors(parse, t, copies)
    ensures Mirrors(parse, Applied(t, CallOf(parse, op)), CopiesAfter(copies, op))
  {
    hide ShowsGroup;
    var after, next := Applied(t, CallOf(parse, op)), CopiesAfter(copies, op);
    forall k: KvKey | IdOf(GROUPS_KEY_PREFIX, parse, k).Some?
      ensures ShowsGroup(after, IdOf(GROUPS_KEY_PREFIX, parse, k).value, Lookup(next.groups, k))
    {
      GroupMirrored(parse, t, copies, op, k);
    }
    forall k: KvKey | IdOf(USERS_KEY_PREFIX, parse, k).Some?
      ensures Row(after.users, IdOf(USERS_KEY_PREFIX, parse, k).value) == Lookup(next.users, k)
    {
      UserMirrored(parse, t, copies, op, k);
    }
  }

  lemma GroupMirrored(parse: Parse, t: Tables, copies: Copies, op: Op, k: KvKey)
    requires Canonical(parse) && Mirrors(parse, t, copies) && IdOf(GROUPS_KEY_PREFIX, parse, k).Some?
    ensures ShowsGroup(Applied(t, CallOf(parse, op)), IdOf(GROUPS_KEY_PREFIX, parse, k).value,
                       Lookup(CopiesAfter(copies, op).groups, k))
  {
    var id := IdOf(GROUPS_KEY_PREFIX, parse, k).value;
    if op.OnUser? {
      SameGroups(t, Applied(t, CallOf(parse, op)), id, Lookup(copies.groups, k));
    } else {
      var target := IdOf(GROUPS_KEY_PREFIX, parse, op.group.key);
      if target.Some? {
        if target.value == id {
          OneKeyPerId(GROUPS_KEY_PREFIX, parse, k, op.group.key);
        }
        hide IdOf, ShowsGroup, Applied;
        var value := if op.group.Project? then op.group.value else PublishedGroup("", []);
        OneGroupMoves(t, target.value, value.name, value.memberIds, id, Lookup(copies.groups, k));
      }
    }
  }

  lemma SameGroups(t: Tables, after: Tables, id: Id, group: Option<PublishedGroup>)
    requires after.groups == t.groups && after.members == t.members
    ensures ShowsGroup(after, id, group) <==> ShowsGroup(t, id, group)
  {
    assert MembersOf(after, id) == MembersOf(t, id);
  }

  lemma UserMirrored(parse: Parse, t: Tables, copies: Copies, op: Op, k: KvKey)
    requires Canonical(parse) && Mirrors(parse, t, copies) && IdOf(USERS_KEY_PREFIX, parse, k).Some?
    ensures Row(Applied(t, CallOf(parse, op)).users, IdOf(USERS_KEY_PREFIX, parse, k).value)
            == Lookup(CopiesAfter(copies, op).users, k)
  {
    if op.OnUser? && IdOf(USERS_KEY_PREFIX, parse, op.user.key) == IdOf(USERS_KEY_PREFIX, parse, k) {
      OneKeyPerId(USERS_KEY_PREFIX, parse, k, op.user.key);
    }
    hide IdOf, ShowsGroup;
  }

  // ----- whole runs -----

  ghost predicate CallsOf(parse: Parse, ops: seq<Op>, calls: seq<Call>) {
    |calls| == |ops| && forall i :: 0 <= i < |ops| ==> calls[i] == CallOf(parse, ops[i])
  }

  /** The copies after the calls that succeeded. */
  ghost function CopiesThrough(copies: Copies, ops: seq<Op>, oks: seq<bool>): Copies
    requires |ops| == |oks|
    decreases |ops|
  {
    if ops == [] then copies
    else
      var n := |ops| - 1;
      var before := CopiesThrough(copies, ops[..n], oks[..n]);
      if oks[n] then CopiesAfter(before, ops[n]) else before
  }

  /** The group calls that succeeded, in order. */
  ghost function GroupOps(ops: seq<Op>, oks: seq<bool>): seq<SinkOp<PublishedGroup>>
    requires |ops| == |oks|
    decreases |ops|
  {
    if ops == [] then []
    else
      var n := |ops| - 1;
      var before := GroupOps(ops[..n], oks[..n]);
      if oks[n] && ops[n].OnGroup? then before + [ops[n].group] else before
  }

  lemma {:induction false} GroupCopyIsItsOps(copies: Copies, ops: seq<Op>, oks: seq<bool>)
    requires |ops| == |oks|
    ensures CopiesThrough(copies, ops, oks).groups == KeptAll(copies.groups, GroupOps(ops, oks))
    decreases |ops|
  {
    if ops != [] {
      var n := |ops| - 1;
      GroupCopyIsItsOps(copies, ops[..n], oks[..n]);
      var before, all := GroupOps(ops[..n], oks[..n]), GroupOps(ops, oks);
      if oks[n] && ops[n].OnGroup? {
        assert all[..|all| - 1] == before;
      }
    }
  }

  /** However the calls of the two sinks interleave and fail, the tables mirror the copies. */
  lemma {:induction false} RunMirrors(
      parse: Parse, states: seq<Directory>, ops: seq<Op>, calls: seq<Call>, oks: seq<bool>, staging: bool,
      copies: Copies)
    requires Canonical(parse) && IsRun(states, calls, oks, staging) && CallsOf(parse, ops, calls)
    requires Mirrors(parse, states[0].tables, copies)
    ensures Mirrors(parse, states[|ops|].tables, CopiesThrough(copies, ops, oks))
    decreases |ops|
  {
    if ops != [] {
      hide Mirrors;
      var n := |ops| - 1;
      assert Step(states[n], states[n + 1], calls[n], staging, oks[n]);
      ShorterRun(states, calls, oks, staging);
      RunMirrors(parse, states[..n + 1], ops[..n], calls[..n], oks[..n], staging, copies);
      OpMirrors(parse, states[n].tables, CopiesThrough(copies, ops[..n], oks[..n]), ops[n]);
    }
  }

  lemma ShorterRun(states: seq<Directory>, calls: seq<Call>, oks: seq<bool>, staging: bool)
    requires IsRun(states, calls, oks, staging) && calls != []
    ensures var n := |calls| - 1; IsRun(states[..n + 1], calls[..n], oks[..n], staging)
  {
    var n := |calls| - 1;
    forall i | 0 <= i < n
      ensures Step(states[..n + 1][i], states[..n + 1][i + 1], calls[..n][i], staging, oks[..n][i])
    {
      assert Step(states[i], states[i + 1], calls[i], staging, oks[i]);
    }
  }

  /** End to end: a bootstrap and then the watched log, applied through the group sink while user
      calls go on beside it and any call may fail and be made again, leave in the tables exactly
      the group that the bucket holds for each watched key, if nothing was missed between the
      scan and the watch; and the impacts staged between any two points name every difference. */
  lemma DirectoryShowsTheBucket(
      parse: Parse, sel: P.Selection<PublishedGroup>, log: seq<P.Entry<PublishedGroup>>, scan: P.ScanTimes,
      watchFrom: nat, boot: seq<SinkOp<PublishedGroup>>, copies: Copies,
      states: seq<Directory>, ops: seq<Op>, calls: seq<Call>, oks: seq<bool>, k: KvKey)
    requires Canonical(parse) && IsRun(states, calls, oks, true) && CallsOf(parse, ops, calls)
    requires Mirrors(parse, states[0].tables, copies)
    requires P.ScanOf(log, scan) && watchFrom <= |log|
    requires P.Bootstrapped(sel, copies.groups, KeptAll(copies.groups, boot), log, scan)
    requires forall key: KvKey :: !P.Missed(sel, log, scan, watchFrom, key)
    requires GroupOps(ops, oks) == boot + WatchOps(sel, log[watchFrom..])
    requires P.Watched(sel, k) && IdOf(GROUPS_KEY_PREFIX, parse, k).Some?
    ensures ShowsGroup(states[|ops|].tables, IdOf(GROUPS_KEY_PREFIX, parse, k).value, P.View(sel, log, k))
  {
    assert |ops| == |oks|;
    hide IsRun, CallsOf, ShowsGroup, IdOf, P.ScanOf, P.Bootstrapped, P.Missed, P.View, P.Watched;
    var after := KeptAll(copies.groups, boot);
    var rest := WatchOps(sel, log[watchFrom..]);
    RunMirrors(parse, states, ops, calls, oks, true, copies);
    GroupCopyIsItsOps(copies, ops, oks);
    KeptInTurn(copies.groups, boot, rest);
    WatchOpsFollow(sel, after, log[watchFrom..]);
    P.AgreesIffNothingMissed(sel, copies.groups, after, log, scan, watchFrom);
    assert Lookup(CopiesThrough(copies, ops, oks).groups, k) == P.View(sel, log, k);
  }

  /** And of the impacts: between any two points of such a run, what the tables show of a group
      or a user differs only if its notices were staged in between. */
  lemma DirectoryNamesItsChanges(
      parse: Parse, states: seq<Directory>, ops: seq<Op>, calls: seq<Call>, oks: seq<bool>,
      from: nat, till: nat, g: Id, u: Id, group: Option<PublishedGroup>)
    requires IsRun(states, calls, oks, true) && CallsOf(parse, ops, calls) && from <= till <= |ops|
    ensures |states[from].staged| <= |states[till].staged|
    ensures var notices := states[till].staged[|states[from].staged|..];
            && Named(states[from].tables, states[till].tables, notices, g, u)
            && (ShowsGroup(states[from].tables, g, group) && !ShowsGroup(states[till].tables, g, group) ==>
                  GroupChanged(g) in notices)
  {
    RunCovers(states, calls, oks, from, till, g, u);
    var a, b := states[from].tables, states[till].tables;
    if ShowsGroup(a, g, group) && !ShowsGroup(b, g, group) && Row(a.groups, g) == Row(b.groups, g) {
      var v := DifferentMember(a, b, g);
      RunCovers(states, calls, oks, from, till, g, v);
      MemberIff(a, g, v);
      MemberIff(b, g, v);
    }
  }

  lemma DifferentMember(a: Tables, b: Tables, g: Id) returns (v: Id)
    requires MembersOf(a, g) != MembersOf(b, g)
    ensures v in MembersOf(a, g) <==> v !in MembersOf(b, g)
  {
    if w :| w in MembersOf(a, g) && w !in MembersOf(b, g) {
      v := w;
    } else {
      v :| v in MembersOf(b, g) && v !in MembersOf(a, g);
    }
  }
}
