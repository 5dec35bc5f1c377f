/** Resolving uids that several mappings of a project share. */
module UidDuplicates {
  datatype Namespace = TMP | GEN | OVRD | USER

  /** A row of uid_mappings, for one project. */
  datatype Mapping = Mapping(path: string, uid: string, ns: Namespace, updated: int)

  datatype Group = Group(uid: string, paths: seq<string>)
  datatype Fix = Fix(oldUid: string, newUid: string, path: string)

  /** Two mappings that are not reservations have this uid. */
  predicate SharedUid(rows: seq<Mapping>, uid: string) {
    exists i, j | 0 <= i < j < |rows| :: Uses(rows[i], uid) && Uses(rows[j], uid)
  }

  predicate Uses(row: Mapping, uid: string) {
    row.uid == uid && !row.ns.TMP?
  }

  /** What the duplicates query answers: every shared uid, once. */
  ghost predicate ListsDuplicates(rows: seq<Mapping>, groups: seq<Group>) {
    (forall g | 0 <= g < |groups| :: SharedUid(rows, groups[g].uid)) &&
    (forall uid | SharedUid(rows, uid) :: Listed(groups, uid)) &&
    forall g, h | 0 <= g < h < |groups| :: groups[g].uid != groups[h].uid
  }

  predicate Listed(groups: seq<Group>, uid: string) {
    exists g | 0 <= g < |groups| :: groups[g].uid == uid
  }

  /** The order of the second query: overrides first, then the newest. */
  predicate Precedes(a: Mapping, b: Mapping) {
    if a.ns.OVRD? == b.ns.OVRD? then a.updated > b.updated else a.ns.OVRD?
  }

  predicate Ordered(rows: seq<Mapping>, ids: seq<nat>) {
    (forall i | 0 <= i < |ids| :: ids[i] < |rows|) &&
    (forall i, j | 0 <= i < j < |ids| :: ids[i] != ids[j] && !Precedes(rows[ids[j]], rows[ids[i]]))
  }

  predicate Selects(rows: seq<Mapping>, uid: string, ids: seq<nat>, n: nat) {
    forall r | 0 <= r < n && r < |rows| :: r in ids <==> rows[r].uid == uid
  }

  /** The mapping that keeps its uid: no other one of this uid precedes it. */
  predicate IsKeeper(rows: seq<Mapping>, uid: string, k: nat) {
    k < |rows| && rows[k].uid == uid && forall r | 0 <= r < |rows| && rows[r].uid == uid :: !Precedes(rows[r], rows[k])
  }

  /** New uids are distinct and none of them is in use. */
  predicate Fresh(rows: seq<Mapping>, supply: seq<string>) {
    (forall i, j | 0 <= i < j < |supply| :: supply[i] != supply[j]) &&
    forall i, r | 0 <= i < |supply| && 0 <= r < |rows| :: rows[r].uid != supply[i]
  }

  /** Row r before and after: regenerated at the given time, or untouched. */
  predicate RowAfter(before: Mapping, after: Mapping, changed: bool, now: int) {
    if changed then after == before.(uid := after.uid, updated := now) && !before.ns.OVRD? else after == before
  }

  ghost predicate OnlyChanged(before: seq<Mapping>, after: seq<Mapping>, changed: seq<nat>, now: int) {
    |after| == |before| && forall r | 0 <= r < |before| :: RowAfter(before[r], after[r], r in changed, now)
  }

  /** The entries of `fixed` are the changed rows, in order, with consecutive new uids. */
  predicate Describes(before: seq<Mapping>, after: seq<Mapping>, changed: seq<nat>, fixed: seq<Fix>,
                      supply: seq<string>, start: nat) {
    |fixed| == |changed| && start + |changed| <= |supply| && |after| == |before| &&
    (forall i, j | 0 <= i < j < |changed| :: changed[i] != changed[j]) &&
    forall i | 0 <= i < |changed| ::
      changed[i] < |before| && after[changed[i]].uid == supply[start + i] &&
      fixed[i] == Fix(before[changed[i]].uid, supply[start + i], before[changed[i]].path)
  }

  method InsertOrdered(rows: seq<Mapping>, ids: seq<nat>, r: nat) returns (out: seq<nat>)
    requires Ordered(rows, ids) && r < |rows| && r !in ids
    ensures Ordered(rows, out) && forall q :: q in out <==> q in ids || q == r
  {
    var i := |ids|;
    while i > 0 && Precedes(rows[r], rows[ids[i - 1]])
      invariant 0 <= i <= |ids| && forall j | i <= j < |ids| :: Precedes(rows[r], rows[ids[j]])
    {
      i := i - 1;
    }
    out := ids[..i] + [r] + ids[i..];
    InsertedOrdered(rows, ids, r, i);
    assert ids == ids[..i] + ids[i..];
  }

  lemma InsertedOrdered(rows: seq<Mapping>, ids: seq<nat>, r: nat, i: nat)
    requires Ordered(rows, ids) && r < |rows| && r !in ids && i <= |ids|
    requires forall j | i <= j < |ids| :: Precedes(rows[r], rows[ids[j]])
    requires i > 0 ==> !Precedes(rows[r], rows[ids[i - 1]])
    ensures Ordered(rows, ids[..i] + [r] + ids[i..])
  {
    var out := ids[..i] + [r] + ids[i..];
    forall k | 0 <= k < i ensures !Precedes(rows[r], rows[ids[k]]) {
      assert k < i - 1 ==> !Precedes(rows[ids[i - 1]], rows[ids[k]]);
    }
    forall a, b | 0 <= a < b < |out| ensures out[a] != out[b] && !Precedes(rows[out[b]], rows[out[a]]) {
      var a', b' := if a < i then a else a - 1, if b < i then b else b - 1;
      assert a != i ==> out[a] == ids[a'];
      assert b != i ==> out[b] == ids[b'];
      assert a == i ==> out[b] in ids;
      assert b == i ==> out[a] in ids;
    }
  }

  lemma IdsFit(rows: seq<Mapping>, ids: seq<nat>)
    requires Ordered(rows, ids)
    ensures |ids| <= |rows|
  {
    DistinctCount(ids, |rows|);
  }

  lemma {:induction false} DistinctCount(ids: seq<nat>, n: nat)
    requires forall i | 0 <= i < |ids| :: ids[i] < n
    requires forall i, j | 0 <= i < j < |ids| :: ids[i] != ids[j]
    ensures |ids| <= n
  {
    if ids == [] {
    } else {
      assert ids[0] < n;
      if n - 1 in ids {
        var k :| 0 <= k < |ids| && ids[k] == n - 1;
        DistinctCount(ids[..k] + ids[k + 1..], n - 1);
      } else {
        forall i | 0 <= i < |ids| ensures ids[i] < n - 1 {
          assert ids[i] in ids;
        }
        DistinctCount(ids, n - 1);
      }
    }
  }

  /** Of the given rows, those that are not overrides. */
  function Regenerated(rows: seq<Mapping>, ids: seq<nat>): (r: seq<nat>)
    requires forall i | 0 <= i < |ids| :: ids[i] < |rows|
    ensures forall q :: q in r <==> q in ids && q < |rows| && !rows[q].ns.OVRD?
    ensures |r| <= |ids|
  {
    if ids == [] then []
    else
      var id := ids[|ids| - 1];
      assert ids == ids[..|ids| - 1] + [id];
      Regenerated(rows, ids[..|ids| - 1]) + if rows[id].ns.OVRD? then [] else [id]
  }

  lemma RegenerateOne(before: seq<Mapping>, rows: seq<Mapping>, changed: seq<nat>, fixed: seq<Fix>,
                      supply: seq<string>, start: nat, now: int, id: nat)
    requires OnlyChanged(before, rows, changed, now) && Describes(before, rows, changed, fixed, supply, start)
    requires id < |before| && id !in changed && !before[id].ns.OVRD? && start + |changed| < |supply|
    ensures var after := rows[id := rows[id].(uid := supply[start + |changed|], updated := now)];
            OnlyChanged(before, after, changed + [id], now) &&
            Describes(before, after, changed + [id],
                      fixed + [Fix(before[id].uid, supply[start + |changed|], before[id].path)], supply, start)
  {
    var after := rows[id := rows[id].(uid := supply[start + |changed|], updated := now)];
    forall r | 0 <= r < |before| ensures RowAfter(before[r], after[r], r in changed + [id], now) {
      assert RowAfter(before[r], rows[r], r in changed, now);
    }
    forall i | 0 <= i < |changed| ensures changed[i] != id {
      assert changed[i] in changed;
    }
  }

  class UidTable {
    var rows: seq<Mapping>

    constructor (rows: seq<Mapping>)
      ensures this.rows == rows
    {
      this.rows := rows;
    }

    method SelectByUid(uid: string) returns (ids: seq<nat>)
      ensures Ordered(rows, ids) && Selects(rows, uid, ids, |rows|) && forall r :: r in ids ==> r < |rows|
    {
      ids := [];
      for r := 0 to |rows|
        invariant Ordered(rows, ids) && Selects(rows, uid, ids, r) && forall q :: q in ids ==> q < r
      {
        if rows[r].uid == uid {
          ids := InsertOrdered(rows, ids, r);
        }
      }
    }

    /** Regenerates all but the first mapping of a group; further overrides are left to a human. */
    method ResolveGroup(group: Group, supply: seq<string>, start: nat, now: int)
      returns (fixed: seq<Fix>, manual: seq<Group>, ghost changed: seq<nat>, ghost keeper: nat)
      requires SharedUid(rows, group.uid) && start + |rows| <= |supply|
      modifies this
      ensures OnlyChanged(old(rows), rows, changed, now) && Describes(old(rows), rows, changed, fixed, supply, start)
      ensures |rows| == |old(rows)| && IsKeeper(old(rows), group.uid, keeper)
      ensures forall r | 0 <= r < |rows| ::
                r in changed <==> old(rows)[r].uid == group.uid && r != keeper && !old(rows)[r].ns.OVRD?
      ensures forall g | g in manual :: g == group
      ensures manual != [] <==> SpareOverride(old(rows), group.uid, keeper)
    {
      hide OnlyChanged, Describes, Regenerated, Precedes, SharedUid, SpareOverride, SpareUpTo;
      var ids := SelectByUid(group.uid);
      IdsFit(rows, ids);
      SharedIsSelected(rows, group.uid, ids);
      keeper := ids[0];
      KeeperFirst(rows, group.uid, ids);
      fixed, manual, changed := [], [], [];
      NothingChanged(rows, supply, start, now);
      assert !SpareUpTo(rows, ids, 1) by { NoneSpare(rows, ids); }
      for i := 1 to |ids|
        invariant |rows| == |old(rows)| && forall k | i <= k < |ids| :: rows[ids[k]] == old(rows)[ids[k]]
        invariant OnlyChanged(old(rows), rows, changed, now) &&
                  Describes(old(rows), rows, changed, fixed, supply, start)
        invariant changed == Regenerated(old(rows), ids[1..i]) && |fixed| == |changed| < i
        invariant forall g | g in manual :: g == group
        invariant manual != [] <==> SpareUpTo(old(rows), ids, i)
      {
        var id := ids[i];
        RegeneratedNext(old(rows), ids, i);
        SpareNext(old(rows), ids, i);
        if rows[id].ns.OVRD? {
          manual := manual + [group];
        } else {
          RegenerateOne(old(rows), rows, changed, fixed, supply, start, now, id);
          var newUid := supply[start + |fixed|];
          fixed := fixed + [Fix(group.uid, newUid, rows[id].path)];
          rows := rows[id := rows[id].(uid := newUid, updated := now)];
          changed := changed + [id];
        }
      }
      RegeneratedAll(old(rows), group.uid, ids);
      SpareSelected(old(rows), group.uid, ids);
    }

    /**
     * Goes through the duplicated uids. Of each, the first mapping of the order keeps the uid, other
     * overrides are reported, and the rest get new uids, which are also the replacements for files.
     */
    method AutoResolveDuplicates(groups: seq<Group>, supply: seq<string>, now: int)
      returns (fixed: seq<Fix>, manual: seq<Group>, replacements: map<string, string>, ghost changed: seq<nat>,
               ghost keepers: seq<nat>)
      requires ListsDuplicates(rows, groups) && Fresh(rows, supply) && 2 * |rows| <= |supply|
      modifies this
      ensures OnlyChanged(old(rows), rows, changed, now) && Describes(old(rows), rows, changed, fixed, supply, 0)
      ensures Settled(old(rows), groups, |groups|, changed, keepers, manual)
      ensures replacements == ReplacementsOf(fixed)
    {
      hide OnlyChanged, Describes, ListsDuplicates, Fresh, Settled;
      fixed, manual, replacements, changed, keepers := [], [], map[], [], [];
      NothingChanged(rows, supply, 0, now);
      NothingSettled(rows, groups);
      for g := 0 to |groups|
        invariant |rows| == |old(rows)|
        invariant OnlyChanged(old(rows), rows, changed, now) && Describes(old(rows), rows, changed, fixed, supply, 0)
        invariant Settled(old(rows), groups, g, changed, keepers, manual)
        invariant replacements == ReplacementsOf(fixed)
      {
        StillShared(old(rows), rows, groups, g, changed, keepers, manual, fixed, supply, now);
        ghost var before := rows;
        var fixes, reports;
        ghost var regenerated, keeper;
        fixes, reports, regenerated, keeper := ResolveGroup(groups[g], supply, |fixed|, now);
        GroupSettled(old(rows), before, rows, groups, g, changed, keepers, manual, fixed, supply, now,
                     fixes, reports, regenerated, keeper);
        manual := manual + reports;
        ghost var listed := fixed;
        fixed := fixed + fixes;
        changed := changed + regenerated;
        keepers := keepers + [keeper];
        assert listed + fixes[..0] == listed;
        for i := 0 to |fixes|
          invariant replacements == ReplacementsOf(listed + fixes[..i])
        {
          assert (listed + fixes[..i + 1])[..|listed| + i] == listed + fixes[..i];
          replacements := replacements[fixes[i].oldUid := fixes[i].newUid];
        }
        assert fixes[..|fixes|] == fixes;
      }
    }
  }

  /** Old uid to new uid; the last regenerated mapping of a uid counts. */
  function ReplacementsOf(fixed: seq<Fix>): map<string, string> {
    if fixed == [] then map[]
    else ReplacementsOf(fixed[..|fixed| - 1])[fixed[|fixed| - 1].oldUid := fixed[|fixed| - 1].newUid]
  }

  /** Row r is to get a new uid: it is of the group, not the one that keeps it, and no override. */
  predicate Loses(rows: seq<Mapping>, groups: seq<Group>, keepers: seq<nat>, r: nat, h: nat) {
    h < |groups| && h < |keepers| && r < |rows| && rows[r].uid == groups[h].uid && r != keepers[h] && !rows[r].ns.OVRD?
  }

  /** Another override has the uid, beside the one that keeps it. */
  predicate SpareOverride(rows: seq<Mapping>, uid: string, keeper: nat) {
    exists r | 0 <= r < |rows| :: r != keeper && rows[r].uid == uid && rows[r].ns.OVRD?
  }

  predicate Reported(rows: seq<Mapping>, group: Group, keeper: nat, manual: seq<Group>) {
    group in manual <==> SpareOverride(rows, group.uid, keeper)
  }

  /** The first n groups are dealt with: who keeps, who changed, what was reported. */
  ghost predicate Settled(rows: seq<Mapping>, groups: seq<Group>, n: nat, changed: seq<nat>, keepers: seq<nat>,
                          manual: seq<Group>) {
    n <= |groups| && |keepers| == n &&
    (forall h | 0 <= h < n ::
       IsKeeper(rows, groups[h].uid, keepers[h]) && Reported(rows, groups[h], keepers[h], manual)) &&
    (forall r: nat :: r in changed <==> exists h: nat :: Loses(rows, groups, keepers, r, h)) &&
    forall m | m in manual :: m in groups[..n]
  }

  lemma NothingSettled(rows: seq<Mapping>, groups: seq<Group>)
    ensures Settled(rows, groups, 0, [], [], [])
  {
  }

  /** The rows of a group still to come are as they were at the start. */
  lemma GroupUntouched(orig: seq<Mapping>, rows: seq<Mapping>, groups: seq<Group>, g: nat, changed: seq<nat>,
                       keepers: seq<nat>, manual: seq<Group>, fixed: seq<Fix>, supply: seq<string>, now: int)
    requires ListsDuplicates(orig, groups) && Fresh(orig, supply) && g < |groups|
    requires OnlyChanged(orig, rows, changed, now) && Describes(orig, rows, changed, fixed, supply, 0)
    requires Settled(orig, groups, g, changed, keepers, manual)
    ensures |rows| == |orig|
    ensures forall r | 0 <= r < |rows| && (orig[r].uid == groups[g].uid || rows[r].uid == groups[g].uid) ::
              rows[r] == orig[r] && r !in changed
  {
    SharedIsOld(orig, groups, g);
    forall r: nat | r in changed
      ensures r < |orig| && orig[r].uid != groups[g].uid && rows[r].uid != groups[g].uid
    {
      var h: nat :| Loses(orig, groups, keepers, r, h);
      var i :| 0 <= i < |changed| && changed[i] == r;
      assert rows[changed[i]].uid == supply[0 + i];
    }
    forall r | 0 <= r < |rows| ensures RowAfter(orig[r], rows[r], r in changed, now) {
    }
  }

  lemma SharedIsOld(orig: seq<Mapping>, groups: seq<Group>, g: nat)
    requires ListsDuplicates(orig, groups) && g < |groups|
    ensures exists r | 0 <= r < |orig| :: orig[r].uid == groups[g].uid
  {
    assert SharedUid(orig, groups[g].uid);
  }

  lemma StillShared(orig: seq<Mapping>, rows: seq<Mapping>, groups: seq<Group>, g: nat, changed: seq<nat>,
                    keepers: seq<nat>, manual: seq<Group>, fixed: seq<Fix>, supply: seq<string>, now: int)
    requires ListsDuplicates(orig, groups) && Fresh(orig, supply) && g < |groups| && 2 * |orig| <= |supply|
    requires OnlyChanged(orig, rows, changed, now) && Describes(orig, rows, changed, fixed, supply, 0)
    requires Settled(orig, groups, g, changed, keepers, manual)
    ensures SharedUid(rows, groups[g].uid) && |fixed| + |rows| <= |supply|
  {
    GroupUntouched(orig, rows, groups, g, changed, keepers, manual, fixed, supply, now);
    DistinctCount(changed, |orig|);
    assert SharedUid(orig, groups[g].uid);
    var i, j :| 0 <= i < j < |orig| && Uses(orig[i], groups[g].uid) && Uses(orig[j], groups[g].uid);
    assert Uses(rows[i], groups[g].uid) && Uses(rows[j], groups[g].uid);
  }

  /** What resolving one group does to the whole: the rows, the list of fixes, and who keeps what. */
  lemma GroupSettled(orig: seq<Mapping>, before: seq<Mapping>, rows: seq<Mapping>, groups: seq<Group>, g: nat,
                     changed: seq<nat>, keepers: seq<nat>, manual: seq<Group>, fixed: seq<Fix>, supply: seq<string>,
                     now: int, fixes: seq<Fix>, reports: seq<Group>, regenerated: seq<nat>, keeper: nat)
    requires ListsDuplicates(orig, groups) && Fresh(orig, supply) && g < |groups|
    requires OnlyChanged(orig, before, changed, now) && Describes(orig, before, changed, fixed, supply, 0)
    requires Settled(orig, groups, g, changed, keepers, manual)
    requires OnlyChanged(before, rows, regenerated, now) && Describes(before, rows, regenerated, fixes, supply, |fixed|)
    requires IsKeeper(before, groups[g].uid, keeper)
    requires forall r | 0 <= r < |before| ::
               r in regenerated <==> before[r].uid == groups[g].uid && r != keeper && !before[r].ns.OVRD?
    requires forall m | m in reports :: m == groups[g]
    requires reports != [] <==> SpareOverride(before, groups[g].uid, keeper)
    ensures OnlyChanged(orig, rows, changed + regenerated, now)
    ensures Describes(orig, rows, changed + regenerated, fixed + fixes, supply, 0)
    ensures Settled(orig, groups, g + 1, changed + regenerated, keepers + [keeper], manual + reports)
  {
    GroupUntouched(orig, before, groups, g, changed, keepers, manual, fixed, supply, now);
    RowsSettled(orig, before, rows, changed, regenerated, groups[g].uid, now);
    FixesJoined(orig, before, rows, changed, fixed, supply, fixes, regenerated);
    KeepersJoined(orig, before, groups, g, changed, keepers, manual, reports, regenerated, keeper);
  }

  lemma RowsSettled(orig: seq<Mapping>, before: seq<Mapping>, rows: seq<Mapping>, changed: seq<nat>,
                    regenerated: seq<nat>, uid: string, now: int)
    requires OnlyChanged(orig, before, changed, now) && OnlyChanged(before, rows, regenerated, now)
    requires forall r | 0 <= r < |before| && r in regenerated :: before[r] == orig[r] && r !in changed
    ensures OnlyChanged(orig, rows, changed + regenerated, now)
  {
    forall r | 0 <= r < |orig| ensures RowAfter(orig[r], rows[r], r in changed + regenerated, now) {
      assert RowAfter(orig[r], before[r], r in changed, now) && RowAfter(before[r], rows[r], r in regenerated, now);
    }
  }

  lemma FixesJoined(orig: seq<Mapping>, before: seq<Mapping>, rows: seq<Mapping>, changed: seq<nat>, fixed: seq<Fix>,
                    supply: seq<string>, fixes: seq<Fix>, regenerated: seq<nat>)
    requires Describes(orig, before, changed, fixed, supply, 0) &&
             Describes(before, rows, regenerated, fixes, supply, |fixed|)
    requires forall r | 0 <= r < |before| && r in regenerated :: before[r] == orig[r] && r !in changed
    requires forall r | 0 <= r < |before| && r !in regenerated :: rows[r] == before[r]
    ensures Describes(orig, rows, changed + regenerated, fixed + fixes, supply, 0)
  {
    var all := changed + regenerated;
    forall i | 0 <= i < |regenerated| ensures regenerated[i] in regenerated {
    }
    forall i | 0 <= i < |changed| ensures changed[i] !in regenerated {
      assert changed[i] in changed;
    }
    forall i | 0 <= i < |all|
      ensures all[i] < |orig| && rows[all[i]].uid == supply[0 + i] &&
              (fixed + fixes)[i] == Fix(orig[all[i]].uid, supply[0 + i], orig[all[i]].path)
    {
      if i >= |changed| {
        assert all[i] == regenerated[i - |changed|];
      } else {
        assert before[changed[i]].uid == supply[0 + i];
      }
    }
  }

  lemma KeepersJoined(orig: seq<Mapping>, before: seq<Mapping>, groups: seq<Group>, g: nat, changed: seq<nat>,
                      keepers: seq<nat>, manual: seq<Group>, reports: seq<Group>, regenerated: seq<nat>, keeper: nat)
    requires g < |groups| && |before| == |orig| && Settled(orig, groups, g, changed, keepers, manual)
    requires forall h | 0 <= h < g :: groups[h].uid != groups[g].uid
    requires forall r | 0 <= r < |orig| && (orig[r].uid == groups[g].uid || before[r].uid == groups[g].uid) ::
               before[r] == orig[r]
    requires IsKeeper(before, groups[g].uid, keeper)
    requires forall r: nat :: r in regenerated ==> r < |before|
    requires forall r | 0 <= r < |before| ::
               r in regenerated <==> before[r].uid == groups[g].uid && r != keeper && !before[r].ns.OVRD?
    requires forall m | m in reports :: m == groups[g]
    requires reports != [] <==> SpareOverride(before, groups[g].uid, keeper)
    ensures Settled(orig, groups, g + 1, changed + regenerated, keepers + [keeper], manual + reports)
  {
    var keepers' := keepers + [keeper];
    assert IsKeeper(orig, groups[g].uid, keeper);
    assert reports != [] ==> reports[0] in reports && reports[0] == groups[g];
    assert Reported(orig, groups[g], keeper, manual + reports);
    forall h | 0 <= h < g ensures Reported(orig, groups[h], keepers[h], manual + reports) {
      assert Reported(orig, groups[h], keepers[h], manual);
      assert groups[h].uid != groups[g].uid;
    }
    forall r: nat ensures r in changed + regenerated <==> exists h: nat :: Loses(orig, groups, keepers', r, h) {
      if r in changed {
        var h: nat :| Loses(orig, groups, keepers, r, h);
        assert Loses(orig, groups, keepers', r, h);
      }
      if r in regenerated {
        assert Loses(orig, groups, keepers', r, g);
      }
      if h: nat :| Loses(orig, groups, keepers', r, h) {
        if h < g {
          assert Loses(orig, groups, keepers, r, h);
        }
      }
    }
    assert groups[..g + 1] == groups[..g] + [groups[g]];
  }

  lemma SharedIsSelected(rows: seq<Mapping>, uid: string, ids: seq<nat>)
    requires SharedUid(rows, uid) && Selects(rows, uid, ids, |rows|)
    ensures |ids| >= 2
  {
    var i, j :| 0 <= i < j < |rows| && Uses(rows[i], uid) && Uses(rows[j], uid);
    assert i in ids && j in ids;
    var a, b :| 0 <= a < |ids| && 0 <= b < |ids| && ids[a] == i && ids[b] == j;
  }

  lemma KeeperFirst(rows: seq<Mapping>, uid: string, ids: seq<nat>)
    requires Ordered(rows, ids) && Selects(rows, uid, ids, |rows|) && ids != []
    ensures IsKeeper(rows, uid, ids[0])
  {
    assert ids[0] in ids;
    forall r | 0 <= r < |rows| && rows[r].uid == uid ensures !Precedes(rows[r], rows[ids[0]]) {
      assert r in ids;
    }
  }

  predicate SpareUpTo(rows: seq<Mapping>, ids: seq<nat>, n: nat) {
    exists k | 1 <= k < n && k < |ids| :: ids[k] < |rows| && rows[ids[k]].ns.OVRD?
  }

  lemma NoneSpare(rows: seq<Mapping>, ids: seq<nat>)
    ensures !SpareUpTo(rows, ids, 1)
  {
  }

  lemma SpareNext(rows: seq<Mapping>, ids: seq<nat>, i: nat)
    requires 1 <= i < |ids| && ids[i] < |rows|
    ensures SpareUpTo(rows, ids, i + 1) <==> SpareUpTo(rows, ids, i) || rows[ids[i]].ns.OVRD?
  {
  }

  /** Another override is one of the selected rows after the first. */
  lemma SpareSelected(rows: seq<Mapping>, uid: string, ids: seq<nat>)
    requires Ordered(rows, ids) && Selects(rows, uid, ids, |rows|) && ids != []
    ensures SpareOverride(rows, uid, ids[0]) <==> SpareUpTo(rows, ids, |ids|)
  {
    hide Precedes;
    if SpareOverride(rows, uid, ids[0]) {
      var r :| 0 <= r < |rows| && r != ids[0] && rows[r].uid == uid && rows[r].ns.OVRD?;
      assert r in ids;
      var k :| 0 <= k < |ids| && ids[k] == r;
      assert k >= 1;
    }
    if k :| 1 <= k < |ids| && ids[k] < |rows| && rows[ids[k]].ns.OVRD? {
      assert ids[k] in ids && ids[k] != ids[0];
    }
  }

  lemma NothingChanged(rows: seq<Mapping>, supply: seq<string>, start: nat, now: int)
    requires start <= |supply|
    ensures OnlyChanged(rows, rows, [], now) && Describes(rows, rows, [], [], supply, start) &&
            Regenerated(rows, []) == []
  {
  }

  lemma RegeneratedNext(rows: seq<Mapping>, ids: seq<nat>, i: nat)
    requires Ordered(rows, ids) && 1 <= i < |ids|
    ensures Regenerated(rows, ids[1..i + 1]) ==
              Regenerated(rows, ids[1..i]) + if rows[ids[i]].ns.OVRD? then [] else [ids[i]]
    ensures ids[i] !in Regenerated(rows, ids[1..i])
  {
    assert ids[1..i + 1][..i - 1] == ids[1..i];
    forall k | 0 <= k < i - 1 ensures ids[1..i][k] != ids[i] {
      assert ids[1..i][k] == ids[k + 1];
    }
  }

  lemma RegeneratedAll(rows: seq<Mapping>, uid: string, ids: seq<nat>)
    requires Ordered(rows, ids) && Selects(rows, uid, ids, |rows|) && ids != [] && forall r :: r in ids ==> r < |rows|
    ensures forall r | 0 <= r < |rows| ::
              r in Regenerated(rows, ids[1..|ids|]) <==> rows[r].uid == uid && r != ids[0] && !rows[r].ns.OVRD?
    ensures forall r | 0 <= r < |rows| && r != ids[0] && rows[r].uid == uid :: exists k | 1 <= k < |ids| :: ids[k] == r
  {
    hide Regenerated;
    TailSelects(rows, uid, ids);
    assert ids[1..|ids|] == ids[1..];
    forall r | 0 <= r < |rows| && r != ids[0] && rows[r].uid == uid ensures exists k | 1 <= k < |ids| :: ids[k] == r {
      var k :| 0 <= k < |ids[1..]| && ids[1..][k] == r;
      assert ids[k + 1] == r;
    }
  }

  lemma TailSelects(rows: seq<Mapping>, uid: string, ids: seq<nat>)
    requires Ordered(rows, ids) && Selects(rows, uid, ids, |rows|) && ids != []
    ensures forall r | 0 <= r < |rows| :: r in ids[1..] <==> rows[r].uid == uid && r != ids[0]
  {
    hide Precedes;
    var rest := ids[1..];
    forall r | 0 <= r < |rows| ensures r in rest <==> r in ids && r != ids[0] {
      assert ids == [ids[0]] + rest;
      forall k | 0 <= k < |rest| ensures rest[k] != ids[0] {
        assert rest[k] == ids[k + 1];
      }
    }
  }
}
