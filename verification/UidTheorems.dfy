/** What resolving duplicates achieves, and what it does to the project files. */
module UidTheorems {
  import opened UidDuplicates
  import opened UidRewrites

  /** A run over all duplicated uids: the tables, the query's answer, the new uids, and what was reported. */
  datatype Resolution = Resolution(
    before: seq<Mapping>, after: seq<Mapping>, groups: seq<Group>, supply: seq<string>, now: int,
    fixed: seq<Fix>, manual: seq<Group>, changed: seq<nat>, keepers: seq<nat>)

  /** What AutoResolveDuplicates is called with and ensures. */
  ghost predicate Resolved(x: Resolution) {
    ListsDuplicates(x.before, x.groups) && Fresh(x.before, x.supply) &&
    OnlyChanged(x.before, x.after, x.changed, x.now) &&
    Describes(x.before, x.after, x.changed, x.fixed, x.supply, 0) &&
    Settled(x.before, x.groups, |x.groups|, x.changed, x.keepers, x.manual)
  }

  lemma NewUidIsFresh(x: Resolution, r: nat) returns (i: nat)
    requires Resolved(x) && r in x.changed
    ensures i < |x.changed| && x.changed[i] == r && i < |x.supply|
    ensures r < |x.after| == |x.before| && x.after[r].uid == x.supply[i]
  {
    i :| 0 <= i < |x.changed| && x.changed[i] == r;
    assert x.after[x.changed[i]].uid == x.supply[0 + i];
  }

  /**
   * The list of fixes holds exactly the mappings whose uid changed, each with its old and new uid;
   * path and namespace never change.
   */
  lemma FixedExactly(x: Resolution, r: nat)
    requires Resolved(x) && r < |x.before|
    ensures |x.after| == |x.before| && x.after[r].path == x.before[r].path && x.after[r].ns == x.before[r].ns
    ensures x.after[r].uid != x.before[r].uid <==> r in x.changed
    ensures r in x.changed ==> Fix(x.before[r].uid, x.after[r].uid, x.before[r].path) in x.fixed
    ensures forall f | f in x.fixed :: exists q: nat :: q in x.changed && q < |x.before| && f == FixOf(x, q)
  {
    assert RowAfter(x.before[r], x.after[r], r in x.changed, x.now);
    if r in x.changed {
      var i := NewUidIsFresh(x, r);
      assert x.fixed[i] == Fix(x.before[x.changed[i]].uid, x.supply[0 + i], x.before[x.changed[i]].path);
      assert x.fixed[i] in x.fixed;
    }
    forall f | f in x.fixed ensures exists q: nat :: q in x.changed && q < |x.before| && f == FixOf(x, q) {
      var i :| 0 <= i < |x.fixed| && x.fixed[i] == f;
      assert x.after[x.changed[i]].uid == x.supply[0 + i];
      assert x.changed[i] in x.changed && f == FixOf(x, x.changed[i]);
    }
  }

  /** A mapping only gets a new uid if two mappings that are no reservations had its uid. */
  lemma ChangedIsShared(x: Resolution, r: nat)
    requires Resolved(x) && r < |x.before| && r < |x.after| && x.after[r].uid != x.before[r].uid
    ensures exists i, j | 0 <= i < j < |x.before| ::
              x.before[i].uid == x.before[j].uid == x.before[r].uid && !x.before[i].ns.TMP? && !x.before[j].ns.TMP?
  {
    assert RowAfter(x.before[r], x.after[r], r in x.changed, x.now);
    hide RowAfter, IsKeeper, Describes;
    var h: nat :| Loses(x.before, x.groups, x.keepers, r, h);
    assert SharedUid(x.before, x.groups[h].uid);
    var i, j :| 0 <= i < j < |x.before| && Uses(x.before[i], x.groups[h].uid) && Uses(x.before[j], x.groups[h].uid);
    assert x.before[i].uid == x.before[j].uid == x.before[r].uid;
  }

  function FixOf(x: Resolution, q: nat): Fix
    requires q < |x.before| && q < |x.after|
  {
    Fix(x.before[q].uid, x.after[q].uid, x.before[q].path)
  }

  /** A uid that two mappings still share was shared before, by the same mappings. */
  lemma StillSharedUnchanged(x: Resolution, i: nat, j: nat)
    requires Resolved(x) && i < |x.after| && j < |x.after| && i != j && x.after[i].uid == x.after[j].uid
    ensures i !in x.changed
  {
    if i in x.changed {
      var a := NewUidIsFresh(x, i);
      assert RowAfter(x.before[j], x.after[j], j in x.changed, x.now);
      if j in x.changed {
        var b := NewUidIsFresh(x, j);
      }
      assert false;
    }
  }

  /**
   * After a run, a uid that two mappings other than reservations share is shared by overrides only,
   * and is reported for manual resolution.
   */
  lemma SharedOnlyByOverrides(x: Resolution, i: nat, j: nat, uid: string)
    requires Resolved(x) && i < j < |x.after| && Uses(x.after[i], uid) && Uses(x.after[j], uid)
    ensures x.after[i].ns.OVRD? && x.after[j].ns.OVRD? && exists m :: m in x.manual && m.uid == uid
  {
    StillSharedUnchanged(x, i, j);
    StillSharedUnchanged(x, j, i);
    var (before, groups, keepers) := (x.before, x.groups, x.keepers);
    assert RowAfter(before[i], x.after[i], false, x.now) && RowAfter(before[j], x.after[j], false, x.now);
    assert SharedUid(before, uid) by {
      assert Uses(before[i], uid) && Uses(before[j], uid);
    }
    var h :| 0 <= h < |groups| && groups[h].uid == uid;
    var k := keepers[h];
    assert IsKeeper(before, uid, k) && Reported(before, groups[h], k, x.manual);
    assert Loses(before, groups, keepers, i, h) ==> i in x.changed;
    assert Loses(before, groups, keepers, j, h) ==> j in x.changed;
    var other := if i == k then j else i;
    assert before[other].ns.OVRD?;
    assert !Precedes(before[other], before[k]);
    assert groups[h] in x.manual;
  }

  /** One mapping of each duplicated uid is left as it was: an override if there is one, else the newest. */
  lemma KeeperUnchanged(x: Resolution, h: nat)
    requires Resolved(x) && h < |x.groups|
    ensures IsKeeper(x.before, x.groups[h].uid, x.keepers[h])
    ensures x.keepers[h] < |x.after| && x.after[x.keepers[h]] == x.before[x.keepers[h]]
    ensures var (rows, uid, k) := (x.before, x.groups[h].uid, x.keepers[h]);
            (rows[k].ns.OVRD? <==> exists r | 0 <= r < |rows| :: rows[r].uid == uid && rows[r].ns.OVRD?) &&
            forall r | 0 <= r < |rows| && rows[r].uid == uid && rows[r].ns.OVRD? == rows[k].ns.OVRD? ::
              rows[r].updated <= rows[k].updated
  {
    var k := x.keepers[h];
    assert IsKeeper(x.before, x.groups[h].uid, k);
    forall g: nat ensures !Loses(x.before, x.groups, x.keepers, k, g) {
      if g < |x.groups| && g != h {
        assert x.groups[g].uid != x.groups[h].uid;
      }
    }
    assert RowAfter(x.before[k], x.after[k], k in x.changed, x.now);
  }

  // ---- The project files ----

  /** The keys of the replacements are the old uids of the fixes, and every value is the new uid of a fix. */
  lemma {:induction false} ReplacementsCover(fixed: seq<Fix>)
    ensures forall u :: u in ReplacementsOf(fixed) <==> exists f :: f in fixed && f.oldUid == u
    ensures forall u | u in ReplacementsOf(fixed) :: exists f :: f in fixed && ReplacementsOf(fixed)[u] == f.newUid
  {
    if fixed != [] {
      var n := |fixed| - 1;
      ReplacementsCover(fixed[..n]);
      assert fixed == fixed[..n] + [fixed[n]];
      assert fixed[n] in fixed;
      forall u | u in ReplacementsOf(fixed) && u != fixed[n].oldUid
        ensures exists f :: f in fixed && ReplacementsOf(fixed)[u] == f.newUid
      {
        var f :| f in fixed[..n] && ReplacementsOf(fixed[..n])[u] == f.newUid;
        assert f in fixed;
      }
    }
  }

  /** A token that no entry produces is in the mapped text if it was there and is no key. */
  lemma {:induction false} MappedHas(m: map<string, string>, pieces: seq<Piece>, u: string)
    requires forall t | t in m :: m[t] != u && m[t] != ""
    ensures Token(u) in Mapped(m, pieces) <==> Token(u) in pieces && u !in m
  {
    if pieces != [] {
      MappedHas(m, pieces[1..], u);
      var head := if pieces[0].Token? then Token(Next(m, pieces[0].text)) else pieces[0];
      assert Mapped(m, pieces) == [head] + Mapped(m, pieces[1..]) && pieces == [pieces[0]] + pieces[1..];
      assert head == Token(u) <==> pieces[0] == Token(u) && u !in m;
    }
  }

  lemma FixIsFresh(x: Resolution, f: Fix)
    requires Resolved(x) && f in x.fixed
    ensures f.newUid in x.supply
  {
    var a :| 0 <= a < |x.fixed| && x.fixed[a] == f;
    assert x.fixed[a] == Fix(x.before[x.changed[a]].uid, x.supply[0 + a], x.before[x.changed[a]].path);
  }

  lemma ReplacementsAreNew(x: Resolution)
    requires Resolved(x) && forall t | t in x.supply :: IsToken(t)
    ensures forall u | u in ReplacementsOf(x.fixed) ::
              ReplacementsOf(x.fixed)[u] in x.supply && ReplacementsOf(x.fixed)[u] != ""
    ensures TokenValues(ReplacementsOf(x.fixed))
  {
    var m := ReplacementsOf(x.fixed);
    ReplacementsCover(x.fixed);
    forall u | u in m ensures m[u] in x.supply && IsToken(m[u]) {
      var f :| f in x.fixed && m[u] == f.newUid;
      FixIsFresh(x, f);
    }
  }

  /** The mapping that keeps the uid of the group has it after the run, unchanged in every field. */
  predicate KeptInTable(x: Resolution, h: nat, u: string)
    requires h < |x.keepers|
  {
    var k := x.keepers[h];
    k < |x.after| && k < |x.before| && x.after[k] == x.before[k] && x.after[k].uid == u
  }

  /**
   * Which uids stay in the files: one that is not new stays where it was exactly if no mapping lost it. The
   * mapping that keeps a duplicated uid keeps it in the table, but if any other mapping got a new uid, the
   * files that meant the keeper now name the other one.
   */
  lemma UidStaysExactly(x: Resolution, u: string, text: string)
    requires Resolved(x) && (forall t | t in x.supply :: IsToken(t)) && u !in x.supply
    ensures Token(u) in Scan(Rewrite(ReplacementsOf(x.fixed), text)) <==>
              Token(u) in Scan(text) && forall f | f in x.fixed :: f.oldUid != u
    ensures forall h | 0 <= h < |x.groups| && x.groups[h].uid == u ::
              KeptInTable(x, h, u)
  {
    hide Rewrite, Scan, Mapped, IsToken;
    var m := ReplacementsOf(x.fixed);
    ReplacementsAreNew(x);
    ReplacementsCover(x.fixed);
    RewriteIsMap(m, text);
    MappedHas(m, Scan(text), u);
    forall h | 0 <= h < |x.groups| && x.groups[h].uid == u
      ensures KeptInTable(x, h, u)
    {
      KeeperUnchanged(x, h);
    }
  }

  /** Two generated mappings share u; the newer one keeps it, the older one gets v. */
  function TwoRows(u: string, v: string): Resolution {
    var newer, older := Mapping("res://a.tscn", u, GEN, 2), Mapping("res://b.tscn", u, GEN, 1);
    Resolution([newer, older], [newer, older.(uid := v, updated := 3)],
               [Group(u, ["res://a.tscn", "res://b.tscn"])], [v], 3, [Fix(u, v, "res://b.tscn")], [], [1], [0])
  }

  /** In that run every file that named the keeper by u names the other mapping afterwards. */
  lemma KeptUidLeavesFiles(u: string, v: string)
    requires IsToken(u) && IsToken(v) && u != v
    ensures var x := TwoRows(u, v);
            Resolved(x) && x.after[0] == x.before[0] && x.after[0].uid == u && x.after[1].uid == v &&
            Scan(u) == [Token(u)] && Rewrite(ReplacementsOf(x.fixed), u) == v
  {
    TwoRowsResolved(u, v);
    var m := ReplacementsOf(TwoRows(u, v).fixed);
    var f := TwoRows(u, v).fixed;
    assert f[..0] == [] && ReplacementsOf([]) == map[];
    assert f[0].oldUid == u && f[0].newUid == v && m == map[u := v];
    TokenSurvives(m, u, "");
    hide IsToken, TokenLength;
    assert u + "" == u && u[..|u|] == u && u[|u|..] == "";
    RewriteToken(m, u);
    NothingToRewrite(m);
    hide Rewrite;
    assert v + "" == v;
    NotEmpty(v);
    assert Scan("") == [];
  }

  lemma NotEmpty(t: string)
    requires IsToken(t)
    ensures t != ""
  {
  }

  lemma TwoRowsResolved(u: string, v: string)
    requires u != v
    ensures Resolved(TwoRows(u, v))
  {
    var x := TwoRows(u, v);
    assert Uses(x.before[0], u) && Uses(x.before[1], u);
    assert SharedUid(x.before, u) && x.groups[0].uid == u && Listed(x.groups, u);
    assert IsKeeper(x.before, u, 0) && Loses(x.before, x.groups, x.keepers, 1, 0);
    assert Settled(x.before, x.groups, 1, x.changed, x.keepers, x.manual);
  }
}
