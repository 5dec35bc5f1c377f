/** Recovery at start-up: which interrupted commits it finishes. */
module CommitRecoveries {
  import opened Wrappers
  import opened Archives
  import opened CommitModel
  import opened CommitTheorems

  /** The request as the marker holds it. */
  function Saved(r: Request): Request {
    r.(nonce := NonceOf(r))
  }

  lemma SavedIsSame(r: Request)
    ensures NonceOf(Saved(r)) == NonceOf(r) && SidecarOf(Saved(r)) == SidecarOf(r) && BackupOf(Saved(r)) == BackupOf(r)
    ensures Apart(r) ==> Apart(Saved(r))
  {
    assert NonceOf(r) != "";
    hide Parent;
  }

  /** The name of a listed directory that holds the source. */
  predicate Nests(r: Request, name: string) {
    IsStagingName(name) && Parent(r.source) == "/tmp/" + name
  }

  /** The marker lies beside the source, so recovery meets it only for a source inside such a directory. */
  lemma MarkerOfNested(r: Request, name: string)
    ensures MarkerIn(name) == SidecarOf(r) <==> Parent(r.source) == "/tmp/" + name
  {
    hide Parent;
    var tail := "/.pgos-pending-commit";
    var a, b := Parent(r.source), "/tmp/" + name;
    if a + tail == b + tail {
      assert a == (a + tail)[..|a|] && b == (b + tail)[..|b|];
    }
  }

  /** The staged tree and its marker are on the disk, and no other commit is pending in the listed directories. */
  ghost predicate Interrupted(d: Disk, r: Request, read: map<Tree, Request>, names: seq<string>) {
    r.source in d.files &&
    SidecarOf(r) in d.files && d.files[SidecarOf(r)] in read && read[d.files[SidecarOf(r)]] == Saved(r) &&
    NoOthers(d, r, read, names)
  }

  ghost predicate NoOthers(d: Disk, r: Request, read: map<Tree, Request>, names: seq<string>) {
    forall name | name in names ::
      MarkerIn(name) !in {r.source, r.target, BackupOf(r)} &&
      (MarkerIn(name) != SidecarOf(r) ==> Pending(d, read, name).None?)
  }

  predicate Undisturbed(answers: seq<Answer>) {
    forall i | 0 <= i < |answers| :: answers[i].fencingOk && NoFaults(answers[i].faults)
  }

  /** The commit is done, its marker is gone, and the other markers are as they were. */
  ghost predicate Finished(d: Disk, s: AgentState, r: Request) {
    r.source in d.files && Has(s.disk, r.target, d.files[r.source]) && r.source !in s.disk.files &&
    SidecarOf(r) !in s.disk.files && NonceOf(r) in s.nonces &&
    forall p | p !in {r.source, r.target, BackupOf(r), SidecarOf(r)} :: SameAt(d, s.disk, p)
  }

  lemma TreesOfFinished(d: Disk, after: map<Path, Tree>, r: Request, f: Faults)
    requires Apart(r) && r.source in d.files
    requires after == (AsideFiles(d, r, f) - {r.source, SidecarOf(r)})[r.target := d.files[r.source]]
    ensures r.target in after && after[r.target] == d.files[r.source] && r.source !in after && SidecarOf(r) !in after
    ensures forall p | p !in {r.source, r.target, BackupOf(r), SidecarOf(r)} ::
              (p in after <==> p in d.files) && (p in after ==> after[p] == d.files[p])
  {
    hide SidecarOf, BackupOf;
  }

  lemma MarkerIsRead(d: Disk, r: Request, read: map<Tree, Request>, names: seq<string>, name: string)
    requires Interrupted(d, r, read, names) && Nests(r, name)
    ensures Pending(d, read, name) == Some(Saved(r))
  {
    MarkerOfNested(r, name);
    hide MarkerIn, SidecarOf;
  }

  lemma CommitFinishes(d: Disk, nonces: set<string>, r: Request, read: map<Tree, Request>, names: seq<string>,
                       name: string, a: Answer)
    requires Apart(r) && Interrupted(d, r, read, names) && NonceOf(r) !in nonces && Nests(r, name)
    requires a.fencingOk && NoFaults(a.faults)
    ensures Finished(d, RecoverOne(AgentState(d, nonces), read, name, a), r)
  {
    SavedIsSame(r);
    MarkerIsRead(d, r, read, names, name);
    FinishedRun(d, nonces, Saved(r), a.faults);
    var after := Last(d, CommitRun(d, nonces, Saved(r), true, a.faults));
    hide CommitRun, Last, BackupOf, SidecarOf, NonceOf, Apart, Parent, Pending, Interrupted, Nests, AsideFiles,
      NoFaults;
    TreesOfFinished(d, after.files, Saved(r), a.faults);
    assert RecoverOne(AgentState(d, nonces), read, name, a) == AgentState(after, nonces + {NonceOf(r)});
  }

  lemma NothingMore(d: Disk, s: AgentState, r: Request, read: map<Tree, Request>, names: seq<string>,
                    name: string, a: Answer)
    requires Finished(d, s, r) && NoOthers(d, r, read, names) && name in names
    ensures RecoverOne(s, read, name, a) == s
  {
    hide CommitRun, BackupOf, SidecarOf, NonceOf, MarkerIn;
    assert MarkerIn(name) == SidecarOf(r) || SameAt(d, s.disk, MarkerIn(name));
  }

  lemma NothingFound(d: Disk, nonces: set<string>, r: Request, read: map<Tree, Request>, names: seq<string>,
                     name: string, a: Answer)
    requires NoOthers(d, r, read, names) && name in names && !Nests(r, name)
    ensures RecoverOne(AgentState(d, nonces), read, name, a) == AgentState(d, nonces)
  {
    MarkerOfNested(r, name);
  }

  predicate NestedIn(r: Request, names: seq<string>) {
    exists name | name in names :: Nests(r, name)
  }

  /**
   * Recovery finishes the interrupted commit exactly if the source lies inside one of the listed staging
   * directories of /tmp; otherwise it changes nothing.
   */
  lemma {:induction false} RecoveryFinishesExactly(
    d: Disk, nonces: set<string>, r: Request, read: map<Tree, Request>, names: seq<string>, answers: seq<Answer>)
    requires Apart(r) && Interrupted(d, r, read, names) && NonceOf(r) !in nonces
    requires |answers| == |names| && Undisturbed(answers)
    ensures var after := Recovered(AgentState(d, nonces), read, names, answers);
            if NestedIn(r, names) then Finished(d, after, r) else after == AgentState(d, nonces)
    decreases |names|
  {
    hide RecoverOne, Nests, Finished, Apart, NonceOf, SidecarOf;
    if names != [] {
      var k := |names| - 1;
      assert names == names[..k] + [names[k]];
      RecoveryFinishesExactly(d, nonces, r, read, names[..k], answers[..k]);
      var s := Recovered(AgentState(d, nonces), read, names[..k], answers[..k]);
      if NestedIn(r, names[..k]) {
        var name :| name in names[..k] && Nests(r, name);
        assert name in names && Nests(r, name);
        NothingMore(d, s, r, read, names, names[k], answers[k]);
      } else if Nests(r, names[k]) {
        assert names[k] in names;
        CommitFinishes(d, nonces, r, read, names, names[k], answers[k]);
      } else {
        NothingFound(d, nonces, r, read, names, names[k], answers[k]);
      }
    }
  }

  lemma CrashLeavesMarker(d: Disk, r: Request, f: Faults, writes: nat)
    requires Apart(r) && NoFaults(f) && r.source in d.files && NonceOf(r) !in Loaded(d.log)
    requires 1 <= writes <= |AsideSteps(d, r, f)|
    ensures var s := CrashedAt(d, r, Cut(true, f, writes));
            Has(s, r.source, d.files[r.source]) && Has(s, SidecarOf(r), f.pending) && s.log == d.log
    ensures forall p | p !in {r.source, r.target, BackupOf(r), SidecarOf(r)} ::
              SameAt(d, CrashedAt(d, r, Cut(true, f, writes)), p)
  {
    SourceBeforeSwap(d, r, f);
    var states := AsideSteps(d, r, f);
    var s := states[writes - 1];
    assert s in {Marked(d, r, f), Clearing(d, r, f), Cleared(d, r, f), MovedAside(d, r, f)};
    MarkerStays(d, r, f);
    var run := CommitRun(d, Loaded(d.log), r, true, f);
    assert run.states[..|states|] == states by {
      hide AsideSteps, MovedAside, Cleared, Loaded;
    }
    hide CommitRun, AsideSteps, Marked, Clearing, Cleared, MovedAside, SidecarOf, BackupOf, NonceOf, Loaded;
    assert run.states[writes - 1] == run.states[..|states|][writes - 1];
    assert CrashedAt(d, r, Cut(true, f, writes)) == s;
    forall p | p !in {r.source, r.target, BackupOf(r), SidecarOf(r)} ensures SameAt(d, s, p) {
      OthersUntouched(d, Loaded(d.log), r, true, f, p);
      assert s in run.states;
    }
  }

  lemma MarkerStays(d: Disk, r: Request, f: Faults)
    requires Apart(r)
    ensures forall s | s in {Marked(d, r, f), Clearing(d, r, f), Cleared(d, r, f), MovedAside(d, r, f)} ::
              Has(s, SidecarOf(r), f.pending) && s.log == d.log
  {
    hide SidecarOf, BackupOf;
  }

  /**
   * A commit that was killed after its marker was written and before the staged tree was moved: the restarted
   * agent finishes it exactly if the source lies inside a staging directory of /tmp.
   */
  lemma RestartFinishesExactly(
    d: Disk, r: Request, f: Faults, writes: nat, read: map<Tree, Request>, names: seq<string>, answers: seq<Answer>)
    requires Apart(r) && NoFaults(f) && r.source in d.files && NonceOf(r) !in Loaded(d.log)
    requires 1 <= writes <= |AsideSteps(d, r, f)| && f.pending in read && read[f.pending] == Saved(r)
    requires NoOthers(d, r, read, names) && |answers| == |names| && Undisturbed(answers)
    ensures var before := CrashedAt(d, r, Cut(true, f, writes));
            var after := Recovered(AgentState(before, Loaded(before.log)), read, names, answers).disk;
            before.files[r.source] == d.files[r.source] &&
            (if NestedIn(r, names) then Has(after, r.target, d.files[r.source]) && r.source !in after.files
             else after == before)
  {
    var before := CrashedAt(d, r, Cut(true, f, writes));
    CrashLeavesMarker(d, r, f, writes);
    hide CrashedAt, CommitRun, AsideSteps, SidecarOf, BackupOf, NonceOf, Apart, Recovered, Loaded, MarkerIn;
    forall name | name in names && MarkerIn(name) != SidecarOf(r) ensures Pending(before, read, name).None? {
      assert SameAt(d, before, MarkerIn(name));
    }
    RecoveryFinishesExactly(before, Loaded(before.log), r, read, names, answers);
  }

  // ---- Where it fails ----

  predicate Contains(s: string, t: string) {
    exists i | 0 <= i <= |s| :: t <= s[i..]
  }

  /** The last component of a path. */
  function Base(p: Path): string {
    if p == "" || p[|p| - 1] == '/' then "" else Base(p[..|p| - 1]) + [p[|p| - 1]]
  }

  /** What the agent accepts as the source of a commit, given its absolute path. */
  predicate IsStagingSource(p: Path) {
    (IsStagingName(Base(p)) || Contains(p, "/staging-")) && !Contains(p, "..")
  }

  /**
   * The workers stage at /tmp/staging-<job> itself. The agent accepts that source, and no directory ever
   * holds it, so recovery finishes no commit of theirs.
   */
  lemma WorkerSourceIsNeverFound(r: Request, job: string, names: seq<string>)
    requires r.source == "/tmp/staging-" + job && '/' !in job && '.' !in job
    ensures IsStagingSource(r.source) && !NestedIn(r, names)
  {
    WorkerSourceIsAccepted(job);
    assert r.source == "/tmp" + "/" + ("staging-" + job);
    ParentOfPlain("/tmp", "staging-" + job);
    hide Parent, IsStagingSource, IsStagingName;
    forall name | name in names ensures !Nests(r, name) {
      assert |"/tmp/" + name| > |"/tmp"|;
    }
  }

  lemma WorkerSourceIsAccepted(job: string)
    requires '.' !in job
    ensures IsStagingSource("/tmp/staging-" + job)
  {
    hide Base, IsStagingName;
    var p := "/tmp/staging-" + job;
    assert p[4..] == "/staging-" + job;
    assert "/staging-" <= p[4..];
    forall i | 0 <= i <= |p| ensures !(".." <= p[i..]) {
      assert i < |p| ==> p[i..][0] == p[i] && p[i] != '.';
    }
  }
}
