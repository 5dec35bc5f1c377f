/** What a commit guarantees across crashes, repetitions and rollbacks. */
module CommitTheorems {
  import opened Wrappers
  import opened Archives
  import opened Texts
  import opened CommitModel

  /** The staged tree is still staged, or it is the target. */
  predicate Placed(d: Disk, r: Request, staged: Tree) {
    if r.source in d.files then d.files[r.source] == staged
    else r.target in d.files && d.files[r.target] == staged
  }

  predicate PreviousAtHand(d: Disk, r: Request, previous: Tree) {
    (r.target in d.files && d.files[r.target] == previous) ||
    (BackupOf(r) in d.files && d.files[BackupOf(r)] == previous)
  }

  /** The disks an attempt that finds the staged tree can go through. */
  predicate IsSwapState(d: Disk, r: Request, f: Faults, s: Disk) {
    s == Marked(d, r, f) || s == Clearing(d, r, f) || s == Cleared(d, r, f) ||
    s == Drop(Cleared(d, r, f), SidecarOf(r)) ||
    s == MovedAside(d, r, f) || s == Move(MovedAside(d, r, f), BackupOf(r), r.target) ||
    s == Swapped(d, r, f) || s == Unmarked(d, r, f) || s == WithNonce(Unmarked(d, r, f), r, f)
  }

  lemma StatesOfRun(d: Disk, nonces: set<string>, r: Request, ok: bool, f: Faults, s: Disk)
    requires s in CommitRun(d, nonces, r, ok, f).states
    ensures if r.source in d.files then IsSwapState(d, r, f, s) else s == WithNonce(d, r, f) && r.target in d.files
  {
    hide Marked, Clearing, Cleared, MovedAside, Swapped, Unmarked, WithNonce, SidecarOf, BackupOf, Move, Drop;
  }

  /** In every state of an attempt, whatever fails, the staged tree is at source or target. */
  lemma StagedNeverLost(d: Disk, nonces: set<string>, r: Request, ok: bool, f: Faults, staged: Tree)
    requires Apart(r) && Placed(d, r, staged)
    ensures forall s | s in CommitRun(d, nonces, r, ok, f).states :: Placed(s, r, staged)
  {
    hide CommitRun, IsSwapState;
    forall s | s in CommitRun(d, nonces, r, ok, f).states ensures Placed(s, r, staged) {
      StatesOfRun(d, nonces, r, ok, f, s);
      if r.source in d.files {
        StagedInState(d, r, f, staged, s);
      }
    }
  }

  predicate Has(d: Disk, p: Path, t: Tree) {
    p in d.files && d.files[p] == t
  }

  /** Up to the second rename the staged tree is at the source. */
  lemma SourceBeforeSwap(d: Disk, r: Request, f: Faults)
    requires Apart(r) && r.source in d.files
    ensures var t := d.files[r.source];
            Has(Marked(d, r, f), r.source, t) && Has(Clearing(d, r, f), r.source, t) &&
            Has(Cleared(d, r, f), r.source, t) &&
            Has(Drop(Cleared(d, r, f), SidecarOf(r)), r.source, t) && Has(MovedAside(d, r, f), r.source, t) &&
            Has(Move(MovedAside(d, r, f), BackupOf(r), r.target), r.source, t)
  {
    hide SidecarOf, BackupOf;
  }

  /** From the second rename on it is at the target. */
  lemma TargetAfterSwap(d: Disk, r: Request, f: Faults)
    requires Apart(r) && r.source in d.files
    ensures var t := d.files[r.source];
            Has(Swapped(d, r, f), r.target, t) && Has(Unmarked(d, r, f), r.target, t) &&
            Has(WithNonce(Unmarked(d, r, f), r, f), r.target, t) && r.source !in Swapped(d, r, f).files &&
            r.source !in Unmarked(d, r, f).files
  {
    SourceBeforeSwap(d, r, f);
    hide SidecarOf, BackupOf, MovedAside;
  }

  lemma StagedInState(d: Disk, r: Request, f: Faults, staged: Tree, s: Disk)
    requires Apart(r) && Placed(d, r, staged) && r.source in d.files && IsSwapState(d, r, f, s)
    ensures Placed(s, r, staged)
  {
    SourceBeforeSwap(d, r, f);
    TargetAfterSwap(d, r, f);
    hide Marked, Clearing, Cleared, MovedAside, Swapped, Unmarked, Move, Drop, SidecarOf, BackupOf;
  }

  /** The nonce is only logged once the staged tree has left its source. */
  lemma LoggedAfterSwap(d: Disk, nonces: set<string>, r: Request, ok: bool, f: Faults)
    requires Apart(r)
    ensures forall s | s in CommitRun(d, nonces, r, ok, f).states :: s.log == d.log || r.source !in s.files
    ensures r.source !in d.files ==> forall s | s in CommitRun(d, nonces, r, ok, f).states :: r.source !in s.files
  {
    forall s | s in CommitRun(d, nonces, r, ok, f).states
      ensures (s.log == d.log || r.source !in s.files) && (r.source !in d.files ==> r.source !in s.files)
    {
      StatesOfRun(d, nonces, r, ok, f, s);
      hide CommitRun, SidecarOf, BackupOf;
    }
  }

  /** In every state of an attempt, whatever fails, the previous tree is at the target or in the backup. */
  lemma PreviousNeverLost(d: Disk, nonces: set<string>, r: Request, ok: bool, f: Faults)
    requires Apart(r) && r.target in d.files && r.source in d.files
    ensures forall s | s in CommitRun(d, nonces, r, ok, f).states :: PreviousAtHand(s, r, d.files[r.target])
  {
    hide CommitRun, IsSwapState;
    forall s | s in CommitRun(d, nonces, r, ok, f).states ensures PreviousAtHand(s, r, d.files[r.target]) {
      StatesOfRun(d, nonces, r, ok, f, s);
      PreviousInState(d, r, f, s);
    }
  }

  /** Until the target is moved aside, it holds the previous tree; a rename back restores that. */
  lemma TargetBeforeAside(d: Disk, r: Request, f: Faults)
    requires Apart(r) && r.target in d.files
    ensures var t := d.files[r.target];
            Has(Marked(d, r, f), r.target, t) && Has(Clearing(d, r, f), r.target, t) &&
            Has(Cleared(d, r, f), r.target, t) &&
            Has(Drop(Cleared(d, r, f), SidecarOf(r)), r.target, t)
  {
    BackupIsElsewhere(r);
    hide SidecarOf, BackupOf;
  }

  lemma BackupOnceAside(d: Disk, r: Request, f: Faults)
    requires Apart(r) && r.target in d.files
    ensures var t := d.files[r.target];
            Has(MovedAside(d, r, f), BackupOf(r), t) && r.target !in MovedAside(d, r, f).files &&
            Has(Move(MovedAside(d, r, f), BackupOf(r), r.target), r.target, t)
  {
    TargetBeforeAside(d, r, f);
    BackupIsElsewhere(r);
    hide SidecarOf, BackupOf, Cleared;
  }

  lemma BackupOnceSwapped(d: Disk, r: Request, f: Faults)
    requires Apart(r) && r.target in d.files
    ensures var t := d.files[r.target];
            Has(Swapped(d, r, f), BackupOf(r), t) && Has(Unmarked(d, r, f), BackupOf(r), t) &&
            Has(WithNonce(Unmarked(d, r, f), r, f), BackupOf(r), t)
  {
    BackupOnceAside(d, r, f);
    BackupIsElsewhere(r);
    hide SidecarOf, BackupOf, MovedAside;
  }

  lemma PreviousInState(d: Disk, r: Request, f: Faults, s: Disk)
    requires Apart(r) && r.target in d.files && r.source in d.files && IsSwapState(d, r, f, s)
    ensures PreviousAtHand(s, r, d.files[r.target])
  {
    TargetBeforeAside(d, r, f);
    BackupOnceAside(d, r, f);
    BackupOnceSwapped(d, r, f);
    hide Marked, Clearing, Cleared, MovedAside, Swapped, Unmarked, Move, Drop, SidecarOf, BackupOf;
  }

  lemma BackupIsElsewhere(r: Request)
    ensures BackupOf(r) != r.target
  {
  }

  predicate SameAt(d: Disk, s: Disk, p: Path) {
    (p in s.files <==> p in d.files) && (p in d.files ==> s.files[p] == d.files[p])
  }

  /** No other path than the four of the request is ever written. */
  lemma OthersUntouched(d: Disk, nonces: set<string>, r: Request, ok: bool, f: Faults, p: Path)
    requires p != r.source && p != r.target && p != BackupOf(r) && p != SidecarOf(r)
    ensures forall s | s in CommitRun(d, nonces, r, ok, f).states :: SameAt(d, s, p)
  {
    hide CommitRun, IsSwapState;
    forall s | s in CommitRun(d, nonces, r, ok, f).states ensures SameAt(d, s, p) {
      StatesOfRun(d, nonces, r, ok, f, s);
      if r.source in d.files {
        OtherInState(d, r, f, p, s);
      }
    }
  }

  lemma OtherInState(d: Disk, r: Request, f: Faults, p: Path, s: Disk)
    requires p != r.source && p != r.target && p != BackupOf(r) && p != SidecarOf(r) && IsSwapState(d, r, f, s)
    ensures SameAt(d, s, p)
  {
    hide SidecarOf, BackupOf, Move;
    var aside := MovedAside(d, r, f);
    MoveKeepsOthers(Cleared(d, r, f), r.target, BackupOf(r), p);
    MoveKeepsOthers(aside, BackupOf(r), r.target, p);
    MoveKeepsOthers(aside, r.source, r.target, p);
  }

  lemma MoveKeepsOthers(d: Disk, from: Path, to: Path, p: Path)
    requires p != from && p != to
    ensures SameAt(d, Move(d, from, to), p)
  {
  }

  /** What holds of the disk after any number of attempts of the request, each cut short anywhere. */
  predicate Resumable(start: Disk, d: Disk, r: Request, staged: Tree) {
    Placed(d, r, staged) && (d.log == start.log || r.source !in d.files)
  }

  lemma {:induction false} CrashesKeepResumable(d: Disk, r: Request, cuts: seq<Cut>)
    requires Apart(r) && r.source in d.files
    ensures Resumable(d, AfterCrashes(d, r, cuts), r, d.files[r.source])
  {
    hide CommitRun;
    if cuts != [] {
      var before := AfterCrashes(d, r, cuts[..|cuts| - 1]);
      var c := cuts[|cuts| - 1];
      CrashesKeepResumable(d, r, cuts[..|cuts| - 1]);
      var nonces := Loaded(before.log);
      StagedNeverLost(before, nonces, r, c.fencingOk, c.faults, d.files[r.source]);
      LoggedAfterSwap(before, nonces, r, c.fencingOk, c.faults);
    }
  }

  /** An undisturbed attempt from a resumable disk finishes the commit, or finds it finished. */
  lemma RerunFinishes(start: Disk, d: Disk, r: Request, f: Faults, staged: Tree)
    requires Apart(r) && NoFaults(f) && Resumable(start, d, r, staged) && NonceOf(r) !in Loaded(start.log)
    ensures var run := CommitRun(d, Loaded(d.log), r, true, f);
            var after := Last(d, run);
            r.target in after.files && after.files[r.target] == staged && r.source !in after.files &&
            run.outcome in {Committed, AlreadyCommitted, ReplayRejected}
  {
    BackupIsElsewhere(r);
    hide SidecarOf, BackupOf, Loaded;
  }

  /**
   * Crash safety: after any number of attempts cut short anywhere, with or without an accepted token
   * and with any failures, one more undisturbed attempt leaves the staged tree as the target and
   * nothing at the source.
   */
  lemma CrashSafe(d: Disk, r: Request, cuts: seq<Cut>, f: Faults)
    requires Apart(r) && NoFaults(f) && r.source in d.files && NonceOf(r) !in Loaded(d.log)
    ensures var before := AfterCrashes(d, r, cuts);
            var run := CommitRun(before, Loaded(before.log), r, true, f);
            var after := Last(before, run);
            r.target in after.files && after.files[r.target] == d.files[r.source] && r.source !in after.files &&
            run.outcome in {Committed, AlreadyCommitted, ReplayRejected}
  {
    CrashesKeepResumable(d, r, cuts);
    RerunFinishes(d, AfterCrashes(d, r, cuts), r, f, d.files[r.source]);
  }

  /** Once done, the same nonce writes nothing, and a fresh one touches no tree. */
  lemma RepeatIsHarmless(d: Disk, nonces: set<string>, r: Request, again: Request, f: Faults)
    requires r.source !in d.files && r.target in d.files && NonceOf(r) in nonces
    requires again.source == r.source && again.target == r.target
    ensures NonceOf(again) == NonceOf(r) ==> CommitRun(d, nonces, again, true, f) == Run([], ReplayRejected)
    ensures NonceOf(again) !in nonces ==>
              var run := CommitRun(d, nonces, again, true, f);
              run.outcome == AlreadyCommitted && Last(d, run).files == d.files
  {
  }

  /**
   * After any number of attempts, each with any faults and cut short anywhere, an undisturbed re-run leaves
   * the previous tree in the backup exactly if it then was at the target, with the staged tree still staged,
   * or in the backup, with the staged tree already in place.
   */
  lemma PreviousSurvivesExactly(d: Disk, r: Request, cuts: seq<Cut>, g: Faults)
    requires Apart(r) && NoFaults(g) && r.source in d.files && r.target in d.files
    requires NonceOf(r) !in Loaded(d.log)
    ensures var before := AfterCrashes(d, r, cuts);
            var after := Last(before, CommitRun(before, Loaded(before.log), r, true, g));
            Has(after, BackupOf(r), d.files[r.target]) <==>
              Has(before, if r.source in before.files then r.target else BackupOf(r), d.files[r.target])
  {
    CrashesKeepResumable(d, r, cuts);
    RerunBackup(d, AfterCrashes(d, r, cuts), r, g, d.files[r.target]);
  }

  lemma RerunBackup(start: Disk, d: Disk, r: Request, g: Faults, previous: Tree)
    requires Apart(r) && NoFaults(g) && r.source in start.files
    requires Resumable(start, d, r, start.files[r.source]) && NonceOf(r) !in Loaded(start.log)
    ensures var after := Last(d, CommitRun(d, Loaded(d.log), r, true, g));
            Has(after, BackupOf(r), previous) <==>
              Has(d, if r.source in d.files then r.target else BackupOf(r), previous)
  {
    if r.source in d.files {
      FinishedRun(d, Loaded(d.log), r, g);
      hide CommitRun, AsideFiles, Last;
      BackupIsElsewhere(r);
    } else {
      hide SwapRun, BackupOf, Loaded;
    }
  }

  /** A crash between the two renames: nothing is at the target, and the re-run deletes the only previous tree. */
  lemma CrashBetweenRenames(d: Disk, r: Request, f: Faults, g: Faults)
    requires Apart(r) && NoFaults(f) && NoFaults(g) && r.source in d.files && r.target in d.files
    requires NonceOf(r) !in Loaded(d.log)
    ensures var before := CrashedAt(d, r, Cut(true, f, |AsideSteps(d, r, f)|));
            var after := Last(before, CommitRun(before, Loaded(before.log), r, true, g));
            r.target !in before.files && Has(before, BackupOf(r), d.files[r.target]) &&
            Has(after, r.target, d.files[r.source]) && BackupOf(r) !in after.files &&
            forall p | p in after.files && p != r.target ::
              p in d.files && after.files[p] == d.files[p] && p != r.source
  {
    CutAtAside(d, r, f);
    var before := MovedAside(d, r, f);
    BackupOnceAside(d, r, f);
    SourceBeforeSwap(d, r, f);
    AsideKeepsLog(d, r, f);
    FinishedRun(before, Loaded(before.log), r, g);
    BackupIsElsewhere(r);
    hide CommitRun, AsideFiles, MovedAside, AsideSteps, CrashedAt, Last, BackupOf, SidecarOf, Loaded;
  }

  lemma AsideKeepsLog(d: Disk, r: Request, f: Faults)
    ensures MovedAside(d, r, f).log == d.log
  {
    hide SidecarOf, BackupOf;
  }

  lemma CutAtAside(d: Disk, r: Request, f: Faults)
    requires Apart(r) && NoFaults(f) && r.source in d.files && r.target in d.files && NonceOf(r) !in Loaded(d.log)
    ensures CrashedAt(d, r, Cut(true, f, |AsideSteps(d, r, f)|)) == MovedAside(d, r, f)
  {
    TargetBeforeAside(d, r, f);
    SourceBeforeSwap(d, r, f);
    var moved := AsideSteps(d, r, f);
    assert moved[|moved| - 1] == MovedAside(d, r, f);
    hide SidecarOf, BackupOf, Loaded, AsideSteps, MovedAside, Cleared;
    assert CommitRun(d, Loaded(d.log), r, true, f).states[..|moved|] == moved;
  }

  lemma {:induction false} ParentOfPlain(dir: Path, name: string)
    requires '/' !in name
    ensures Parent(dir + "/" + name) == dir
  {
    var p := dir + "/" + name;
    if name == "" {
      assert p[..|p| - 1] == dir;
    } else {
      assert p[..|p| - 1] == dir + "/" + name[..|name| - 1];
      ParentOfPlain(dir, name[..|name| - 1]);
    }
  }

  function Game(version: string): Tree {
    map[[] := StoredDir, ["project.godot"] := StoredFile(version)]
  }

  const GAME_COMMIT := Request("/tmp/staging-j/game", "/srv/game", "j", "t", "n")
  const GAME_DISK := Disk(map["/tmp/staging-j/game" := Game("2"), "/srv/game" := Game("1")], "")
  const NO_FAULTS := Faults(false, false, false, false, false, BLANK, BLANK)

  lemma GamePaths()
    ensures SidecarOf(GAME_COMMIT) == "/tmp/staging-j/.pgos-pending-commit" &&
            BackupOf(GAME_COMMIT) == "/srv/game.bak-j"
    ensures Apart(GAME_COMMIT)
  {
    assert GAME_COMMIT.source == "/tmp/staging-j" + "/" + "game";
    ParentOfPlain("/tmp/staging-j", "game");
    hide Parent;
  }

  lemma GameSteps()
    ensures |AsideSteps(GAME_DISK, GAME_COMMIT, NO_FAULTS)| == 2
  {
    GamePaths();
    hide SidecarOf, BackupOf, Apart;
  }

  /** If the previous tree was nowhere else, it then is at no path. */
  lemma PreviousTreeLost(d: Disk, r: Request, f: Faults)
    requires Apart(r) && NoFaults(f) && r.source in d.files && r.target in d.files && NonceOf(r) !in Loaded(d.log)
    requires forall p | p in d.files && p != r.target :: d.files[p] != d.files[r.target]
    ensures var before := AfterCrashes(d, r, [Cut(true, f, |AsideSteps(d, r, f)|)]);
            var after := Last(before, CommitRun(before, Loaded(before.log), r, true, f));
            forall p | p in after.files :: after.files[p] != d.files[r.target]
  {
    CrashBetweenRenames(d, r, f, f);
    hide CommitRun, AsideSteps, Apart, SidecarOf, BackupOf, Loaded, CrashedAt, Last, NonceOf;
    assert [Cut(true, f, |AsideSteps(d, r, f)|)][..0] == [];
  }

  /** A disk and a request for which that happens. */
  lemma PreviousTreeCanBeLost()
    ensures var (d, r, f) := (GAME_DISK, GAME_COMMIT, NO_FAULTS);
            var before := AfterCrashes(d, r, [Cut(true, f, 2)]);
            var after := Last(before, CommitRun(before, Loaded(before.log), r, true, f));
            Apart(r) && NonceOf(r) !in Loaded(d.log) && d.files[r.target] == Game("1") &&
            forall p | p in after.files :: after.files[p] != Game("1")
  {
    GamePaths();
    GameSteps();
    LoadedEmpty();
    assert Game("1")[["project.godot"]] != Game("2")[["project.godot"]];
    hide CommitRun, AsideSteps, Apart, SidecarOf, BackupOf, Loaded, CrashedAt, Last, Game, AfterCrashes;
    PreviousTreeLost(GAME_DISK, GAME_COMMIT, NO_FAULTS);
  }

  // ---- Rollback ----

  /** The trees once the target is aside. */
  function AsideFiles(d: Disk, r: Request, f: Faults): map<Path, Tree> {
    var files := (d.files - {BackupOf(r), r.target})[SidecarOf(r) := f.pending];
    if r.target in d.files then files[BackupOf(r) := d.files[r.target]] else files
  }

  lemma AsideIs(d: Disk, r: Request, f: Faults)
    requires Apart(r)
    ensures MovedAside(d, r, f).files == AsideFiles(d, r, f)
  {
    BackupIsElsewhere(r);
    hide SidecarOf, BackupOf;
    assert Cleared(d, r, f).files == (d.files - {BackupOf(r)})[SidecarOf(r) := f.pending];
  }

  lemma SwappedIs(d: Disk, r: Request, f: Faults)
    requires Apart(r) && r.source in d.files
    ensures Unmarked(d, r, f).files == (AsideFiles(d, r, f) - {r.source, SidecarOf(r)})[r.target := d.files[r.source]]
  {
    AsideIs(d, r, f);
    SourceBeforeSwap(d, r, f);
    hide SidecarOf, BackupOf, MovedAside, AsideFiles;
  }

  /** An undisturbed attempt that finds the staged tree ends with these trees. */
  lemma FinishedRun(d: Disk, nonces: set<string>, r: Request, f: Faults)
    requires Apart(r) && NoFaults(f) && r.source in d.files && NonceOf(r) !in nonces
    ensures var run := CommitRun(d, nonces, r, true, f);
            run.outcome == Committed &&
            Last(d, run).files == (AsideFiles(d, r, f) - {r.source, SidecarOf(r)})[r.target := d.files[r.source]]
  {
    SourceBeforeSwap(d, r, f);
    SwappedIs(d, r, f);
    hide MovedAside, Unmarked, Swapped, Cleared, AsideSteps, ClearSteps, AsideFiles, SidecarOf, BackupOf;
  }

  /** What an undisturbed commit leaves: the staged tree as target, the previous one in the backup. */
  lemma CommittedFiles(d: Disk, nonces: set<string>, r: Request, f: Faults)
    requires Apart(r) && NoFaults(f) && r.source in d.files && r.target in d.files && NonceOf(r) !in nonces
    ensures CommitRun(d, nonces, r, true, f).outcome == Committed
    ensures Last(d, CommitRun(d, nonces, r, true, f)).files ==
              (d.files - {r.source, SidecarOf(r)})[BackupOf(r) := d.files[r.target]][r.target := d.files[r.source]]
  {
    FinishedRun(d, nonces, r, f);
    BackupIsElsewhere(r);
    hide SidecarOf, BackupOf, CommitRun, Last;
  }

  /** A commit that runs through, followed by restoring its backup, changes nothing but what it consumed. */
  lemma RollbackUndoesCommit(d: Disk, nonces: set<string>, r: Request, f: Faults)
    requires Apart(r) && NoFaults(f) && r.source in d.files && r.target in d.files && NonceOf(r) !in nonces
    ensures var after := Last(d, CommitRun(d, nonces, r, true, f));
            Restored(after, r.target, BackupOf(r)).files == d.files - {r.source, SidecarOf(r), BackupOf(r)}
  {
    CommittedFiles(d, nonces, r, f);
    BackupIsElsewhere(r);
    hide SidecarOf, BackupOf, CommitRun, Last;
    var files := (d.files - {r.source, SidecarOf(r)})[BackupOf(r) := d.files[r.target]][r.target := d.files[r.source]];
    assert (files - {r.target} - {BackupOf(r)})[r.target := d.files[r.target]] ==
           d.files - {r.source, SidecarOf(r), BackupOf(r)};
  }

  /** A failed swap puts the target back; of the commit only its marker remains. */
  lemma FailedSwapRestores(d: Disk, nonces: set<string>, r: Request, f: Faults)
    requires Apart(r) && r.source in d.files && r.target in d.files && NonceOf(r) !in nonces
    requires f.swap && !f.sidecar && !f.aside && !f.restore
    ensures Last(d, CommitRun(d, nonces, r, true, f)).files ==
              (d.files - {BackupOf(r)})[SidecarOf(r) := f.pending]
  {
    BackupIsElsewhere(r);
    AsideIs(d, r, f);
    hide SidecarOf, BackupOf, MovedAside, AsideSteps, ClearSteps, Cleared;
  }

  /** After a commit, restoring the snapshot taken before it rebuilds the previous tree without what archives drop. */
  lemma SnapshotRollback(d: Disk, nonces: set<string>, r: Request, f: Faults, previous: Listing)
    requires Apart(r) && NoFaults(f) && r.source in d.files && NonceOf(r) !in nonces
    requires r.target in d.files && IsTree(previous) && d.files[r.target] == ContentsOf(previous)
    ensures var after := Last(d, CommitRun(d, nonces, r, true, f));
            ArchiveRestored(after, r.target, Walk([], previous)) ==
              if HasUnsafeName(previous) then None else Some(Put(after, r.target, ContentsOf(Pruned(previous))))
  {
    hide CommitRun, Extract, Walk;
    SnapshotRoundTrip(previous);
    var after, tree := Last(d, CommitRun(d, nonces, r, true, f)), ContentsOf(Pruned(previous));
    assert Put(Drop(after, r.target), r.target, tree).files == Put(after, r.target, tree).files;
  }

  // ---- Nonces across restarts ----

  /** A nonce that is one non-empty line without white space around it. */
  predicate IsLoadable(n: string) {
    n != "" && IsTrimmed(n) && '\n' !in n
  }

  lemma {:induction false} LoadedConcat(a: seq<string>, b: seq<string>)
    ensures LoadedLines(a + b) == LoadedLines(a) + LoadedLines(b)
  {
    if b == [] {
      assert a + b == a;
    } else {
      assert (a + b)[..|a + b| - 1] == a + b[..|b| - 1];
      LoadedConcat(a, b[..|b| - 1]);
    }
  }

  lemma {:induction false} LoadedAreLoadable(lines: seq<string>, n: string)
    requires Plain(lines, '\n') && n in LoadedLines(lines)
    ensures IsLoadable(n)
  {
    var k := |lines| - 1;
    if n in LoadedLines(lines[..k]) {
      LoadedAreLoadable(lines[..k], n);
    } else {
      TrimKeepsPlain(lines[k], '\n');
    }
  }

  lemma LoadedByLine(a: string, b: string)
    ensures Loaded(a + "\n" + b) == Loaded(a) + Loaded(b)
  {
    SplitConcat(a, b, '\n');
    LoadedConcat(Split(a, '\n'), Split(b, '\n'));
  }

  lemma LoadedEmpty()
    ensures Loaded("") == {}
  {
    assert [""][..0] == [];
  }

  lemma LinesOfAppended(log: string, n: string)
    requires log == "" || log[|log| - 1] == '\n'
    ensures Loaded(log + n + "\n") == Loaded(log) + Loaded(n)
  {
    hide Loaded;
    LoadedEmpty();
    LoadedByLine(n, "");
    assert n + "\n" + "" == n + "\n";
    if log == "" {
      assert log + n + "\n" == n + "\n";
    } else {
      var a := log[..|log| - 1];
      assert log == a + "\n" + "" && log + n + "\n" == a + "\n" + (n + "\n");
      LoadedByLine(a, "");
      LoadedByLine(a, n + "\n");
    }
  }

  /** A recorded nonce is known after a restart exactly if it is a line of its own; no other one is forgotten. */
  lemma NonceSurvivesExactly(log: string, n: string)
    requires log == "" || log[|log| - 1] == '\n'
    ensures n in Loaded(log + n + "\n") <==> IsLoadable(n)
    ensures Loaded(log) <= Loaded(log + n + "\n")
  {
    LinesOfAppended(log, n);
    SplitIsPlain(log + n + "\n", '\n');
    if n in Loaded(log + n + "\n") {
      LoadedAreLoadable(Split(log + n + "\n", '\n'), n);
    }
    if IsLoadable(n) {
      SplitPlain(n, '\n');
      TrimOfTrimmed(n);
      assert [n][..0] == [];
    }
  }
}
