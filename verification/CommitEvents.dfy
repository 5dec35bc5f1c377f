/**
 * When an attempt writes at all, and what whole histories of attempts, crashes and restarts guarantee:
 * nothing changes without an accepted fencing token, and a success is never repeated.
 */
module CommitEvents {
  import opened Wrappers
  import Archives
  import opened Texts
  import opened CommitModel
  import opened CommitTheorems

  // ---- One attempt ----

  /** A rejected token stops the attempt before its first write, whatever the disk and the request. */
  lemma RejectedWritesNothing(d: Disk, nonces: set<string>, r: Request, f: Faults)
    ensures var run := CommitRun(d, nonces, r, false, f);
            run.states == [] && Last(d, run) == d &&
            run.outcome == if NonceOf(r) in nonces then ReplayRejected else FencingRejected
  {
    hide SwapRun;
  }

  /** So does a nonce that was recorded. */
  lemma ReplayWritesNothing(d: Disk, nonces: set<string>, r: Request, ok: bool, f: Faults)
    ensures CommitRun(d, nonces, r, ok, f).outcome == ReplayRejected <==> NonceOf(r) in nonces
    ensures NonceOf(r) in nonces ==> CommitRun(d, nonces, r, ok, f).states == []
  {
    hide Cleared, MovedAside, AsideSteps, ClearSteps;
  }

  /** An attempt gets past both checks. */
  predicate Admitted(nonces: set<string>, r: Request, ok: bool) {
    NonceOf(r) !in nonces && ok
  }

  /** Something is written exactly if the attempt is admitted and finds its tree, staged or already in place. */
  lemma WritesExactly(d: Disk, nonces: set<string>, r: Request, ok: bool, f: Faults)
    ensures CommitRun(d, nonces, r, ok, f).states != [] <==>
              Admitted(nonces, r, ok) && if r.source in d.files then !f.sidecar else r.target in d.files
  {
    hide Cleared, MovedAside, Marked, Clearing, Swapped, Unmarked, Move, Drop, WithNonce, SidecarOf, BackupOf, NonceOf;
  }

  /** The swap is made exactly if the attempt is admitted, the tree is staged, and no write of it fails. */
  lemma CommittedExactly(d: Disk, nonces: set<string>, r: Request, ok: bool, f: Faults)
    requires Apart(r)
    ensures CommitRun(d, nonces, r, ok, f).outcome == Committed <==>
              Admitted(nonces, r, ok) && r.source in d.files && !f.sidecar && !f.swap &&
              !(f.aside && r.target in d.files)
    ensures CommitRun(d, nonces, r, ok, f).outcome == AlreadyCommitted <==>
              Admitted(nonces, r, ok) && r.source !in d.files && r.target in d.files
  {
    if r.source in d.files {
      SourceBeforeSwap(d, r, f);
      BackupIsElsewhere(r);
      TargetCleared(d, r, f);
    }
    hide Cleared, MovedAside, AsideSteps, ClearSteps, SidecarOf, BackupOf, NonceOf;
  }

  lemma TargetCleared(d: Disk, r: Request, f: Faults)
    requires Apart(r)
    ensures r.target in Cleared(d, r, f).files <==> r.target in d.files
  {
    BackupIsElsewhere(r);
    hide SidecarOf, BackupOf;
  }

  /** If the target cannot be moved aside, it and the staged tree stay, and the marker and the job's old backup go. */
  lemma AsideFailureExactly(d: Disk, nonces: set<string>, r: Request, ok: bool, f: Faults)
    requires Apart(r) && CommitRun(d, nonces, r, ok, f).outcome == AsideFailed
    ensures var last := Last(d, CommitRun(d, nonces, r, ok, f));
            SidecarOf(r) !in last.files && BackupOf(r) !in last.files && last.log == d.log &&
            forall p | p != SidecarOf(r) && p != BackupOf(r) :: SameAt(d, last, p)
  {
    hide SidecarOf, BackupOf, NonceOf, AsideSteps, MovedAside;
  }

  predicate Succeeds(o: Outcome) {
    o.Committed? || o.AlreadyCommitted?
  }

  /** The log grows by the nonce of a success, if it can be written, and by nothing else. */
  lemma LogExactly(d: Disk, nonces: set<string>, r: Request, ok: bool, f: Faults)
    ensures var run := CommitRun(d, nonces, r, ok, f);
            Last(d, run).log == if Succeeds(run.outcome) && !f.log then d.log + NonceOf(r) + "\n" else d.log
  {
    LogsOfStates(d, r, f);
    hide Cleared, MovedAside, Marked, Clearing, Swapped, Unmarked, Move, Drop, SidecarOf, BackupOf, NonceOf;
  }

  /** Only the last step touches the log. */
  lemma LogsOfStates(d: Disk, r: Request, f: Faults)
    ensures Marked(d, r, f).log == Clearing(d, r, f).log == Cleared(d, r, f).log == MovedAside(d, r, f).log == d.log
    ensures Drop(Cleared(d, r, f), SidecarOf(r)).log == Move(MovedAside(d, r, f), BackupOf(r), r.target).log == d.log
    ensures Swapped(d, r, f).log == Unmarked(d, r, f).log == d.log
  {
    hide SidecarOf, BackupOf;
  }

  /** Recovery looks for markers directly in the directories of /tmp whose names start with staging-, nowhere else. */
  lemma {:induction false} NoMarkerNoRecovery(
    s: AgentState, read: map<Tree, Request>, names: seq<string>, answers: seq<Answer>)
    requires |answers| == |names|
    requires forall i | 0 <= i < |names| && "staging-" <= names[i] ::
               ("/tmp/" + names[i]) + "/.pgos-pending-commit" !in s.disk.files
    ensures Recovered(s, read, names, answers) == s
  {
    if names != [] {
      var k := |names| - 1;
      NoMarkerNoRecovery(s, read, names[..k], answers[..k]);
      assert MarkerIn(names[k]) == ("/tmp/" + names[k]) + "/.pgos-pending-commit";
      assert IsStagingName(names[k]) <==> "staging-" <= names[k];
    }
  }

  // ---- Restoring ----

  /** Restoring a backup moves it to the target and touches nothing else; a missing one changes nothing. */
  lemma RestoreExactly(d: Disk, target: Path, backup: Path)
    requires backup != target
    ensures backup !in d.files ==> Restored(d, target, backup) == d
    ensures backup in d.files ==>
              var r := Restored(d, target, backup);
              Has(r, target, d.files[backup]) && backup !in r.files && r.log == d.log &&
              forall p | p != target && p != backup :: SameAt(d, r, p)
  {
  }

  /** Restoring an archive replaces the target by what the archive holds and touches nothing else. */
  lemma RestoreArchiveExactly(d: Disk, target: Path, entries: seq<Archives.Entry>)
    ensures var r := ArchiveRestored(d, target, entries);
            (r.None? <==> Archives.Extract(Archives.BLANK, entries).None?) &&
            (r.Some? ==> Has(r.value, target, Archives.Extract(Archives.BLANK, entries).value) &&
                         r.value.log == d.log && forall p | p != target :: SameAt(d, r.value, p))
  {
    hide Archives.Extract;
  }

  // ---- Rejected attempts only ----

  lemma {:induction false} RejectedCuts(d: Disk, r: Request, cuts: seq<Cut>)
    requires forall c | c in cuts :: !c.fencingOk
    ensures AfterCrashes(d, r, cuts) == d
  {
    hide CommitRun;
    if cuts != [] {
      var k := |cuts| - 1;
      assert cuts[k] in cuts && forall c | c in cuts[..k] :: c in cuts;
      RejectedCuts(d, r, cuts[..k]);
      RejectedWritesNothing(d, Loaded(d.log), r, cuts[k].faults);
    }
  }

  lemma RejectedAttempt(s: AgentState, r: Request, a: Answer)
    requires !a.fencingOk
    ensures Attempted(s, r, a) == s
  {
    RejectedWritesNothing(s.disk, s.nonces, r, a.faults);
    hide CommitRun;
  }

  /** Recovery with rejected tokens changes neither disk nor nonces. */
  lemma {:induction false} RejectedRecovery(
    s: AgentState, read: map<Tree, Request>, names: seq<string>, answers: seq<Answer>)
    requires |answers| == |names| && forall i | 0 <= i < |answers| :: !answers[i].fencingOk
    ensures Recovered(s, read, names, answers) == s
    decreases |names|
  {
    hide Attempted;
    if names != [] {
      var k := |names| - 1;
      RejectedRecovery(s, read, names[..k], answers[..k]);
      if Pending(s.disk, read, names[k]).Some? {
        RejectedAttempt(s, Pending(s.disk, read, names[k]).value, answers[k]);
      }
    }
  }

  // ---- Histories ----

  /** An attempt that is answered, or one that a crash cuts after some writes and a restart follows. */
  datatype Event = Event(request: Request, answer: Answer, crash: Option<nat>)

  function RunOf(s: AgentState, e: Event): Run {
    CommitRun(s.disk, s.nonces, e.request, e.answer.fencingOk, e.answer.faults)
  }

  function DiskAfter(d: Disk, run: Run, writes: nat): Disk {
    if writes == 0 then d else if writes <= |run.states| then run.states[writes - 1] else Last(d, run)
  }

  function Handle(s: AgentState, e: Event): AgentState {
    match e.crash
    case None => Attempted(s, e.request, e.answer)
    case Some(writes) =>
      var d := DiskAfter(s.disk, RunOf(s, e), writes);
      AgentState(d, Loaded(d.log))
  }

  function HandleAll(s: AgentState, events: seq<Event>): AgentState {
    if events == [] then s else Handle(HandleAll(s, events[..|events| - 1]), events[|events| - 1])
  }

  lemma ChangeWasAdmitted(s: AgentState, e: Event)
    ensures Handle(s, e).disk != s.disk ==> Admitted(s.nonces, e.request, e.answer.fencingOk)
  {
    WritesExactly(s.disk, s.nonces, e.request, e.answer.fencingOk, e.answer.faults);
    hide CommitRun, Loaded, NonceOf;
  }

  /** Each change of the disk, in any history, is made by an attempt whose own token was accepted and nonce new. */
  lemma EachChangeWasAdmitted(s: AgentState, events: seq<Event>, i: nat)
    requires i < |events| && HandleAll(s, events[..i + 1]).disk != HandleAll(s, events[..i]).disk
    ensures events[i].answer.fencingOk && NonceOf(events[i].request) !in HandleAll(s, events[..i]).nonces
  {
    assert events[..i + 1][..i] == events[..i];
    hide Handle;
    ChangeWasAdmitted(HandleAll(s, events[..i]), events[i]);
  }

  /** A disk that differs from the one at the start was preceded by an accepted answer. */
  lemma {:induction false} NoChangeWithoutAcceptance(s: AgentState, events: seq<Event>)
    requires HandleAll(s, events).disk != s.disk
    ensures exists e :: e in events && e.answer.fencingOk
  {
    if events != [] {
      var k := |events| - 1;
      assert events == events[..k] + [events[k]] && events[k] in events;
      if HandleAll(s, events[..k]).disk != s.disk {
        NoChangeWithoutAcceptance(s, events[..k]);
      } else {
        hide Handle;
        ChangeWasAdmitted(HandleAll(s, events[..k]), events[k]);
      }
    }
  }

  // ---- Success is final ----

  /** The log is a sequence of whole lines. */
  predicate WellLogged(log: string) {
    log == "" || log[|log| - 1] == '\n'
  }

  lemma LogsOfRun(d: Disk, nonces: set<string>, r: Request, ok: bool, f: Faults, s: Disk)
    requires s in CommitRun(d, nonces, r, ok, f).states
    ensures s.log == d.log || s.log == d.log + NonceOf(r) + "\n"
  {
    StatesOfRun(d, nonces, r, ok, f, s);
    LogsOfStates(d, r, f);
    hide CommitRun, Marked, Clearing, Cleared, MovedAside, Swapped, Unmarked, Move, Drop, SidecarOf, BackupOf, NonceOf;
  }

  lemma LogAfterCrash(s: AgentState, e: Event, writes: nat)
    ensures var log := DiskAfter(s.disk, RunOf(s, e), writes).log;
            log == s.disk.log || log == s.disk.log + NonceOf(e.request) + "\n"
  {
    var run := RunOf(s, e);
    var d := DiskAfter(s.disk, run, writes);
    hide CommitRun, NonceOf;
    if d != s.disk {
      assert d in run.states;
      LogsOfRun(s.disk, s.nonces, e.request, e.answer.fencingOk, e.answer.faults, d);
    }
  }

  /** The nonce is remembered, and will be after a restart. */
  predicate Known(s: AgentState, nonce: string) {
    nonce in s.nonces && nonce in Loaded(s.disk.log)
  }

  lemma HandleKeepsLog(s: AgentState, e: Event)
    requires WellLogged(s.disk.log)
    ensures WellLogged(Handle(s, e).disk.log) && Loaded(s.disk.log) <= Loaded(Handle(s, e).disk.log)
    ensures forall n | Known(s, n) :: Known(Handle(s, e), n)
  {
    NonceSurvivesExactly(s.disk.log, NonceOf(e.request));
    LogExactly(s.disk, s.nonces, e.request, e.answer.fencingOk, e.answer.faults);
    hide CommitRun, Loaded, NonceOf;
    if e.crash.Some? {
      LogAfterCrash(s, e, e.crash.value);
    }
  }

  /** A success whose nonce can be logged and is a line of its own is known from then on. */
  lemma SuccessIsKnown(s: AgentState, e: Event)
    requires WellLogged(s.disk.log) && e.crash.None? && Succeeds(RunOf(s, e).outcome)
    requires !e.answer.faults.log && IsLoadable(NonceOf(e.request))
    ensures Known(Handle(s, e), NonceOf(e.request))
  {
    NonceSurvivesExactly(s.disk.log, NonceOf(e.request));
    LogExactly(s.disk, s.nonces, e.request, e.answer.fencingOk, e.answer.faults);
    hide CommitRun, Loaded, NonceOf;
  }

  lemma {:induction false} AllKeepLog(s: AgentState, events: seq<Event>, n: nat)
    requires WellLogged(s.disk.log) && n <= |events|
    ensures WellLogged(HandleAll(s, events[..n]).disk.log)
  {
    hide Handle;
    if n > 0 {
      AllKeepLog(s, events, n - 1);
      assert events[..n][..n - 1] == events[..n - 1];
      HandleKeepsLog(HandleAll(s, events[..n - 1]), events[n - 1]);
    }
  }

  lemma {:induction false} StaysKnown(s: AgentState, events: seq<Event>, m: nat, n: nat, nonce: string)
    requires WellLogged(s.disk.log) && m <= n <= |events| && Known(HandleAll(s, events[..m]), nonce)
    ensures Known(HandleAll(s, events[..n]), nonce)
    decreases n
  {
    hide Handle, Known;
    if m < n {
      StaysKnown(s, events, m, n - 1, nonce);
      AllKeepLog(s, events, n - 1);
      assert events[..n][..n - 1] == events[..n - 1];
      HandleKeepsLog(HandleAll(s, events[..n - 1]), events[n - 1]);
    }
  }

  /**
   * At most one success for each nonce, over any history of attempts for any requests, crashes and restarts:
   * once an attempt was answered with success, its nonce a line of its own and the log writable, every later
   * attempt with that nonce is rejected as a replay and writes nothing.
   */
  lemma SuccessIsFinal(s: AgentState, events: seq<Event>, i: nat, k: nat)
    requires WellLogged(s.disk.log) && i < k < |events|
    requires events[i].crash.None? && Succeeds(RunOf(HandleAll(s, events[..i]), events[i]).outcome)
    requires !events[i].answer.faults.log && IsLoadable(NonceOf(events[i].request))
    requires NonceOf(events[k].request) == NonceOf(events[i].request)
    ensures RunOf(HandleAll(s, events[..k]), events[k]) == Run([], ReplayRejected)
  {
    var nonce := NonceOf(events[i].request);
    AllKeepLog(s, events, i);
    hide Handle, IsLoadable;
    assert events[..i + 1][..i] == events[..i];
    SuccessIsKnown(HandleAll(s, events[..i]), events[i]);
    StaysKnown(s, events, i + 1, k, nonce);
    var t := HandleAll(s, events[..k]);
    hide SwapRun, HandleAll, Loaded;
    assert nonce in t.nonces;
  }

  // ---- Names ----

  /** A request without a nonce gets one that differs for different tokens of a job; a given one is used. */
  lemma NoncesExactly(r: Request, other: Request)
    ensures r.nonce != "" ==> NonceOf(r) == r.nonce
    ensures r.nonce == "" && other.nonce == "" && r.jobId == other.jobId ==>
              (NonceOf(r) == NonceOf(other) <==> r.token == other.token)
    ensures r.nonce == "" ==> r.jobId <= NonceOf(r) && NonceOf(r)[|r.jobId|..] == ":" + r.token
  {
    if r.nonce == "" && other.nonce == "" && r.jobId == other.jobId {
      assert NonceOf(r)[|r.jobId| + 1..] == r.token && NonceOf(other)[|r.jobId| + 1..] == other.token;
    }
  }

  /** Different jobs have different backups of a target, beside it. */
  lemma BackupsDiffer(r: Request, other: Request)
    requires r.target == other.target
    ensures BackupOf(r) == BackupOf(other) <==> r.jobId == other.jobId
    ensures r.target < BackupOf(r)
  {
    var n := |r.target| + 5;
    assert BackupOf(r)[n..] == r.jobId && BackupOf(other)[n..] == other.jobId;
  }
}
