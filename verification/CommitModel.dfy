/**
 * One commit request as the sequence of disk states it goes through. A crash may leave the disk in
 * any of these states.
 */
module CommitModel {
  import opened Wrappers
  import opened Archives
  import opened Texts

  type Path = string
  type Tree = Contents

  /** The trees at the paths a commit touches, and the nonce log. */
  datatype Disk = Disk(files: map<Path, Tree>, log: string)

  datatype Request = Request(source: Path, target: Path, jobId: string, token: string, nonce: string)

  function NonceOf(r: Request): string {
    if r.nonce == "" then r.jobId + ":" + r.token else r.nonce
  }

  function BackupOf(r: Request): Path {
    r.target + ".bak-" + r.jobId
  }

  function Parent(p: Path): Path {
    if p == "" then "" else if p[|p| - 1] == '/' then p[..|p| - 1] else Parent(p[..|p| - 1])
  }

  function SidecarOf(r: Request): Path {
    Parent(r.source) + "/.pgos-pending-commit"
  }

  /** The paths of a request are different places. The validators keep staging and project trees apart. */
  predicate Apart(r: Request) {
    r.source != r.target && r.source != BackupOf(r) && r.source != SidecarOf(r) &&
    r.target != SidecarOf(r) && BackupOf(r) != SidecarOf(r)
  }

  /** What the operating system answers, and what half-done writes leave behind. */
  datatype Faults = Faults(
    sidecar: bool, aside: bool, swap: bool, restore: bool, log: bool, pending: Tree, debris: Tree)

  predicate NoFaults(f: Faults) {
    !f.sidecar && !f.aside && !f.swap && !f.restore && !f.log
  }

  datatype Outcome =
    | ReplayRejected | FencingRejected | AlreadyCommitted | SourceMissing
    | SidecarFailed | AsideFailed | SwapFailed | Committed

  /** The disk after each write, and the answer. */
  datatype Run = Run(states: seq<Disk>, outcome: Outcome)

  function Put(d: Disk, p: Path, t: Tree): Disk {
    d.(files := d.files[p := t])
  }

  function Drop(d: Disk, p: Path): Disk {
    d.(files := d.files - {p})
  }

  function Move(d: Disk, from: Path, to: Path): Disk {
    if from in d.files then d.(files := (d.files - {from})[to := d.files[from]]) else d
  }

  lemma MoveOfNothing(d: Disk, from: Path, to: Path)
    requires from !in d.files
    ensures Move(d, from, to) == d
  {
  }

  function WithNonce(d: Disk, r: Request, f: Faults): Disk {
    if f.log then d else d.(log := d.log + NonceOf(r) + "\n")
  }

  /** The nonces a starting agent reads back. */
  function Loaded(log: string): set<string> {
    LoadedLines(Split(log, '\n'))
  }

  function LoadedLines(lines: seq<string>): set<string> {
    if lines == [] then {}
    else LoadedLines(lines[..|lines| - 1]) + (if Trim(lines[|lines| - 1]) == "" then {} else {Trim(lines[|lines| - 1])})
  }

  function CommitRun(d: Disk, nonces: set<string>, r: Request, fencingOk: bool, f: Faults): Run {
    if NonceOf(r) in nonces then Run([], ReplayRejected)
    else if !fencingOk then Run([], FencingRejected)
    else if r.source in d.files then SwapRun(d, r, f)
    else if r.target in d.files then Run([WithNonce(d, r, f)], AlreadyCommitted)
    else Run([], SourceMissing)
  }

  // The disks of an attempt that finds the staged tree, in order.

  function Marked(d: Disk, r: Request, f: Faults): Disk {
    Put(d, SidecarOf(r), f.pending)
  }

  /** The backup of an earlier attempt, half removed. */
  function Clearing(d: Disk, r: Request, f: Faults): Disk {
    Put(Marked(d, r, f), BackupOf(r), f.debris)
  }

  function Cleared(d: Disk, r: Request, f: Faults): Disk {
    Drop(Marked(d, r, f), BackupOf(r))
  }

  function MovedAside(d: Disk, r: Request, f: Faults): Disk {
    Move(Cleared(d, r, f), r.target, BackupOf(r))
  }

  function Swapped(d: Disk, r: Request, f: Faults): Disk {
    Move(MovedAside(d, r, f), r.source, r.target)
  }

  function Unmarked(d: Disk, r: Request, f: Faults): Disk {
    Drop(Swapped(d, r, f), SidecarOf(r))
  }

  /** Up to the point where no backup of the job is left. */
  function ClearSteps(d: Disk, r: Request, f: Faults): seq<Disk> {
    [Marked(d, r, f)] + if BackupOf(r) in Marked(d, r, f).files then [Clearing(d, r, f), Cleared(d, r, f)] else []
  }

  /** Up to the point where nothing is left at the target. */
  function AsideSteps(d: Disk, r: Request, f: Faults): seq<Disk> {
    ClearSteps(d, r, f) + if r.target in Cleared(d, r, f).files then [MovedAside(d, r, f)] else []
  }

  function SwapRun(d: Disk, r: Request, f: Faults): Run {
    var cleared := Cleared(d, r, f);
    var aside := MovedAside(d, r, f);
    var moved := AsideSteps(d, r, f);
    if f.sidecar then Run([], SidecarFailed)
    else if r.target in cleared.files && f.aside then
      Run(ClearSteps(d, r, f) + [Drop(cleared, SidecarOf(r))], AsideFailed)
    else if f.swap || r.source !in aside.files then
      var renamedBack := if BackupOf(r) in aside.files && !f.restore then [Move(aside, BackupOf(r), r.target)] else [];
      Run(moved + renamedBack, SwapFailed)
    else
      Run(moved + [Swapped(d, r, f), Unmarked(d, r, f), WithNonce(Unmarked(d, r, f), r, f)], Committed)
  }

  function Last(d: Disk, run: Run): Disk {
    if run.states == [] then d else run.states[|run.states| - 1]
  }

  /** An attempt that a crash cuts short after some number of writes. */
  datatype Cut = Cut(fencingOk: bool, faults: Faults, writes: nat)

  /** The disk a restarted agent finds after an attempt that was cut short. */
  function CrashedAt(d: Disk, r: Request, c: Cut): Disk {
    var run := CommitRun(d, Loaded(d.log), r, c.fencingOk, c.faults);
    if c.writes == 0 then d else if c.writes <= |run.states| then run.states[c.writes - 1] else Last(d, run)
  }

  function AfterCrashes(d: Disk, r: Request, cuts: seq<Cut>): Disk {
    if cuts == [] then d else CrashedAt(AfterCrashes(d, r, cuts[..|cuts| - 1]), r, cuts[|cuts| - 1])
  }

  // ---- Recovery at start-up ----

  predicate IsStagingName(name: string) {
    |name| >= 8 && name[..8] == "staging-"
  }

  /** The marker that recovery looks for in a directory of /tmp. */
  function MarkerIn(name: string): Path {
    "/tmp/" + name + "/.pgos-pending-commit"
  }

  /** The request a readable marker holds; `read` is the decoding of marker files. */
  function Pending(d: Disk, read: map<Tree, Request>, name: string): Option<Request> {
    var p := MarkerIn(name);
    if IsStagingName(name) && p in d.files && d.files[p] in read then Some(read[d.files[p]]) else None
  }

  /** What the fencing check and the operating system answer to one attempt. */
  datatype Answer = Answer(fencingOk: bool, faults: Faults)

  datatype AgentState = AgentState(disk: Disk, nonces: set<string>)

  function Attempted(s: AgentState, r: Request, a: Answer): AgentState {
    var run := CommitRun(s.disk, s.nonces, r, a.fencingOk, a.faults);
    var done := run.outcome.Committed? || run.outcome.AlreadyCommitted?;
    AgentState(Last(s.disk, run), s.nonces + if done then {NonceOf(r)} else {})
  }

  function RecoverOne(s: AgentState, read: map<Tree, Request>, name: string, a: Answer): AgentState {
    match Pending(s.disk, read, name)
    case None => s
    case Some(r) => Attempted(s, r, a)
  }

  /** The directories of /tmp in the order they are listed, each pending commit attempted again. */
  function Recovered(s: AgentState, read: map<Tree, Request>, names: seq<string>, answers: seq<Answer>): AgentState
    requires |answers| == |names|
  {
    if names == [] then s
    else
      var k := |names| - 1;
      RecoverOne(Recovered(s, read, names[..k], answers[..k]), read, names[k], answers[k])
  }

  /** Puts a backup in place of the target. The target is removed before the backup is moved. */
  function Restored(d: Disk, target: Path, backup: Path): Disk {
    var cleared := Drop(d, target);
    if backup in d.files then Move(cleared, backup, target) else d
  }

  /** Extracts an archive beside the target and moves it in place; an archive that is refused changes nothing. */
  function ArchiveRestored(d: Disk, target: Path, entries: seq<Entry>): Option<Disk> {
    var tree := Extract(BLANK, entries);
    if tree.None? then None else Some(Put(Drop(d, target), target, tree.value))
  }
}
