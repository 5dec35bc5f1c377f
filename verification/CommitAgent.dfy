/**
 * The commit agent. Every write to the disk is remembered, so that the disks an attempt goes
 * through, in which a crash may leave it, are exactly those of the model.
 */
module CommitAgents {
  import opened Wrappers
  import opened Archives
  import opened Texts
  import opened CommitModel

  class Agent {
    var files: map<Path, Tree>
    var log: string
    var nonces: set<string>
    var bloom: set<string>
    ghost var states: seq<Disk>

    function Current(): Disk
      reads this
    {
      Disk(files, log)
    }

    /** A starting agent reads the nonce log it finds on the disk. */
    constructor (disk: Disk)
      ensures Current() == disk && nonces == Loaded(disk.log) && states == []
    {
      files, log := disk.files, disk.log;
      nonces, bloom, states := {}, {}, [];
      new;
      LoadNonceLog();
    }

    method LoadNonceLog()
      modifies this`nonces, this`bloom
      ensures nonces == old(nonces) + Loaded(log) && bloom == old(bloom) + Loaded(log)
    {
      hide Split, Trim;
      var lines := Split(log, '\n');
      for i := 0 to |lines|
        invariant nonces == old(nonces) + LoadedLines(lines[..i]) && bloom == old(bloom) + LoadedLines(lines[..i])
      {
        assert lines[..i + 1][..i] == lines[..i];
        var line := Trim(lines[i]);
        if line != "" {
          nonces := nonces + {line};
          bloom := bloom + {line};
        }
      }
      assert lines[..|lines|] == lines;
    }

    /** The Bloom filter may also answer for strings never added to it; the answer is then checked. */
    method SeenNonce(n: string) returns (seen: bool)
      ensures seen <==> n in nonces
    {
      if n in nonces {
        return true;
      }
      var falsePositive: bool := *;
      if n in bloom || falsePositive {
        return n in nonces;
      }
      return false;
    }

    method RecordNonce(n: string, fails: bool)
      modifies this`nonces, this`bloom, this`log, this`states
      ensures nonces == old(nonces) + {n} && log == (if fails then old(log) else old(log) + n + "\n")
      ensures states == old(states) + [Current()]
    {
      nonces := nonces + {n};
      bloom := bloom + {n};
      if !fails {
        log := log + n + "\n";
      }
      states := states + [Current()];
    }

    method WriteTree(p: Path, t: Tree)
      modifies this`files, this`states
      ensures Current() == Put(old(Current()), p, t) && states == old(states) + [Current()]
    {
      files := files[p := t];
      states := states + [Current()];
    }

    method Remove(p: Path)
      modifies this`files, this`states
      ensures Current() == Drop(old(Current()), p) && states == old(states) + [Current()]
    {
      files := files - {p};
      states := states + [Current()];
    }

    method Rename(from: Path, to: Path)
      requires from in files
      modifies this`files, this`states
      ensures Current() == Move(old(Current()), from, to) && states == old(states) + [Current()]
    {
      files := (files - {from})[to := files[from]];
      states := states + [Current()];
    }

    /** Validated paths, the answer of the fencing check, and the failures of the operating system are given. */
    method DoCommit(r: Request, fencingOk: bool, f: Faults) returns (outcome: Outcome)
      modifies this
      ensures var run := CommitRun(old(Current()), old(nonces), r, fencingOk, f);
              outcome == run.outcome && states == old(states) + run.states && Current() == Last(old(Current()), run)
      ensures nonces == old(nonces) + if outcome.Committed? || outcome.AlreadyCommitted? then {NonceOf(r)} else {}
      ensures !fencingOk ==>
                Current() == old(Current()) && nonces == old(nonces) && states == old(states) &&
                (outcome.ReplayRejected? || outcome.FencingRejected?)
    {
      hide SwapRun;
      var nonce := if r.nonce == "" then r.jobId + ":" + r.token else r.nonce;
      var seen := SeenNonce(nonce);
      if seen {
        return ReplayRejected;
      }
      if !fencingOk {
        return FencingRejected;
      }
      if r.source !in files {
        if r.target in files {
          RecordNonce(nonce, f.log);
          return AlreadyCommitted;
        }
        return SourceMissing;
      }
      outcome := SwapTrees(r, f);
      if outcome.Committed? {
        RecordNonce(nonce, f.log);
      }
    }

    method MarkAndClear(r: Request, f: Faults)
      modifies this`files, this`states
      ensures Current() == Cleared(old(Current()), r, f) && states == old(states) + ClearSteps(old(Current()), r, f)
      ensures |states| > |old(states)| && states[|states| - 1] == Current()
    {
      hide SidecarOf, BackupOf;
      WriteTree(SidecarOf(r), f.pending);
      var backup := BackupOf(r);
      if backup in files {
        WriteTree(backup, f.debris);
        Remove(backup);
      }
    }

    /** From writing the marker to removing it; the nonce is still to be recorded. */
    method SwapTrees(r: Request, f: Faults) returns (outcome: Outcome)
      requires r.source in files
      modifies this`files, this`states
      ensures var run := SwapRun(old(Current()), r, f);
              outcome == run.outcome && !outcome.AlreadyCommitted? && old(states) <= states &&
              if outcome.Committed?
              then run.states == states[|old(states)|..] + [WithNonce(Current(), r, f)]
              else run.states == states[|old(states)|..] && Current() == Last(old(Current()), run)
    {
      hide MovedAside, AsideSteps, ClearSteps, Cleared, SidecarOf, BackupOf, Drop, Move, Put, WithNonce;
      if f.sidecar {
        return SidecarFailed;
      }
      var moved := MoveAside(r, f);
      if !moved {
        return AsideFailed;
      }
      var backup := BackupOf(r);
      if f.swap || r.source !in files {
        if backup in files && !f.restore {
          Rename(backup, r.target);
        }
        return SwapFailed;
      }
      Rename(r.source, r.target);
      Remove(SidecarOf(r));
      return Committed;
    }

    /** Writes the marker, removes the job's old backup and makes the target the new one. */
    method MoveAside(r: Request, f: Faults) returns (ok: bool)
      modifies this`files, this`states
      ensures var d := old(Current());
              ok == !(f.aside && r.target in Cleared(d, r, f).files) &&
              if ok then Current() == MovedAside(d, r, f) && states == old(states) + AsideSteps(d, r, f)
              else Current() == Drop(Cleared(d, r, f), SidecarOf(r)) &&
                   states == old(states) + ClearSteps(d, r, f) + [Current()]
      ensures |states| > |old(states)| && states[|states| - 1] == Current()
    {
      hide ClearSteps, Cleared, SidecarOf, BackupOf, Drop, Move;
      MarkAndClear(r, f);
      if r.target in files {
        if f.aside {
          Remove(SidecarOf(r));
          return false;
        }
        Rename(r.target, BackupOf(r));
      } else {
        MoveOfNothing(Current(), r.target, BackupOf(r));
      }
      ok := true;
    }

    /** At start-up: every readable marker in a staging directory of /tmp is committed again. */
    method RecoverPendingRenames(names: seq<string>, read: map<Tree, Request>, answers: seq<Answer>)
      requires |answers| == |names|
      modifies this
      ensures AgentState(Current(), nonces) ==
                Recovered(AgentState(old(Current()), old(nonces)), read, names, answers)
    {
      hide CommitRun;
      for i := 0 to |names|
        invariant AgentState(Current(), nonces) ==
                    Recovered(AgentState(old(Current()), old(nonces)), read, names[..i], answers[..i])
      {
        var name := names[i];
        assert names[..i + 1][..i] == names[..i] && answers[..i + 1][..i] == answers[..i];
        if |name| >= 8 && name[..8] == "staging-" {
          var marker := "/tmp/" + name + "/.pgos-pending-commit";
          if marker in files && files[marker] in read {
            var outcome := DoCommit(read[files[marker]], answers[i].fencingOk, answers[i].faults);
          }
        }
      }
      assert names[..|names|] == names && answers[..|names|] == answers;
    }

    method RestoreBackup(target: Path, backup: Path) returns (ok: bool)
      modifies this`files, this`states
      ensures Current() == Restored(old(Current()), target, backup)
      ensures ok <==> backup in old(files) && backup != target
    {
      if backup !in files {
        return false;
      }
      Remove(target);
      if backup !in files {
        return false;
      }
      Rename(backup, target);
      ok := true;
    }

    method RestoreArchive(target: Path, entries: seq<Entry>) returns (ok: bool)
      modifies this`files, this`states
      ensures ok <==> ArchiveRestored(old(Current()), target, entries).Some?
      ensures Current() == if ok then ArchiveRestored(old(Current()), target, entries).value else old(Current())
    {
      var tree;
      ok, tree := ExtractArchive(entries, BLANK);
      if ok {
        Remove(target);
        WriteTree(target, tree);
      }
    }
  }
}
