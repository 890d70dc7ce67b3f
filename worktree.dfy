/**
 * The world the measurement runs in: a git repository whose set of linked
 * worktrees (checkout paths) changes only through `git worktree add` and
 * `git worktree remove`, and a shell that runs the build and measurement
 * commands. Every external command is one step whose success or failure is
 * decided by the environment; the repository logs each step.
 *
 * A plan is the list of commands a part of the script issues when every
 * command succeeds. `RunOf` says how a logged segment of events runs a plan:
 * the script stops at the first failed command, and a failure of a command
 * the script wraps in `try ... except CalledProcessError` is followed by the
 * cleanup of `_handle_called_process_error` (remove the worktree, then exit
 * with status -1).
 */
module Worktree {
  import opened Wrappers
  import SizeReport
  import Comparison

  /** The kinds of shell command the script runs inside a checkout. */
  datatype Step = PreBuild | ConfigTweak | Make | SizeTool

  datatype Command =
    | WorktreeAdd(path: string, revision: string)
    | WorktreeRemove(path: string)
    | Shell(step: Step, line: string, cwd: string)

  /** Whether the command exited with status 0, and what it wrote to standard output. */
  datatype Reply = Reply(ok: bool, output: string)

  datatype Event = Event(command: Command, reply: Reply)

  /**
   * How the script stops early: `Exit` is a `sys.exit` call; the others are
   * exceptions nothing catches (a failed command outside a `try`, the
   * IndexError of the report parser, the ValueError or KeyError of the
   * comparison).
   */
  datatype Halt =
    | Exit(code: int)
    | CommandFailed(cmd: Command)
    | ParseFailed(parseError: SizeReport.ParseError)
    | CompareFailed(compareError: Comparison.CompareError)

  /** How a part of the script ended: it completed, or it stopped the script. */
  datatype Status = Done | Stopped(halt: Halt)

  /** The status `_handle_called_process_error` exits with. */
  const ErrorExitCode: int := -1

  /** `self.repo_path`: the live work tree the script is started in. */
  const RepoPath: string := "."

  /** `_create_git_worktree`'s path: the live tree for "current", else a fresh `temp-` directory beside it. */
  function WorktreePath(rev: string): (path: string)
    ensures path == RepoPath <==> rev == "current"
  {
    if rev == "current" then RepoPath else RepoPath + "/temp-" + rev
  }

  /** Different revisions are measured in different places. */
  lemma WorktreePathInjective(rev1: string, rev2: string)
    requires WorktreePath(rev1) == WorktreePath(rev2)
    ensures rev1 == rev2
  {
    if rev1 != "current" && rev2 != "current" {
      var prefix := RepoPath + "/temp-";
      assert (prefix + rev1)[|prefix|..] == rev1;
      assert (prefix + rev2)[|prefix|..] == rev2;
    }
  }

  /** git refuses to add a worktree at a path that has one and to remove a worktree that does not exist. */
  predicate Admissible(worktrees: set<string>, c: Command) {
    match c
    case WorktreeAdd(p, _) => p !in worktrees
    case WorktreeRemove(p) => p in worktrees
    case Shell(_, _, _) => true
  }

  /** The worktrees after an event: only a successful add or remove changes them. */
  function Effect(worktrees: set<string>, e: Event): set<string> {
    if !e.reply.ok then worktrees
    else match e.command
      case WorktreeAdd(p, _) => worktrees + {p}
      case WorktreeRemove(p) => worktrees - {p}
      case Shell(_, _, _) => worktrees
  }

  /** The worktrees after a sequence of events. */
  function Replay(worktrees: set<string>, seg: seq<Event>): set<string>
    decreases |seg|
  {
    if seg == [] then worktrees else Replay(Effect(worktrees, seg[0]), seg[1..])
  }

  /**
   * The repository and shell. `answer(n, c)` is the environment's reply to
   * the `n`-th command; a reply the repository cannot give (adding an
   * existing worktree, removing a missing one) is turned into a failure.
   */
  class Repository {
    const answer: (nat, Command) -> Reply
    var worktrees: set<string>
    var log: seq<Event>

    constructor (answer: (nat, Command) -> Reply, worktrees: set<string>)
      ensures this.answer == answer && this.worktrees == worktrees && log == []
    {
      this.answer := answer;
      this.worktrees := worktrees;
      log := [];
    }

    /** `subprocess.check_output(c)`: run one command and log it. */
    method Run(c: Command) returns (reply: Reply)
      modifies this
      ensures reply.output == answer(|old(log)|, c).output
      ensures reply.ok <==> answer(|old(log)|, c).ok && Admissible(old(worktrees), c)
      ensures log == old(log) + [Event(c, reply)]
      ensures worktrees == Effect(old(worktrees), Event(c, reply))
    {
      var a := answer(|log|, c);
      reply := Reply(a.ok && Admissible(worktrees, c), a.output);
      worktrees := Effect(worktrees, Event(c, reply));
      log := log + [Event(c, reply)];
    }
  }

  /** The commands whose CalledProcessError the script catches: pre-build, make and the three `size` calls. */
  predicate Caught(c: Command) {
    c.Shell? && c.step != ConfigTweak
  }

  /** The events after a caught failure: `_remove_worktree(path)`, then exit -1 (when the removal itself succeeds). */
  function CleanupOf(rest: seq<Event>, path: string): Option<Status> {
    if path == RepoPath then
      if rest == [] then Some(Stopped(Exit(ErrorExitCode))) else None
    else if |rest| == 1 && rest[0].command == WorktreeRemove(path) then
      Some(Stopped(if rest[0].reply.ok then Exit(ErrorExitCode) else CommandFailed(WorktreeRemove(path))))
    else None
  }

  /**
   * How `seg` runs `plan` in the checkout `path`: `None` when `seg` is not a
   * run of `plan`, otherwise whether the plan completed or how it stopped.
   */
  function RunOf(seg: seq<Event>, plan: seq<Command>, path: string): Option<Status>
    decreases plan
  {
    if plan == [] then
      if seg == [] then Some(Done) else None
    else if seg == [] || seg[0].command != plan[0] then None
    else if seg[0].reply.ok then RunOf(seg[1..], plan[1..], path)
    else if Caught(plan[0]) then CleanupOf(seg[1..], path)
    else if |seg| == 1 then Some(Stopped(CommandFailed(plan[0])))
    else None
  }

  /** A completed run issues exactly the plan, and every command succeeds. */
  lemma {:induction false} CompletedRunIsPlan(seg: seq<Event>, plan: seq<Command>, path: string)
    requires RunOf(seg, plan, path) == Some(Done)
    ensures |seg| == |plan|
    ensures forall i :: 0 <= i < |seg| ==> seg[i].command == plan[i] && seg[i].reply.ok
    decreases plan
  {
    if plan != [] {
      CompletedRunIsPlan(seg[1..], plan[1..], path);
    }
  }

  /** Running two plans one after the other: the second starts where the completed first one ended. */
  lemma {:induction false} RunOfAppend(s1: seq<Event>, p1: seq<Command>, s2: seq<Event>, p2: seq<Command>,
                                       path: string, st: Status)
    requires RunOf(s1, p1, path) == Some(Done)
    requires RunOf(s2, p2, path) == Some(st)
    ensures RunOf(s1 + s2, p1 + p2, path) == Some(st)
    decreases p1
  {
    if p1 == [] {
      assert s1 + s2 == s2 && p1 + p2 == p2;
    } else {
      RunOfAppend(s1[1..], p1[1..], s2, p2, path, st);
      assert (s1 + s2)[1..] == s1[1..] + s2;
      assert (p1 + p2)[1..] == p1[1..] + p2;
    }
  }

  /** A run that stops in the first `n` commands of a plan stops the whole plan: later commands are never issued. */
  lemma {:induction false} RunOfHaltPrefix(seg: seq<Event>, plan: seq<Command>, n: nat, path: string, h: Halt)
    requires n <= |plan|
    requires RunOf(seg, plan[..n], path) == Some(Stopped(h))
    ensures RunOf(seg, plan, path) == Some(Stopped(h))
    decreases n
  {
    assert plan[..n] != [];
    assert plan[..n][0] == plan[0];
    if seg[0].reply.ok {
      assert plan[..n][1..] == plan[1..][..n - 1];
      RunOfHaltPrefix(seg[1..], plan[1..], n - 1, path, h);
    }
  }

  /** A run that stops in the first of two plans stops their concatenation. */
  lemma RunOfHaltAppend(seg: seq<Event>, p1: seq<Command>, p2: seq<Command>, path: string, h: Halt)
    requires RunOf(seg, p1, path) == Some(Stopped(h))
    ensures RunOf(seg, p1 + p2, path) == Some(Stopped(h))
  {
    assert (p1 + p2)[..|p1|] == p1;
    RunOfHaltPrefix(seg, p1 + p2, |p1|, path, h);
  }

  /**
   * Sequential composition: the second plan runs only when the first one
   * completed, and then the two runs line up.
   */
  lemma RunOfSequence(s1: seq<Event>, p1: seq<Command>, s2: seq<Event>, p2: seq<Command>, path: string,
                      st1: Status, st2: Status)
    requires RunOf(s1, p1, path) == Some(st1)
    requires st1.Done? ==> RunOf(s2, p2, path) == Some(st2)
    requires st1.Stopped? ==> s2 == [] && st2 == st1
    ensures RunOf(s1 + s2, p1 + p2, path) == Some(st2)
  {
    if st1.Done? {
      RunOfAppend(s1, p1, s2, p2, path, st2);
    } else {
      assert s1 + s2 == s1;
      RunOfHaltAppend(s1, p1, p2, path, st1.halt);
    }
  }

  /** Three plans in sequence, each run only when the one before it completed. */
  lemma RunOfSequence3(s1: seq<Event>, p1: seq<Command>, s2: seq<Event>, p2: seq<Command>,
                       s3: seq<Event>, p3: seq<Command>, path: string, st1: Status, st2: Status, st3: Status)
    requires RunOf(s1, p1, path) == Some(st1)
    requires st1.Done? ==> RunOf(s2, p2, path) == Some(st2)
    requires st1.Stopped? ==> s2 == [] && st2 == st1
    requires st2.Done? ==> RunOf(s3, p3, path) == Some(st3)
    requires st2.Stopped? ==> s3 == [] && st3 == st2
    ensures RunOf(s1 + s2 + s3, p1 + p2 + p3, path) == Some(st3)
  {
    RunOfSequence(s1, p1, s2, p2, path, st1, st2);
    RunOfSequence(s1 + s2, p1 + p2, s3, p3, path, st2, st3);
  }

  /** The worktrees after two segments are those after the second, replayed from those after the first. */
  lemma {:induction false} ReplayAppend(worktrees: set<string>, a: seq<Event>, b: seq<Event>)
    ensures Replay(worktrees, a + b) == Replay(Replay(worktrees, a), b)
    decreases |a|
  {
    if a == [] {
      assert a + b == b;
    } else {
      assert (a + b)[0] == a[0] && (a + b)[1..] == a[1..] + b;
      ReplayAppend(Effect(worktrees, a[0]), a[1..], b);
    }
  }

  lemma ReplayAppend3(worktrees: set<string>, a: seq<Event>, b: seq<Event>, c: seq<Event>)
    ensures Replay(worktrees, a + b + c) == Replay(Replay(Replay(worktrees, a), b), c)
  {
    ReplayAppend(worktrees, a + b, c);
    ReplayAppend(worktrees, a, b);
  }

  /** The number of removals of the worktree at `path` in `seg`. */
  function Removals(seg: seq<Event>, path: string): nat {
    if seg == [] then 0
    else (if seg[0].command == WorktreeRemove(path) then 1 else 0) + Removals(seg[1..], path)
  }

  /** `plan` itself removes no worktree. */
  predicate RemovesNothing(plan: seq<Command>) {
    forall k :: 0 <= k < |plan| ==> !plan[k].WorktreeRemove?
  }

  /** Every command of `plan` is a shell command. */
  predicate ShellOnly(plan: seq<Command>) {
    forall k :: 0 <= k < |plan| ==> plan[k].Shell?
  }

  /**
   * A failed pre-build, make or size command in a temporary worktree is
   * followed by exactly one event, the removal of that worktree, and the run
   * stops with exit -1, or with the removal's own CalledProcessError when
   * git refuses it.
   */
  lemma {:induction false} CaughtFailureRemovesOnce(seg: seq<Event>, plan: seq<Command>, path: string, i: nat)
    requires path != RepoPath && RemovesNothing(plan)
    requires RunOf(seg, plan, path).Some?
    requires i < |seg| && Caught(seg[i].command) && !seg[i].reply.ok
    ensures i == |seg| - 2
    ensures seg[|seg| - 1].command == WorktreeRemove(path)
    ensures Removals(seg, path) == 1
    ensures RunOf(seg, plan, path) == Some(Stopped(
              if seg[|seg| - 1].reply.ok then Exit(ErrorExitCode) else CommandFailed(WorktreeRemove(path))))
    decreases plan
  {
    assert plan[0] == seg[0].command && !plan[0].WorktreeRemove?;
    if seg[0].reply.ok {
      assert i != 0;
      assert RemovesNothing(plan[1..]) by {
        forall k | 0 <= k < |plan[1..]| ensures !plan[1..][k].WorktreeRemove? {
          assert plan[1..][k] == plan[k + 1];
        }
      }
      CaughtFailureRemovesOnce(seg[1..], plan[1..], path, i - 1);
    } else {
      var rest := seg[1..];
      assert |rest| == 1 && rest[0] == seg[1];
      assert rest[1..] == [];
    }
  }

  /**
   * A failed configuration tweak is not caught: it is the last event of the
   * run, nothing is removed, and the CalledProcessError stops the script,
   * leaving the temporary worktree behind.
   */
  lemma {:induction false} TweakFailureLeavesCheckout(seg: seq<Event>, plan: seq<Command>, path: string, i: nat)
    requires RemovesNothing(plan)
    requires RunOf(seg, plan, path).Some?
    requires i < |seg| && seg[i].command.Shell? && seg[i].command.step == ConfigTweak && !seg[i].reply.ok
    ensures i == |seg| - 1
    ensures Removals(seg, path) == 0
    ensures RunOf(seg, plan, path) == Some(Stopped(CommandFailed(seg[i].command)))
    decreases plan
  {
    assert plan[0] == seg[0].command && !plan[0].WorktreeRemove?;
    if seg[0].reply.ok {
      assert RemovesNothing(plan[1..]) by {
        forall k | 0 <= k < |plan[1..]| ensures !plan[1..][k].WorktreeRemove? {
          assert plan[1..][k] == plan[k + 1];
        }
      }
      TweakFailureLeavesCheckout(seg[1..], plan[1..], path, i - 1);
    } else if Caught(plan[0]) {
      assert false;
    } else {
      assert seg[1..] == [];
    }
  }

  /** A plan of shell commands run in the live tree issues shell commands only, cleanup included. */
  lemma {:induction false} LiveTreeRunIsShellOnly(seg: seq<Event>, plan: seq<Command>)
    requires ShellOnly(plan)
    requires RunOf(seg, plan, RepoPath).Some?
    ensures forall k :: 0 <= k < |seg| ==> seg[k].command.Shell?
    decreases plan
  {
    if plan != [] && seg[0].reply.ok {
      assert ShellOnly(plan[1..]) by {
        forall k | 0 <= k < |plan[1..]| ensures plan[1..][k].Shell? {
          assert plan[1..][k] == plan[k + 1];
        }
      }
      LiveTreeRunIsShellOnly(seg[1..], plan[1..]);
      assert forall k :: 1 <= k < |seg| ==> seg[k] == seg[1..][k - 1];
    } else if plan != [] && Caught(plan[0]) {
      assert seg[1..] == [];
    }
  }

  /** Shell commands leave the set of worktrees as it is. */
  lemma {:induction false} ShellOnlyKeepsWorktrees(worktrees: set<string>, seg: seq<Event>)
    requires forall k :: 0 <= k < |seg| ==> seg[k].command.Shell?
    ensures Replay(worktrees, seg) == worktrees
    decreases |seg|
  {
    if seg != [] {
      assert forall k :: 0 <= k < |seg[1..]| ==> seg[1..][k] == seg[k + 1];
      ShellOnlyKeepsWorktrees(worktrees, seg[1..]);
    }
  }

  /**
   * The worktrees after a run of shell commands in `path`: only the cleanup
   * of a caught failure changes them, and only when its removal succeeds, in
   * which case the run exits -1. The run stops with that exit, with an
   * uncaught failure of one of its own commands, or with the failed removal.
   */
  lemma {:induction false} ShellRunReplay(worktrees: set<string>, seg: seq<Event>, plan: seq<Command>, path: string, st: Status)
    requires ShellOnly(plan) && RunOf(seg, plan, path) == Some(st)
    ensures Replay(worktrees, seg) == if st == Stopped(Exit(ErrorExitCode)) && path != RepoPath then worktrees - {path} else worktrees
    ensures st.Stopped? ==> st.halt == Exit(ErrorExitCode) || st.halt == CommandFailed(WorktreeRemove(path))
                            || (st.halt.CommandFailed? && st.halt.cmd.Shell? && st.halt.cmd in plan)
    decreases plan
  {
    if plan != [] {
      assert seg[0].command == plan[0] && plan[0].Shell?;
      if seg[0].reply.ok {
        assert ShellOnly(plan[1..]) by {
          forall k | 0 <= k < |plan[1..]| ensures plan[1..][k].Shell? {
            assert plan[1..][k] == plan[k + 1];
          }
        }
        ShellRunReplay(worktrees, seg[1..], plan[1..], path, st);
      } else if Caught(plan[0]) {
        var rest := seg[1..];
        if path != RepoPath {
          assert rest[1..] == [];
          assert Replay(worktrees, rest) == Effect(worktrees, rest[0]);
        }
      } else {
        assert seg[1..] == [];
      }
    }
  }

  lemma {:induction false} RemovalsAppend(a: seq<Event>, b: seq<Event>, path: string)
    ensures Removals(a + b, path) == Removals(a, path) + Removals(b, path)
    decreases |a|
  {
    if a == [] {
      assert a + b == b;
    } else {
      assert (a + b)[0] == a[0] && (a + b)[1..] == a[1..] + b;
      RemovalsAppend(a[1..], b, path);
    }
  }

  /** Shell commands remove nothing. */
  lemma {:induction false} ShellOnlyRemovesNothing(seg: seq<Event>, path: string)
    requires forall k :: 0 <= k < |seg| ==> seg[k].command.Shell?
    ensures Removals(seg, path) == 0
    decreases |seg|
  {
    if seg != [] {
      assert forall k :: 0 <= k < |seg[1..]| ==> seg[1..][k] == seg[k + 1];
      ShellOnlyRemovesNothing(seg[1..], path);
    }
  }

  /** A plan of one command nothing catches is one event: the command, completed or stopping the script. */
  lemma SingleCommandRun(seg: seq<Event>, c: Command, path: string)
    requires !Caught(c) && RunOf(seg, [c], path).Some?
    ensures |seg| == 1 && seg[0].command == c
    ensures RunOf(seg, [c], path) == Some(if seg[0].reply.ok then Done else Stopped(CommandFailed(c)))
  {
    assert [c][1..] == [];
  }

  /** Every event of a run is a command of the plan or the cleanup's removal of the checkout. */
  lemma {:induction false} RunEventsFromPlan(seg: seq<Event>, plan: seq<Command>, path: string)
    requires RunOf(seg, plan, path).Some?
    ensures forall k :: 0 <= k < |seg| ==> seg[k].command in plan || seg[k].command == WorktreeRemove(path)
    decreases plan
  {
    if plan != [] {
      if seg[0].reply.ok {
        RunEventsFromPlan(seg[1..], plan[1..], path);
        assert forall k :: 1 <= k < |seg| ==> seg[k] == seg[1..][k - 1];
      } else if Caught(plan[0]) && path != RepoPath {
        assert seg[1..][0] == seg[1];
        assert |seg| == 2;
      } else {
        assert |seg| == 1;
      }
    }
  }

  /** A completed run of shell commands issues shell commands only and so removes nothing. */
  lemma CompletedShellRun(seg: seq<Event>, plan: seq<Command>, path: string)
    requires ShellOnly(plan) && RunOf(seg, plan, path) == Some(Done)
    ensures forall k :: 0 <= k < |seg| ==> seg[k].command.Shell?
    ensures Removals(seg, path) == 0
  {
    CompletedRunIsPlan(seg, plan, path);
    ShellOnlyRemovesNothing(seg, path);
  }
}
