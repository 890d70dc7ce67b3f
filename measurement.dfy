/**
 * `CodeSizeComparison`: measure the library sizes of two revisions, each in
 * its own checkout, and compare them. A revision other than "current" is
 * checked out into a temporary linked worktree that the run removes again;
 * "current" is measured in the live tree. Each revision's measurement is
 * returned as a value.
 */
module Measurement {
  import opened Wrappers
  import opened OrderedDict
  import opened BuildProfile
  import opened SizeReport
  import opened Comparison
  import opened Worktree

  /** The three archives measured, under the names the comparison reports them by. */
  const Artifacts: seq<string> := ["crypto", "x509", "tls"]

  const SizeCommands: seq<string> :=
    ["size -t library/libmbedcrypto.a", "size -t library/libmbedx509.a", "size -t library/libmbedtls.a"]

  /** `order` is an iteration order of the set `s`: each element once. */
  ghost predicate Enumerates(order: seq<string>, s: set<string>) {
    && (forall i, j :: 0 <= i < j < |order| ==> order[i] != order[j])
    && (set x | x in order) == s
  }

  lemma LogAppend(log: seq<Event>, a: seq<Event>, b: seq<Event>)
    ensures log + a + b == log + (a + b)
  {
  }

  /** Whether a step completed, forgetting the value it produced. */
  function Completion<T>(r: Result<T, Halt>): Status {
    if r.Success? then Done else Stopped(r.error)
  }

  /** What each event printed. */
  function Outputs(seg: seq<Event>): (texts: seq<string>)
    ensures |texts| == |seg| && forall i :: 0 <= i < |seg| ==> texts[i] == seg[i].reply.output
  {
    seq(|seg|, i requires 0 <= i < |seg| => seg[i].reply.output)
  }

  /** The commands `_create_git_worktree` issues. */
  function AcquirePlan(rev: string): seq<Command> {
    if rev == "current" then [] else [WorktreeAdd(WorktreePath(rev), rev)]
  }

  /** The commands `_remove_worktree` issues. */
  function ReleasePlan(path: string): seq<Command> {
    if path == RepoPath then [] else [WorktreeRemove(path)]
  }

  /** The three `size` runs of `_gen_code_size_report`, in the checkout. */
  function SizePlan(path: string): seq<Command> {
    [Shell(SizeTool, SizeCommands[0], path), Shell(SizeTool, SizeCommands[1], path), Shell(SizeTool, SizeCommands[2], path)]
  }

  /** One `config.py` call per option, in the given order. */
  function OptionCommands(verb: string, options: seq<string>, path: string): (plan: seq<Command>)
    ensures |plan| == |options|
    ensures forall i :: 0 <= i < |options| ==> plan[i] == Shell(ConfigTweak, TweakCommand(verb, options[i]), path)
  {
    seq(|options|, i requires 0 <= i < |options| => Shell(ConfigTweak, TweakCommand(verb, options[i]), path))
  }

  /** The snapshot of the three reports: each archive's report parsed, under its artifact name. */
  ghost predicate SnapshotOf(texts: seq<string>, snap: Snapshot)
    requires |texts| == 3
  {
    && snap.keys == Artifacts
    && snap.entries.Keys == {"crypto", "x509", "tls"}
    && ParsesTo(texts[0], snap.entries["crypto"])
    && ParsesTo(texts[1], snap.entries["x509"])
    && ParsesTo(texts[2], snap.entries["tls"])
  }

  /**
   * `seg` is a run of `_gen_code_size_report` in `path` with result `r`: the
   * three `size` calls, each caught; once all three succeed, the parse of
   * their outputs, whose IndexError nothing catches.
   */
  ghost predicate ReportStage(seg: seq<Event>, path: string, r: Result<Snapshot, Halt>) {
    match RunOf(seg, SizePlan(path), path)
    case None => false
    case Some(Stopped(h)) => r == Failure(h)
    case Some(Done) =>
      |seg| == 3 && Parsed(Outputs(seg), r)
  }

  /** A `size` stage that stopped gives its halt as the outcome. */
  lemma ReportStageHalted(seg: seq<Event>, path: string, h: Halt)
    requires RunOf(seg, SizePlan(path), path) == Some(Stopped(h))
    ensures ReportStage(seg, path, Failure(h))
  {
  }

  /** A `size` stage that completed gives the parse of its three reports. */
  lemma ReportStageParsed(seg: seq<Event>, path: string, r: Result<Snapshot, Halt>)
    requires RunOf(seg, SizePlan(path), path) == Some(Done) && |seg| == 3 && Parsed(Outputs(seg), r)
    ensures ReportStage(seg, path, r)
  {
  }

  /** `r` is the outcome of parsing the three reports: IndexError if any of them has a short data line, else their snapshot. */
  ghost predicate Parsed(texts: seq<string>, r: Result<Snapshot, Halt>)
    requires |texts| == 3
  {
    if ParseFails(texts[0]) || ParseFails(texts[1]) || ParseFails(texts[2]) then r == Failure(ParseFailed(IndexError))
    else r.Success? && SnapshotOf(texts, r.value)
  }

  /** The parsing half of `_gen_code_size_report`: each report in turn, under its artifact name. */
  method ParseReports(texts: seq<string>) returns (r: Result<Snapshot, Halt>)
    requires |texts| == 3
    ensures Parsed(texts, r)
  {
    var crypto := SizeTextToDict(texts[0]);
    if crypto.Failure? {
      return Failure(ParseFailed(IndexError));
    }
    var x509 := SizeTextToDict(texts[1]);
    if x509.Failure? {
      return Failure(ParseFailed(IndexError));
    }
    var tls := SizeTextToDict(texts[2]);
    if tls.Failure? {
      return Failure(ParseFailed(IndexError));
    }
    r := Success(Dict(Artifacts, map["crypto" := crypto.value, "x509" := x509.value, "tls" := tls.value]));
  }

  /** An enumeration of a set has one element per member of the set. */
  lemma {:induction false} EnumerationLength(order: seq<string>, s: set<string>)
    requires Enumerates(order, s)
    ensures |order| == |s|
    decreases |order|
  {
    if order != [] {
      var last := order[|order| - 1];
      var init := order[..|order| - 1];
      assert (set x | x in order) == (set x | x in init) + {last};
      assert last !in init;
      EnumerationLength(init, s - {last});
    }
  }

  /** The tweak sets one option and unsets seven. */
  lemma ArchConfigSizes()
    ensures |ArchConfigSet| == 1 && |ArchConfigUnset| == 7
  {
  }

  /** The position of an artifact in the snapshot and among the three reports. */
  function Index(artifact: string): nat
    ensures Index(artifact) < 3
  {
    if artifact == "crypto" then 0 else if artifact == "x509" then 1 else 2
  }

  /** The snapshot of three reports is a well-formed snapshot. */
  lemma SnapshotOfValid(texts: seq<string>, snap: Snapshot)
    requires |texts| == 3 && SnapshotOf(texts, snap)
    ensures ValidSnapshot(snap)
  {
    assert ValidSnapshot(snap) by {
      assert Valid(snap) by {
        ArtifactsDistinct();
        assert (set k | k in snap.keys) == {"crypto", "x509", "tls"};
      }
      assert Describes(Rows(texts[0]), snap.entries["crypto"]);
      assert Describes(Rows(texts[1]), snap.entries["x509"]);
      assert Describes(Rows(texts[2]), snap.entries["tls"]);
    }
  }

  /** The three artifact names are distinct. */
  lemma ArtifactsDistinct()
    ensures forall i, j :: 0 <= i < j < |Artifacts| ==> Artifacts[i] != Artifacts[j]
  {
    assert Artifacts[0][0] == 'c' && Artifacts[1][0] == 'x' && Artifacts[2][0] == 't';
  }

  /** `r` is the comparison of `newS` against `oldS`: its rows when every artifact and total is there, else the failure. */
  ghost predicate ComparisonOutcome(oldS: Snapshot, newS: Snapshot, r: Result<seq<(string, seq<Row>)>, Halt>) {
    && ValidSnapshot(newS)
    && (r.Success? <==> Comparable(oldS, newS))
    && (r.Success? ==> ReportMatches(oldS, newS, r.value))
    && (r.Failure? ==> r.error.CompareFailed?)
  }

  /** The events of one revision's measurement, stage by stage, the measured snapshot and the outcome. */
  datatype Trace = Trace(acquire: seq<Event>, build: seq<Event>, report: seq<Event>, release: seq<Event>,
                         measured: Result<Snapshot, Halt>, result: Result<Snapshot, Halt>)
  {
    function Events(): seq<Event> {
      acquire + build + report + release
    }
  }

  /**
   * The stages of a measurement of `rev` whose build issues `build`,
   * without what the reports parse to: each stage runs its plan once the
   * stage before it completed, a stage that stops gives the outcome, and a
   * completed `size` stage yields a snapshot or the parser's IndexError. The
   * checkout is removed only after a snapshot.
   */
  ghost predicate StagedWith(t: Trace, rev: string, build: seq<Command>) {
    var path := WorktreePath(rev);
    var a := RunOf(t.acquire, AcquirePlan(rev), path);
    var b := RunOf(t.build, build, path);
    var c := RunOf(t.report, SizePlan(path), path);
    var d := RunOf(t.release, ReleasePlan(path), path);
    && a.Some?
    && (a.value.Stopped? ==> t.build == [] && t.report == [] && t.release == [] && t.result == Failure(a.value.halt))
    && (a.value.Done? ==> b.Some?)
    && (a.value.Done? && b.value.Stopped? ==> t.report == [] && t.release == [] && t.result == Failure(b.value.halt))
    && (a.value.Done? && b.value.Done? ==> c.Some?)
    && (a.value.Done? && b.value.Done? && c.value.Stopped? ==>
          t.measured == Failure(c.value.halt) && t.release == [] && t.result == t.measured)
    && (a.value.Done? && b.value.Done? && c.value.Done? ==>
          t.measured.Success? || t.measured == Failure(ParseFailed(IndexError)))
    && (a.value.Done? && b.value.Done? && c.value.Done? && t.measured.Failure? ==>
          t.release == [] && t.result == t.measured)
    && (a.value.Done? && b.value.Done? && c.value.Done? && t.measured.Success? ==>
          d.Some? && t.result == if d.value.Stopped? then Failure(d.value.halt) else t.measured)
  }

  /** Two plans of shell commands make one. */
  lemma ShellOnlyConcat(a: seq<Command>, b: seq<Command>)
    requires ShellOnly(a) && ShellOnly(b)
    ensures ShellOnly(a + b)
  {
    assert forall k :: |a| <= k < |a| + |b| ==> (a + b)[k] == b[k - |a|];
  }

  /** A plan of shell commands removes no worktree. */
  lemma ShellOnlyPlanRemovesNothing(plan: seq<Command>)
    requires ShellOnly(plan)
    ensures RemovesNothing(plan)
  {
  }

  /** The `size` calls are shell commands, each of them caught. */
  lemma SizePlanShape(path: string)
    ensures ShellOnly(SizePlan(path)) && RemovesNothing(SizePlan(path))
    ensures forall c :: c in SizePlan(path) ==> Caught(c)
  {
  }

  /** The checkout of a revision other than "current": one `git worktree add`, which nothing catches. */
  lemma AcquireStage(t: Trace, rev: string, build: seq<Command>, worktrees: set<string>)
    requires rev != "current" && StagedWith(t, rev, build)
    ensures var path := WorktreePath(rev);
            && |t.acquire| == 1 && t.acquire[0].command == WorktreeAdd(path, rev)
            && RunOf(t.acquire, AcquirePlan(rev), path) == Some(if t.acquire[0].reply.ok then Done else Stopped(CommandFailed(WorktreeAdd(path, rev))))
            && Removals(t.acquire, path) == 0
            && Replay(worktrees, t.acquire) == if t.acquire[0].reply.ok then worktrees + {path} else worktrees
  {
    var path := WorktreePath(rev);
    SingleCommandRun(t.acquire, WorktreeAdd(path, rev), path);
    assert t.acquire[1..] == [];
  }

  /** The removal of the checkout after a snapshot: one `git worktree remove`, which nothing catches. */
  lemma ReleaseStage(t: Trace, rev: string, build: seq<Command>, worktrees: set<string>)
    requires rev != "current" && StagedWith(t, rev, build)
    requires RunOf(t.release, ReleasePlan(WorktreePath(rev)), WorktreePath(rev)).Some?
    ensures var path := WorktreePath(rev);
            && |t.release| == 1 && t.release[0].command == WorktreeRemove(path)
            && RunOf(t.release, ReleasePlan(path), path) == Some(if t.release[0].reply.ok then Done else Stopped(CommandFailed(WorktreeRemove(path))))
            && Removals(t.release, path) == 1
            && Replay(worktrees, t.release) == if t.release[0].reply.ok then worktrees - {path} else worktrees
  {
    var path := WorktreePath(rev);
    SingleCommandRun(t.release, WorktreeRemove(path), path);
    assert t.release[1..] == [];
  }

  /** `CodeSizeComparison.CheckoutLifecycle` for any build of shell commands. */
  lemma StagedLifecycle(t: Trace, rev: string, build: seq<Command>, worktrees: set<string>)
    requires rev != "current" && ShellOnly(build) && StagedWith(t, rev, build)
    requires WorktreePath(rev) !in worktrees
    ensures var path := WorktreePath(rev);
            Replay(worktrees, t.Events()) ==
              if t.result.Success? || t.result == Failure(Exit(ErrorExitCode))
                 || t.result == Failure(CommandFailed(WorktreeAdd(path, rev)))
              then worktrees else worktrees + {path}
  {
    var path := WorktreePath(rev);
    var added := worktrees + {path};
    assert added - {path} == worktrees;
    AcquireStage(t, rev, build, worktrees);
    ReplayAppend3(worktrees, t.acquire, t.build, t.report);
    ReplayAppend(worktrees, t.acquire + t.build + t.report, t.release);
    if t.acquire[0].reply.ok {
      var b := RunOf(t.build, build, path);
      ShellRunReplay(added, t.build, build, path, b.value);
      if b.value.Done? {
        var c := RunOf(t.report, SizePlan(path), path);
        SizePlanShape(path);
        ShellRunReplay(added, t.report, SizePlan(path), path, c.value);
        if c.value.Done? && t.measured.Success? {
          ReleaseStage(t, rev, build, added);
        }
      }
    }
  }

  /** `CodeSizeComparison.CaughtSizeFailureCleansUp` for any build of shell commands. */
  lemma StagedCaughtSizeFailure(t: Trace, rev: string, build: seq<Command>, i: nat)
    requires rev != "current" && ShellOnly(build) && StagedWith(t, rev, build)
    requires i < |t.report| && t.report[i].command.Shell? && !t.report[i].reply.ok
    ensures var path := WorktreePath(rev);
            && i == |t.report| - 2
            && t.report[|t.report| - 1].command == WorktreeRemove(path)
            && Removals(t.Events(), path) == 1
            && t.release == []
            && t.result == Failure(if t.report[|t.report| - 1].reply.ok then Exit(ErrorExitCode) else CommandFailed(WorktreeRemove(path)))
  {
    var path := WorktreePath(rev);
    AcquireStage(t, rev, build, {});
    assert t.acquire[0].reply.ok;
    assert RunOf(t.build, build, path) == Some(Done);
    CompletedShellRun(t.build, build, path);
    SizePlanShape(path);
    RunEventsFromPlan(t.report, SizePlan(path), path);
    CaughtFailureRemovesOnce(t.report, SizePlan(path), path, i);
    assert t.Events() == t.acquire + t.build + t.report;
    RemovalsAppend(t.acquire, t.build, path);
    RemovalsAppend(t.acquire + t.build, t.report, path);
  }

  /** `CodeSizeComparison.CaughtBuildFailureCleansUp` for any build of shell commands. */
  lemma StagedCaughtBuildFailure(t: Trace, rev: string, build: seq<Command>, i: nat)
    requires rev != "current" && ShellOnly(build) && StagedWith(t, rev, build)
    requires i < |t.build| && Caught(t.build[i].command) && !t.build[i].reply.ok
    ensures var path := WorktreePath(rev);
            && i == |t.build| - 2
            && t.build[|t.build| - 1].command == WorktreeRemove(path)
            && Removals(t.Events(), path) == 1
            && t.report == [] && t.release == []
            && t.result == Failure(if t.build[|t.build| - 1].reply.ok then Exit(ErrorExitCode) else CommandFailed(WorktreeRemove(path)))
  {
    var path := WorktreePath(rev);
    AcquireStage(t, rev, build, {});
    ShellOnlyPlanRemovesNothing(build);
    CaughtFailureRemovesOnce(t.build, build, path, i);
    assert t.Events() == t.acquire + t.build;
    RemovalsAppend(t.acquire, t.build, path);
  }

  /** The uncaught tweak failure, for any build of shell commands. */
  lemma StagedTweakFailure(t: Trace, rev: string, build: seq<Command>, worktrees: set<string>, i: nat)
    requires rev != "current" && ShellOnly(build) && StagedWith(t, rev, build)
    requires WorktreePath(rev) !in worktrees
    requires i < |t.build| && t.build[i].command.Shell? && t.build[i].command.step == ConfigTweak && !t.build[i].reply.ok
    ensures var path := WorktreePath(rev);
            && t.build[i].command in build
            && i == |t.build| - 1 && t.report == [] && t.release == []
            && t.result == Failure(CommandFailed(t.build[i].command))
            && Removals(t.Events(), path) == 0
            && Replay(worktrees, t.Events()) == worktrees + {path}
  {
    var path := WorktreePath(rev);
    AcquireStage(t, rev, build, worktrees);
    RunEventsFromPlan(t.build, build, path);
    ShellOnlyPlanRemovesNothing(build);
    TweakFailureLeavesCheckout(t.build, build, path, i);
    assert t.Events() == t.acquire + t.build;
    RemovalsAppend(t.acquire, t.build, path);
    StagedLifecycle(t, rev, build, worktrees);
  }

  /** The uncaught IndexError of the parser, for any build of shell commands. */
  lemma StagedParseFailure(t: Trace, rev: string, build: seq<Command>, worktrees: set<string>)
    requires rev != "current" && ShellOnly(build) && StagedWith(t, rev, build)
    requires WorktreePath(rev) !in worktrees
    requires t.result == Failure(ParseFailed(IndexError))
    ensures var path := WorktreePath(rev);
            && RunOf(t.report, SizePlan(path), path) == Some(Done)
            && t.release == []
            && Removals(t.Events(), path) == 0
            && Replay(worktrees, t.Events()) == worktrees + {path}
  {
    var path := WorktreePath(rev);
    AcquireStage(t, rev, build, worktrees);
    SizePlanShape(path);
    var b := RunOf(t.build, build, path);
    ShellRunReplay(worktrees, t.build, build, path, b.value);
    assert b == Some(Done);
    CompletedShellRun(t.build, build, path);
    var c := RunOf(t.report, SizePlan(path), path);
    ShellRunReplay(worktrees, t.report, SizePlan(path), path, c.value);
    assert c == Some(Done);
    CompletedShellRun(t.report, SizePlan(path), path);
    assert t.measured.Failure? by {
      if t.measured.Success? {
        ReleaseStage(t, rev, build, worktrees);
      }
    }
    assert t.Events() == t.acquire + t.build + t.report;
    RemovalsAppend(t.acquire, t.build, path);
    RemovalsAppend(t.acquire + t.build, t.report, path);
    StagedLifecycle(t, rev, build, worktrees);
  }

  /** A completed measurement in a checkout, for any build of shell commands. */
  lemma StagedSuccess(t: Trace, rev: string, build: seq<Command>, worktrees: set<string>)
    requires rev != "current" && ShellOnly(build) && StagedWith(t, rev, build)
    requires WorktreePath(rev) !in worktrees
    requires t.result.Success?
    ensures var path := WorktreePath(rev);
            && |t.acquire| == 1 && t.acquire[0].command == WorktreeAdd(path, rev) && t.acquire[0].reply.ok
            && |t.release| == 1 && t.release[0].command == WorktreeRemove(path) && t.release[0].reply.ok
            && Removals(t.Events(), path) == 1
            && Replay(worktrees, t.Events()) == worktrees
  {
    var path := WorktreePath(rev);
    AcquireStage(t, rev, build, worktrees);
    SizePlanShape(path);
    assert RunOf(t.build, build, path) == Some(Done);
    CompletedShellRun(t.build, build, path);
    assert RunOf(t.report, SizePlan(path), path) == Some(Done);
    CompletedShellRun(t.report, SizePlan(path), path);
    ReleaseStage(t, rev, build, worktrees);
    RemovalsAppend(t.acquire, t.build, path);
    RemovalsAppend(t.acquire + t.build, t.report, path);
    RemovalsAppend(t.acquire + t.build + t.report, t.release, path);
    StagedLifecycle(t, rev, build, worktrees);
  }

  /** Measuring "current" with any build of shell commands issues shell commands only. */
  lemma StagedLiveTree(t: Trace, build: seq<Command>, worktrees: set<string>)
    requires ShellOnly(build) && StagedWith(t, "current", build)
    ensures forall k :: 0 <= k < |t.Events()| ==> t.Events()[k].command.Shell?
    ensures Replay(worktrees, t.Events()) == worktrees
  {
    var path := WorktreePath("current");
    SizePlanShape(path);
    if t.build != [] {
      LiveTreeRunIsShellOnly(t.build, build);
    }
    if t.report != [] {
      LiveTreeRunIsShellOnly(t.report, SizePlan(path));
    }
    var events := t.Events();
    assert events == t.build + t.report;
    forall k | 0 <= k < |events|
      ensures events[k].command.Shell?
    {
      if k >= |t.build| {
        assert events[k] == t.report[k - |t.build|];
      }
    }
    ShellOnlyKeepsWorktrees(worktrees, events);
  }

  class CodeSizeComparison {
    const repo: Repository
    const oldRev: string
    const newRev: string
    const arch: Arch
    const config: Config
    const armcc: string
    const preBuild: string
    const makeCommand: string
    /** The order in which Python happens to iterate the two frozensets of options. */
    const setOrder: seq<string>
    const unsetOrder: seq<string>

    /** The fields `__init__` derives from the build profile. */
    ghost predicate Valid() {
      && preBuild == PreBuildCommand(config)
      && MakeCommand(arch, config, armcc) == Success(makeCommand)
      && Enumerates(setOrder, ArchConfigSet)
      && Enumerates(unsetOrder, ArchConfigUnset)
    }

    constructor (repo: Repository, oldRev: string, newRev: string, arch: Arch, config: Config, armcc: string,
                 setOrder: seq<string>, unsetOrder: seq<string>)
      requires Supported(arch, config)
      requires Enumerates(setOrder, ArchConfigSet) && Enumerates(unsetOrder, ArchConfigUnset)
      ensures Valid()
      ensures this.repo == repo && this.oldRev == oldRev && this.newRev == newRev
      ensures this.arch == arch && this.config == config && this.armcc == armcc
      ensures this.setOrder == setOrder && this.unsetOrder == unsetOrder
    {
      this.repo := repo;
      this.oldRev := oldRev;
      this.newRev := newRev;
      this.arch := arch;
      this.config := config;
      this.armcc := armcc;
      this.preBuild := PreBuildCommand(config);
      this.makeCommand := MakeCommand(arch, config, armcc).value;
      this.setOrder := setOrder;
      this.unsetOrder := unsetOrder;
    }

    /** `_tweak_config(ARCH_CONFIG_DICT, path)`: every "set" option, then every "unset" option. */
    function TweakPlan(path: string): seq<Command> {
      OptionCommands("set", setOrder, path) + OptionCommands("unset", unsetOrder, path)
    }

    /** The pre-build command, when there is one. */
    function PreBuildPlan(path: string): seq<Command> {
      if preBuild != "" then [Shell(PreBuild, preBuild, path)] else []
    }

    /** `_build_libraries(path)`: pre-build, the tweak for the cross targets' default configuration, make. */
    function BuildPlan(path: string): seq<Command> {
      PreBuildPlan(path) + (if NeedsArchTweak(arch, config) then TweakPlan(path) else []) + [Shell(Make, makeCommand, path)]
    }

    /**
     * The build issues shell commands only and ends with make. It starts with
     * the pre-build command exactly for the full and baremetal
     * configurations, and the tweak adds its eight `config.py` calls
     * exactly for the cross targets' default configuration.
     */
    lemma BuildPlanShape(path: string)
      requires Valid()
      ensures ShellOnly(BuildPlan(path))
      ensures BuildPlan(path)[|BuildPlan(path)| - 1] == Shell(Make, makeCommand, path)
      ensures BuildPlan(path)[0].step == PreBuild <==> config in {Full, Baremetal}
      ensures |BuildPlan(path)| == if config in {Full, Baremetal} then 2 else if NeedsArchTweak(arch, config) then 9 else 1
      ensures forall k :: 0 <= k < |BuildPlan(path)| && BuildPlan(path)[k].step == ConfigTweak ==> NeedsArchTweak(arch, config)
    {
      BuildPlanParts(path);
      BuildPlanLength(path);
    }

    /** The build plan is shell commands only and ends with make; only the tweak adds `config.py` calls. */
    lemma BuildPlanParts(path: string)
      ensures ShellOnly(BuildPlan(path))
      ensures BuildPlan(path)[|BuildPlan(path)| - 1] == Shell(Make, makeCommand, path)
      ensures forall k :: 0 <= k < |BuildPlan(path)| && BuildPlan(path)[k].step == ConfigTweak ==> NeedsArchTweak(arch, config)
    {
      var pre, make := PreBuildPlan(path), [Shell(Make, makeCommand, path)];
      var mid := if NeedsArchTweak(arch, config) then TweakPlan(path) else [];
      assert BuildPlan(path) == pre + mid + make;
      TweakPlanShape(path);
      ShellOnlyConcat(pre, mid);
      ShellOnlyConcat(pre + mid, make);
    }

    /** The length of the build plan and its first command, per configuration. */
    lemma BuildPlanLength(path: string)
      requires Valid()
      ensures BuildPlan(path)[0].Shell?
      ensures BuildPlan(path)[0].step == PreBuild <==> config in {Full, Baremetal}
      ensures |BuildPlan(path)| == if config in {Full, Baremetal} then 2 else if NeedsArchTweak(arch, config) then 9 else 1
    {
      EnumerationLength(setOrder, ArchConfigSet);
      EnumerationLength(unsetOrder, ArchConfigUnset);
      ArchConfigSizes();
      PreBuildOnlyForFullAndBaremetal(config);
      TweakPlanShape(path);
      if NeedsArchTweak(arch, config) {
        assert PreBuildPlan(path) == [];
      }
    }

    /** The tweak is `config.py` calls only, one per option. */
    lemma TweakPlanShape(path: string)
      ensures |TweakPlan(path)| == |setOrder| + |unsetOrder|
      ensures forall k :: 0 <= k < |TweakPlan(path)| ==> TweakPlan(path)[k].Shell? && TweakPlan(path)[k].step == ConfigTweak
    {
      var a, b := OptionCommands("set", setOrder, path), OptionCommands("unset", unsetOrder, path);
      assert forall k :: |a| <= k < |a| + |b| ==> (a + b)[k] == b[k - |a|];
    }

    /**
     * `t` is the run of `_get_code_size_for_rev(rev)`: create the checkout,
     * build, measure, remove the checkout. A stage that stops the script
     * leaves the later stages without events; the measurement, once the
     * three `size` calls completed, is the parse of their three reports.
     */
    ghost predicate RevisionRun(t: Trace, rev: string) {
      && Staged(t, rev)
      && (Measured(t, rev) ==> |t.report| == 3 && Parsed(Outputs(t.report), t.measured))
    }

    /** The checkout, the build and the three `size` calls all completed. */
    ghost predicate Measured(t: Trace, rev: string) {
      var path := WorktreePath(rev);
      && RunOf(t.acquire, AcquirePlan(rev), path) == Some(Done)
      && RunOf(t.build, BuildPlan(path), path) == Some(Done)
      && RunOf(t.report, SizePlan(path), path) == Some(Done)
    }

    /** The stages of a measurement of `rev`, with this comparison's build plan. */
    ghost predicate Staged(t: Trace, rev: string) {
      StagedWith(t, rev, BuildPlan(WorktreePath(rev)))
    }

    /** `_create_git_worktree(rev)`: the checkout path; `git worktree add` is not inside a `try`. */
    method CreateGitWorktree(rev: string) returns (r: Result<string, Halt>, ghost seg: seq<Event>)
      modifies repo
      ensures repo.log == old(repo.log) + seg
      ensures repo.worktrees == Replay(old(repo.worktrees), seg)
      ensures RunOf(seg, AcquirePlan(rev), WorktreePath(rev)) == Some(Completion(r))
      ensures r.Success? ==> r.value == WorktreePath(rev)
    {
      var path := WorktreePath(rev);
      if rev == "current" {
        seg := [];
        return Success(path), seg;
      }
      var reply := repo.Run(WorktreeAdd(path, rev));
      seg := [Event(WorktreeAdd(path, rev), reply)];
      if reply.ok {
        r := Success(path);
      } else {
        r := Failure(CommandFailed(WorktreeAdd(path, rev)));
      }
    }

    /** `_remove_worktree(path)`: nothing for the live tree; `git worktree remove` is not inside a `try`. */
    method RemoveWorktree(path: string) returns (r: Status, ghost seg: seq<Event>)
      modifies repo
      ensures repo.log == old(repo.log) + seg
      ensures repo.worktrees == Replay(old(repo.worktrees), seg)
      ensures RunOf(seg, ReleasePlan(path), path) == Some(r)
    {
      if path == RepoPath {
        seg := [];
        return Done, seg;
      }
      var reply := repo.Run(WorktreeRemove(path));
      seg := [Event(WorktreeRemove(path), reply)];
      r := if reply.ok then Done else Stopped(CommandFailed(WorktreeRemove(path)));
    }

    /** `_handle_called_process_error`: remove the checkout, then exit -1. */
    method HandleCalledProcessError(path: string) returns (h: Halt, ghost seg: seq<Event>)
      modifies repo
      ensures repo.log == old(repo.log) + seg
      ensures repo.worktrees == Replay(old(repo.worktrees), seg)
      ensures CleanupOf(seg, path) == Some(Stopped(h))
    {
      var removed;
      removed, seg := RemoveWorktree(path);
      h := if removed.Stopped? then removed.halt else Exit(ErrorExitCode);
    }

    /** A command run inside `try ... except CalledProcessError`: its output, or the cleanup. */
    method RunCaught(c: Command, path: string) returns (r: Result<string, Halt>, ghost seg: seq<Event>)
      requires Caught(c)
      modifies repo
      ensures repo.log == old(repo.log) + seg
      ensures repo.worktrees == Replay(old(repo.worktrees), seg)
      ensures RunOf(seg, [c], path) == Some(Completion(r))
      ensures r.Success? ==> seg == [Event(c, Reply(true, r.value))]
    {
      var reply := repo.Run(c);
      var e := Event(c, reply);
      if reply.ok {
        seg := [e];
        r := Success(reply.output);
      } else {
        ghost var wt := repo.worktrees;
        var h, rest := HandleCalledProcessError(path);
        seg := [e] + rest;
        assert seg[1..] == rest;
        r := Failure(h);
      }
    }

    /**
     * `_tweak_config(ARCH_CONFIG_DICT, path)`: for "set" and then "unset",
     * one `config.py` call per option; a failure is not caught.
     */
    method TweakConfig(path: string) returns (r: Status, ghost seg: seq<Event>)
      modifies repo
      ensures repo.log == old(repo.log) + seg
      ensures repo.worktrees == Replay(old(repo.worktrees), seg)
      ensures RunOf(seg, TweakPlan(path), path) == Some(r)
    {
      ghost var plan := TweakPlan(path);
      var groups := [("set", setOrder), ("unset", unsetOrder)];
      seg := [];
      ghost var done: nat := 0;
      for g := 0 to |groups|
        invariant done == (if g == 0 then 0 else if g == 1 then |setOrder| else |plan|)
        invariant repo.log == old(repo.log) + seg
        invariant repo.worktrees == old(repo.worktrees) == Replay(old(repo.worktrees), seg)
        invariant RunOf(seg, plan[..done], path) == Some(Done)
      {
        var verb, options := groups[g].0, groups[g].1;
        for i := 0 to |options|
          invariant done == (if g == 0 then 0 else |setOrder|) + i
          invariant repo.log == old(repo.log) + seg
          invariant repo.worktrees == old(repo.worktrees) == Replay(old(repo.worktrees), seg)
          invariant RunOf(seg, plan[..done], path) == Some(Done)
        {
          var c := Shell(ConfigTweak, TweakCommand(verb, options[i]), path);
          assert plan[done] == c;
          var reply := repo.Run(c);
          ghost var e := Event(c, reply);
          ghost var st := if reply.ok then Done else Stopped(CommandFailed(c));
          assert RunOf([e], [c], path) == Some(st);
          RunOfAppend(seg, plan[..done], [e], [c], path, st);
          assert plan[..done] + [c] == plan[..done + 1];
          ReplayAppend(old(repo.worktrees), seg, [e]);
          seg := seg + [e];
          done := done + 1;
          if !reply.ok {
            RunOfHaltPrefix(seg, plan, done, path, CommandFailed(c));
            return Stopped(CommandFailed(c)), seg;
          }
        }
      }
      assert plan[..done] == plan;
      r := Done;
    }

    /** `_build_libraries(path)`: the pre-build command and make are caught, the tweak is not. */
    method BuildLibraries(path: string) returns (r: Status, ghost seg: seq<Event>)
      modifies repo
      ensures repo.log == old(repo.log) + seg
      ensures repo.worktrees == Replay(old(repo.worktrees), seg)
      ensures RunOf(seg, BuildPlan(path), path) == Some(r)
    {
      ghost var p1, p2, p3 := PreBuildPlan(path), (if NeedsArchTweak(arch, config) then TweakPlan(path) else []), [Shell(Make, makeCommand, path)];
      ghost var log0, w0 := repo.log, repo.worktrees;
      ghost var s1: seq<Event> := [];
      ghost var s2: seq<Event> := [];
      ghost var s3: seq<Event> := [];
      r := Done;
      if preBuild != "" {
        var out;
        out, s1 := RunCaught(Shell(PreBuild, preBuild, path), path);
        r := Completion(out);
      }
      ghost var r1, log1, w1 := r, repo.log, repo.worktrees;
      assert RunOf(s1, p1, path) == Some(r1) && log1 == log0 + s1 && w1 == Replay(w0, s1);
      if r.Done? && NeedsArchTweak(arch, config) {
        r, s2 := TweakConfig(path);
      }
      ghost var r2, log2, w2 := r, repo.log, repo.worktrees;
      assert r1.Done? ==> RunOf(s2, p2, path) == Some(r2);
      assert log2 == log1 + s2 && w2 == Replay(w1, s2);
      if r.Done? {
        var made;
        made, s3 := RunCaught(Shell(Make, makeCommand, path), path);
        r := Completion(made);
      }
      assert r2.Done? ==> RunOf(s3, p3, path) == Some(r);
      assert repo.log == log2 + s3 && repo.worktrees == Replay(w2, s3);
      seg := s1 + s2 + s3;
      LogAppend(log0, s1, s2);
      LogAppend(log0, s1 + s2, s3);
      RunOfSequence3(s1, p1, s2, p2, s3, p3, path, r1, r2, r);
      ReplayAppend3(w0, s1, s2, s3);
    }

    /**
     * `_gen_code_size_report(path)`: `size -t` of each archive in turn, each
     * inside its own `try`; then the three reports parsed, in the same order.
     */
    method GenCodeSizeReport(path: string) returns (r: Result<Snapshot, Halt>, ghost seg: seq<Event>)
      modifies repo
      ensures repo.log == old(repo.log) + seg
      ensures repo.worktrees == Replay(old(repo.worktrees), seg)
      ensures ReportStage(seg, path, r)
    {
      ghost var plan := SizePlan(path);
      var texts: seq<string> := [];
      seg := [];
      for i := 0 to |SizeCommands|
        invariant repo.log == old(repo.log) + seg
        invariant repo.worktrees == Replay(old(repo.worktrees), seg)
        invariant RunOf(seg, plan[..i], path) == Some(Done)
        invariant |seg| == i && texts == Outputs(seg)
      {
        var c := Shell(SizeTool, SizeCommands[i], path);
        assert plan[i] == c;
        var out, s := RunCaught(c, path);
        RunOfAppend(seg, plan[..i], s, [c], path, Completion(out));
        assert plan[..i] + [c] == plan[..i + 1];
        ReplayAppend(old(repo.worktrees), seg, s);
        assert old(repo.log) + seg + s == old(repo.log) + (seg + s);
        seg := seg + s;
        if out.Failure? {
          RunOfHaltPrefix(seg, plan, i + 1, path, out.error);
          ReportStageHalted(seg, path, out.error);
          return Failure(out.error), seg;
        }
        texts := texts + [out.value];
      }
      assert plan[..3] == plan;
      r := ParseReports(texts);
      ReportStageParsed(seg, path, r);
    }

    /**
     * `_get_code_size_for_rev(rev)`: create the checkout, build, measure and
     * remove the checkout; the measurement is returned instead of being
     * stored in `old_sizes` or `new_sizes`.
     */
    method GetCodeSizeForRev(rev: string) returns (r: Result<Snapshot, Halt>, ghost t: Trace)
      modifies repo
      ensures repo.log == old(repo.log) + t.Events()
      ensures repo.worktrees == Replay(old(repo.worktrees), t.Events())
      ensures RevisionRun(t, rev)
      ensures r == t.result
    {
      ghost var wt := repo.worktrees;
      var created, s1 := CreateGitWorktree(rev);
      if created.Failure? {
        r := Failure(created.error);
        t := Trace(s1, [], [], [], r, r);
        assert t.Events() == s1;
        return r, t;
      }
      var path := created.value;
      var built, s2 := BuildLibraries(path);
      ReplayAppend(wt, s1, s2);
      LogAppend(old(repo.log), s1, s2);
      if built.Stopped? {
        r := Failure(built.halt);
        t := Trace(s1, s2, [], [], r, r);
        assert t.Events() == s1 + s2;
        return r, t;
      }
      var measured, s3 := GenCodeSizeReport(path);
      ReplayAppend(wt, s1 + s2, s3);
      LogAppend(old(repo.log), s1 + s2, s3);
      if measured.Failure? {
        t := Trace(s1, s2, s3, [], measured, measured);
        assert t.Events() == s1 + s2 + s3;
        return measured, t;
      }
      var removed, s4 := RemoveWorktree(path);
      ReplayAppend(wt, s1 + s2 + s3, s4);
      LogAppend(old(repo.log), s1 + s2 + s3, s4);
      r := if removed.Stopped? then Failure(removed.halt) else measured;
      t := Trace(s1, s2, s3, s4, measured, r);
    }

    /** A measurement that completed is a well-formed snapshot of the three reports. */
    lemma MeasuredSnapshotValid(t: Trace, rev: string)
      requires RevisionRun(t, rev) && t.result.Success?
      ensures t.measured == t.result && |t.report| == 3 && SnapshotOf(Outputs(t.report), t.result.value)
      ensures ValidSnapshot(t.result.value)
    {
      var path := WorktreePath(rev);
      assert RunOf(t.acquire, AcquirePlan(rev), path) == Some(Done);
      assert RunOf(t.build, BuildPlan(path), path) == Some(Done);
      assert t.measured.Success? && t.measured == t.result;
      assert ReportStage(t.report, path, t.measured);
      assert RunOf(t.report, SizePlan(path), path) == Some(Done);
      SnapshotOfValid(Outputs(t.report), t.result.value);
    }

    /**
     * `get_comparision_results`: measure the old revision, then the new one,
     * then compare. The baseline is what `old_sizes` holds at that point: the
     * old measurement, or the new one when both revisions are the same
     * string, since the second measurement is then stored in both fields.
     */
    method GetComparisonResults() returns (r: Result<seq<(string, seq<Row>)>, Halt>, ghost oldT: Trace, ghost newT: Trace)
      modifies repo
      ensures repo.log == old(repo.log) + oldT.Events() + newT.Events()
      ensures repo.worktrees == Replay(old(repo.worktrees), oldT.Events() + newT.Events())
      ensures RevisionRun(oldT, oldRev)
      ensures oldT.result.Failure? ==> newT.Events() == [] && r == Failure(oldT.result.error)
      ensures oldT.result.Success? ==> RevisionRun(newT, newRev)
      ensures oldT.result.Success? && newT.result.Failure? ==> r == Failure(newT.result.error)
      ensures oldT.result.Success? && newT.result.Success? ==>
                ComparisonOutcome(if oldRev == newRev then newT.result.value else oldT.result.value, newT.result.value, r)
    {
      ghost var wt := repo.worktrees;
      var oldSizes, newSizes;
      oldSizes, oldT := GetCodeSizeForRev(oldRev);
      if oldSizes.Failure? {
        newT := Trace([], [], [], [], oldSizes, oldSizes);
        assert oldT.Events() + newT.Events() == oldT.Events();
        return Failure(oldSizes.error), oldT, newT;
      }
      newSizes, newT := GetCodeSizeForRev(newRev);
      ReplayAppend(wt, oldT.Events(), newT.Events());
      if newSizes.Failure? {
        return Failure(newSizes.error), oldT, newT;
      }
      var baseline := if oldRev == newRev then newSizes.value else oldSizes.value;
      MeasuredSnapshotValid(newT, newRev);
      var report := CompareSnapshots(baseline, newSizes.value);
      r := if report.Failure? then Failure(CompareFailed(report.error)) else Success(report.value);
    }

    /** Measuring "current" issues shell commands only, so no worktree is created or removed. */
    lemma LiveTreeKeepsWorktrees(t: Trace, worktrees: set<string>)
      requires Valid() && Staged(t, "current")
      ensures forall k :: 0 <= k < |t.Events()| ==> t.Events()[k].command.Shell?
      ensures Replay(worktrees, t.Events()) == worktrees
    {
      BuildPlanShape(WorktreePath("current"));
      StagedLiveTree(t, BuildPlan(WorktreePath("current")), worktrees);
    }


    /**
     * What a measurement in a temporary checkout leaves behind: the
     * worktrees are as before when the checkout could not be created, when
     * the run completed, and when a caught failure was cleaned up (exit -1);
     * after any other outcome (a failed tweak, the parser's IndexError, a
     * removal that failed) the checkout is left behind.
     */
    lemma CheckoutLifecycle(t: Trace, rev: string, worktrees: set<string>)
      requires Valid() && rev != "current" && Staged(t, rev)
      requires WorktreePath(rev) !in worktrees
      ensures var path := WorktreePath(rev);
              Replay(worktrees, t.Events()) ==
                if t.result.Success? || t.result == Failure(Exit(ErrorExitCode))
                   || t.result == Failure(CommandFailed(WorktreeAdd(path, rev)))
                then worktrees else worktrees + {path}
    {
      BuildPlanShape(WorktreePath(rev));
      StagedLifecycle(t, rev, BuildPlan(WorktreePath(rev)), worktrees);
    }

    /**
     * A failed pre-build or make command in a temporary checkout is followed
     * by exactly one removal of that checkout, and the script stops: with
     * exit -1, or with the removal's own error; nothing is measured.
     */
    lemma CaughtBuildFailureCleansUp(t: Trace, rev: string, i: nat)
      requires Valid() && rev != "current" && Staged(t, rev)
      requires i < |t.build| && Caught(t.build[i].command) && !t.build[i].reply.ok
      ensures var path := WorktreePath(rev);
              && i == |t.build| - 2
              && t.build[|t.build| - 1].command == WorktreeRemove(path)
              && Removals(t.Events(), path) == 1
              && t.report == [] && t.release == []
              && t.result == Failure(if t.build[|t.build| - 1].reply.ok then Exit(ErrorExitCode) else CommandFailed(WorktreeRemove(path)))
    {
      BuildPlanShape(WorktreePath(rev));
      StagedCaughtBuildFailure(t, rev, BuildPlan(WorktreePath(rev)), i);
    }

    /** The same for a failed `size` call: one removal, then the script stops before parsing. */
    lemma CaughtSizeFailureCleansUp(t: Trace, rev: string, i: nat)
      requires Valid() && rev != "current" && Staged(t, rev)
      requires i < |t.report| && t.report[i].command.Shell? && !t.report[i].reply.ok
      ensures var path := WorktreePath(rev);
              && i == |t.report| - 2
              && t.report[|t.report| - 1].command == WorktreeRemove(path)
              && Removals(t.Events(), path) == 1
              && t.release == []
              && t.result == Failure(if t.report[|t.report| - 1].reply.ok then Exit(ErrorExitCode) else CommandFailed(WorktreeRemove(path)))
    {
      BuildPlanShape(WorktreePath(rev));
      StagedCaughtSizeFailure(t, rev, BuildPlan(WorktreePath(rev)), i);
    }

    /**
     * A failed `config.py` call of the tweak is not caught: it is the last
     * event, nothing is removed, and the checkout is left behind. Only the
     * cross targets' default configuration gets that far.
     */
    lemma TweakFailureOrphansCheckout(t: Trace, rev: string, worktrees: set<string>, i: nat)
      requires Valid() && rev != "current" && Staged(t, rev)
      requires WorktreePath(rev) !in worktrees
      requires i < |t.build| && t.build[i].command.Shell? && t.build[i].command.step == ConfigTweak && !t.build[i].reply.ok
      ensures var path := WorktreePath(rev);
              && NeedsArchTweak(arch, config)
              && i == |t.build| - 1 && t.report == [] && t.release == []
              && t.result == Failure(CommandFailed(t.build[i].command))
              && Removals(t.Events(), path) == 0
              && Replay(worktrees, t.Events()) == worktrees + {path}
    {
      var path := WorktreePath(rev);
      BuildPlanShape(path);
      StagedTweakFailure(t, rev, BuildPlan(path), worktrees, i);
    }

    /**
     * The parser's IndexError is not caught: it comes after the three `size`
     * calls completed, nothing is removed, and the checkout is left behind.
     */
    lemma ParseFailureOrphansCheckout(t: Trace, rev: string, worktrees: set<string>)
      requires Valid() && rev != "current" && Staged(t, rev)
      requires WorktreePath(rev) !in worktrees
      requires t.result == Failure(ParseFailed(IndexError))
      ensures var path := WorktreePath(rev);
              && RunOf(t.report, SizePlan(path), path) == Some(Done)
              && t.release == []
              && Removals(t.Events(), path) == 0
              && Replay(worktrees, t.Events()) == worktrees + {path}
    {
      BuildPlanShape(WorktreePath(rev));
      StagedParseFailure(t, rev, BuildPlan(WorktreePath(rev)), worktrees);
    }

    /**
     * A completed measurement of a revision other than "current" adds its
     * checkout once, removes it once at the end, and leaves the worktrees as
     * they were.
     */
    lemma SuccessfulRunRestoresWorktrees(t: Trace, rev: string, worktrees: set<string>)
      requires Valid() && rev != "current" && Staged(t, rev)
      requires WorktreePath(rev) !in worktrees
      requires t.result.Success?
      ensures var path := WorktreePath(rev);
              && |t.acquire| == 1 && t.acquire[0].command == WorktreeAdd(path, rev) && t.acquire[0].reply.ok
              && |t.release| == 1 && t.release[0].command == WorktreeRemove(path) && t.release[0].reply.ok
              && Removals(t.Events(), path) == 1
              && Replay(worktrees, t.Events()) == worktrees
    {
      BuildPlanShape(WorktreePath(rev));
      StagedSuccess(t, rev, BuildPlan(WorktreePath(rev)), worktrees);
    }
  }

  /**
   * `CodeSizeComparison(...)`: `__init__` picks the build command, and a
   * pair outside the matrix ends the process with exit -1 before any
   * command runs.
   */
  method NewComparison(repo: Repository, oldRev: string, newRev: string, arch: Arch, config: Config, armcc: string,
                       setOrder: seq<string>, unsetOrder: seq<string>)
    returns (r: Result<CodeSizeComparison, Halt>)
    requires Enumerates(setOrder, ArchConfigSet) && Enumerates(unsetOrder, ArchConfigUnset)
    ensures r.Failure? <==> !Supported(arch, config)
    ensures r.Failure? ==> r.error == Exit(UnsupportedExitCode) && repo.log == old(repo.log)
    ensures r.Success? ==> fresh(r.value) && r.value.Valid() && r.value.repo == repo
                           && r.value.arch == arch && r.value.config == config && r.value.armcc == armcc
                           && r.value.oldRev == oldRev && r.value.newRev == newRev
  {
    if MakeCommand(arch, config, armcc).Failure? {
      return Failure(Exit(UnsupportedExitCode));
    }
    var c := new CodeSizeComparison(repo, oldRev, newRev, arch, config, armcc, setOrder, unsetOrder);
    r := Success(c);
  }
}
