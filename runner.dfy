/**
 * The four knife commands `gitflow hotfix start`, `gitflow hotfix finish`,
 * `gitflow release start` and `gitflow release finish`, and the Runner helpers they
 * share. The outside world (git, git-flow, the metadata file) is a `Workspace`
 * object: it answers each command with an exit status fixed by its `World`, and it
 * records every command issued and every write of the metadata file in `trace`.
 * Each run method is proved equal to a pure run function (`StartRun`, `FinishRun`),
 * and the workflow properties are lemmas about those functions.
 */
module Runner {
  import opened Options
  import opened RubyText
  import opened Versions
  import opened Metadata

  /** The two git-flow branch families the plugin drives. */
  datatype Flow = Hotfix | Release

  /** The external commands the plugin runs. */
  datatype Command =
    | DiffQuiet                                // git diff --quiet HEAD
    | StatusShort                              // git status -s
    | ShowToplevel                             // git rev-parse --show-toplevel
    | FlowList(flow: Flow)                     // git flow <flow> list | awk '/^\* / {print $2}'
    | FlowStart(flow: Flow, version: string)   // git flow <flow> start <version>
    | CommitBump(version: string)              // git commit -m 'Bump version <version>' metadata.rb
    | FlowFinish(flow: Flow, version: string)  // git flow <flow> finish -m <version> <version>

  /** What a run does to the outside world, in order. */
  datatype Action = Issue(command: Command) | WriteMetadata(contents: string)

  /** How the outside world answers: the exit status of each command, and what the branch listing prints. */
  datatype World = World(status: Command -> int, listing: Flow -> string)

  /** The whole effect of one command: what it did, how it ended, and the metadata file afterwards. */
  datatype Run = Run(actions: seq<Action>, outcome: Outcome, metadata: string)

  /** The working copy a command runs in. */
  class Workspace {
    const world: World
    var trace: seq<Action>
    var metadata: string

    constructor (world: World, metadata: string)
      ensures this.world == world && trace == [] && this.metadata == metadata
    {
      this.world := world;
      trace := [];
      this.metadata := metadata;
    }

    /** Runs an external command and gives its exit status, `$?.exitstatus`. */
    method Execute(cmd: Command) returns (status: int)
      modifies this`trace
      ensures trace == old(trace) + [Issue(cmd)]
      ensures status == world.status(cmd)
    {
      trace := trace + [Issue(cmd)];
      status := world.status(cmd);
    }

    /** Runs the branch listing of `flow` and gives what it printed and its exit status. */
    method List(flow: Flow) returns (output: string, status: int)
      modifies this`trace
      ensures trace == old(trace) + [Issue(FlowList(flow))]
      ensures output == world.listing(flow) && status == world.status(FlowList(flow))
    {
      status := Execute(FlowList(flow));
      output := world.listing(flow);
    }

    /** Replaces the contents of the metadata file. */
    method Write(contents: string)
      modifies this
      ensures trace == old(trace) + [WriteMetadata(contents)]
      ensures metadata == contents
    {
      trace := trace + [WriteMetadata(contents)];
      metadata := contents;
    }
  }

  // ---------------------------------------------------------------------------
  // Runner helpers
  // ---------------------------------------------------------------------------

  /** The actions of a clean check: a dirty tree is also shown with `git status -s`. */
  function CleanCheckActions(w: World): seq<Action>
  {
    if w.status(DiffQuiet) == 0 then [Issue(DiffQuiet)] else [Issue(DiffQuiet), Issue(StatusShort)]
  }

  /** `check_git_clean!`: a tree with uncommitted changes ends the command with status 1. */
  method CheckGitClean(ws: Workspace) returns (halt: Option<Outcome>)
    modifies ws`trace
    ensures ws.trace == old(ws.trace) + CleanCheckActions(ws.world)
    ensures halt == None <==> ws.world.status(DiffQuiet) == 0
    ensures halt.Some? ==> halt.value == Exited(1)
  {
    var status := ws.Execute(DiffQuiet);
    if status != 0 {
      var _ := ws.Execute(StatusShort);
      return Some(Exited(1));
    }
    return None;
  }

  /** `get_git_root`: a failing `git rev-parse` raises. */
  method GetGitRoot(ws: Workspace) returns (halt: Option<Outcome>)
    modifies ws`trace
    ensures ws.trace == old(ws.trace) + [Issue(ShowToplevel)]
    ensures halt == (if ws.world.status(ShowToplevel) == 0 then None else Some(Raised))
  {
    var status := ws.Execute(ShowToplevel);
    if status != 0 {
      return Some(Raised);
    }
    return None;
  }

  /** What `get_gitflow_hotfix_version` / `get_gitflow_release_version` give for a world. */
  function FlowVersion(isNumeric: string -> bool, w: World, flow: Flow): (r: Result<string>)
    ensures r.Ok? ==> r.value == Strip(w.listing(flow)) && ValidVersion(isNumeric, r.value)
    ensures r.Ok? <==> w.status(FlowList(flow)) == 0 && ValidVersion(isNumeric, Strip(w.listing(flow)))
    ensures r.Stop? ==>
              r.outcome == if w.status(FlowList(flow)) != 0 || ValidationRaises(isNumeric, Strip(w.listing(flow)))
                           then Raised else Exited(1)
  {
    if w.status(FlowList(flow)) != 0 then Stop(Raised)
    else
      var version := Strip(w.listing(flow));
      match ValidateVersion(isNumeric, Some(version))
      case Some(halt) => Stop(halt)
      case None => Ok(version)
  }

  /**
   * `get_gitflow_hotfix_version` and `get_gitflow_release_version`: the version of
   * the current branch, as printed by the listing with whitespace stripped; a
   * failing listing raises, a version without three keys ends with status 1, and
   * one whose first key is not numeric raises in the validator.
   */
  method GetFlowVersion(ws: Workspace, isNumeric: string -> bool, flow: Flow) returns (r: Result<string>)
    modifies ws`trace
    ensures ws.trace == old(ws.trace) + [Issue(FlowList(flow))]
    ensures r == FlowVersion(isNumeric, ws.world, flow)
  {
    var output, status := ws.List(flow);
    if status != 0 {
      return Stop(Raised);
    }
    var version := Strip(output);
    var halt := ValidateVersion(isNumeric, Some(version));
    if halt.Some? {
      return Stop(halt.value);
    }
    return Ok(version);
  }

  /** `update_metadata_version`: every version declaration of the metadata file now holds `version`. */
  method UpdateMetadataVersion(ws: Workspace, version: string)
    modifies ws
    ensures ws.trace == old(ws.trace) + [WriteMetadata(Rewrite(old(ws.metadata), version))]
    ensures ws.metadata == Rewrite(old(ws.metadata), version)
  {
    var contents := Rewrite(ws.metadata, version);
    ws.Write(contents);
  }

  /** The outcome of a command that ends the run with its own exit status when it fails. */
  function ExitOnFailure(status: int): (halt: Option<Outcome>)
    ensures halt.None? <==> status == 0
    ensures halt.Some? ==> halt.value.Exited? && halt.value.status == status != 0
  {
    if status != 0 then Some(Exited(status)) else None
  }

  /** `commit_bump_version!`: a failed commit ends the run with the commit's exit status. */
  method CommitBumpVersion(ws: Workspace, version: string) returns (halt: Option<Outcome>)
    modifies ws`trace
    ensures ws.trace == old(ws.trace) + [Issue(CommitBump(version))]
    ensures halt == ExitOnFailure(ws.world.status(CommitBump(version)))
  {
    var status := ws.Execute(CommitBump(version));
    halt := ExitOnFailure(status);
  }

  /** `gitflow_start_hotfix` and `gitflow_start_release`: a failed start ends the run with its exit status. */
  method GitflowStart(ws: Workspace, flow: Flow, version: string) returns (halt: Option<Outcome>)
    modifies ws`trace
    ensures ws.trace == old(ws.trace) + [Issue(FlowStart(flow, version))]
    ensures halt == ExitOnFailure(ws.world.status(FlowStart(flow, version)))
  {
    var status := ws.Execute(FlowStart(flow, version));
    halt := ExitOnFailure(status);
  }

  /** `gitflow_finish_hotfix!` and `gitflow_finish_release!`: a failed finish ends the run with its exit status. */
  method GitflowFinish(ws: Workspace, flow: Flow, version: string) returns (halt: Option<Outcome>)
    modifies ws`trace
    ensures ws.trace == old(ws.trace) + [Issue(FlowFinish(flow, version))]
    ensures halt == ExitOnFailure(ws.world.status(FlowFinish(flow, version)))
  {
    var status := ws.Execute(FlowFinish(flow, version));
    halt := ExitOnFailure(status);
  }

  // ---------------------------------------------------------------------------
  // The commands
  // ---------------------------------------------------------------------------

  /** The prefix every command shares: the clean check and the git root lookup. */
  const Prologue: seq<Action> := [Issue(DiffQuiet), Issue(ShowToplevel)]

  /** A start command may run: the cookbook version is made of digit keys unless the bump is manual. */
  predicate CanStart(cookbookVersion: string, nameArgs: seq<string>)
  {
    BumpType(nameArgs) != Some(Manual) ==> DigitKeys(cookbookVersion)
  }

  /**
   * What `gitflow <flow> start` does: check the tree is clean, find the git root,
   * bump the cookbook's version as the arguments say, and start a branch for it.
   * It never writes the metadata file.
   */
  function StartRun(w: World, isNumeric: string -> bool, flow: Flow, cookbookVersion: string,
                    nameArgs: seq<string>, metadata: string): (r: Run)
    requires CanStart(cookbookVersion, nameArgs)
    ensures r.metadata == metadata
    ensures forall k :: 0 <= k < |r.actions| ==> !r.actions[k].WriteMetadata?
    ensures r.actions != [] && r.actions[0] == Issue(DiffQuiet)
  {
    if w.status(DiffQuiet) != 0 then Run(CleanCheckActions(w), Exited(1), metadata)
    else if w.status(ShowToplevel) != 0 then Run(Prologue, Raised, metadata)
    else
      match Bump(isNumeric, cookbookVersion, BumpType(nameArgs), nameArgs)
      case Stop(outcome) => Run(Prologue, outcome, metadata)
      case Ok(version) =>
        var halt := ExitOnFailure(w.status(FlowStart(flow, version)));
        Run(Prologue + [Issue(FlowStart(flow, version))], if halt.Some? then halt.value else Completed, metadata)
  }

  /** The run of `gitflow <flow> start` (the `run` of GitflowHotfixStart and GitflowReleaseStart). */
  method Start(ws: Workspace, isNumeric: string -> bool, flow: Flow, cookbookVersion: string, nameArgs: seq<string>)
    returns (outcome: Outcome)
    requires CanStart(cookbookVersion, nameArgs)
    modifies ws
    ensures var r := StartRun(ws.world, isNumeric, flow, cookbookVersion, nameArgs, old(ws.metadata));
      ws.trace == old(ws.trace) + r.actions && outcome == r.outcome && ws.metadata == r.metadata
  {
    var halt := CheckGitClean(ws);
    if halt.Some? {
      return halt.value;
    }
    halt := GetGitRoot(ws);
    if halt.Some? {
      return halt.value;
    }
    var bumped := BumpVersion(isNumeric, cookbookVersion, BumpType(nameArgs), nameArgs);
    if bumped.Stop? {
      return bumped.outcome;
    }
    halt := GitflowStart(ws, flow, bumped.value);
    if halt.Some? {
      return halt.value;
    }
    return Completed;
  }

  /**
   * The second half of `gitflow <flow> finish`, once the version is known: write it
   * into the metadata file, commit the file, and finish the branch.
   */
  function Publish(w: World, flow: Flow, version: string, metadata: string): (r: Run)
    ensures r.metadata == Rewrite(metadata, version)
  {
    var written := Rewrite(metadata, version);
    var committed := [WriteMetadata(written), Issue(CommitBump(version))];
    match ExitOnFailure(w.status(CommitBump(version)))
    case Some(halt) => Run(committed, halt, written)
    case None =>
      var halt := ExitOnFailure(w.status(FlowFinish(flow, version)));
      Run(committed + [Issue(FlowFinish(flow, version))], if halt.Some? then halt.value else Completed, written)
  }

  /** Writes, commits and finishes, as `Publish` says. */
  method PublishVersion(ws: Workspace, flow: Flow, version: string) returns (outcome: Outcome)
    modifies ws
    ensures var r := Publish(ws.world, flow, version, old(ws.metadata));
      ws.trace == old(ws.trace) + r.actions && outcome == r.outcome && ws.metadata == r.metadata
  {
    UpdateMetadataVersion(ws, version);
    var halt := CommitBumpVersion(ws, version);
    if halt.Some? {
      return halt.value;
    }
    halt := GitflowFinish(ws, flow, version);
    if halt.Some? {
      return halt.value;
    }
    return Completed;
  }

  /** What `gitflow <flow> finish` does after the prologue: read the version of the current branch, then publish it. */
  function FinishBranch(w: World, isNumeric: string -> bool, flow: Flow, metadata: string): (r: Run)
    ensures r.actions != [] && r.actions[0] == Issue(FlowList(flow))
  {
    match FlowVersion(isNumeric, w, flow)
    case Stop(outcome) => Run([Issue(FlowList(flow))], outcome, metadata)
    case Ok(version) =>
      var p := Publish(w, flow, version, metadata);
      Run([Issue(FlowList(flow))] + p.actions, p.outcome, p.metadata)
  }

  /** Reads the branch version and publishes it, as `FinishBranch` says. */
  method FinishCurrentBranch(ws: Workspace, isNumeric: string -> bool, flow: Flow) returns (outcome: Outcome)
    modifies ws
    ensures var r := FinishBranch(ws.world, isNumeric, flow, old(ws.metadata));
      ws.trace == old(ws.trace) + r.actions && outcome == r.outcome && ws.metadata == r.metadata
  {
    ghost var before := ws.trace;
    var version := GetFlowVersion(ws, isNumeric, flow);
    if version.Stop? {
      assert FinishBranch(ws.world, isNumeric, flow, ws.metadata) == Run([Issue(FlowList(flow))], version.outcome, ws.metadata);
      return version.outcome;
    }
    ghost var middle := ws.trace;
    ghost var p := Publish(ws.world, flow, version.value, ws.metadata);
    assert FinishBranch(ws.world, isNumeric, flow, ws.metadata) == Run([Issue(FlowList(flow))] + p.actions, p.outcome, p.metadata);
    outcome := PublishVersion(ws, flow, version.value);
    assert ws.trace == middle + p.actions;
    assert ws.trace == before + ([Issue(FlowList(flow))] + p.actions);
  }

  /**
   * What `gitflow <flow> finish` does: check the tree is clean, find the git root,
   * read the version of the current branch, then publish it.
   */
  function FinishRun(w: World, isNumeric: string -> bool, flow: Flow, metadata: string): (r: Run)
    ensures r.actions != [] && r.actions[0] == Issue(DiffQuiet)
  {
    if w.status(DiffQuiet) != 0 then Run(CleanCheckActions(w), Exited(1), metadata)
    else if w.status(ShowToplevel) != 0 then Run(Prologue, Raised, metadata)
    else
      var f := FinishBranch(w, isNumeric, flow, metadata);
      Run(Prologue + f.actions, f.outcome, f.metadata)
  }

  /** The run of `gitflow <flow> finish` (the `run` of GitflowHotfixFinish and GitflowReleaseFinish). */
  method Finish(ws: Workspace, isNumeric: string -> bool, flow: Flow) returns (outcome: Outcome)
    modifies ws
    ensures var r := FinishRun(ws.world, isNumeric, flow, old(ws.metadata));
      ws.trace == old(ws.trace) + r.actions && outcome == r.outcome && ws.metadata == r.metadata
  {
    var halt := CheckGitClean(ws);
    if halt.Some? {
      return halt.value;
    }
    halt := GetGitRoot(ws);
    if halt.Some? {
      return halt.value;
    }
    ghost var f := FinishBranch(ws.world, isNumeric, flow, ws.metadata);
    assert FinishRun(ws.world, isNumeric, flow, ws.metadata) == Run(Prologue + f.actions, f.outcome, f.metadata);
    ghost var before := ws.trace;
    outcome := FinishCurrentBranch(ws, isNumeric, flow);
    assert ws.trace == before + f.actions;
  }

  /** `knife gitflow hotfix start [major|minor|patch|manual [version]]`. */
  method HotfixStart(ws: Workspace, isNumeric: string -> bool, cookbookVersion: string, nameArgs: seq<string>)
    returns (outcome: Outcome)
    requires CanStart(cookbookVersion, nameArgs)
    modifies ws
    ensures var r := StartRun(ws.world, isNumeric, Hotfix, cookbookVersion, nameArgs, old(ws.metadata));
      ws.trace == old(ws.trace) + r.actions && outcome == r.outcome && ws.metadata == r.metadata
  {
    outcome := Start(ws, isNumeric, Hotfix, cookbookVersion, nameArgs);
  }

  /** `knife gitflow hotfix finish`. */
  method HotfixFinish(ws: Workspace, isNumeric: string -> bool) returns (outcome: Outcome)
    modifies ws
    ensures var r := FinishRun(ws.world, isNumeric, Hotfix, old(ws.metadata));
      ws.trace == old(ws.trace) + r.actions && outcome == r.outcome && ws.metadata == r.metadata
  {
    outcome := Finish(ws, isNumeric, Hotfix);
  }

  /** `knife gitflow release start [major|minor|patch|manual [version]]`. */
  method ReleaseStart(ws: Workspace, isNumeric: string -> bool, cookbookVersion: string, nameArgs: seq<string>)
    returns (outcome: Outcome)
    requires CanStart(cookbookVersion, nameArgs)
    modifies ws
    ensures var r := StartRun(ws.world, isNumeric, Release, cookbookVersion, nameArgs, old(ws.metadata));
      ws.trace == old(ws.trace) + r.actions && outcome == r.outcome && ws.metadata == r.metadata
  {
    outcome := Start(ws, isNumeric, Release, cookbookVersion, nameArgs);
  }

  /** `knife gitflow release finish`. */
  method ReleaseFinish(ws: Workspace, isNumeric: string -> bool) returns (outcome: Outcome)
    modifies ws
    ensures var r := FinishRun(ws.world, isNumeric, Release, old(ws.metadata));
      ws.trace == old(ws.trace) + r.actions && outcome == r.outcome && ws.metadata == r.metadata
  {
    outcome := Finish(ws, isNumeric, Release);
  }
}
