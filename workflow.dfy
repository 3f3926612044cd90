/**
 * Properties of the four commands, stated on the run functions that the run
 * methods are proved to follow: the clean check comes first and a dirty tree
 * changes nothing, a finish writes, commits and finishes in that order and stops
 * at the first failure, the exit status is the failing command's own, and a
 * version that a start opens is the version that the finish publishes.
 */
module Workflow {
  import opened Options
  import opened RubyText
  import opened Versions
  import opened Metadata
  import opened Runner

  /** The action is one of the steps that changes the repository or the metadata file. */
  predicate Mutates(a: Action)
  {
    a.WriteMetadata? || a.command.FlowStart? || a.command.CommitBump? || a.command.FlowFinish?
  }

  /** The listed version a finish would publish, when the listing succeeds and the version is valid. */
  function ListedVersion(w: World, flow: Flow): string
  {
    Strip(w.listing(flow))
  }

  // ---------------------------------------------------------------------------
  // The clean check
  // ---------------------------------------------------------------------------

  /**
   * A tree with uncommitted changes stops both commands with status 1 after the
   * clean check and `git status -s`: no branch is started or finished, nothing is
   * committed and the metadata file is untouched.
   */
  lemma DirtyTreeStops(w: World, isNumeric: string -> bool, flow: Flow, cookbookVersion: string,
                       nameArgs: seq<string>, metadata: string)
    requires CanStart(cookbookVersion, nameArgs)
    requires w.status(DiffQuiet) != 0
    ensures StartRun(w, isNumeric, flow, cookbookVersion, nameArgs, metadata)
         == Run([Issue(DiffQuiet), Issue(StatusShort)], Exited(1), metadata)
    ensures FinishRun(w, isNumeric, flow, metadata)
         == Run([Issue(DiffQuiet), Issue(StatusShort)], Exited(1), metadata)
  {
  }

  /** Every step that changes something happens only in a clean tree. */
  lemma MutationNeedsCleanTree(w: World, isNumeric: string -> bool, flow: Flow, cookbookVersion: string,
                               nameArgs: seq<string>, metadata: string)
    requires CanStart(cookbookVersion, nameArgs)
    ensures var s := StartRun(w, isNumeric, flow, cookbookVersion, nameArgs, metadata);
      (exists k :: 0 <= k < |s.actions| && Mutates(s.actions[k])) ==> w.status(DiffQuiet) == 0
    ensures var f := FinishRun(w, isNumeric, flow, metadata);
      ((exists k :: 0 <= k < |f.actions| && Mutates(f.actions[k])) || f.metadata != metadata) ==> w.status(DiffQuiet) == 0
  {
    if w.status(DiffQuiet) != 0 {
      DirtyTreeStops(w, isNumeric, flow, cookbookVersion, nameArgs, metadata);
    }
  }

  // ---------------------------------------------------------------------------
  // Finish
  // ---------------------------------------------------------------------------

  /** The actions of a finish that reaches the git-flow finish, in order. */
  function FullFinish(flow: Flow, version: string, metadata: string): seq<Action>
  {
    [Issue(DiffQuiet), Issue(ShowToplevel), Issue(FlowList(flow)),
     WriteMetadata(Rewrite(metadata, version)), Issue(CommitBump(version)), Issue(FlowFinish(flow, version))]
  }

  /**
   * A finish that runs `git flow <flow> finish` has first checked the tree, found the
   * root, listed the branch, written the listed version into the metadata file and
   * committed it successfully; the version finished is the listed one.
   */
  lemma {:induction false} FinishOrder(w: World, isNumeric: string -> bool, flow: Flow, metadata: string,
                                       g: Flow, version: string)
    requires Issue(FlowFinish(g, version)) in FinishRun(w, isNumeric, flow, metadata).actions
    ensures g == flow && version == ListedVersion(w, flow)
    ensures ValidVersion(isNumeric, version)
    ensures w.status(CommitBump(version)) == 0
    ensures FinishRun(w, isNumeric, flow, metadata).actions == FullFinish(flow, version, metadata)
  {
    if !(w.status(DiffQuiet) == 0 && w.status(ShowToplevel) == 0 && FlowVersion(isNumeric, w, flow).Ok?) {
      FinishStoppedEarly(w, isNumeric, flow, metadata);
      assert false;
    } else if w.status(CommitBump(ListedVersion(w, flow))) != 0 {
      FailedCommitStops(w, isNumeric, flow, metadata);
      assert false;
    } else {
      FinishPastCommit(w, isNumeric, flow, metadata);
    }
  }

  /** A finish whose listing is valid and whose commit succeeds takes all six steps. */
  lemma FinishPastCommit(w: World, isNumeric: string -> bool, flow: Flow, metadata: string)
    requires w.status(DiffQuiet) == 0 && w.status(ShowToplevel) == 0
    requires FlowVersion(isNumeric, w, flow).Ok?
    requires w.status(CommitBump(ListedVersion(w, flow))) == 0
    ensures ValidVersion(isNumeric, ListedVersion(w, flow))
    ensures FinishRun(w, isNumeric, flow, metadata).actions == FullFinish(flow, ListedVersion(w, flow), metadata)
  {
    var r := FinishRun(w, isNumeric, flow, metadata);
    var v := ListedVersion(w, flow);
    var p := Publish(w, flow, v, metadata);
    assert r.actions == Prologue + [Issue(FlowList(flow))] + p.actions;
    assert p.actions == [WriteMetadata(Rewrite(metadata, v)), Issue(CommitBump(v)), Issue(FlowFinish(flow, v))];
  }

  /**
   * A failed commit ends the finish with the commit's exit status; the metadata
   * file has already been rewritten, and git-flow finish never runs.
   */
  lemma FailedCommitStops(w: World, isNumeric: string -> bool, flow: Flow, metadata: string)
    requires w.status(DiffQuiet) == 0 && w.status(ShowToplevel) == 0
    requires FlowVersion(isNumeric, w, flow).Ok?
    requires w.status(CommitBump(ListedVersion(w, flow))) != 0
    ensures var r := FinishRun(w, isNumeric, flow, metadata); var v := ListedVersion(w, flow);
      && r.outcome == Exited(w.status(CommitBump(v)))
      && r.metadata == Rewrite(metadata, v)
      && r.actions == FullFinish(flow, v, metadata)[..5]
      && forall g, u :: Issue(FlowFinish(g, u)) !in r.actions
  {
    var r := FinishRun(w, isNumeric, flow, metadata);
    var v := ListedVersion(w, flow);
    assert r.actions == FullFinish(flow, v, metadata)[..5];
  }

  /**
   * A listing that fails, or prints something that is not a valid version (the
   * empty string among them), stops the finish before the metadata file is written
   * or anything is committed: a failing listing raises, and so does a version whose
   * first key is not numeric; a version without three keys exits with status 1.
   */
  lemma InvalidListingStops(w: World, isNumeric: string -> bool, flow: Flow, metadata: string)
    requires w.status(DiffQuiet) == 0 && w.status(ShowToplevel) == 0
    requires w.status(FlowList(flow)) != 0 || !ValidVersion(isNumeric, ListedVersion(w, flow))
    ensures var r := FinishRun(w, isNumeric, flow, metadata);
      && r.actions == [Issue(DiffQuiet), Issue(ShowToplevel), Issue(FlowList(flow))]
      && r.metadata == metadata
      && r.outcome ==
         (if w.status(FlowList(flow)) != 0 || ValidationRaises(isNumeric, ListedVersion(w, flow)) then Raised else Exited(1))
  {
  }

  /** An empty listing (no current branch of that flow) exits with status 1 and writes nothing. */
  lemma EmptyListingStops(w: World, isNumeric: string -> bool, flow: Flow, metadata: string)
    requires w.status(DiffQuiet) == 0 && w.status(ShowToplevel) == 0 && w.status(FlowList(flow)) == 0
    requires ListedVersion(w, flow) == ""
    ensures var r := FinishRun(w, isNumeric, flow, metadata);
      r.outcome == Exited(1) && r.metadata == metadata && |r.actions| == 3
  {
    ValidatorRejectsArity(isNumeric);
    InvalidListingStops(w, isNumeric, flow, metadata);
  }

  /** The metadata file is written only with the listed, valid version, as the fourth action. */
  lemma FinishWritesListedVersion(w: World, isNumeric: string -> bool, flow: Flow, metadata: string)
    ensures var r := FinishRun(w, isNumeric, flow, metadata);
      (exists k :: 0 <= k < |r.actions| && r.actions[k].WriteMetadata?) ==>
        && w.status(DiffQuiet) == 0 && w.status(FlowList(flow)) == 0
        && ValidVersion(isNumeric, ListedVersion(w, flow))
        && r.metadata == Rewrite(metadata, ListedVersion(w, flow))
        && r.actions[3] == WriteMetadata(r.metadata)
  {
    var r := FinishRun(w, isNumeric, flow, metadata);
    if w.status(DiffQuiet) == 0 && w.status(ShowToplevel) == 0 && FlowVersion(isNumeric, w, flow).Ok? {
      var v := ListedVersion(w, flow);
      assert r.actions[3] == WriteMetadata(Rewrite(metadata, v));
    } else {
      FinishStoppedEarly(w, isNumeric, flow, metadata);
    }
  }

  /** A finish that stops before it has a valid listed version writes nothing. */
  lemma FinishStoppedEarly(w: World, isNumeric: string -> bool, flow: Flow, metadata: string)
    requires !(w.status(DiffQuiet) == 0 && w.status(ShowToplevel) == 0 && FlowVersion(isNumeric, w, flow).Ok?)
    ensures var r := FinishRun(w, isNumeric, flow, metadata);
      && r.metadata == metadata
      && forall k :: 0 <= k < |r.actions| ==>
           r.actions[k] in {Issue(DiffQuiet), Issue(StatusShort), Issue(ShowToplevel), Issue(FlowList(flow))}
  {
  }

  /** A finish that writes nothing leaves the metadata as it was. */
  lemma FinishKeepsMetadata(w: World, isNumeric: string -> bool, flow: Flow, metadata: string)
    ensures var r := FinishRun(w, isNumeric, flow, metadata);
      (forall k :: 0 <= k < |r.actions| ==> !r.actions[k].WriteMetadata?) ==> r.metadata == metadata
  {
    var r := FinishRun(w, isNumeric, flow, metadata);
    if w.status(DiffQuiet) == 0 && w.status(ShowToplevel) == 0 && FlowVersion(isNumeric, w, flow).Ok? {
      assert r.actions[3].WriteMetadata?;
    }
  }

  /** A finish completes exactly when every command succeeds and the listed version is valid. */
  lemma FinishCompletes(w: World, isNumeric: string -> bool, flow: Flow, metadata: string)
    ensures var v := ListedVersion(w, flow);
      FinishRun(w, isNumeric, flow, metadata).outcome == Completed <==>
        && w.status(DiffQuiet) == 0 && w.status(ShowToplevel) == 0 && w.status(FlowList(flow)) == 0
        && ValidVersion(isNumeric, v)
        && w.status(CommitBump(v)) == 0 && w.status(FlowFinish(flow, v)) == 0
  {
  }

  /**
   * When a finish exits, its status is not zero, and it is either the status 1 of
   * the clean check or of the version check, or the exit status of the command that
   * failed, which is the last one issued.
   */
  lemma FinishExitStatus(w: World, isNumeric: string -> bool, flow: Flow, metadata: string)
    ensures var r := FinishRun(w, isNumeric, flow, metadata);
      r.outcome.Exited? ==>
        && r.outcome.status != 0
        && ((r.outcome.status == 1 && (w.status(DiffQuiet) != 0 || !ValidVersion(isNumeric, ListedVersion(w, flow))))
            || (var last := r.actions[|r.actions| - 1];
                last.Issue? && (last.command.CommitBump? || last.command.FlowFinish?)
                && w.status(last.command) == r.outcome.status))
  {
  }

  // ---------------------------------------------------------------------------
  // Start
  // ---------------------------------------------------------------------------

  /**
   * A start runs `git flow <flow> start` exactly when the tree is clean, the root is
   * found and the bump gives a version; that version is the one started, and it is
   * the last action.
   */
  lemma StartOpensBumpedVersion(w: World, isNumeric: string -> bool, flow: Flow, cookbookVersion: string,
                                nameArgs: seq<string>, metadata: string, g: Flow, version: string)
    requires CanStart(cookbookVersion, nameArgs)
    ensures Issue(FlowStart(g, version)) in StartRun(w, isNumeric, flow, cookbookVersion, nameArgs, metadata).actions
      <==> && g == flow && w.status(DiffQuiet) == 0 && w.status(ShowToplevel) == 0
           && Bump(isNumeric, cookbookVersion, BumpType(nameArgs), nameArgs) == Ok(version)
    ensures Issue(FlowStart(g, version)) in StartRun(w, isNumeric, flow, cookbookVersion, nameArgs, metadata).actions
      ==> StartRun(w, isNumeric, flow, cookbookVersion, nameArgs, metadata).actions
          == [Issue(DiffQuiet), Issue(ShowToplevel), Issue(FlowStart(flow, version))]
  {
    var r := StartRun(w, isNumeric, flow, cookbookVersion, nameArgs, metadata);
    if w.status(DiffQuiet) == 0 && w.status(ShowToplevel) == 0 {
      var b := Bump(isNumeric, cookbookVersion, BumpType(nameArgs), nameArgs);
      if b.Ok? {
        assert r.actions == Prologue + [Issue(FlowStart(flow, b.value))];
      }
    }
  }

  /**
   * When a start exits, its status is not zero: status 1 for a dirty tree or for a
   * manual version that does not have three keys, otherwise the exit status of the
   * failed git-flow start.
   */
  lemma StartExitStatus(w: World, isNumeric: string -> bool, flow: Flow, cookbookVersion: string,
                        nameArgs: seq<string>, metadata: string)
    requires CanStart(cookbookVersion, nameArgs)
    ensures var r := StartRun(w, isNumeric, flow, cookbookVersion, nameArgs, metadata);
      r.outcome.Exited? ==>
        && r.outcome.status != 0
        && ((&& r.outcome.status == 1
             && (|| w.status(DiffQuiet) != 0
                 || (&& BumpType(nameArgs) == Some(Manual) && nameArgs != []
                     && |Split(nameArgs[|nameArgs| - 1], '.')| != 3)))
            || (var last := r.actions[|r.actions| - 1];
                last.Issue? && last.command.FlowStart? && w.status(last.command) == r.outcome.status))
  {
    var r := StartRun(w, isNumeric, flow, cookbookVersion, nameArgs, metadata);
    if w.status(DiffQuiet) == 0 && w.status(ShowToplevel) == 0 {
      var b := Bump(isNumeric, cookbookVersion, BumpType(nameArgs), nameArgs);
      if b.Stop? && b.outcome.Exited? {
        assert b.outcome == Exited(1);
      }
    }
  }

  /** A start completes exactly when every command succeeds and the bump gives a version. */
  lemma StartCompletes(w: World, isNumeric: string -> bool, flow: Flow, cookbookVersion: string,
                       nameArgs: seq<string>, metadata: string)
    requires CanStart(cookbookVersion, nameArgs)
    ensures var r := StartRun(w, isNumeric, flow, cookbookVersion, nameArgs, metadata);
      var b := Bump(isNumeric, cookbookVersion, BumpType(nameArgs), nameArgs);
      r.outcome == Completed <==>
        && w.status(DiffQuiet) == 0 && w.status(ShowToplevel) == 0
        && b.Ok? && w.status(FlowStart(flow, b.value)) == 0
  {
    var b := Bump(isNumeric, cookbookVersion, BumpType(nameArgs), nameArgs);
    if b.Stop? {
      BumpNeverCompletes(isNumeric, cookbookVersion, BumpType(nameArgs), nameArgs);
    }
  }

  /** A bump that stops does so by exiting or raising. */
  lemma BumpNeverCompletes(isNumeric: string -> bool, oldVersion: string, kind: Option<BumpKind>, nameArgs: seq<string>)
    requires kind != Some(Manual) ==> DigitKeys(oldVersion)
    ensures var b := Bump(isNumeric, oldVersion, kind, nameArgs); b.Stop? ==> b.outcome != Completed
  {
  }

  // ---------------------------------------------------------------------------
  // Start, then finish
  // ---------------------------------------------------------------------------

  /**
   * The hand-off between the two commands: when a start opens a branch for a bumped
   * version, and the branch listing later reports that version (with any surrounding
   * whitespace), a finish in a world where every command succeeds writes exactly
   * that version into the metadata file, commits it and finishes the same branch.
   */
  lemma StartThenFinish(w: World, isNumeric: string -> bool, flow: Flow, cookbookVersion: string,
                        nameArgs: seq<string>, metadata: string, later: World, version: string)
    requires FloatAxioms(isNumeric)
    requires CanStart(cookbookVersion, nameArgs)
    requires |Split(cookbookVersion, '.')| <= 3
    requires Issue(FlowStart(flow, version)) in StartRun(w, isNumeric, flow, cookbookVersion, nameArgs, metadata).actions
    requires ListedVersion(later, flow) == version
    requires forall c :: later.status(c) == 0
    ensures var r := FinishRun(later, isNumeric, flow, metadata);
      && r.outcome == Completed
      && r.metadata == Rewrite(metadata, version)
      && r.actions == FullFinish(flow, version, metadata)
  {
    StartOpensBumpedVersion(w, isNumeric, flow, cookbookVersion, nameArgs, metadata, flow, version);
    BumpedIsValid(isNumeric, cookbookVersion, BumpType(nameArgs), nameArgs);
    FinishWhenAllSucceed(later, isNumeric, flow, metadata);
  }

  /** In a world where every command succeeds, a finish of a valid listed version runs all six steps. */
  lemma FinishWhenAllSucceed(w: World, isNumeric: string -> bool, flow: Flow, metadata: string)
    requires ValidVersion(isNumeric, ListedVersion(w, flow))
    requires forall c :: w.status(c) == 0
    ensures var r := FinishRun(w, isNumeric, flow, metadata);
      && r.outcome == Completed
      && r.metadata == Rewrite(metadata, ListedVersion(w, flow))
      && r.actions == FullFinish(flow, ListedVersion(w, flow), metadata)
  {
    var version := ListedVersion(w, flow);
    var r := FinishRun(w, isNumeric, flow, metadata);
    assert w.status(DiffQuiet) == 0 && w.status(ShowToplevel) == 0 && w.status(FlowList(flow)) == 0;
    assert FlowVersion(isNumeric, w, flow) == Ok(version);
    assert w.status(CommitBump(version)) == 0 && w.status(FlowFinish(flow, version)) == 0;
    assert r.actions == FullFinish(flow, version, metadata);
  }
}
