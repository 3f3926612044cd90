# knife-gitflow hotfix and release commands, modelled in Dafny

knife-gitflow is a Chef `knife` plugin that wraps git-flow for cookbooks. This
project models its four commands from `lib/chef/knife/gitflow_hotfix.rb`:

- `knife gitflow hotfix start` and `knife gitflow release start [major|minor|patch|manual [version]]`
  check that the work tree is clean, find the git root, bump the cookbook's
  version, and run `git flow <hotfix|release> start <new version>`;
- `knife gitflow hotfix finish` and `knife gitflow release finish` check the tree,
  find the root, read the version of the current branch from `git flow <kind> list`,
  validate it, write it into `metadata.rb`, commit that file, and run
  `git flow <kind> finish`.

The project is split into these modules:

| file | module | what it holds |
|---|---|---|
| `options.dfy` | `Options` | the `Option` type |
| `ruby_text.dfy` | `RubyText` | Ruby's `String#split` on one character (trailing empty fields dropped), `Array#join`, `Integer#to_s`/`String#to_i` on digit strings, and `String#strip` |
| `versions.dfy` | `Versions` | `TYPE_INDEX`, `bump_type`, `bump_version`, `manual_bump_version`, `valid_version?` and `validate_version!` |
| `metadata.dfy` | `Metadata` | the `gsub` that rewrites the `version '…'` declaration of `metadata.rb` |
| `runner.dfy` | `Runner` | the git helpers, the four `run` methods, and a `Workspace` class holding the shell's record of issued commands and the metadata file |
| `workflow.dfy` | `Workflow` | properties of whole runs: order, stopping at the first failure, exit statuses, start-then-finish |

How the model treats the outside world:

- Every shell command is a value of `Runner.Command`. A `Runner.World` fixes the exit
  status of each command and the text that `git flow <kind> list | awk …` prints.
  The command's status becomes the model of `$?.exitstatus`.
- How a run ends is an `Outcome`. `Completed` means the command returned.
  `Exited(n)` is `exit n`. `Raised` is an uncaught exception: a `raise`, or the
  `NoMethodError`/`TypeError` of `nil` arithmetic or `nil.split`.
- `Float(k)` is the parameter `isNumeric`. This avoids encoding Ruby's float
  grammar. The lemmas that need facts about it assume only `Versions.FloatAxioms`:
  the empty string is not numeric, a string of digits is, and a string of letters is not.
- Each `run` method of the four command classes is a module-level method that
  takes a `Workspace` and is proved to produce exactly the actions, outcome and metadata of a pure run
  function (`StartRun`, `FinishRun`). The properties in `Workflow` are stated on
  those functions.

`valid_version?` (line 266) is modelled as Ruby runs it. In
`begin Float(k); rescue false; else true; end`, the `false` after `rescue` is
the clause's list of exception classes, not the value the clause returns. When
`Float` rejects a key, Ruby raises a `TypeError` at that clause, and nothing
catches it. So `any?` stops at the first key either way. A version with three
keys is valid when `Float` accepts the first key, and the check raises
otherwise. A version with any other number of keys is invalid and ends the run
with status 1. The commands in this model follow that behaviour. The evidently
intended check, true when any key is numeric, is logged under "## Findings".

## Model

| member | source | states |
|---|---|---|
| RubyText.Split | lib/chef/knife/gitflow_hotfix.rb:265 | the definition of `String#split` on one character: the raw fields with trailing empty fields dropped; its properties are `SplitShape`, `SplitJoin` and `JoinSplit` |
| RubyText.Join | lib/chef/knife/gitflow_hotfix.rb:251 | the definition of `Array#join`; its properties are `JoinFields`, `SplitJoin` and `JoinSplit` |
| RubyText.DigitsValue | lib/chef/knife/gitflow_hotfix.rb:246 | the definition of `String#to_i` on a string of digits; `DecimalRoundTrip` relates it to `Decimal` |
| RubyText.Strip | lib/chef/knife/gitflow_hotfix.rb:152 | the definition of `String#strip`; `StripShape` states what it keeps |
| RubyText.Fields | lib/chef/knife/gitflow_hotfix.rb:265 | splitting on a separator always yields at least one field |
| RubyText.FieldsShape | lib/chef/knife/gitflow_hotfix.rb:265 | no field of a split contains the separator |
| RubyText.SplitShape | lib/chef/knife/gitflow_hotfix.rb:265 | after `split('.')` drops trailing empty fields, no part holds a dot and the last part is non-empty |
| RubyText.JoinFields | lib/chef/knife/gitflow_hotfix.rb:243-251 | joining the raw fields of a split restores the string |
| RubyText.FieldsJoin | lib/chef/knife/gitflow_hotfix.rb:243-251 | the raw fields of a join of separator-free parts are those parts |
| RubyText.SplitJoin | lib/chef/knife/gitflow_hotfix.rb:246-251 | `join('.')` then `split('.')` gives back separator-free parts whose last part is non-empty |
| RubyText.JoinSplit | lib/chef/knife/gitflow_hotfix.rb:243 | `split('.')` then `join('.')` gives the string back exactly when it does not end with a dot |
| RubyText.Decimal | lib/chef/knife/gitflow_hotfix.rb:251 | an integer's decimal text is non-empty digits without a dot, with a leading 0 only for zero |
| RubyText.DecimalRoundTrip | lib/chef/knife/gitflow_hotfix.rb:246 | `to_i` of an integer's decimal text is that integer |
| RubyText.TrimStartShape | lib/chef/knife/gitflow_hotfix.rb:152 | leading strip removes exactly the whitespace prefix |
| RubyText.TrimEndShape | lib/chef/knife/gitflow_hotfix.rb:152 | trailing strip removes exactly the whitespace suffix |
| RubyText.StripShape | lib/chef/knife/gitflow_hotfix.rb:152 | `strip` returns an infix with only whitespace around it and no whitespace at either end |
| Versions.ValidVersion | lib/chef/knife/gitflow_hotfix.rb:264-268 | the definition of `valid_version?` returning true: three keys, and `Float` accepts the first; `CheckVersion` and `ValidThreeKeys` state it |
| Versions.ValidationRaises | lib/chef/knife/gitflow_hotfix.rb:266 | the definition of `valid_version?` raising: three keys, and `Float` rejects the first |
| Versions.CheckVersion | lib/chef/knife/gitflow_hotfix.rb:264-268 | the definition of `valid_version?`, of which `ValidVersion` and `ValidationRaises` name the outcomes: it is true exactly for a valid version, false exactly when the key count is not three, and raises exactly when the first of three keys is not numeric |
| Versions.ValidateVersion | lib/chef/knife/gitflow_hotfix.rb:270-275 | the validator lets the run go on exactly when the version is nil or valid; otherwise it raises when the first of three keys is not numeric and exits with status 1 when there are not three keys |
| Versions.ValidNeedsThreeKeys | lib/chef/knife/gitflow_hotfix.rb:264-268 | a version whose split does not have exactly three keys is neither valid nor raising, and makes the validator exit 1 |
| Versions.ValidThreeKeys | lib/chef/knife/gitflow_hotfix.rb:265-266 | for three dot-free keys, the last non-empty, only the first key is read: the check is true when `Float` accepts it and raises otherwise, and the validator goes on or raises accordingly |
| Versions.ValidatorAccepts | lib/chef/knife/gitflow_hotfix.rb:264-268 | `1.2.3` and `1.x.y` are valid |
| Versions.ValidatorRaisesOnLetters | lib/chef/knife/gitflow_hotfix.rb:264-275 | the validator raises on `a.b.c` and on `x.1.y` |
| Versions.ValidatorRejectsArity | lib/chef/knife/gitflow_hotfix.rb:264-268 | the validator exits with status 1 on `1.2`, `1.2.3.4` and the empty string |
| Versions.IntendedValidVersion | lib/chef/knife/gitflow_hotfix.rb:266 | the definition of the evidently intended check, with `rescue; false`: three keys, any one of them numeric |
| Versions.IntendedValidThreeKeys | lib/chef/knife/gitflow_hotfix.rb:266 | the intended check accepts three dot-free keys exactly when the first, the second or the third is numeric |
| Versions.WrittenCheckAgreesOrRaises | lib/chef/knife/gitflow_hotfix.rb:266 | every version the check as written accepts is accepted by the intended one, and where the two differ the check as written raises |
| Versions.RescueClauseRaises | lib/chef/knife/gitflow_hotfix.rb:266 | `x.1.y` is meant to pass and `a.b.c` is meant to be rejected, but the validator as written raises on both |
| Versions.Bump | lib/chef/knife/gitflow_hotfix.rb:240-262 | the definition of `bump_version` with `bump_type`'s index and `manual_bump_version`; `BumpVersion` implements it, and `BumpComponents`, `BumpTriple`, `BumpIncreases`, `BumpManual`, `BumpUnknownKind` and `BumpedIsValid` state its properties |
| Versions.TypeIndex | lib/chef/knife/gitflow_hotfix.rb:134 | a token maps to the bump kind of that name, and to nil when no kind has that name |
| Versions.BumpType | lib/chef/knife/gitflow_hotfix.rb:254-256 | no argument means patch; otherwise there is a kind exactly when the first argument names one, and it is that kind |
| Versions.TypeIndexTable | lib/chef/knife/gitflow_hotfix.rb:134 | every kind's name maps back to it, and the indices are major 0, minor 1, patch 2, manual 3 |
| Versions.ToInts | lib/chef/knife/gitflow_hotfix.rb:246 | `collect(&:to_i)` keeps one integer per key |
| Versions.ToStrings | lib/chef/knife/gitflow_hotfix.rb:251 | each integer's text is a non-empty digit string without a dot |
| Versions.ResetFromShape | lib/chef/knife/gitflow_hotfix.rb:248 | the reset loop zeroes every slot from the given index up to 2, growing the array when needed, and keeps the other slots |
| Versions.IncrementedShape | lib/chef/knife/gitflow_hotfix.rb:246-248 | after the bump the bumped slot is one more, the slots before it are unchanged, and the slots after it up to 2 are 0 |
| Versions.IncrementedIsGreater | lib/chef/knife/gitflow_hotfix.rb:246-248 | the bumped components are lexicographically greater than the old ones |
| Versions.BumpVersion | lib/chef/knife/gitflow_hotfix.rb:240-252 | the array algorithm (increment, reset loop, join; or the manual split and join) computes exactly the bump function, including its stops |
| Versions.NumeralsRoundTrip | lib/chef/knife/gitflow_hotfix.rb:246-251 | joining integers with dots and splitting and `to_i`-ing again gives the same integers back |
| Versions.TripleText | lib/chef/knife/gitflow_hotfix.rb:251 | a three-component version is the three decimal texts joined by dots |
| Versions.BumpComponents | lib/chef/knife/gitflow_hotfix.rb:244-251 | a non-manual bump fails with an exception exactly when the old version has no key at the bumped index, and otherwise joins the incremented integers |
| Versions.BumpTriple | lib/chef/knife/gitflow_hotfix.rb:240-252 | from a.b.c a patch bump gives a.b.(c+1), a minor bump a.(b+1).0 and a major bump (a+1).0.0 |
| Versions.TripleExamples | lib/chef/knife/gitflow_hotfix.rb:251 | the texts of 1.2.3, 1.2.4, 1.3.0 and 2.0.0 |
| Versions.TripleOfDigits | lib/chef/knife/gitflow_hotfix.rb:251 | a version of three one-digit components is those digits with dots between them |
| Versions.BumpExamples | lib/chef/knife/gitflow_hotfix.rb:240-256 | 1.2.3 becomes 1.2.4, 1.3.0 and 2.0.0 under patch, minor and major |
| Versions.BumpManual | lib/chef/knife/gitflow_hotfix.rb:258-262 | a manual bump ignores the old version; an invalid last argument raises when its first key is not numeric and exits 1 when it has not three keys, and a valid one is returned unchanged exactly when it does not end with a dot |
| Versions.BumpUnknownKind | lib/chef/knife/gitflow_hotfix.rb:254-256 | an unknown first argument gives nil from the table and the bump raises |
| Versions.BumpIncreases | lib/chef/knife/gitflow_hotfix.rb:246-251 | a major, minor or patch bump succeeds exactly when the bumped index exists, and the result reads back as the old components incremented, which are lexicographically greater |
| Versions.BumpedIsValid | lib/chef/knife/gitflow_hotfix.rb:264-268 | every version a bump produces from a version of at most three keys passes `valid_version?` |
| Metadata.Span | lib/chef/knife/gitflow_hotfix.rb:279 | a greedy character-class run stays within the string |
| Metadata.SpanShape | lib/chef/knife/gitflow_hotfix.rb:279 | a greedy run consists of class characters and stops at the end or at a character outside the class |
| Metadata.IsMatch | lib/chef/knife/gitflow_hotfix.rb:279 | the definition of a match of `(version\s+['"])[0-9\.]+(['"])` at the start of a text, given where the literal opens and closes |
| Metadata.MatchAt | lib/chef/knife/gitflow_hotfix.rb:279 | the definition of the greedy regex match at one scan position; `MatchAtSound` and `MatchAtComplete` tie it to `IsMatch` |
| Metadata.Rewrite | lib/chef/knife/gitflow_hotfix.rb:279 | the definition of the `gsub` scan; `RewriteSingleDeclaration`, `RewriteNoMatch`, `RewriteOverwrites` and `RewriteIdempotent` state its properties |
| Metadata.MatchAtSound | lib/chef/knife/gitflow_hotfix.rb:279 | a match found at the scan position is a match of `(version\s+['"])[0-9\.]+(['"])` |
| Metadata.SpanExact | lib/chef/knife/gitflow_hotfix.rb:279 | a run of class characters ended by a non-class character is exactly the greedy run |
| Metadata.MatchAtComplete | lib/chef/knife/gitflow_hotfix.rb:279 | every match of the pattern at the scan position is the one found, so the greedy scan misses no match |
| Metadata.MatchIsLocal | lib/chef/knife/gitflow_hotfix.rb:279 | a match depends only on the characters it covers |
| Metadata.MatchHasOneV | lib/chef/knife/gitflow_hotfix.rb:279 | a match starts with `v` and contains no other `v` |
| Metadata.RewriteAtMatch | lib/chef/knife/gitflow_hotfix.rb:279 | one step of the gsub scan: at a match, the first group is kept, the literal is replaced by the new version, the closing quote is kept, and the scan resumes after it |
| Metadata.RewriteAtNoMatch | lib/chef/knife/gitflow_hotfix.rb:279 | one step of the gsub scan: where no match starts, the character is copied and the scan moves on |
| Metadata.RewriteStartsWithV | lib/chef/knife/gitflow_hotfix.rb:279 | a rewrite of text starting with a match still starts with `v` |
| Metadata.RewriteSkips | lib/chef/knife/gitflow_hotfix.rb:279 | text before the first match is copied unchanged |
| Metadata.RewriteNoMatch | lib/chef/knife/gitflow_hotfix.rb:279 | a file with no version declaration is left unchanged |
| Metadata.RewriteSingleDeclaration | lib/chef/knife/gitflow_hotfix.rb:279 | in a file with exactly one declaration, only its quoted literal is replaced by the new version |
| Metadata.NoMatchInSuffix | lib/chef/knife/gitflow_hotfix.rb:279 | a suffix of a match-free stretch is match-free |
| Metadata.RewriteAgrees | lib/chef/knife/gitflow_hotfix.rb:279 | up to the first `v` of the rewritten text, the rewrite agrees with its input |
| Metadata.LiteralSwapKeepsMatch | lib/chef/knife/gitflow_hotfix.rb:279 | swapping the literal of a match for another digits-and-dots literal leaves a match around the new literal |
| Metadata.CopyMakesNoMatch | lib/chef/knife/gitflow_hotfix.rb:279 | copying a character where no match starts creates no match there |
| Metadata.RewriteAddsNoMatch | lib/chef/knife/gitflow_hotfix.rb:279 | where no match starts, the rewrite starts with the same character and no match starts there either |
| Metadata.RewriteKeepsMatch | lib/chef/knife/gitflow_hotfix.rb:279 | where a match starts, the rewrite with a digits-and-dots literal keeps the prefix and the closing quote, and a match starts there around the new literal |
| Metadata.RewriteOverwrites | lib/chef/knife/gitflow_hotfix.rb:279 | writing a digits-and-dots literal and then another version is the same as writing the second one directly |
| Metadata.RewriteIdempotent | lib/chef/knife/gitflow_hotfix.rb:279 | writing the same digits-and-dots version twice changes nothing the second time |
| Runner.Workspace.Execute | lib/chef/knife/gitflow_hotfix.rb:166-167 | running a command appends it to the trace and returns its exit status |
| Runner.Workspace.List | lib/chef/knife/gitflow_hotfix.rb:150-151 | the listing command is recorded and its output and status are returned |
| Runner.Workspace.Write | lib/chef/knife/gitflow_hotfix.rb:280 | writing the metadata file records the write and replaces the contents |
| Runner.CleanCheckActions | lib/chef/knife/gitflow_hotfix.rb:170-176 | the definition of the commands `check_git_clean!` issues: `git diff --quiet HEAD`, then `git status -s` when the tree is dirty; `CheckGitClean` and `DirtyTreeStops` use it |
| Runner.CheckGitClean | lib/chef/knife/gitflow_hotfix.rb:165-176 | the run goes on exactly when `git diff --quiet HEAD` succeeds; otherwise `git status -s` runs and the run exits 1 |
| Runner.GetGitRoot | lib/chef/knife/gitflow_hotfix.rb:137-141 | `git rev-parse --show-toplevel` runs, and a non-zero status raises |
| Runner.FlowVersion | lib/chef/knife/gitflow_hotfix.rb:149-163 | the version is the stripped listing exactly when the listing succeeds and it is valid; a failed listing raises, and so does a three-key version whose first key is not numeric; a version without three keys exits 1 |
| Runner.GetFlowVersion | lib/chef/knife/gitflow_hotfix.rb:149-163 | the method runs the listing and returns what the version function describes |
| Runner.UpdateMetadataVersion | lib/chef/knife/gitflow_hotfix.rb:277-283 | the metadata file becomes the rewrite of its old contents with the new version |
| Runner.ExitOnFailure | lib/chef/knife/gitflow_hotfix.rb:180-183 | a zero status goes on, and a non-zero one exits with that very status |
| Runner.CommitBumpVersion | lib/chef/knife/gitflow_hotfix.rb:178-184 | the commit is issued and a failure exits with its status |
| Runner.GitflowStart | lib/chef/knife/gitflow_hotfix.rb:186-230 | `git flow <kind> start <version>` is issued and a failure exits with its status |
| Runner.GitflowFinish | lib/chef/knife/gitflow_hotfix.rb:205-238 | `git flow <kind> finish` is issued for the version and a failure exits with its status |
| Runner.StartRun | lib/chef/knife/gitflow_hotfix.rb:38-49 | a start never writes or changes the metadata file and always begins with the clean check |
| Runner.Start | lib/chef/knife/gitflow_hotfix.rb:38-49 | the start method issues exactly the actions of the start run, ends with its outcome and leaves the metadata file alone |
| Runner.Publish | lib/chef/knife/gitflow_hotfix.rb:73-75 | publishing a version leaves the metadata file rewritten with it |
| Runner.PublishVersion | lib/chef/knife/gitflow_hotfix.rb:73-75 | the method writes, commits and finishes as the publish function says |
| Runner.FinishBranch | lib/chef/knife/gitflow_hotfix.rb:71-75 | the part of a finish after the root lookup starts by listing the branch |
| Runner.FinishCurrentBranch | lib/chef/knife/gitflow_hotfix.rb:71-75 | the method follows that function's actions, outcome and metadata |
| Runner.FinishRun | lib/chef/knife/gitflow_hotfix.rb:62-76 | a finish always begins with the clean check |
| Runner.Finish | lib/chef/knife/gitflow_hotfix.rb:62-76 | the finish method issues exactly the actions of the finish run and ends with its outcome and metadata |
| Runner.HotfixStart | lib/chef/knife/gitflow_hotfix.rb:38-49 | `knife gitflow hotfix start` is the start run on the hotfix flow |
| Runner.HotfixFinish | lib/chef/knife/gitflow_hotfix.rb:62-76 | `knife gitflow hotfix finish` is the finish run on the hotfix flow |
| Runner.ReleaseStart | lib/chef/knife/gitflow_hotfix.rb:90-101 | `knife gitflow release start` is the start run on the release flow |
| Runner.ReleaseFinish | lib/chef/knife/gitflow_hotfix.rb:114-128 | `knife gitflow release finish` is the finish run on the release flow |
| Workflow.DirtyTreeStops | lib/chef/knife/gitflow_hotfix.rb:170-176 | with uncommitted changes both commands run only the two status commands, exit 1 and leave the metadata file alone |
| Workflow.MutationNeedsCleanTree | lib/chef/knife/gitflow_hotfix.rb:40-75 | every write, commit, branch start or finish happens only in a clean tree |
| Workflow.FinishOrder | lib/chef/knife/gitflow_hotfix.rb:65-75 | a finish that reaches `git flow finish` has listed a valid version, written it, committed it successfully, and finishes that same version, in that order |
| Workflow.FailedCommitStops | lib/chef/knife/gitflow_hotfix.rb:178-184 | a failed commit exits with its status after the write, and no branch is finished |
| Workflow.FinishPastCommit | lib/chef/knife/gitflow_hotfix.rb:71-75 | a finish whose listing is valid and whose commit succeeds takes all six steps, in order, on the listed version |
| Workflow.InvalidListingStops | lib/chef/knife/gitflow_hotfix.rb:149-163 | a failed listing raises, and so does a listed version whose first key is not numeric; a version without three keys exits 1; all before any write |
| Workflow.EmptyListingStops | lib/chef/knife/gitflow_hotfix.rb:149-155 | when no branch is listed the finish exits 1 after three commands and writes nothing |
| Workflow.FinishWritesListedVersion | lib/chef/knife/gitflow_hotfix.rb:71-73 | whenever a finish writes the metadata file it writes the listed, valid version as the fourth action |
| Workflow.FinishStoppedEarly | lib/chef/knife/gitflow_hotfix.rb:65-71 | a finish stopped before the version is known only ran read-only commands and changed nothing |
| Workflow.FinishKeepsMetadata | lib/chef/knife/gitflow_hotfix.rb:73 | a finish that issues no write leaves the metadata file as it was |
| Workflow.FinishCompletes | lib/chef/knife/gitflow_hotfix.rb:62-76 | a finish completes exactly when every command it runs succeeds and the listed version is valid |
| Workflow.FinishExitStatus | lib/chef/knife/gitflow_hotfix.rb:62-76 | a finish exits non-zero, with 1 from the clean check or the validator and otherwise with the last command's own status |
| Workflow.StartOpensBumpedVersion | lib/chef/knife/gitflow_hotfix.rb:38-49 | a start opens a branch exactly when the tree is clean, the root is found and the bump succeeds, and the branch is for the bumped version |
| Workflow.StartExitStatus | lib/chef/knife/gitflow_hotfix.rb:38-49 | a start exits non-zero: with 1 for a dirty tree or a manual version without three keys, otherwise with the failing `git flow start`'s status |
| Workflow.StartCompletes | lib/chef/knife/gitflow_hotfix.rb:38-49 | a start completes exactly when the clean check, the root lookup, the bump and `git flow start` all succeed |
| Workflow.BumpNeverCompletes | lib/chef/knife/gitflow_hotfix.rb:240-262 | a bump that stops never stops by completing the command |
| Workflow.StartThenFinish | lib/chef/knife/gitflow_hotfix.rb:38-76 | a version that a start opened from a version of at most three keys is later finished: it is written into the metadata file, committed and finished |
| Workflow.FinishWhenAllSucceed | lib/chef/knife/gitflow_hotfix.rb:62-76 | with a valid listed version and every command succeeding, a finish completes after exactly the six expected actions |

## Findings

| source | as written | input that shows it | evidently intended | confidence | as-written member | corrected member |
|---|---|---|---|---|---|---|
| lib/chef/knife/gitflow_hotfix.rb:266 | `rescue false` names `false` as the exception class to rescue, so a key that `Float` rejects raises `TypeError` out of `valid_version?` | `x.1.y` (meant to pass, raises) and `a.b.c` (meant to exit with status 1, raises) | `rescue; false`: valid when three keys and any one of them is numeric | high (Ruby semantics; not executed) | Versions.RescueClauseRaises | Versions.IntendedValidThreeKeys |

`Versions.WrittenCheckAgreesOrRaises` relates the two checks: every version the check
as written accepts is accepted by the intended one, and wherever the two differ the
check as written raises. The commands in this model keep the behaviour as written.

## Left out

- Running subprocesses is not modelled: no shell quoting, no process environment (`GIT_MERGE_AUTOEDIT=no`), no `$?` as a global. A `World` gives each command one fixed exit status and the listing one fixed text, the same whenever it is asked.
- A process killed by a signal, whose `exitstatus` is nil, is not modelled. Statuses are integers, and `exit n` is not reduced modulo 256.
- `load_cookbook` (lines 143-147) is not modelled. Chef's `CookbookVersionLoader` is not part of this model. The cookbook's version is an input of the start commands, and the root directory that `get_git_root` returns is used for nothing else.
- Reading and writing `metadata.rb` (`File.read` at line 279, `File.open(…).write` at line 280) become the `Workspace.metadata` field and `Workspace.Write`. Neither can fail in the model: `File.read` raising on a cookbook without `metadata.rb`, or a failing write, is not modelled, and neither is the path built at line 278.
- The messages printed with `ui.error` and `ui.info` are not modelled: lines 172, 181, 189-202, 208, 216-229, 235, 272 and 282.
- The knife plumbing is not modelled: `deps`, `banner`, and the `self.class.send(:include, …)` lines.
- `Float(k)` is the parameter `isNumeric`. Only the facts in `FloatAxioms` are used about it; Ruby's full float grammar (signs, exponents, underscores, surrounding whitespace) is not encoded.
- Versions.BumpVersion: requires the keys of the old version to be digit strings for a major, minor or patch bump, because `to_i` on keys with other characters (`"1rc"` reads as 1) is not modelled; Chef cookbook versions are digit keys.
- Versions.BumpIncreases: requires digit keys, for the same reason as `BumpVersion`.
- Versions.BumpUnknownKind: requires digit keys, for the same reason as `BumpVersion`.
- Versions.BumpedIsValid: requires digit keys and at most three keys in the old version. A major, minor or patch bump of a longer version keeps its extra keys and is then not valid.
- Runner.StartRun: requires digit keys in the cookbook version unless the bump is manual (`CanStart`), for the same reason as `BumpVersion`.
- Runner.Start: requires `CanStart`, as `StartRun` does.
- Runner.HotfixStart: requires `CanStart`, as `StartRun` does.
- Runner.ReleaseStart: requires `CanStart`, as `StartRun` does.
- Versions.Bump: requires digit keys for a major, minor or patch bump, for the same reason as `BumpVersion`.
- Versions.BumpComponents: requires digit keys, for the same reason as `BumpVersion`.
- Versions.ToInts: requires digit keys, because `to_i` is modelled on digit strings only.
- Workflow.BumpNeverCompletes: requires digit keys, as `Bump` does.
- Workflow.DirtyTreeStops: requires `CanStart`, as `StartRun` does.
- Workflow.MutationNeedsCleanTree: requires `CanStart`, as `StartRun` does.
- Workflow.StartOpensBumpedVersion: requires `CanStart`, as `StartRun` does.
- Workflow.StartExitStatus: requires `CanStart`, as `StartRun` does.
- Workflow.StartCompletes: requires `CanStart`, as `StartRun` does.
- Workflow.StartThenFinish: requires `CanStart`, as `StartRun` does.
- Metadata.RewriteIdempotent: requires a digits-and-dots version. A version that `valid_version?` accepts may hold quotes and the word `version` (`1.' version '2.3`), and writing it can create a new declaration that a second write then changes.
- Metadata.Rewrite takes the new version as literal text. Ruby would read a backslash sequence inside the version (`\1`, `\&`) as a back-reference in the replacement string; such a version can pass `valid_version?` only through a manual bump or the listing.
- `String#strip` is modelled on the ASCII whitespace characters and NUL only; Ruby's encoding handling is not modelled.
