/** plugins/sentinel/internal/processor/processor.go: which tool calls the sentinel
    plugin sends to its evaluator. The evaluator, reading files and getting the staged
    diff are parameters; each either succeeds or fails with an error text. */
module Processor {
  import opened Wrappers
  import opened Strings
  import opened JsonValue
  import opened Git

  /** types.HookInput. */
  datatype SentinelInput = SentinelInput(toolName: string, toolInput: map<string, Json>, paths: seq<string>, workingDir: string)

  /** types.HookOutput. */
  datatype SentinelOutput = SentinelOutput(decision: string, reason: string, warning: string)

  /** What `git.GetStagedDiff` returns, without the size. */
  datatype StagedDiff = StagedDiff(files: seq<string>, content: string)

  /** The collaborators of a Processor and the two evaluation settings it reads. */
  datatype Env = Env(
    mode: string,
    defaultDecision: string,
    evaluate: SentinelInput -> Result<SentinelOutput>,
    readFiles: (string, seq<string>) -> Result<string>,
    stagedDiff: string -> Result<StagedDiff>)

  const AllowOutput: SentinelOutput := SentinelOutput("allow", "", "")

  /** The output for a failed step: the configured default decision and a warning. */
  function Fallback(env: Env, warning: string): (o: SentinelOutput)
    ensures o.decision == env.defaultDecision && o.reason == "" && o.warning == warning
  {
    SentinelOutput(env.defaultDecision, "", warning)
  }

  /** The evaluator's answer, or the default decision when it fails. */
  function Evaluated(env: Env, input: SentinelInput): (o: SentinelOutput)
    ensures env.evaluate(input).Success? ==> o == env.evaluate(input).value
    ensures env.evaluate(input).Failure? ==> o == Fallback(env, "evaluation error: " + env.evaluate(input).error)
  {
    match env.evaluate(input)
      case Success(out) => out
      case Failure(e) => Fallback(env, "evaluation error: " + e)
  }

  /** processAll. */
  function ProcessAll(env: Env, input: SentinelInput): SentinelOutput
  {
    Evaluated(env, input)
  }

  function StrList(xs: seq<string>): (js: seq<Json>)
    ensures |js| == |xs| && forall i :: 0 <= i < |xs| ==> js[i] == Str(xs[i])
  {
    if |xs| == 0 then [] else [Str(xs[0])] + StrList(xs[1..])
  }

  /** The evaluator input built for a set of files and their content. */
  function FilesInput(toolName: string, files: seq<string>, content: string, workingDir: string): SentinelInput
  {
    SentinelInput(toolName, map["content" := Str(content), "files" := Array(StrList(files))], files, workingDir)
  }

  /** What processGitAdd does once the files of the command are known. */
  function AddRoute(env: Env, input: SentinelInput, files: seq<string>): (o: SentinelOutput)
    ensures files == [] ==> o == AllowOutput
    ensures files != [] && env.readFiles(input.workingDir, files).Failure? ==>
      o == Fallback(env, "failed to read files: " + env.readFiles(input.workingDir, files).error)
    ensures files != [] && env.readFiles(input.workingDir, files).Success? ==>
      o == Evaluated(env, FilesInput("GitAdd", files, env.readFiles(input.workingDir, files).value, input.workingDir))
  {
    if |files| == 0 then AllowOutput
    else
      match env.readFiles(input.workingDir, files)
        case Failure(e) => Fallback(env, "failed to read files: " + e)
        case Success(content) => Evaluated(env, FilesInput("GitAdd", files, content, input.workingDir))
  }

  /** processGitAdd as written: the files are those `ExtractAddFiles` returns
      (`AddFiles`), so fields after a separator are read and evaluated too. */
  function ProcessGitAdd(env: Env, input: SentinelInput, command: string): (o: SentinelOutput)
    ensures AddFiles(command) == [] ==> o == AllowOutput
    ensures AddFiles(command) != [] && env.readFiles(input.workingDir, AddFiles(command)).Success? ==>
      o == Evaluated(env, FilesInput("GitAdd", AddFiles(command), env.readFiles(input.workingDir, AddFiles(command)).value, input.workingDir))
  {
    AddRoute(env, input, AddFiles(command))
  }

  /** processGitAdd with the files read as the extractor's comment intends
      (`AddFilesCorrected`): collection stops at the first separator. */
  function ProcessGitAddCorrected(env: Env, input: SentinelInput, command: string): (o: SentinelOutput)
    ensures AddFilesCorrected(command) == [] ==> o == AllowOutput
    ensures AddFilesCorrected(command) == AddFiles(command) ==> o == ProcessGitAdd(env, input, command)
  {
    AddRoute(env, input, AddFilesCorrected(command))
  }

  /** A command without separators is routed the same way by both readings. */
  lemma GitAddCorrectedAgrees(env: Env, input: SentinelInput, command: string)
    requires forall k :: 0 <= k < |Fields(command)| ==> !IsSeparator(Fields(command)[k])
    ensures ProcessGitAddCorrected(env, input, command) == ProcessGitAdd(env, input, command)
  {
    CorrectedAgrees(Fields(command), 0, false, false);
  }

  /** processGitCommit. */
  function ProcessGitCommit(env: Env, input: SentinelInput): (o: SentinelOutput)
    ensures env.stagedDiff(input.workingDir).Failure? ==>
      o == Fallback(env, "failed to get staged diff: " + env.stagedDiff(input.workingDir).error)
    ensures env.stagedDiff(input.workingDir).Success? && env.stagedDiff(input.workingDir).value.files == [] ==>
      o == AllowOutput
    ensures env.stagedDiff(input.workingDir).Success? && |env.stagedDiff(input.workingDir).value.files| > 0 ==>
      o == Evaluated(env, FilesInput("Commit", env.stagedDiff(input.workingDir).value.files,
                                     env.stagedDiff(input.workingDir).value.content, input.workingDir))
  {
    match env.stagedDiff(input.workingDir)
      case Failure(e) => Fallback(env, "failed to get staged diff: " + e)
      case Success(diff) =>
        if |diff.files| == 0 then AllowOutput
        else Evaluated(env, FilesInput("Commit", diff.files, diff.content, input.workingDir))
  }

  /** processCommitsOnly: only Bash calls whose command is a `git add` or a `git commit`
      are evaluated, and `git add` is tested first. */
  function ProcessCommitsOnly(env: Env, input: SentinelInput): (o: SentinelOutput)
    ensures input.toolName != "Bash" ==> o == AllowOutput
    ensures StringField(input.toolInput, "command").None? ==> o == AllowOutput
  {
    if input.toolName != "Bash" then AllowOutput
    else
      match StringField(input.toolInput, "command")
        case None => AllowOutput
        case Some(command) =>
          if IsAddCommand(command) then ProcessGitAdd(env, input, command)
          else if IsCommitCommand(command) then ProcessGitCommit(env, input)
          else AllowOutput
  }

  /** Process: the mode `commits_only` selects the commit route. */
  function Process(env: Env, input: SentinelInput): (o: SentinelOutput)
    ensures env.mode == "commits_only" ==> o == ProcessCommitsOnly(env, input)
    ensures env.mode != "commits_only" ==> o == ProcessAll(env, input)
  {
    if env.mode == "commits_only" then ProcessCommitsOnly(env, input) else ProcessAll(env, input)
  }

  /** A Bash command that both reads as a `git add` and as a `git commit` takes the add
      route. */
  lemma AddBeforeCommit(env: Env, input: SentinelInput, command: string)
    requires env.mode == "commits_only" && input.toolName == "Bash"
    requires StringField(input.toolInput, "command") == Some(command)
    requires IsAddCommand(command)
    ensures Process(env, input) == ProcessGitAdd(env, input, command)
  {
  }

  /** A Bash `git commit` that is no `git add` has its non-empty staged diff judged by the
      evaluator as a `Commit` input. */
  lemma CommitRouteEvaluatesStaged(env: Env, input: SentinelInput, command: string)
    requires env.mode == "commits_only" && input.toolName == "Bash"
    requires StringField(input.toolInput, "command") == Some(command)
    requires !IsAddCommand(command) && IsCommitCommand(command)
    requires env.stagedDiff(input.workingDir).Success? && |env.stagedDiff(input.workingDir).value.files| > 0
    ensures Process(env, input) == Evaluated(env, FilesInput("Commit", env.stagedDiff(input.workingDir).value.files,
                                                             env.stagedDiff(input.workingDir).value.content, input.workingDir))
  {
  }

  /** A command that is neither is allowed without consulting anything. */
  lemma NeitherAllowed(env: Env, input: SentinelInput, command: string)
    requires env.mode == "commits_only" && input.toolName == "Bash"
    requires StringField(input.toolInput, "command") == Some(command)
    requires !IsAddCommand(command) && !IsCommitCommand(command)
    ensures Process(env, input) == AllowOutput
  {
  }

  /** A `git add` without files never reaches the file reader or the evaluator. */
  lemma NoFilesNoEvaluation(env: Env, env': Env, input: SentinelInput, command: string)
    requires env.mode == env'.mode == "commits_only" && input.toolName == "Bash"
    requires StringField(input.toolInput, "command") == Some(command)
    requires IsAddCommand(command) && AddFiles(command) == []
    ensures Process(env, input) == Process(env', input) == AllowOutput
  {
  }

  /** `git add ; ls` in the commits-only route: the code as written reads and
      evaluates `ls` as the file added, the corrected reading adds nothing. */
  lemma AddSemicolonReadsNext(env: Env, input: SentinelInput, command: string)
    requires Fields(command) == ["git", "add", ";", "ls"]
    ensures AddFiles(command) == ["ls"]
    ensures AddFilesCorrected(command) == []
    ensures ProcessGitAddCorrected(env, input, command) == AllowOutput
    ensures env.readFiles(input.workingDir, ["ls"]).Success? ==>
      ProcessGitAdd(env, input, command) ==
        Evaluated(env, FilesInput("GitAdd", ["ls"], env.readFiles(input.workingDir, ["ls"]).value, input.workingDir))
  {
    SemicolonScans();
  }

  /** Every failure becomes the default decision with a warning that names it: the
      plugin never fails the call itself. */
  lemma FailuresUseDefault(env: Env, input: SentinelInput)
    ensures var o := Process(env, input);
      o == AllowOutput || o.decision == env.defaultDecision
      || (exists i :: env.evaluate(i).Success? && o == env.evaluate(i).value)
  {
    var o := Process(env, input);
    if env.mode != "commits_only" {
      if env.evaluate(input).Success? {
        assert o == env.evaluate(input).value;
      }
    } else if input.toolName == "Bash" && StringField(input.toolInput, "command").Some? {
      var command := StringField(input.toolInput, "command").value;
      if IsAddCommand(command) {
        var files := AddFiles(command);
        if |files| > 0 && env.readFiles(input.workingDir, files).Success? {
          var i := FilesInput("GitAdd", files, env.readFiles(input.workingDir, files).value, input.workingDir);
          if env.evaluate(i).Success? {
            assert o == env.evaluate(i).value;
          }
        }
      } else if IsCommitCommand(command) && env.stagedDiff(input.workingDir).Success? {
        var diff := env.stagedDiff(input.workingDir).value;
        if |diff.files| > 0 {
          var i := FilesInput("Commit", diff.files, diff.content, input.workingDir);
          if env.evaluate(i).Success? {
            assert o == env.evaluate(i).value;
          }
        }
      }
    }
  }
}
