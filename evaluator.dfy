/** internal/hook/evaluator.go: the fixed cascade a tool call goes through, from the tool
    lists to the external hooks. The collaborators whose source is not part of this
    model are the fields of `Host`: the shell parser, the workspace, versioning and
    incremental rules, the scope rule's candidate collection, the regex engine, the file
    system, the home and working directories, and what each hook's run produced. */
module Evaluator {
  import opened Wrappers
  import opened Strings
  import opened JsonValue
  import opened Decisions
  import opened Config
  import opened Regexp
  import opened Extract
  import opened Protected
  import opened Matcher
  import opened Executor
  import Scope
  import Invariants

  /** The tool call to judge. */
  datatype Input = Input(hookType: string, toolName: string, toolInput: map<string, Json>)

  datatype Host = Host(
    parse: string -> Command,
    os: Os,
    workspace: Command -> Decision,
    collect: Command -> seq<string>,
    versioning: string -> Decision,
    incremental: Decision,
    re: RegexEngine,
    fs: Invariants.FileSystem,
    outcome: HookConfig -> Outcome,
    decode: string -> Option<HookOutput>,
    showDuration: int -> string)

  // ---------------------------------------------------------------------------
  // Tool and command lists

  /** isToolBlocked: the block list names the tool, up to case. */
  function IsToolBlocked(cfg: Config, tool: string): (r: bool)
    ensures r <==> exists i :: 0 <= i < |cfg.tools.block| && EqualFold(cfg.tools.block[i], tool)
  {
    MatchesTool(cfg.tools.block, tool)
  }

  /** isToolAllowed: an empty allow list allows every tool. */
  function IsToolAllowed(cfg: Config, tool: string): (r: bool)
    ensures r <==> |cfg.tools.allow| == 0 || exists i :: 0 <= i < |cfg.tools.allow| && EqualFold(cfg.tools.allow[i], tool)
  {
    |cfg.tools.allow| == 0 || MatchesTool(cfg.tools.allow, tool)
  }

  /** Index of the first block entry the command contains, or the number of entries. */
  function FirstContained(cmd: string, block: seq<string>): (k: nat)
    ensures k <= |block|
    ensures forall j :: 0 <= j < k ==> !Contains(cmd, block[j])
    ensures k < |block| ==> Contains(cmd, block[k])
  {
    if |block| == 0 || Contains(cmd, block[0]) then 0
    else
      var k := FirstContained(cmd, block[1..]);
      assert forall j :: 1 <= j < k + 1 ==> block[j] == block[1..][j - 1];
      1 + k
  }

  /** isCommandBlocked as written: the first entry the command contains, or "" for none.
      An empty entry is contained in every command, so it is returned as "", which the
      caller reads as "not blocked". */
  function IsCommandBlocked(cmd: string, block: seq<string>): (r: string)
    ensures r != "" ==> exists i :: 0 <= i < |block| && block[i] == r && Contains(cmd, r)
    ensures (forall i :: 0 <= i < |block| ==> !Contains(cmd, block[i])) ==> r == ""
  {
    var k := FirstContained(cmd, block);
    if k < |block| then block[k] else ""
  }

  /** Every string contains the empty string. */
  lemma ContainsEmpty(s: string)
    ensures Contains(s, "")
  {
    assert OccursAt(s, "", 0);
  }

  /** An empty entry at the front of the block list hides every later entry: no command
      is blocked, even one that contains a later entry. */
  lemma EmptyEntryHidesLater(cmd: string, rest: seq<string>)
    ensures IsCommandBlocked(cmd, [""] + rest) == ""
  {
    ContainsEmpty(cmd);
  }

  /** `rm -rf /` is not blocked by the list `["", "rm -rf"]`. */
  lemma EmptyEntryLetsThrough()
    ensures Contains("rm -rf /", "rm -rf")
    ensures IsCommandBlocked("rm -rf /", ["", "rm -rf"]) == ""
  {
    assert "rm -rf /"[0..6] == "rm -rf";
    assert OccursAt("rm -rf /", "rm -rf", 0);
    EmptyEntryHidesLater("rm -rf /", ["rm -rf"]);
    assert [""] + ["rm -rf"] == ["", "rm -rf"];
  }

  /** Index of the first non-empty block entry the command contains. */
  function FirstBlocking(cmd: string, block: seq<string>): (k: nat)
    ensures k <= |block|
    ensures forall j :: 0 <= j < k ==> block[j] == "" || !Contains(cmd, block[j])
    ensures k < |block| ==> block[k] != "" && Contains(cmd, block[k])
  {
    if |block| == 0 || (block[0] != "" && Contains(cmd, block[0])) then 0
    else
      var k := FirstBlocking(cmd, block[1..]);
      assert forall j :: 1 <= j < k + 1 ==> block[j] == block[1..][j - 1];
      1 + k
  }

  /** isCommandBlocked with empty entries skipped: the first non-empty entry the command
      contains, or "" when there is none. */
  function BlockingEntry(cmd: string, block: seq<string>): (r: string)
    ensures r != "" <==> exists i :: 0 <= i < |block| && block[i] != "" && Contains(cmd, block[i])
    ensures r != "" ==> exists i :: (0 <= i < |block| && block[i] == r && Contains(cmd, r)
                                  && forall j :: 0 <= j < i ==> block[j] == "" || !Contains(cmd, block[j]))
  {
    var k := FirstBlocking(cmd, block);
    if k < |block| then block[k] else ""
  }

  /** Without empty entries the two readings agree. */
  lemma BlockingEntryAgrees(cmd: string, block: seq<string>)
    requires forall i :: 0 <= i < |block| ==> block[i] != ""
    ensures BlockingEntry(cmd, block) == IsCommandBlocked(cmd, block)
  {
    assert FirstBlocking(cmd, block) == FirstContained(cmd, block);
  }

  /** filesystemTools: exact, case-sensitive names. */
  predicate IsFilesystemTool(tool: string)
  {
    tool in {"Bash", "Read", "Write", "Edit", "Glob", "Grep"}
  }

  /** isModificationTool. */
  predicate IsModificationTool(tool: string)
  {
    tool in {"Write", "Edit", "NotebookEdit"}
  }

  /** Both tool sets hold exact names, so `bash` is no filesystem tool, and the only
      modification tool outside the filesystem tools is NotebookEdit. */
  lemma ToolNamesExact()
    ensures !IsFilesystemTool("bash") && IsFilesystemTool("Bash")
    ensures IsModificationTool("NotebookEdit") && !IsFilesystemTool("NotebookEdit")
    ensures forall t :: IsModificationTool(t) && t != "NotebookEdit" ==> IsFilesystemTool(t)
  {
    assert "bash"[0] != "Bash"[0];
  }

  // ---------------------------------------------------------------------------
  // Per-path rules

  /** The first path the check denies decides, with that check's reason alone. */
  function PathDenial(paths: seq<string>, check: string -> Decision): (d: Decision)
    ensures d.allowed <==> forall i :: 0 <= i < |paths| ==> check(paths[i]).allowed
    ensures d.allowed ==> d == Allow
    ensures !d.allowed ==> exists i :: (0 <= i < |paths| && !check(paths[i]).allowed
                                   && (forall j :: 0 <= j < i ==> check(paths[j]).allowed)
                                   && d == Deny(check(paths[i]).reason))
  {
    Invariants.FirstDenial(paths, p => if check(p).allowed then None else Some(check(p).reason))
  }

  /** A command whose only argument is the path. */
  function PathCommand(p: string): Command
  {
    Command("", [p], [], [])
  }

  function Paths(input: Input, host: Host): seq<string>
  {
    ExtractPaths(input.toolName, input.toolInput, host.parse)
  }

  /** evaluateWorkspace: every candidate path goes to the workspace rule as a command of
      its own, and the first denial decides with that rule's reason. */
  function EvaluateWorkspace(input: Input, host: Host): (d: Decision)
    ensures d.allowed <==> forall i :: 0 <= i < |Paths(input, host)| ==> host.workspace(PathCommand(Paths(input, host)[i])).allowed
    ensures d.allowed ==> d == Allow
    ensures !d.allowed ==> exists i :: (0 <= i < |Paths(input, host)|
                                   && !host.workspace(PathCommand(Paths(input, host)[i])).allowed
                                   && (forall j :: 0 <= j < i ==> host.workspace(PathCommand(Paths(input, host)[j])).allowed)
                                   && d == Deny(host.workspace(PathCommand(Paths(input, host)[i])).reason))
  {
    PathDenial(Paths(input, host), p => host.workspace(PathCommand(p)))
  }

  /** The scope rule's decision on one candidate path. */
  function ScopeOn(cfg: Config, input: Input, host: Host, p: string): Decision
  {
    Scope.Evaluate(Scope.NewScopeToFiles(Some(cfg.scope)), input.toolName, PathCommand(p), host.collect)
  }

  /** evaluateScope: the scope rule per candidate path, the first denial deciding with
      that rule's reason; tools that do not write pass. */
  function EvaluateScope(cfg: Config, input: Input, host: Host): (d: Decision)
    ensures input.toolName !in Scope.WriteTools ==> d == Allow
    ensures d.allowed ==> d == Allow
    ensures d.allowed <==> forall i :: 0 <= i < |Paths(input, host)| ==> ScopeOn(cfg, input, host, Paths(input, host)[i]).allowed
    ensures !d.allowed ==> exists i :: (0 <= i < |Paths(input, host)|
                                   && !ScopeOn(cfg, input, host, Paths(input, host)[i]).allowed
                                   && (forall j :: 0 <= j < i ==> ScopeOn(cfg, input, host, Paths(input, host)[j]).allowed)
                                   && d == Deny(ScopeOn(cfg, input, host, Paths(input, host)[i]).reason))
  {
    PathDenial(Paths(input, host), p => ScopeOn(cfg, input, host, p))
  }

  /** evaluateVersioning: the rule judges the command text; its warning is dropped. */
  function EvaluateVersioning(input: Input, host: Host): (d: Decision)
    ensures StringField(input.toolInput, "command").None? ==> d == Allow
    ensures StringField(input.toolInput, "command").Some? ==>
      d.allowed == host.versioning(StringField(input.toolInput, "command").value).allowed
      && d.reason == host.versioning(StringField(input.toolInput, "command").value).reason
    ensures d.warning == ""
  {
    match StringField(input.toolInput, "command")
      case None => Allow
      case Some(c) =>
        var v := host.versioning(c);
        Decision(v.allowed, v.reason, "")
  }

  /** The `content` string of the call, or "". */
  function ContentOf(input: Input): string
  {
    match StringField(input.toolInput, "content")
      case Some(c) => c
      case None => ""
  }

  /** The invariants rule's decision on one candidate path, with the call's `content`. */
  function InvariantsOn(cfg: Config, input: Input, host: Host, p: string): Decision
  {
    Invariants.Evaluate(Some(cfg.invariants), input.toolName, p, ContentOf(input), host.re, host.fs)
  }

  /** evaluateInvariants: the invariants rule per candidate path, the first denial
      deciding with that rule's reason; tools that do not write pass. */
  function EvaluateInvariants(cfg: Config, input: Input, host: Host): (d: Decision)
    ensures input.toolName !in Scope.WriteTools ==> d == Allow
    ensures d.allowed ==> d == Allow
    ensures d.allowed <==> forall i :: 0 <= i < |Paths(input, host)| ==> InvariantsOn(cfg, input, host, Paths(input, host)[i]).allowed
    ensures !d.allowed ==> exists i :: (0 <= i < |Paths(input, host)|
                                   && !InvariantsOn(cfg, input, host, Paths(input, host)[i]).allowed
                                   && (forall j :: 0 <= j < i ==> InvariantsOn(cfg, input, host, Paths(input, host)[j]).allowed)
                                   && d == Deny(InvariantsOn(cfg, input, host, Paths(input, host)[i]).reason))
  {
    PathDenial(Paths(input, host), p => InvariantsOn(cfg, input, host, p))
  }

  // ---------------------------------------------------------------------------
  // External hooks

  /** Index of the first hook that matches and denies, or the number of hooks. */
  function FirstHookDenial(hs: seq<HookConfig>, matched: HookConfig -> bool, result: HookConfig -> Decision): (k: nat)
    ensures k <= |hs|
    ensures forall j :: 0 <= j < k ==> !matched(hs[j]) || result(hs[j]).allowed
    ensures k < |hs| ==> matched(hs[k]) && !result(hs[k]).allowed
  {
    if |hs| == 0 || (matched(hs[0]) && !result(hs[0]).allowed) then 0
    else
      var k := FirstHookDenial(hs[1..], matched, result);
      assert forall j :: 1 <= j < k + 1 ==> hs[j] == hs[1..][j - 1];
      1 + k
  }

  /** `name: warning` for every matching hook that warns, in order. */
  function HookWarnings(hs: seq<HookConfig>, matched: HookConfig -> bool, result: HookConfig -> Decision): (ws: seq<string>)
    ensures |ws| <= |hs|
  {
    if |hs| == 0 then []
    else
      var ws := HookWarnings(hs[..|hs| - 1], matched, result);
      var h := hs[|hs| - 1];
      if matched(h) && result(h).warning != "" then ws + [h.name + ": " + result(h).warning] else ws
  }

  /** What evaluateHooks returns. */
  function HooksResult(hs: seq<HookConfig>, matched: HookConfig -> bool, result: HookConfig -> Decision): (d: Decision)
    ensures d.allowed <==> forall i :: 0 <= i < |hs| && matched(hs[i]) ==> result(hs[i]).allowed
    ensures !d.allowed ==> exists i :: (0 <= i < |hs| && matched(hs[i]) && !result(hs[i]).allowed
                                   && (forall j :: 0 <= j < i ==> !matched(hs[j]) || result(hs[j]).allowed)
                                   && d == Deny(hs[i].name + ": " + result(hs[i]).reason))
    ensures d.allowed ==> d.reason == ""
    ensures d.allowed && HookWarnings(hs, matched, result) == [] ==> d == Allow
    ensures d.allowed && HookWarnings(hs, matched, result) != [] ==>
      d.warning == Join(HookWarnings(hs, matched, result), "; ")
  {
    var k := FirstHookDenial(hs, matched, result);
    if k < |hs| then Deny(hs[k].name + ": " + result(hs[k]).reason)
    else
      var ws := HookWarnings(hs, matched, result);
      if |ws| > 0 then Decision(true, "", Join(ws, "; ")) else Allow
  }

  /** evaluateHooks: the hooks in configuration order, skipping those that do not match,
      returning at the first denial and collecting the warnings of the others. */
  method EvaluateHooks(hs: seq<HookConfig>, matched: HookConfig -> bool, result: HookConfig -> Decision)
    returns (r: Decision)
    ensures r == HooksResult(hs, matched, result)
  {
    var warnings: seq<string> := [];
    var i := 0;
    while i < |hs|
      invariant 0 <= i <= |hs|
      invariant forall j :: 0 <= j < i ==> !matched(hs[j]) || result(hs[j]).allowed
      invariant warnings == HookWarnings(hs[..i], matched, result)
    {
      var h := hs[i];
      assert hs[..i + 1][..i] == hs[..i];
      if !matched(h) {
        i := i + 1;
        continue;
      }
      var res := result(h);
      if !res.allowed {
        assert FirstHookDenial(hs, matched, result) == i;
        return Deny(h.name + ": " + res.reason);
      }
      if res.warning != "" {
        warnings := warnings + [h.name + ": " + res.warning];
      }
      i := i + 1;
    }
    assert hs[..i] == hs;
    assert FirstHookDenial(hs, matched, result) == |hs|;
    if |warnings| > 0 {
      return Decision(true, "", Join(warnings, "; "));
    }
    return Allow;
  }

  /** A hook that does not match changes nothing, wherever it stands at the end. */
  lemma UnmatchedHookIgnored(hs: seq<HookConfig>, h: HookConfig, matched: HookConfig -> bool, result: HookConfig -> Decision)
    requires !matched(h)
    ensures HooksResult(hs + [h], matched, result) == HooksResult(hs, matched, result)
  {
    var hs' := hs + [h];
    assert hs'[..|hs'| - 1] == hs;
    assert forall j :: 0 <= j < |hs| ==> hs'[j] == hs[j];
    assert FirstHookDenial(hs', matched, result) == FirstHookDenial(hs, matched, result) || FirstHookDenial(hs, matched, result) == |hs|;
  }

  /** A matching hook that warns after hooks that all allow adds its warning at the end. */
  lemma WarningAppended(hs: seq<HookConfig>, h: HookConfig, matched: HookConfig -> bool, result: HookConfig -> Decision)
    requires matched(h) && result(h).allowed && result(h).warning != ""
    ensures HookWarnings(hs + [h], matched, result) == HookWarnings(hs, matched, result) + [h.name + ": " + result(h).warning]
  {
    assert (hs + [h])[..|hs|] == hs;
  }

  // ---------------------------------------------------------------------------
  // The cascade

  /** One configurable step: whether it runs, what it returns, and whether a warning
      alone also ends the cascade. */
  datatype Stage = Stage(enabled: bool, result: Decision, stopsOnWarning: bool)

  predicate Stops(s: Stage)
  {
    s.enabled && (!s.result.allowed || (s.stopsOnWarning && s.result.warning != ""))
  }

  /** The result of the first stage that stops the cascade, or Allow. */
  function FirstStop(stages: seq<Stage>): (d: Decision)
    ensures (forall k :: 0 <= k < |stages| ==> !Stops(stages[k])) ==> d == Allow
    ensures (exists k :: 0 <= k < |stages| && Stops(stages[k])) ==>
      exists k :: 0 <= k < |stages| && Stops(stages[k]) && d == stages[k].result
                  && forall j :: 0 <= j < k ==> !Stops(stages[j])
  {
    if |stages| == 0 then Allow
    else if Stops(stages[0]) then stages[0].result
    else
      var d := FirstStop(stages[1..]);
      assert forall k :: 1 <= k < |stages| ==> stages[k] == stages[1..][k - 1];
      d
  }

  /** The command's text, or "" when the call has none. */
  function CommandOf(input: Input): string
  {
    match StringField(input.toolInput, "command")
      case Some(c) => c
      case None => ""
  }

  /** Whether hook `h` applies to the call: the matcher sees the tool, the paths and the
      command text. */
  predicate HookApplies(input: Input, host: Host, h: HookConfig)
  {
    Matches(h, input.toolName, Paths(input, host), CommandOf(input), host.re)
  }

  /** The executor's reading of hook `h`'s run. */
  function HookRun(host: Host, h: HookConfig): Decision
  {
    Execute(h, host.outcome(h), host.decode, host.showDuration)
  }

  /** evaluateHooks in the cascade: it allows iff every hook that applies allows, and
      otherwise the first hook that applies and denies decides, prefixed by its name. */
  function HooksStage(cfg: Config, input: Input, host: Host): (d: Decision)
    ensures |cfg.hooks| == 0 ==> d == Allow
    ensures d.allowed ==> d.reason == ""
    ensures d.allowed <==> forall i :: 0 <= i < |cfg.hooks| && HookApplies(input, host, cfg.hooks[i]) ==> HookRun(host, cfg.hooks[i]).allowed
    ensures !d.allowed ==> exists i :: (0 <= i < |cfg.hooks| && HookApplies(input, host, cfg.hooks[i])
                                   && !HookRun(host, cfg.hooks[i]).allowed
                                   && (forall j :: 0 <= j < i ==> !HookApplies(input, host, cfg.hooks[j]) || HookRun(host, cfg.hooks[j]).allowed)
                                   && d == Deny(cfg.hooks[i].name + ": " + HookRun(host, cfg.hooks[i]).reason))
  {
    HooksResult(cfg.hooks, h => HookApplies(input, host, h), h => HookRun(host, h))
  }

  /** What each configurable rule decides for the call, whether or not it is enabled. */
  datatype RuleResults = RuleResults(workspace: Decision, scope: Decision, versioning: Decision,
                                     incremental: Decision, invariants: Decision, hooks: Decision)

  function ResultsOf(cfg: Config, input: Input, host: Host): RuleResults
  {
    RuleResults(EvaluateWorkspace(input, host), EvaluateScope(cfg, input, host),
                EvaluateVersioning(input, host), host.incremental,
                EvaluateInvariants(cfg, input, host), HooksStage(cfg, input, host))
  }

  /** The configurable rules in the order they run, for the tool `t`. */
  function StageList(cfg: Config, t: string, r: RuleResults): seq<Stage>
  {
    [Stage(cfg.rules.workspace, r.workspace, false),
     Stage(cfg.rules.scope, r.scope, false),
     Stage(cfg.rules.versioning && t == "Bash", r.versioning, false),
     Stage(cfg.rules.incremental && IsModificationTool(t), r.incremental, true),
     Stage(cfg.rules.invariants && IsModificationTool(t), r.invariants, false),
     Stage(|cfg.hooks| > 0, r.hooks, true)]
  }

  function Stages(cfg: Config, input: Input, host: Host): seq<Stage>
  {
    StageList(cfg, input.toolName, ResultsOf(cfg, input, host))
  }

  /** Lines 78-119 of Evaluate: each enabled rule in turn, returning at the first denial
      (or, for the incremental rule and the hooks, the first warning). */
  function Cascade(cfg: Config, t: string, r: RuleResults): (d: Decision)
    ensures d.allowed ==> d == Allow || (d.warning != "" && (d == r.incremental || d == r.hooks))
    ensures (!cfg.rules.workspace && !cfg.rules.scope && !cfg.rules.versioning
             && !cfg.rules.incremental && !cfg.rules.invariants && |cfg.hooks| == 0) ==> d == Allow
  {
    if cfg.rules.workspace && !r.workspace.allowed then r.workspace
    else if cfg.rules.scope && !r.scope.allowed then r.scope
    else if cfg.rules.versioning && t == "Bash" && !r.versioning.allowed then r.versioning
    else if cfg.rules.incremental && IsModificationTool(t)
            && (!r.incremental.allowed || r.incremental.warning != "") then r.incremental
    else if cfg.rules.invariants && IsModificationTool(t) && !r.invariants.allowed then r.invariants
    else if |cfg.hooks| > 0 && (!r.hooks.allowed || r.hooks.warning != "") then r.hooks
    else Allow
  }

  function Rules(cfg: Config, input: Input, host: Host): Decision
  {
    Cascade(cfg, input.toolName, ResultsOf(cfg, input, host))
  }

  /** The nested tests are the stage list read front to back. */
  lemma CascadeIsFirstStop(cfg: Config, t: string, r: RuleResults)
    ensures Cascade(cfg, t, r) == FirstStop(StageList(cfg, t, r))
  {
    var s := StageList(cfg, t, r);
    var s1 := s[1..];
    var s2 := s1[1..];
    var s3 := s2[1..];
    var s4 := s3[1..];
    var s5 := s4[1..];
    assert s5[1..] == [];
    assert FirstStop(s5) == (if Stops(s5[0]) then s5[0].result else Allow);
    assert FirstStop(s4) == (if Stops(s4[0]) then s4[0].result else FirstStop(s5));
    assert FirstStop(s3) == (if Stops(s3[0]) then s3[0].result else FirstStop(s4));
    assert FirstStop(s2) == (if Stops(s2[0]) then s2[0].result else FirstStop(s3));
    assert FirstStop(s1) == (if Stops(s1[0]) then s1[0].result else FirstStop(s2));
    assert FirstStop(s) == (if Stops(s[0]) then s[0].result else FirstStop(s1));
  }

  lemma RulesAreFirstStop(cfg: Config, input: Input, host: Host)
    ensures Rules(cfg, input, host) == FirstStop(Stages(cfg, input, host))
  {
    CascadeIsFirstStop(cfg, input.toolName, ResultsOf(cfg, input, host));
  }

  /** Some extracted path is always protected. */
  function AnyProtected(paths: seq<string>, os: Os): (r: bool)
    ensures r <==> exists i :: 0 <= i < |paths| && AlwaysProtectedPath(paths[i], os)
  {
    if |paths| == 0 then false
    else if AlwaysProtectedPath(paths[0], os) then true
    else
      var r := AnyProtected(paths[1..], os);
      assert forall i :: 1 <= i < |paths| ==> paths[i] == paths[1..][i - 1];
      r
  }

  const ProtectedReason: string := "path is protected and cannot be accessed. User must perform this action manually."

  /** The block-list entry the call's command is denied for, or "" for none. Only a
      Bash call with a string `command` is looked at. With `corrected`, empty entries are
      skipped (`BlockingEntry`); otherwise the list is read as written
      (`IsCommandBlocked`). */
  function BlockedBy(cfg: Config, input: Input, corrected: bool): (r: string)
    ensures input.toolName != "Bash" || StringField(input.toolInput, "command").None? ==> r == ""
  {
    match StringField(input.toolInput, "command")
      case Some(c) =>
        if input.toolName != "Bash" then ""
        else if corrected then BlockingEntry(c, cfg.commands.block)
        else IsCommandBlocked(c, cfg.commands.block)
      case None => ""
  }

  /** Lines 44-120 of Evaluator.Evaluate, with the command block list read as
      `BlockedBy(cfg, input, corrected)`. */
  function Gate(cfg: Config, input: Input, host: Host, corrected: bool): Decision
  {
    var t := input.toolName;
    if IsToolBlocked(cfg, t) then Deny("tool is blocked by configuration: " + t)
    else if !IsToolAllowed(cfg, t) then Deny("tool is not in allowed list: " + t)
    else if !IsFilesystemTool(t) then Allow
    else
      var blocked := BlockedBy(cfg, input, corrected);
      if blocked != "" then Deny("command is blocked by configuration: " + blocked)
      else if AnyProtected(Paths(input, host), host.os) then Deny(ProtectedReason)
      else Rules(cfg, input, host)
  }

  /** Evaluator.Evaluate as written: the command block list is read by
      `IsCommandBlocked`, so an empty entry hides every later one. */
  function Evaluate(cfg: Config, input: Input, host: Host): (d: Decision)
    ensures IsToolBlocked(cfg, input.toolName) ==> d == Deny("tool is blocked by configuration: " + input.toolName)
    ensures !IsToolBlocked(cfg, input.toolName) && !IsToolAllowed(cfg, input.toolName) ==>
      d == Deny("tool is not in allowed list: " + input.toolName)
    ensures !IsToolBlocked(cfg, input.toolName) && IsToolAllowed(cfg, input.toolName) && !IsFilesystemTool(input.toolName) ==>
      d == Allow
  {
    Gate(cfg, input, host, false)
  }

  /** Evaluator.Evaluate with empty block entries skipped (`BlockingEntry`). It differs
      from the code as written only in the command-block step. */
  function EvaluateCorrected(cfg: Config, input: Input, host: Host): (d: Decision)
    ensures BlockedBy(cfg, input, true) == BlockedBy(cfg, input, false) ==> d == Evaluate(cfg, input, host)
  {
    Gate(cfg, input, host, true)
  }

  /** Without empty block entries the corrected gate and the code as written agree. */
  lemma CorrectedAgreesWithoutEmptyEntries(cfg: Config, input: Input, host: Host)
    requires forall i :: 0 <= i < |cfg.commands.block| ==> cfg.commands.block[i] != ""
    ensures EvaluateCorrected(cfg, input, host) == Evaluate(cfg, input, host)
  {
    if StringField(input.toolInput, "command").Some? {
      BlockingEntryAgrees(StringField(input.toolInput, "command").value, cfg.commands.block);
    }
  }

  /** The tool lists and the protected paths came through: the call passes every
      stage up to the fixed checks of the code as written. */
  predicate PassesFixedChecks(cfg: Config, input: Input, host: Host)
  {
    var t := input.toolName;
    !IsToolBlocked(cfg, t) && IsToolAllowed(cfg, t) && IsFilesystemTool(t)
    && BlockedBy(cfg, input, false) == ""
    && !AnyProtected(Paths(input, host), host.os)
  }

  /** A Bash command whose first contained block entry is non-empty is denied, naming
      that entry, before any path or rule is looked at. */
  lemma CommandBlockDenies(cfg: Config, input: Input, host: Host, c: string)
    requires input.toolName == "Bash" && !IsToolBlocked(cfg, "Bash") && IsToolAllowed(cfg, "Bash")
    requires StringField(input.toolInput, "command") == Some(c)
    requires FirstContained(c, cfg.commands.block) < |cfg.commands.block|
    requires cfg.commands.block[FirstContained(c, cfg.commands.block)] != ""
    ensures Evaluate(cfg, input, host) ==
      Deny("command is blocked by configuration: " + cfg.commands.block[FirstContained(c, cfg.commands.block)])
  {
  }

  /** With an empty first entry the block list denies nothing: the call goes on to the
      protected paths and the rules whatever its command contains. */
  lemma EmptyFirstEntryBlocksNothing(cfg: Config, input: Input, host: Host)
    requires !IsToolBlocked(cfg, input.toolName) && IsToolAllowed(cfg, input.toolName) && IsFilesystemTool(input.toolName)
    requires |cfg.commands.block| > 0 && cfg.commands.block[0] == ""
    ensures Evaluate(cfg, input, host) ==
      if AnyProtected(Paths(input, host), host.os) then Deny(ProtectedReason) else Rules(cfg, input, host)
  {
    match StringField(input.toolInput, "command")
      case Some(c) =>
        EmptyEntryHidesLater(c, cfg.commands.block[1..]);
        assert [""] + cfg.commands.block[1..] == cfg.commands.block;
      case None =>
  }

  /** The corrected gate denies a Bash command containing a non-empty block entry,
      naming the first such entry, whatever entries come before it. */
  lemma CommandBlockDeniesCorrected(cfg: Config, input: Input, host: Host, c: string, i: nat)
    requires input.toolName == "Bash" && !IsToolBlocked(cfg, "Bash") && IsToolAllowed(cfg, "Bash")
    requires StringField(input.toolInput, "command") == Some(c)
    requires i < |cfg.commands.block| && cfg.commands.block[i] != "" && Contains(c, cfg.commands.block[i])
    ensures exists k :: (0 <= k <= i && cfg.commands.block[k] != "" && Contains(c, cfg.commands.block[k])
                       && EvaluateCorrected(cfg, input, host) == Deny("command is blocked by configuration: " + cfg.commands.block[k]))
  {
    var k := FirstBlocking(c, cfg.commands.block);
    assert k <= i;
  }

  /** `rm -rf /` with the block list `["", "rm -rf"]`: the code as written lets it on
      to the later checks. */
  lemma EmptyEntryEvaluated(cfg: Config, input: Input, host: Host)
    requires input.toolName == "Bash" && !IsToolBlocked(cfg, "Bash") && IsToolAllowed(cfg, "Bash")
    requires StringField(input.toolInput, "command") == Some("rm -rf /")
    requires cfg.commands.block == ["", "rm -rf"]
    ensures Contains("rm -rf /", "rm -rf")
    ensures Evaluate(cfg, input, host) ==
      if AnyProtected(Paths(input, host), host.os) then Deny(ProtectedReason) else Rules(cfg, input, host)
  {
    EmptyEntryLetsThrough();
    EmptyFirstEntryBlocksNothing(cfg, input, host);
  }

  /** The same call, denied by the corrected gate. */
  lemma EmptyEntryDeniedCorrected(cfg: Config, input: Input, host: Host)
    requires input.toolName == "Bash" && !IsToolBlocked(cfg, "Bash") && IsToolAllowed(cfg, "Bash")
    requires StringField(input.toolInput, "command") == Some("rm -rf /")
    requires cfg.commands.block == ["", "rm -rf"]
    ensures EvaluateCorrected(cfg, input, host) == Deny("command is blocked by configuration: rm -rf")
  {
    EmptyEntryLetsThrough();
    CommandBlockDeniesCorrected(cfg, input, host, "rm -rf /", 1);
    BlockedMessage("rm -rf");
  }

  lemma BlockedMessage(e: string)
    requires e == "rm -rf"
    ensures "command is blocked by configuration: " + e == "command is blocked by configuration: rm -rf"
  {
  }

  /** A protected path is denied whatever rules and hooks are configured. */
  lemma ProtectedBeforeRules(cfg: Config, input: Input, host: Host)
    requires !IsToolBlocked(cfg, input.toolName) && IsToolAllowed(cfg, input.toolName) && IsFilesystemTool(input.toolName)
    requires BlockedBy(cfg, input, false) == ""
    requires exists i :: 0 <= i < |Paths(input, host)| && AlwaysProtectedPath(Paths(input, host)[i], host.os)
    ensures Evaluate(cfg, input, host) == Deny(ProtectedReason)
  {
  }

  /** Past the fixed checks, the result is that of the first stage that stops. */
  lemma EvaluateIsFirstStop(cfg: Config, input: Input, host: Host)
    requires PassesFixedChecks(cfg, input, host)
    ensures Evaluate(cfg, input, host) == FirstStop(Stages(cfg, input, host))
  {
    PastFixedChecks(cfg, input, host);
    RulesAreFirstStop(cfg, input, host);
  }

  /** Past the fixed checks, Evaluate is the rule cascade. */
  lemma PastFixedChecks(cfg: Config, input: Input, host: Host)
    requires PassesFixedChecks(cfg, input, host)
    ensures Evaluate(cfg, input, host) == Rules(cfg, input, host)
  {
  }

  /** With every rule off and no hooks, a call that passes the fixed checks is allowed. */
  lemma NothingEnabledAllows(cfg: Config, input: Input, host: Host)
    requires PassesFixedChecks(cfg, input, host)
    requires !cfg.rules.workspace && !cfg.rules.scope && !cfg.rules.versioning
    requires !cfg.rules.incremental && !cfg.rules.invariants && |cfg.hooks| == 0
    ensures Evaluate(cfg, input, host) == Allow
  {
    PastFixedChecks(cfg, input, host);
  }

  /** NotebookEdit is a modification tool but not a filesystem tool, so the incremental
      and invariants rules never see it: it is allowed as soon as the tool lists let it
      through. */
  lemma NotebookEditSkipsRules(cfg: Config, input: Input, host: Host)
    requires input.toolName == "NotebookEdit"
    ensures IsModificationTool(input.toolName)
    ensures Evaluate(cfg, input, host).allowed <==>
      !IsToolBlocked(cfg, "NotebookEdit") && IsToolAllowed(cfg, "NotebookEdit")
  {
  }
}
