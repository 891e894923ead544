/** internal/hook/matcher.go: whether a configured hook applies to a tool call. */
module Matcher {
  import opened Strings
  import opened Glob
  import opened Config
  import opened Regexp

  /** matchesTool: some listed tool equals the tool name up to case. */
  function MatchesTool(tools: seq<string>, toolName: string): (r: bool)
    ensures r <==> exists i :: 0 <= i < |tools| && EqualFold(tools[i], toolName)
  {
    if |tools| == 0 then false
    else if EqualFold(tools[0], toolName) then true
    else
      var r := MatchesTool(tools[1..], toolName);
      assert forall i :: 1 <= i < |tools| ==> tools[i] == tools[1..][i - 1];
      r
  }

  /** matchesCommand: an expression that does not compile matches nothing. */
  function MatchesCommand(pattern: string, command: string, re: RegexEngine): (r: bool)
    ensures !re.compiles(pattern) ==> !r
    ensures re.compiles(pattern) ==> (r <==> re.matchString(pattern, command))
  {
    re.compiles(pattern) && re.matchString(pattern, command)
  }

  /** matchesAnyPath: some path matches some pattern. */
  function MatchesAnyPath(patterns: seq<string>, paths: seq<string>): (r: bool)
    ensures r <==> exists i, j :: 0 <= i < |paths| && 0 <= j < |patterns| && Match(paths[i], patterns[j])
  {
    if |paths| == 0 then false
    else if MatchAny(paths[0], patterns) then true
    else
      var r := MatchesAnyPath(patterns, paths[1..]);
      assert forall i :: 1 <= i < |paths| ==> paths[i] == paths[1..][i - 1];
      r
  }

  /** HookMatcher.Matches: the tool must match; a non-empty `MatchCommand` must match the
      command; non-empty path patterns must match one of the paths. */
  function Matches(h: HookConfig, toolName: string, paths: seq<string>, command: string, re: RegexEngine): (r: bool)
    ensures r <==>
      (exists i :: 0 <= i < |h.tools| && EqualFold(h.tools[i], toolName))
      && (h.matchCommand == "" || (re.compiles(h.matchCommand) && re.matchString(h.matchCommand, command)))
      && (|h.paths| == 0 || exists i, j :: 0 <= i < |paths| && 0 <= j < |h.paths| && Match(paths[i], h.paths[j]))
  {
    if !MatchesTool(h.tools, toolName) then false
    else if h.matchCommand != "" && !MatchesCommand(h.matchCommand, command, re) then false
    else if |h.paths| == 0 then true
    else MatchesAnyPath(h.paths, paths)
  }

  /** A hook with no tools never matches. */
  lemma NoToolsNeverMatch(h: HookConfig, toolName: string, paths: seq<string>, command: string, re: RegexEngine)
    requires |h.tools| == 0
    ensures !Matches(h, toolName, paths, command, re)
  {
  }

  lemma EqualFoldTransitive(a: string, b: string, c: string)
    requires EqualFold(a, b) && EqualFold(b, c)
    ensures EqualFold(a, c)
  {
  }

  /** Tool names that differ only in case are matched alike. */
  lemma ToolCaseInsensitive(h: HookConfig, a: string, b: string, paths: seq<string>, command: string, re: RegexEngine)
    requires EqualFold(a, b)
    ensures Matches(h, a, paths, command, re) == Matches(h, b, paths, command, re)
  {
    EqualFoldSymmetric(a, b);
    forall i | 0 <= i < |h.tools|
      ensures EqualFold(h.tools[i], a) <==> EqualFold(h.tools[i], b)
    {
      if EqualFold(h.tools[i], a) {
        EqualFoldTransitive(h.tools[i], a, b);
      }
      if EqualFold(h.tools[i], b) {
        EqualFoldTransitive(h.tools[i], b, a);
      }
    }
  }

  /** An empty `MatchCommand` leaves the command out of the decision. */
  lemma EmptyMatchCommandIgnoresCommand(h: HookConfig, toolName: string, paths: seq<string>, c1: string, c2: string, re: RegexEngine)
    requires h.matchCommand == ""
    ensures Matches(h, toolName, paths, c1, re) == Matches(h, toolName, paths, c2, re)
  {
  }

  /** A `MatchCommand` that does not compile makes the hook never match. */
  lemma InvalidMatchCommandNeverMatches(h: HookConfig, toolName: string, paths: seq<string>, command: string, re: RegexEngine)
    requires h.matchCommand != "" && !re.compiles(h.matchCommand)
    ensures !Matches(h, toolName, paths, command, re)
  {
  }

  /** With path patterns configured, a call naming no paths never matches. */
  lemma PatternsNeedPaths(h: HookConfig, toolName: string, command: string, re: RegexEngine)
    requires |h.paths| > 0
    ensures !Matches(h, toolName, [], command, re)
  {
  }
}
