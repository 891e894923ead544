/** internal/policy/rule_scope.go: the scope rule, which confines file modifications to
    the allow globs and keeps them out of the block globs. How candidate paths are
    collected from a parsed command (`collectPathCandidates`) is not part of this
    model; it is the parameter `collect`. */
module Scope {
  import opened Wrappers
  import opened Glob
  import opened Decisions
  import opened Extract
  import opened Config

  /** writeTools: the tools that modify files. */
  const WriteTools: set<string> := {"Write", "Edit", "NotebookEdit"}

  datatype ScopeToFiles = ScopeToFiles(allow: seq<string>, block: seq<string>)

  /** NewScopeToFiles: no configuration gives empty lists. */
  function NewScopeToFiles(cfg: Option<ScopeConfig>): (r: ScopeToFiles)
    ensures cfg.None? ==> r.allow == [] && r.block == []
    ensures cfg.Some? ==> r.allow == cfg.value.allow && r.block == cfg.value.block
  {
    match cfg
      case None => ScopeToFiles([], [])
      case Some(c) => ScopeToFiles(c.allow, c.block)
  }

  /** isBlocked: some block glob matches the path. */
  function IsBlocked(r: ScopeToFiles, p: string): (b: bool)
    ensures b <==> exists i :: 0 <= i < |r.block| && Match(p, r.block[i])
  {
    MatchAny(p, r.block)
  }

  /** isInScope: with no allow globs every path is in scope. */
  function IsInScope(r: ScopeToFiles, p: string): (b: bool)
    ensures b <==> |r.allow| == 0 || exists i :: 0 <= i < |r.allow| && Match(p, r.allow[i])
  {
    |r.allow| == 0 || MatchAny(p, r.allow)
  }

  /** A path the rule lets through. */
  predicate Passes(r: ScopeToFiles, p: string)
  {
    !IsBlocked(r, p) && IsInScope(r, p)
  }

  /** The reason given for a path that does not pass: the block test comes first. */
  function FailureReason(r: ScopeToFiles, p: string): string
  {
    if IsBlocked(r, p) then "path is blocked by scope configuration: " + p
    else "path is outside allowed scope: " + p
  }

  /** Index of the first candidate that does not pass, or the number of candidates. */
  function FirstFailing(r: ScopeToFiles, paths: seq<string>): (k: nat)
    ensures k <= |paths|
    ensures forall j :: 0 <= j < k ==> Passes(r, paths[j])
    ensures k < |paths| ==> !Passes(r, paths[k])
  {
    if |paths| == 0 || !Passes(r, paths[0]) then 0
    else
      var k := FirstFailing(r, paths[1..]);
      assert forall j :: 1 <= j < k + 1 ==> paths[j] == paths[1..][j - 1];
      1 + k
  }

  /** The loop of Evaluate over the candidates: it allows when every candidate passes,
      and otherwise denies for the first candidate that does not. */
  function FirstFailure(r: ScopeToFiles, paths: seq<string>): (d: Decision)
    ensures d.allowed <==> forall i :: 0 <= i < |paths| ==> Passes(r, paths[i])
    ensures d.allowed ==> d == Allow
    ensures !d.allowed ==> exists i :: (0 <= i < |paths| && !Passes(r, paths[i])
                                   && (forall j :: 0 <= j < i ==> Passes(r, paths[j]))
                                   && d == Deny(FailureReason(r, paths[i])))
  {
    var k := FirstFailing(r, paths);
    if k == |paths| then Allow else Deny(FailureReason(r, paths[k]))
  }

  /** ScopeToFiles.Evaluate: tools that do not modify files always pass. */
  function Evaluate(r: ScopeToFiles, toolName: string, cmd: Command, collect: Command -> seq<string>): (d: Decision)
    ensures toolName !in WriteTools ==> d == Allow
    ensures toolName in WriteTools ==> d == FirstFailure(r, collect(cmd))
  {
    if toolName !in WriteTools then Allow else FirstFailure(r, collect(cmd))
  }

  /** Block is checked before allow: a blocked path is denied as blocked even when an
      allow glob matches it. */
  lemma BlockBeatsAllow(r: ScopeToFiles, p: string)
    requires IsBlocked(r, p)
    ensures FirstFailure(r, [p]) == Deny("path is blocked by scope configuration: " + p)
  {
  }

  /** With no globs at all, every path passes. */
  lemma EmptyListsAllowAll(paths: seq<string>)
    ensures FirstFailure(ScopeToFiles([], []), paths) == Allow
  {
    forall i | 0 <= i < |paths| ensures Passes(ScopeToFiles([], []), paths[i]) {
    }
  }

  /** Passing candidates in front move the first failure back by their number. */
  lemma {:induction false} FirstFailingShift(r: ScopeToFiles, ok: seq<string>, rest: seq<string>)
    requires forall i :: 0 <= i < |ok| ==> Passes(r, ok[i])
    ensures FirstFailing(r, ok + rest) == |ok| + FirstFailing(r, rest)
    decreases |ok|
  {
    if |ok| == 0 {
      assert ok + rest == rest;
    } else {
      var s := ok + rest;
      assert s[0] == ok[0];
      assert s[1..] == ok[1..] + rest;
      FirstFailingShift(r, ok[1..], rest);
    }
  }

  /** FirstFailure in terms of the index of the first failing candidate. */
  lemma FirstFailureAt(r: ScopeToFiles, paths: seq<string>, k: nat)
    requires k == FirstFailing(r, paths)
    ensures FirstFailure(r, paths) == if k == |paths| then Allow else Deny(FailureReason(r, paths[k]))
  {
  }

  /** The rule's answer does not depend on the order of passing candidates before the
      first failing one: prefixing passing paths changes nothing. */
  lemma PassingPrefix(r: ScopeToFiles, ok: seq<string>, rest: seq<string>)
    requires forall i :: 0 <= i < |ok| ==> Passes(r, ok[i])
    ensures FirstFailure(r, ok + rest) == FirstFailure(r, rest)
  {
    FirstFailingShift(r, ok, rest);
    var k := FirstFailing(r, rest);
    FirstFailureAt(r, rest, k);
    FirstFailureAt(r, ok + rest, |ok| + k);
    if k < |rest| {
      assert (ok + rest)[|ok| + k] == rest[k];
    }
  }
}
