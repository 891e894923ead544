/** plugins/sentinel/internal/git/git.go: classifying a shell command as `git commit` or
    `git add`, and pulling the file arguments out of a `git add`. Running git
    (`GetStagedDiff`) and reading files (`ReadFiles`) are not part of this model. */
module Git {
  import opened Strings

  /** IsCommitCommand: plain substring tests, anywhere in the command. */
  predicate IsCommitCommand(command: string)
  {
    Contains(command, "git") && Contains(command, "commit")
  }

  /** IsAddCommand. */
  predicate IsAddCommand(command: string)
  {
    Contains(command, "git") && Contains(command, "add")
  }

  /** The tests are plain substring tests: "legit address" reads as a `git add`. */
  lemma LegitAddressIsAdd(s: string)
    requires s == "legit address"
    ensures IsAddCommand(s)
  {
    assert s[2..5] == "git";
    ContainsAt(s, "git", 2);
    assert s[6..9] == "add";
    ContainsAt(s, "add", 6);
  }

  /** ... and not as a `git commit`, since it holds no `c`. */
  lemma LegitAddressNotCommit(s: string)
    requires s == "legit address"
    ensures !IsCommitCommand(s)
  {
    assert forall i :: 0 <= i < |s| ==> s[i] != 'c';
    forall k
      ensures !OccursAt(s, "commit", k)
    {
      if 0 <= k && k + 6 <= |s| {
        assert s[k..k + 6][0] == s[k];
      }
    }
  }

  /** A commit whose message mentions `add` reads as both, so the add route takes it. */
  lemma CommitMentioningAddIsBoth(s: string)
    requires s == "git commit -m add"
    ensures IsAddCommand(s) && IsCommitCommand(s)
  {
    var a, b, c := "git ", "commit", " -m add";
    assert s == a + b + c;
    assert s[0..3] == "git";
    ContainsAt(s, "git", 0);
    assert s[4..10] == b;
    ContainsAt(s, "commit", 4);
    assert s[14..17] == "add";
    ContainsAt(s, "add", 14);
  }

  predicate IsSeparator(part: string)
  {
    part == "&&" || part == ";" || part == "||"
  }

  /** Flags whose value is the next field. */
  predicate TakesValue(part: string)
  {
    part == "-C" || part == "--git-dir" || part == "--work-tree"
  }

  /** What the loop of ExtractAddFiles collects from field `i` on, in state
      (`skipNext`, `inGitAdd`). Nothing collected is a flag, `add` or a separator. */
  function Scan(parts: seq<string>, i: nat, skipNext: bool, inGitAdd: bool): (r: seq<string>)
    ensures forall k :: 0 <= k < |r| ==> !HasPrefix(r[k], "-") && r[k] != "add" && !IsSeparator(r[k])
    decreases |parts| - i
  {
    if i >= |parts| then []
    else
      var part := parts[i];
      if skipNext then Scan(parts, i + 1, false, inGitAdd)
      else if HasPrefix(part, "-") then Scan(parts, i + 1, TakesValue(part), inGitAdd)
      else if part == "git" && i + 1 < |parts| then Scan(parts, i + 1, false, inGitAdd)
      else if part == "add" then Scan(parts, i + 1, false, true)
      else if inGitAdd && !IsSeparator(part) then [part] + Scan(parts, i + 1, false, inGitAdd)
      else Scan(parts, i + 1, false, inGitAdd)
  }

  /** What ExtractAddFiles returns: some of the command's fields, in order, none of them
      a flag, `add` or a separator. */
  function AddFiles(command: string): (r: seq<string>)
    ensures Subsequence(r, Fields(command))
    ensures forall k :: 0 <= k < |r| ==> !HasPrefix(r[k], "-") && r[k] != "add" && !IsSeparator(r[k])
  {
    ScanSubsequence(Fields(command), 0, false, false);
    assert Fields(command)[0..] == Fields(command);
    Scan(Fields(command), 0, false, false)
  }

  /** ExtractAddFiles as written: the separator test inside the collecting branch can
      never succeed, so separators are skipped but collection goes on after them. */
  method ExtractAddFiles(command: string) returns (files: seq<string>)
    ensures files == AddFiles(command)
  {
    files := [];
    var parts := Fields(command);
    var skipNext := false;
    var inGitAdd := false;
    var i := 0;
    while i < |parts|
      invariant 0 <= i <= |parts|
      invariant files + Scan(parts, i, skipNext, inGitAdd) == Scan(parts, 0, false, false)
    {
      var part := parts[i];
      if skipNext {
        skipNext := false;
        i := i + 1;
        continue;
      }
      if HasPrefix(part, "-") {
        if part == "-C" || part == "--git-dir" || part == "--work-tree" {
          skipNext := true;
        }
        i := i + 1;
        continue;
      }
      if part == "git" && i + 1 < |parts| {
        i := i + 1;
        continue;
      }
      if part == "add" {
        inGitAdd := true;
        i := i + 1;
        continue;
      }
      if inGitAdd && part != "&&" && part != ";" && part != "||" {
        assert files + Scan(parts, i, skipNext, inGitAdd) == (files + [part]) + Scan(parts, i + 1, false, inGitAdd);
        files := files + [part];
      }
      i := i + 1;
    }
  }

  /** `xs` is `ys` with some elements left out, the rest in order. */
  predicate Subsequence(xs: seq<string>, ys: seq<string>)
    decreases |ys|
  {
    if |ys| == 0 then xs == []
    else Subsequence(xs, ys[1..]) || (|xs| > 0 && xs[0] == ys[0] && Subsequence(xs[1..], ys[1..]))
  }

  /** The files are some of the fields, in input order. */
  lemma {:induction false} ScanSubsequence(parts: seq<string>, i: nat, skipNext: bool, inGitAdd: bool)
    requires i <= |parts|
    ensures Subsequence(Scan(parts, i, skipNext, inGitAdd), parts[i..])
    decreases |parts| - i
  {
    if i < |parts| {
      var part := parts[i];
      assert parts[i..][0] == part && parts[i..][1..] == parts[i + 1..];
      if skipNext {
        ScanSubsequence(parts, i + 1, false, inGitAdd);
      } else if HasPrefix(part, "-") {
        ScanSubsequence(parts, i + 1, TakesValue(part), inGitAdd);
      } else if part == "git" && i + 1 < |parts| {
        ScanSubsequence(parts, i + 1, false, inGitAdd);
      } else if part == "add" {
        ScanSubsequence(parts, i + 1, false, true);
      } else {
        ScanSubsequence(parts, i + 1, false, inGitAdd);
        var rest := Scan(parts, i + 1, false, inGitAdd);
        if inGitAdd && !IsSeparator(part) {
          assert ([part] + rest)[0] == part && ([part] + rest)[1..] == rest;
        }
      }
    }
  }

  /** Field `x` stands at some position `m >= i`, which is the last position when `x` is
      `git`, and (unless a `git add` is already under way) an `add` field stands between
      `i` and `m`. */
  predicate Origin(parts: seq<string>, i: nat, x: string, inGitAdd: bool)
  {
    exists m :: i <= m < |parts| && parts[m] == x && (x == "git" ==> m == |parts| - 1)
                && (inGitAdd || exists j :: i <= j < m && parts[j] == "add")
  }

  lemma OriginWiden(parts: seq<string>, i: nat, x: string, inGitAdd: bool)
    requires Origin(parts, i + 1, x, inGitAdd)
    ensures Origin(parts, i, x, inGitAdd)
  {
    var m :| i + 1 <= m < |parts| && parts[m] == x && (x == "git" ==> m == |parts| - 1)
             && (inGitAdd || exists j :: i + 1 <= j < m && parts[j] == "add");
    if !inGitAdd {
      var j :| i + 1 <= j < m && parts[j] == "add";
      assert i <= j < m;
    }
  }

  lemma OriginAfterAdd(parts: seq<string>, i: nat, x: string, inGitAdd: bool)
    requires i < |parts| && parts[i] == "add" && Origin(parts, i + 1, x, true)
    ensures Origin(parts, i, x, inGitAdd)
  {
    var m :| i + 1 <= m < |parts| && parts[m] == x && (x == "git" ==> m == |parts| - 1);
    assert i <= i < m && parts[i] == "add";
  }

  /** Every field Scan collects has its origin in the fields it scans. */
  lemma {:induction false} ScanOrigin(parts: seq<string>, i: nat, skipNext: bool, inGitAdd: bool)
    requires i <= |parts|
    ensures forall x :: x in Scan(parts, i, skipNext, inGitAdd) ==> Origin(parts, i, x, inGitAdd)
    decreases |parts| - i
  {
    if i < |parts| {
      var part := parts[i];
      var next := if skipNext then false else if HasPrefix(part, "-") then TakesValue(part) else false;
      if !skipNext && !HasPrefix(part, "-") && part == "add" {
        ScanOrigin(parts, i + 1, false, true);
        forall x | x in Scan(parts, i + 1, false, true) ensures Origin(parts, i, x, inGitAdd) {
          OriginAfterAdd(parts, i, x, inGitAdd);
        }
      } else {
        ScanOrigin(parts, i + 1, next, inGitAdd);
        forall x | x in Scan(parts, i + 1, next, inGitAdd) ensures Origin(parts, i, x, inGitAdd) {
          OriginWiden(parts, i, x, inGitAdd);
        }
        if !skipNext && !HasPrefix(part, "-") && !(part == "git" && i + 1 < |parts|) && inGitAdd && !IsSeparator(part) {
          assert Scan(parts, i, skipNext, inGitAdd) == [part] + Scan(parts, i + 1, next, inGitAdd);
          assert Origin(parts, i, part, inGitAdd) by {
            assert parts[i] == part;
          }
        }
      }
    }
  }

  /** Only fields after an `add` field are collected. */
  lemma CollectedAfterAdd(command: string, x: string)
    requires x in AddFiles(command)
    ensures exists j, m :: 0 <= j < m < |Fields(command)| && Fields(command)[j] == "add" && Fields(command)[m] == x
  {
    ScanOrigin(Fields(command), 0, false, false);
    var m :| 0 <= m < |Fields(command)| && Fields(command)[m] == x
             && exists j :: 0 <= j < m && Fields(command)[j] == "add";
  }

  /** A `git` field is skipped unless it is the last field. */
  lemma GitCollectedOnlyLast(command: string)
    requires "git" in AddFiles(command)
    ensures Fields(command)[|Fields(command)| - 1] == "git"
  {
    ScanOrigin(Fields(command), 0, false, false);
  }

  /** Outside a `git add`, nothing is collected until an `add` field turns up. */
  lemma {:induction false} NoAddNoFiles(parts: seq<string>, i: nat, skipNext: bool)
    requires forall k :: i <= k < |parts| ==> parts[k] != "add"
    ensures Scan(parts, i, skipNext, false) == []
    decreases |parts| - i
  {
    if i < |parts| {
      var part := parts[i];
      NoAddNoFiles(parts, i + 1, false);
      NoAddNoFiles(parts, i + 1, TakesValue(part));
    }
  }

  /** The field after `-C`, `--git-dir` or `--work-tree` is skipped with it. */
  lemma FlagValueSkipped(parts: seq<string>, i: nat, inGitAdd: bool)
    requires i + 1 < |parts| && TakesValue(parts[i])
    ensures Scan(parts, i, false, inGitAdd) == Scan(parts, i + 2, false, inGitAdd)
  {
    assert HasPrefix(parts[i], "-") by {
      assert parts[i][..1] == "-";
    }
  }

  /** Whether a field is a flag depends on its first character alone. */
  lemma FlagIff(part: string)
    requires |part| > 0
    ensures HasPrefix(part, "-") <==> part[0] == '-'
  {
    if part[0] == '-' {
      assert part[..1] == "-";
    } else {
      assert part[..1][0] != "-"[0];
    }
  }

  /** `git add a.go && git commit -m wip`: after the separator, `commit` and the message
      are collected as files. */
  lemma AddThenCommitCollectsCommit()
    ensures Scan(["git", "add", "a.go", "&&", "git", "commit", "-m", "wip"], 0, false, false)
      == ["a.go", "commit", "wip"]
  {
    var ps := ["git", "add", "a.go", "&&", "git", "commit", "-m", "wip"];
    FlagIff("git");
    FlagIff("add");
    FlagIff("a.go");
    FlagIff("&&");
    FlagIff("commit");
    FlagIff("wip");
    FlagIff("-m");
    assert !TakesValue("-m");
    assert Scan(ps, 7, false, true) == ["wip"];
    assert Scan(ps, 6, false, true) == ["wip"];
    assert Scan(ps, 5, false, true) == ["commit", "wip"];
    assert Scan(ps, 3, false, true) == ["commit", "wip"];
    assert Scan(ps, 2, false, true) == ["a.go", "commit", "wip"];
  }

  /** `git add ; ls`: the code as written collects `ls`, the corrected scan nothing. */
  lemma SemicolonScans()
    ensures Scan(["git", "add", ";", "ls"], 0, false, false) == ["ls"]
    ensures ScanCorrected(["git", "add", ";", "ls"], 0, false, false) == []
  {
    var ps := ["git", "add", ";", "ls"];
    FlagIff("git");
    FlagIff("add");
    FlagIff(";");
    FlagIff("ls");
    assert Scan(ps, 3, false, true) == ["ls"];
    assert Scan(ps, 2, false, true) == ["ls"];
    assert ScanCorrected(ps, 2, false, true) == [];
  }

  /** ExtractAddFiles as its comment intends: collection stops at the first separator
      after `add`. */
  function ScanCorrected(parts: seq<string>, i: nat, skipNext: bool, inGitAdd: bool): (r: seq<string>)
    ensures forall k :: 0 <= k < |r| ==> !HasPrefix(r[k], "-") && r[k] != "add" && !IsSeparator(r[k])
    decreases |parts| - i
  {
    if i >= |parts| then []
    else
      var part := parts[i];
      if skipNext then ScanCorrected(parts, i + 1, false, inGitAdd)
      else if HasPrefix(part, "-") then ScanCorrected(parts, i + 1, TakesValue(part), inGitAdd)
      else if part == "git" && i + 1 < |parts| then ScanCorrected(parts, i + 1, false, inGitAdd)
      else if part == "add" then ScanCorrected(parts, i + 1, false, true)
      else if inGitAdd && IsSeparator(part) then []
      else if inGitAdd then [part] + ScanCorrected(parts, i + 1, false, inGitAdd)
      else ScanCorrected(parts, i + 1, false, inGitAdd)
  }

  function AddFilesCorrected(command: string): (r: seq<string>)
    ensures forall k :: 0 <= k < |r| ==> !HasPrefix(r[k], "-") && r[k] != "add" && !IsSeparator(r[k])
  {
    ScanCorrected(Fields(command), 0, false, false)
  }

  /** Inside a `git add`, the corrected scan collects nothing from a separator on. */
  lemma {:induction false} CorrectedStopsAtSeparator(parts: seq<string>, i: nat, j: nat)
    requires i <= j < |parts| && IsSeparator(parts[j])
    requires forall k :: i <= k < j ==> !HasPrefix(parts[k], "-") && parts[k] != "git" && parts[k] != "add" && !IsSeparator(parts[k])
    ensures ScanCorrected(parts, i, false, true) == parts[i..j]
    decreases j - i
  {
    if i < j {
      CorrectedStopsAtSeparator(parts, i + 1, j);
      assert parts[i..j] == [parts[i]] + parts[i + 1..j];
    } else {
      assert !HasPrefix(parts[j], "-") by {
        assert parts[j][0] != '-';
      }
    }
  }

  /** Without separators the two scans agree. */
  lemma {:induction false} CorrectedAgrees(parts: seq<string>, i: nat, skipNext: bool, inGitAdd: bool)
    requires forall k :: i <= k < |parts| ==> !IsSeparator(parts[k])
    ensures ScanCorrected(parts, i, skipNext, inGitAdd) == Scan(parts, i, skipNext, inGitAdd)
    decreases |parts| - i
  {
    if i < |parts| {
      var part := parts[i];
      CorrectedAgrees(parts, i + 1, false, inGitAdd);
      CorrectedAgrees(parts, i + 1, false, true);
      CorrectedAgrees(parts, i + 1, TakesValue(part), inGitAdd);
    }
  }

  /** The same command read as intended: only `a.go`. */
  lemma AddThenCommitCorrected()
    ensures ScanCorrected(["git", "add", "a.go", "&&", "git", "commit", "-m", "wip"], 0, false, false) == ["a.go"]
  {
    var ps := ["git", "add", "a.go", "&&", "git", "commit", "-m", "wip"];
    FlagIff("git");
    FlagIff("add");
    FlagIff("a.go");
    FlagIff("&&");
    assert ScanCorrected(ps, 2, false, true) == ["a.go"] by {
      CorrectedStopsAtSeparator(ps, 2, 3);
      assert ps[2..3] == ["a.go"];
    }
  }
}
