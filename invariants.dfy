/** internal/policy/rule_invariants.go: five ordered, declarative checks on a file that a
    modification tool is about to write. The file system is a parameter: the paths that
    exist (`os.Stat` succeeds) and the directory listings that `os.ReadDir` returns. */
module Invariants {
  import opened Wrappers
  import opened Strings
  import opened FilePath
  import opened Glob
  import opened Decisions
  import opened Config
  import opened Regexp
  import Scope

  datatype FileSystem = FileSystem(existing: set<string>, listings: map<string, seq<string>>)

  /** NewInvariantsRule: a missing configuration is the empty one. */
  function NewInvariantsRule(cfg: Option<InvariantsConfig>): (r: InvariantsConfig)
    ensures cfg.None? ==> r == NoInvariants
    ensures cfg.Some? ==> r == cfg.value
  {
    if cfg.None? then NoInvariants else cfg.value
  }

  // ---------------------------------------------------------------------------
  // Path scoping with `!` exclusions

  /** An inclusion pattern (no leading `!`) that matches the path. */
  predicate Includes(p: string, pattern: string)
  {
    !HasPrefix(pattern, "!") && Match(p, pattern)
  }

  /** An exclusion pattern (leading `!`) whose remainder matches the path. */
  predicate Excludes(p: string, pattern: string)
  {
    HasPrefix(pattern, "!") && Match(p, TrimPrefix(pattern, "!"))
  }

  /** Some pattern without `!` matches the path. */
  predicate Included(p: string, patterns: seq<string>)
  {
    exists i :: 0 <= i < |patterns| && Includes(p, patterns[i])
  }

  /** Some `!` pattern matches the path once its `!` is removed. */
  predicate Excluded(p: string, patterns: seq<string>)
  {
    exists i :: 0 <= i < |patterns| && Excludes(p, patterns[i])
  }

  /** What matchesPathPatterns decides. */
  predicate PathPatternsMatch(p: string, patterns: seq<string>)
  {
    |patterns| == 0 || (Included(p, patterns) && !Excluded(p, patterns))
  }

  /** matchesPathPatterns: one pass over the patterns setting the `included` and
      `excluded` flags. */
  method MatchesPathPatterns(p: string, patterns: seq<string>) returns (r: bool)
    ensures r == PathPatternsMatch(p, patterns)
  {
    if |patterns| == 0 {
      return true;
    }
    var included := false;
    var excluded := false;
    var i := 0;
    while i < |patterns|
      invariant 0 <= i <= |patterns|
      invariant included <==> Included(p, patterns[..i])
      invariant excluded <==> Excluded(p, patterns[..i])
    {
      var pattern := patterns[i];
      PatternsStep(p, patterns, i);
      if HasPrefix(pattern, "!") {
        if Match(p, TrimPrefix(pattern, "!")) {
          excluded := true;
        }
      } else {
        if Match(p, pattern) {
          included := true;
        }
      }
      i := i + 1;
    }
    assert patterns[..i] == patterns;
    return included && !excluded;
  }

  /** One more pattern adds its own inclusion or exclusion to those before it. */
  lemma PatternsStep(p: string, patterns: seq<string>, i: int)
    requires 0 <= i < |patterns|
    ensures Included(p, patterns[..i + 1]) <==> Included(p, patterns[..i]) || Includes(p, patterns[i])
    ensures Excluded(p, patterns[..i + 1]) <==> Excluded(p, patterns[..i]) || Excludes(p, patterns[i])
  {
    var ps := patterns[..i];
    assert patterns[..i + 1] == ps + [patterns[i]];
    IncludedSnoc(p, ps, patterns[i]);
    ExcludedSnoc(p, ps, patterns[i]);
  }

  lemma IncludedSnoc(p: string, ps: seq<string>, x: string)
    ensures Included(p, ps + [x]) <==> Included(p, ps) || Includes(p, x)
  {
    var qs := ps + [x];
    if Included(p, qs) {
      var k :| 0 <= k < |qs| && Includes(p, qs[k]);
      if k < |ps| { assert qs[k] == ps[k]; }
    }
    if Included(p, ps) {
      var k :| 0 <= k < |ps| && Includes(p, ps[k]);
      assert qs[k] == ps[k];
    }
    if Includes(p, x) {
      assert qs[|ps|] == x;
    }
  }

  lemma ExcludedSnoc(p: string, ps: seq<string>, x: string)
    ensures Excluded(p, ps + [x]) <==> Excluded(p, ps) || Excludes(p, x)
  {
    var qs := ps + [x];
    if Excluded(p, qs) {
      var k :| 0 <= k < |qs| && Excludes(p, qs[k]);
      if k < |ps| { assert qs[k] == ps[k]; }
    }
    if Excluded(p, ps) {
      var k :| 0 <= k < |ps| && Excludes(p, ps[k]);
      assert qs[k] == ps[k];
    }
    if Excludes(p, x) {
      assert qs[|ps|] == x;
    }
  }

  /** A non-empty list of exclusions alone matches nothing. */
  lemma OnlyExclusionsMatchNothing(p: string, patterns: seq<string>)
    requires |patterns| > 0
    requires forall i :: 0 <= i < |patterns| ==> HasPrefix(patterns[i], "!")
    ensures !PathPatternsMatch(p, patterns)
  {
  }

  /** An exclusion that matches wins over every inclusion. */
  lemma ExclusionWins(p: string, patterns: seq<string>, i: int)
    requires 0 <= i < |patterns| && HasPrefix(patterns[i], "!") && Match(p, TrimPrefix(patterns[i], "!"))
    ensures !PathPatternsMatch(p, patterns)
  {
  }

  // ---------------------------------------------------------------------------
  // Placeholder expansion

  /** `${ext}`: the extension of the basename, dot included. */
  function ExtOf(filePath: string): (r: string)
    ensures r == "" || r[0] == '.'
    ensures HasSuffix(Base(filePath), r)
  {
    Ext(Base(filePath))
  }

  /** `${name}`: the basename without its extension. */
  function NameOf(filePath: string): (r: string)
    ensures Base(filePath) == r + ExtOf(filePath)
  {
    TrimSuffix(Base(filePath), ExtOf(filePath))
  }

  /** `${base}`: the name with one trailing `_test` removed. */
  function BaseNameOf(filePath: string): (r: string)
    ensures HasSuffix(NameOf(filePath), "_test") ==> NameOf(filePath) == r + "_test"
    ensures !HasSuffix(NameOf(filePath), "_test") ==> r == NameOf(filePath)
  {
    TrimSuffix(NameOf(filePath), "_test")
  }

  /** The pattern with the three placeholders replaced, in the order name, base, ext. */
  function Substituted(pattern: string, filePath: string): string
  {
    var r1 := ReplaceAll(pattern, "${name}", NameOf(filePath));
    var r2 := ReplaceAll(r1, "${base}", BaseNameOf(filePath));
    ReplaceAll(r2, "${ext}", ExtOf(filePath))
  }

  /** expandPlaceholders: a substituted pattern that is neither absolute nor starts with
      `.` is taken relative to the file's directory. */
  function ExpandPlaceholders(pattern: string, filePath: string): (r: string)
    ensures var s := Substituted(pattern, filePath);
      (IsAbs(s) || HasPrefix(s, ".")) ==> r == s
    ensures var s := Substituted(pattern, filePath);
      !(IsAbs(s) || HasPrefix(s, ".")) ==> r == Join2(Dir(filePath), s)
  {
    var result := Substituted(pattern, filePath);
    if !IsAbs(result) && !HasPrefix(result, ".") then Join2(Dir(filePath), result) else result
  }

  /** A string without the first character of `sub` does not contain `sub`. */
  lemma NotContainsFirst(s: string, sub: string)
    requires |sub| > 0 && forall j :: 0 <= j < |s| ==> s[j] != sub[0]
    ensures !Contains(s, sub)
  {
    ContainsIff(s, sub);
    forall k | 0 <= k < |s| ensures !OccursAt(s, sub, k) {
      if k + |sub| <= |s| {
        assert s[k..k + |sub|][0] == s[k];
      }
    }
  }

  /** A string whose only `$` may be its first character does not contain `sub` when
      the two differ at index 2. */
  lemma NotContainsAfterFirst(s: string, sub: string)
    requires |s| >= 3 && |sub| >= 3 && sub[0] == '$' && s[2] != sub[2]
    requires forall j :: 1 <= j < |s| ==> s[j] != '$'
    ensures !Contains(s, sub)
  {
    ContainsIff(s, sub);
    forall k | 0 <= k < |s| && k + |sub| <= |s| ensures !OccursAt(s, sub, k) {
      if k == 0 {
        assert s[k..k + |sub|][2] == s[2];
      } else {
        assert s[k..k + |sub|][0] == s[k];
      }
    }
  }

  /** Replacing a target at the front of a string free of further targets. */
  lemma ReplaceLeading(target: string, t: string, x: string)
    requires |target| > 0 && !Contains(t, target)
    ensures ReplaceAll(target + t, target, x) == x + t
  {
    var s := target + t;
    assert s[..|target|] == target;
    assert OccursAt(s, target, 0);
    assert Find(s, target) == 0;
    assert s[|target|..] == t;
  }

  predicate NoDollar(s: string)
  {
    forall j :: 0 <= j < |s| ==> s[j] != '$'
  }

  /** No placeholder is left to replace in a string without `$`. */
  lemma NoDollarUnchanged(s: string, x: string)
    requires NoDollar(s)
    ensures ReplaceAll(s, "${name}", x) == s
    ensures ReplaceAll(s, "${base}", x) == s
    ensures ReplaceAll(s, "${ext}", x) == s
  {
    NotContainsFirst(s, "${name}");
    NotContainsFirst(s, "${base}");
    NotContainsFirst(s, "${ext}");
  }

  lemma NoDollarConcat(a: string, b: string)
    requires NoDollar(a) && NoDollar(b)
    ensures NoDollar(a + b)
  {
    assert forall j :: |a| <= j < |a| + |b| ==> (a + b)[j] == b[j - |a|];
  }

  /** A pattern without placeholders is only resolved against the file's directory. */
  lemma ExpandLiteral(pattern: string, filePath: string)
    requires NoDollar(pattern)
    ensures Substituted(pattern, filePath) == pattern
  {
    NoDollarUnchanged(pattern, NameOf(filePath));
    NoDollarUnchanged(pattern, BaseNameOf(filePath));
    NoDollarUnchanged(pattern, ExtOf(filePath));
  }

  /** `${name}` followed by literal text is the file's name followed by that text. */
  lemma ExpandName(t: string, filePath: string)
    requires NoDollar(t) && NoDollar(NameOf(filePath))
    ensures Substituted("${name}" + t, filePath) == NameOf(filePath) + t
  {
    NotContainsFirst(t, "${name}");
    ReplaceLeading("${name}", t, NameOf(filePath));
    NoDollarConcat(NameOf(filePath), t);
    NoDollarUnchanged(NameOf(filePath) + t, BaseNameOf(filePath));
    NoDollarUnchanged(NameOf(filePath) + t, ExtOf(filePath));
  }

  /** `${base}` followed by text without `$` holds no `${name}`. */
  lemma BaseHeadHoldsNoName(t: string)
    requires NoDollar(t)
    ensures !Contains("${base}" + t, "${name}")
  {
    var s := "${base}" + t;
    assert s[2] == 'b';
    assert forall j :: 1 <= j < |s| ==> s[j] != '$' by {
      assert forall j :: 1 <= j < 7 ==> s[j] == "${base}"[j];
      assert forall j :: 7 <= j < |s| ==> s[j] == t[j - 7];
    }
    NotContainsAfterFirst(s, "${name}");
  }

  /** `${base}` followed by literal text is the file's base name followed by that text. */
  lemma ExpandBase(t: string, filePath: string)
    requires NoDollar(t) && NoDollar(BaseNameOf(filePath))
    ensures Substituted("${base}" + t, filePath) == BaseNameOf(filePath) + t
  {
    BaseHeadHoldsNoName(t);
    NotContainsFirst(t, "${base}");
    ReplaceLeading("${base}", t, BaseNameOf(filePath));
    NoDollarConcat(BaseNameOf(filePath), t);
    NoDollarUnchanged(BaseNameOf(filePath) + t, ExtOf(filePath));
  }

  /** A bare `${ext}` is replaced by the extension. */
  lemma SubstitutedExt(filePath: string)
    ensures Substituted("${ext}", filePath) == ExtOf(filePath)
  {
    var s := "${ext}";
    assert ReplaceAll(s, "${name}", NameOf(filePath)) == s by {
      assert |"${name}"| > |s|;
    }
    assert ReplaceAll(s, "${base}", BaseNameOf(filePath)) == s by {
      assert |"${base}"| > |s|;
    }
    assert ReplaceAll(s, "${ext}", ExtOf(filePath)) == ExtOf(filePath) by {
      ReplaceLeading("${ext}", "", ExtOf(filePath));
      assert s + "" == s;
      assert ExtOf(filePath) + "" == ExtOf(filePath);
    }
  }

  /** A bare `${ext}` becomes the extension, which starts with `.` and so is not joined
      onto the directory. */
  lemma ExpandExt(filePath: string)
    requires ExtOf(filePath) != ""
    ensures ExpandPlaceholders("${ext}", filePath) == ExtOf(filePath)
  {
    SubstitutedExt(filePath);
    DottedPrefix(ExtOf(filePath));
    ExpandDotted("${ext}", filePath, ExtOf(filePath));
  }

  lemma DottedPrefix(e: string)
    requires e != "" && e[0] == '.'
    ensures HasPrefix(e, ".")
  {
    assert e[..1] == [e[0]];
  }

  /** A substitution result starting with `.` is used as it is. */
  lemma ExpandDotted(pattern: string, filePath: string, s: string)
    requires Substituted(pattern, filePath) == s && HasPrefix(s, ".")
    ensures ExpandPlaceholders(pattern, filePath) == s
  {
  }

  // ---------------------------------------------------------------------------
  // The five checks

  /** A list of checks, each passing (None) or denying with a reason, run in order. */
  function FirstDenialIndex<T>(xs: seq<T>, verdict: T -> Option<string>): (k: nat)
    ensures k <= |xs|
    ensures forall j :: 0 <= j < k ==> verdict(xs[j]).None?
    ensures k < |xs| ==> verdict(xs[k]).Some?
  {
    if |xs| == 0 || verdict(xs[0]).Some? then 0
    else
      var k := FirstDenialIndex(xs[1..], verdict);
      assert forall j :: 1 <= j < k + 1 ==> xs[j] == xs[1..][j - 1];
      1 + k
  }

  /** The loop shared by the five check functions: the first denying entry decides. */
  function FirstDenial<T>(xs: seq<T>, verdict: T -> Option<string>): (d: Decision)
    ensures d.allowed <==> forall i :: 0 <= i < |xs| ==> verdict(xs[i]).None?
    ensures d.allowed ==> d == Allow
    ensures !d.allowed ==> exists i :: (0 <= i < |xs| && verdict(xs[i]).Some?
                                   && (forall j :: 0 <= j < i ==> verdict(xs[j]).None?)
                                   && d == Deny(verdict(xs[i]).value))
  {
    var k := FirstDenialIndex(xs, verdict);
    if k == |xs| then Allow else Deny(verdict(xs[k]).value)
  }

  /** The configured message, or the default one when it is empty. */
  function MessageOr(message: string, default: string): (r: string)
    ensures message != "" ==> r == message
    ensures message == "" ==> r == default
  {
    if message != "" then message else default
  }

  /** One coexistence entry: a file matching `If` needs the expanded `Require` to exist. */
  function CoexistenceVerdict(c: CoexistenceCheck, filePath: string, fs: FileSystem): (r: Option<string>)
    ensures r.Some? <==> Match(filePath, c.ifGlob) && ExpandPlaceholders(c.require, filePath) !in fs.existing
    ensures r.Some? && c.message != "" ==> r.value == c.message
    ensures r.Some? && c.message == "" ==>
      r.value == "coexistence check failed: " + c.name + " requires " + ExpandPlaceholders(c.require, filePath)
  {
    if !Match(filePath, c.ifGlob) then None
    else
      var requiredPath := ExpandPlaceholders(c.require, filePath);
      if requiredPath !in fs.existing then
        Some(MessageOr(c.message, "coexistence check failed: " + c.name + " requires " + requiredPath))
      else None
  }

  /** checkCoexistence. */
  function CheckCoexistence(checks: seq<CoexistenceCheck>, filePath: string, fs: FileSystem): (d: Decision)
    ensures d.allowed ==> d == Allow
    ensures d.allowed <==> forall i :: 0 <= i < |checks| ==> CoexistenceVerdict(checks[i], filePath, fs).None?
    ensures !d.allowed ==> exists i :: (0 <= i < |checks| && CoexistenceVerdict(checks[i], filePath, fs).Some?
                                   && (forall j :: 0 <= j < i ==> CoexistenceVerdict(checks[j], filePath, fs).None?)
                                   && d == Deny(CoexistenceVerdict(checks[i], filePath, fs).value))
  {
    FirstDenial(checks, c => CoexistenceVerdict(c, filePath, fs))
  }

  /** One content entry: a matching `Forbid` or a failing `Require` denies; an expression
      that does not compile skips the rest of the entry. */
  function ContentVerdict(c: ContentCheck, filePath: string, content: string, re: RegexEngine): (r: Option<string>)
    ensures r.Some? ==> PathPatternsMatch(filePath, c.paths)
    ensures r.Some? && c.message != "" ==> r.value == c.message
    ensures PathPatternsMatch(filePath, c.paths) && c.forbid != "" && re.compiles(c.forbid)
            && re.matchString(c.forbid, content) && c.message == "" ==>
      r == Some("content check failed: " + c.name + " forbids pattern: " + c.forbid)
    ensures (PathPatternsMatch(filePath, c.paths) && (c.forbid == "" || (re.compiles(c.forbid) && !re.matchString(c.forbid, content)))
             && c.require != "" && re.compiles(c.require) && !re.matchString(c.require, content) && c.message == "") ==>
      r == Some("content check failed: " + c.name + " requires pattern: " + c.require)
  {
    if !PathPatternsMatch(filePath, c.paths) then None
    else if c.forbid != "" && !re.compiles(c.forbid) then None
    else if c.forbid != "" && re.matchString(c.forbid, content) then
      Some(MessageOr(c.message, "content check failed: " + c.name + " forbids pattern: " + c.forbid))
    else if c.require != "" && !re.compiles(c.require) then None
    else if c.require != "" && !re.matchString(c.require, content) then
      Some(MessageOr(c.message, "content check failed: " + c.name + " requires pattern: " + c.require))
    else None
  }

  /** checkContent. */
  function CheckContent(checks: seq<ContentCheck>, filePath: string, content: string, re: RegexEngine): (d: Decision)
    ensures d.allowed ==> d == Allow
    ensures d.allowed <==> forall i :: 0 <= i < |checks| ==> ContentVerdict(checks[i], filePath, content, re).None?
    ensures !d.allowed ==> exists i :: (0 <= i < |checks| && ContentVerdict(checks[i], filePath, content, re).Some?
                                   && (forall j :: 0 <= j < i ==> ContentVerdict(checks[j], filePath, content, re).None?)
                                   && d == Deny(ContentVerdict(checks[i], filePath, content, re).value))
  {
    FirstDenial(checks, c => ContentVerdict(c, filePath, content, re))
  }

  /** One import entry: content matching `Forbid` denies. */
  function ImportVerdict(c: ImportCheck, filePath: string, content: string, re: RegexEngine): (r: Option<string>)
    ensures r.Some? <==> PathPatternsMatch(filePath, c.paths) && re.compiles(c.forbid) && re.matchString(c.forbid, content)
    ensures r.Some? && c.message != "" ==> r.value == c.message
    ensures r.Some? && c.message == "" ==> r.value == "import check failed: " + c.name + " forbids import matching: " + c.forbid
  {
    if !PathPatternsMatch(filePath, c.paths) then None
    else if !re.compiles(c.forbid) then None
    else if re.matchString(c.forbid, content) then
      Some(MessageOr(c.message, "import check failed: " + c.name + " forbids import matching: " + c.forbid))
    else None
  }

  /** checkImports. */
  function CheckImports(checks: seq<ImportCheck>, filePath: string, content: string, re: RegexEngine): (d: Decision)
    ensures d.allowed ==> d == Allow
    ensures d.allowed <==> forall i :: 0 <= i < |checks| ==> ImportVerdict(checks[i], filePath, content, re).None?
    ensures !d.allowed ==> exists i :: (0 <= i < |checks| && ImportVerdict(checks[i], filePath, content, re).Some?
                                   && (forall j :: 0 <= j < i ==> ImportVerdict(checks[j], filePath, content, re).None?)
                                   && d == Deny(ImportVerdict(checks[i], filePath, content, re).value))
  {
    FirstDenial(checks, c => ImportVerdict(c, filePath, content, re))
  }

  /** One naming entry: the basename must match `Pattern`. */
  function NamingVerdict(c: NamingCheck, filePath: string, re: RegexEngine): (r: Option<string>)
    ensures r.Some? <==> PathPatternsMatch(filePath, c.paths) && re.compiles(c.pattern) && !re.matchString(c.pattern, Base(filePath))
    ensures r.Some? && c.message != "" ==> r.value == c.message
    ensures r.Some? && c.message == "" ==> r.value == "naming check failed: " + c.name + " requires pattern: " + c.pattern
  {
    if !PathPatternsMatch(filePath, c.paths) then None
    else if !re.compiles(c.pattern) then None
    else if !re.matchString(c.pattern, Base(filePath)) then
      Some(MessageOr(c.message, "naming check failed: " + c.name + " requires pattern: " + c.pattern))
    else None
  }

  /** checkNaming. */
  function CheckNaming(checks: seq<NamingCheck>, filePath: string, re: RegexEngine): (d: Decision)
    ensures d.allowed ==> d == Allow
    ensures d.allowed <==> forall i :: 0 <= i < |checks| ==> NamingVerdict(checks[i], filePath, re).None?
    ensures !d.allowed ==> exists i :: (0 <= i < |checks| && NamingVerdict(checks[i], filePath, re).Some?
                                   && (forall j :: 0 <= j < i ==> NamingVerdict(checks[j], filePath, re).None?)
                                   && d == Deny(NamingVerdict(checks[i], filePath, re).value))
  {
    FirstDenial(checks, c => NamingVerdict(c, filePath, re))
  }

  /** Some directory entry matches the `When` glob. */
  predicate SomeEntryMatches(entries: seq<string>, when: string)
  {
    exists i :: 0 <= i < |entries| && Match(entries[i], when)
  }

  /** The `found` loop of checkRequired. */
  method FindEntry(entries: seq<string>, when: string) returns (found: bool)
    ensures found <==> SomeEntryMatches(entries, when)
  {
    found := false;
    var i := 0;
    while i < |entries|
      invariant 0 <= i <= |entries|
      invariant found <==> exists k :: 0 <= k < i && Match(entries[k], when)
    {
      var hit := Match(entries[i], when);
      ExistsStep(entries, i, e => Match(e, when));
      found := found || hit;
      i := i + 1;
    }
  }

  /** An existential over the first `i + 1` elements, split at the last one. */
  lemma ExistsStep(xs: seq<string>, i: nat, p: string -> bool)
    requires i < |xs|
    ensures (exists k :: 0 <= k < i + 1 && p(xs[k])) <==> (exists k :: 0 <= k < i && p(xs[k])) || p(xs[i])
  {
    if exists k :: 0 <= k < i + 1 && p(xs[k]) {
      var k :| 0 <= k < i + 1 && p(xs[k]);
      assert k < i || k == i;
    }
  }

  /** One required entry, for the directory `dir` of the file: when the directory matches
      `Dirs` (and, if `When` is set, it can be listed and some entry matches `When`),
      `dir/Require` must exist. */
  function RequiredVerdict(c: RequiredCheck, dir: string, fs: FileSystem): (r: Option<string>)
    ensures r.Some? <==> Match(dir, c.dirs)
                         && (c.when == "" || (dir in fs.listings && SomeEntryMatches(fs.listings[dir], c.when)))
                         && Join2(dir, c.require) !in fs.existing
    ensures r.Some? && c.message != "" ==> r.value == c.message
    ensures r.Some? && c.message == "" ==> r.value == "required check failed: " + c.name + " requires " + c.require + " in " + dir
  {
    if !Match(dir, c.dirs) then None
    else if c.when != "" && (dir !in fs.listings || !SomeEntryMatches(fs.listings[dir], c.when)) then None
    else if Join2(dir, c.require) !in fs.existing then
      Some(MessageOr(c.message, "required check failed: " + c.name + " requires " + c.require + " in " + dir))
    else None
  }

  /** checkRequired. */
  function CheckRequired(checks: seq<RequiredCheck>, filePath: string, fs: FileSystem): (d: Decision)
    ensures d.allowed ==> d == Allow
    ensures d.allowed <==> forall i :: 0 <= i < |checks| ==> RequiredVerdict(checks[i], Dir(filePath), fs).None?
    ensures !d.allowed ==> exists i :: (0 <= i < |checks| && RequiredVerdict(checks[i], Dir(filePath), fs).Some?
                                   && (forall j :: 0 <= j < i ==> RequiredVerdict(checks[j], Dir(filePath), fs).None?)
                                   && d == Deny(RequiredVerdict(checks[i], Dir(filePath), fs).value))
  {
    FirstDenial(checks, c => RequiredVerdict(c, Dir(filePath), fs))
  }

  // ---------------------------------------------------------------------------
  // The rule

  /** The outcomes of the five checks, in the order they run. */
  function CheckResults(cfg: InvariantsConfig, filePath: string, content: string, re: RegexEngine, fs: FileSystem): (rs: seq<Decision>)
    ensures |rs| == 5
    ensures forall k :: 0 <= k < |rs| && rs[k].allowed ==> rs[k] == Allow
  {
    var a := CheckCoexistence(cfg.coexistence, filePath, fs);
    var b := CheckContent(cfg.content, filePath, content, re);
    var c := CheckImports(cfg.imports, filePath, content, re);
    var n := CheckNaming(cfg.naming, filePath, re);
    var q := CheckRequired(cfg.required, filePath, fs);
    AllowedAreAllow(a, b, c, n, q);
    [a, b, c, n, q]
  }

  lemma AllowedAreAllow(a: Decision, b: Decision, c: Decision, n: Decision, q: Decision)
    requires a.allowed ==> a == Allow
    requires b.allowed ==> b == Allow
    requires c.allowed ==> c == Allow
    requires n.allowed ==> n == Allow
    requires q.allowed ==> q == Allow
    ensures forall k :: 0 <= k < 5 && [a, b, c, n, q][k].allowed ==> [a, b, c, n, q][k] == Allow
  {
  }

  /** The first decision that denies, or Allow when none does. */
  function FirstDenied(rs: seq<Decision>): (d: Decision)
    ensures d.allowed <==> forall k :: 0 <= k < |rs| ==> rs[k].allowed
    ensures d.allowed ==> d == Allow
    ensures !d.allowed ==> exists k :: 0 <= k < |rs| && d == rs[k] && forall j :: 0 <= j < k ==> rs[j].allowed
  {
    if |rs| == 0 then Allow
    else if !rs[0].allowed then rs[0]
    else
      var d := FirstDenied(rs[1..]);
      assert forall k :: 1 <= k < |rs| ==> rs[k] == rs[1..][k - 1];
      d
  }

  /** InvariantsRule.Evaluate: only modification tools are checked, a missing
      configuration checks nothing, and otherwise the first of the five checks that
      denies decides. */
  function Evaluate(cfg: Option<InvariantsConfig>, toolName: string, filePath: string, content: string,
                    re: RegexEngine, fs: FileSystem): (d: Decision)
    ensures toolName !in Scope.WriteTools ==> d == Allow
    ensures cfg.None? ==> d == Allow
    ensures toolName in Scope.WriteTools ==>
      d == FirstDenied(CheckResults(NewInvariantsRule(cfg), filePath, content, re, fs))
  {
    if toolName !in Scope.WriteTools then Allow
    else FirstDenied(CheckResults(NewInvariantsRule(cfg), filePath, content, re, fs))
  }

  /** With a regex engine that compiles nothing, the regex checks never deny. */
  lemma InvalidRegexNeverDenies(cfg: InvariantsConfig, filePath: string, content: string, re: RegexEngine)
    requires forall e :: !re.compiles(e)
    ensures CheckContent(cfg.content, filePath, content, re) == Allow
    ensures CheckImports(cfg.imports, filePath, content, re) == Allow
    ensures CheckNaming(cfg.naming, filePath, re) == Allow
  {
  }

  /** A content entry whose `Forbid` does not compile never reaches its `Require`. */
  lemma InvalidForbidSkipsRequire(c: ContentCheck, filePath: string, content: string, re: RegexEngine)
    requires c.forbid != "" && !re.compiles(c.forbid)
    ensures ContentVerdict(c, filePath, content, re) == None
  {
  }

  /** A content entry denies exactly when it applies and a compiling `Forbid` matches, or
      a compiling `Require` does not. */
  lemma ContentDeniesIff(c: ContentCheck, filePath: string, content: string, re: RegexEngine)
    ensures ContentVerdict(c, filePath, content, re).Some? <==>
      PathPatternsMatch(filePath, c.paths)
      && !(c.forbid != "" && !re.compiles(c.forbid))
      && ((c.forbid != "" && re.matchString(c.forbid, content))
          || (c.require != "" && re.compiles(c.require) && !re.matchString(c.require, content)))
  {
  }

  /** When every entry carries its own message, a denial's reason is the message of the
      first entry that denies. */
  lemma ContentMessageUsed(checks: seq<ContentCheck>, filePath: string, content: string, re: RegexEngine)
    requires forall i :: 0 <= i < |checks| ==> checks[i].message != ""
    ensures var d := CheckContent(checks, filePath, content, re);
      !d.allowed ==> exists i :: 0 <= i < |checks| && d.reason == checks[i].message
  {
    var d := CheckContent(checks, filePath, content, re);
    if !d.allowed {
      var i :| 0 <= i < |checks| && ContentVerdict(checks[i], filePath, content, re).Some?
        && d == Deny(ContentVerdict(checks[i], filePath, content, re).value);
    }
  }

  /** The naming check looks at the basename alone: two files with the same basename get
      the same verdict from an entry whose paths both satisfy. */
  lemma NamingUsesBase(c: NamingCheck, p: string, q: string, re: RegexEngine)
    requires Base(p) == Base(q) && PathPatternsMatch(p, c.paths) == PathPatternsMatch(q, c.paths)
    ensures NamingVerdict(c, p, re) == NamingVerdict(c, q, re)
  {
  }

  /** A required entry with a `When` glob is skipped when the directory cannot be listed
      or no entry of it matches. */
  lemma RequiredWhenSkips(c: RequiredCheck, dir: string, fs: FileSystem)
    requires c.when != ""
    requires dir !in fs.listings || forall i :: 0 <= i < |fs.listings[dir]| ==> !Match(fs.listings[dir][i], c.when)
    ensures RequiredVerdict(c, dir, fs) == None
  {
  }

  /** A required entry that applies denies exactly when `dir/Require` is missing. */
  lemma RequiredDeniesIff(c: RequiredCheck, dir: string, fs: FileSystem)
    requires Match(dir, c.dirs) && c.when == ""
    ensures RequiredVerdict(c, dir, fs).Some? <==> Join2(dir, c.require) !in fs.existing
  {
  }
}
