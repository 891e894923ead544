# watchman decision engine, modelled in Dafny

watchman is a pre-tool-use gate for an AI coding agent. Before the agent runs a tool
(Bash, Read, Write, Edit, Glob, Grep, ...), the gate receives the tool name and input and
answers allow, deny or allow-with-warning. This project models the gate's decision
engine and proves properties of it:

- the glob matcher with its `**` handling;
- the heredoc stripper applied to shell commands;
- the per-tool path extractor;
- the hard-coded protected-path guard;
- the scope and invariants modification rules;
- the external-hook matcher and the resolution of a hook run's outcome;
- the evaluator cascade that ties them together;
- the reminder counters;
- the `sentinel` plugin's git command reading, routing and AI-provider fallback;
- the detection and installation of the watchman hook in the agent's settings.

Modules, one per source file (plus shared support):

| module | models |
|---|---|
| `Wrappers`, `Strings`, `FilePath`, `JsonValue`, `Regexp`, `Decisions`, `Config` | Option/Result; Go's `strings` and `path/filepath` functions the core calls; decoded JSON values; an abstract regex engine; `policy.Decision`/`hook.Result`; the configuration records the core reads |
| `Glob` | internal/glob/glob.go |
| `Heredoc` | internal/parser/heredoc.go |
| `Extract` | internal/hook/extract.go |
| `Protected`, `ProtectedHome` | internal/policy/protected.go |
| `Scope` | internal/policy/rule_scope.go |
| `Invariants` | internal/policy/rule_invariants.go |
| `Matcher` | internal/hook/matcher.go |
| `Executor` | internal/hook/executor.go |
| `Evaluator` | internal/hook/evaluator.go |
| `ReminderState` | internal/state/state.go |
| `Git`, `Processor`, `Client` | plugins/sentinel/internal/git/git.go, processor/processor.go, client/client.go |
| `Setup` | internal/cli/setup.go |

The code's own form is kept:

- Loops that build a result step by step are methods with loop invariants. Each is proved
  equal to a specification function, and the properties are proved about that function.
  These are `MatchDoublestar`, `StripHeredocs`, `ExtractBashPaths`, `IsAlwaysProtected`,
  `MatchesPathPatterns`, `FindEntry`, `EvaluateHooks`, `ExtractAddFiles`,
  `NewFallbackClient`, `FallbackEvaluate` and `HasWatchmanHook`.
- The reminder `Manager`, whose maps the source updates in place, is a class.
- Pure dispatch and expression code is made of functions.

What the environment supplies is a parameter:

- the home directory and working directory (`Protected.Os`);
- the files that exist and the directory listings (`Invariants.FileSystem`);
- a regex engine with a "compiles" flag (`Regexp.RegexEngine`);
- the clock (`now`);
- the outcome of running a hook process (`Executor.Outcome`);
- the shell parser, the workspace, versioning and incremental rules (fields of `Evaluator.Host`);
- the sentinel evaluator, file reader and staged diff (`Processor.Env`);
- the AI providers' answers (`Client.FallbackEvaluate`'s `call`).

Where the code and its tests or comments disagree, the model follows the code. The three
defects under "## Findings" are modelled as written, and a corrected member stands beside each:

- internal/hook/evaluator.go:203 calls `Matches` with three arguments, while
  internal/hook/matcher.go:22 takes four. The model passes the Bash `command` string, or
  "" when there is none, as the fourth.
- The `suffix == ""` test at internal/glob/glob.go:51 repeats the one at line 41 and can
  never succeed. It is not repeated.
- A reminder with a task counter but no last-checked time is due on its time trigger.
  Go's zero `time.Time` lies far in the past.
- NotebookEdit is a modification tool but not a filesystem tool
  (internal/hook/evaluator.go:56-58). It is therefore allowed before any rule runs, and the
  incremental and invariants rules never see it (`Evaluator.NotebookEditSkipsRules`).

## Model

| member | source | states |
|---|---|---|
| Glob.MatchDoublestar | internal/glob/glob.go:28-71 | the loop decides exactly `DoublestarMatches`: the pattern splits on `**` into exactly two pieces; a non-empty prefix must be a raw string prefix of the path; an empty suffix accepts; otherwise some trailing run of the remainder's segments must match the suffix |
| Glob.MatchAny | internal/glob/glob.go:74-81 | true iff some listed pattern matches; the empty list gives false |
| Glob.Match | internal/glob/glob.go:10-25 | no contract of its own (the dispatch on `**` after cleaning both operands); its behaviour is stated by `MatchDotSlash`, `MatchPlainPattern`, `MatchStarSuffix` and the `**` lemmas below |
| Glob.MatchDotSlash | internal/glob/glob.go:10-12 | both operands are cleaned, so a leading `./` on a relative path changes no match |
| Glob.MatchWithoutDoublestar | internal/glob/glob.go:10-24 | any pattern whose cleaned form has no `**` matches iff the cleaned pattern matches the cleaned path or its basename |
| Glob.MatchPlainPattern | internal/glob/glob.go:14-24 | a single slash-free name without `**` is its own cleaned form, so it is matched as written against the cleaned path or its basename |
| Glob.MatchStarSuffix | internal/glob/glob.go:18-24 | `*` plus a literal extension matches exactly the paths whose cleaned basename ends in it, at any depth |
| Glob.TwoDoublestarsNeverMatch | internal/glob/glob.go:29-32 | two separate `**` in the cleaned pattern make every match fail |
| Glob.MatchSplit | internal/glob/glob.go:29-35 | a cleaned pattern splitting into two pieces is decided by the trimmed prefix and suffix alone |
| Glob.MatchDoublestarAlone | internal/glob/glob.go:41-43 | `**` matches every path |
| Glob.MatchDirDoublestar | internal/glob/glob.go:34-43 | `d/**` matches exactly the paths whose cleaned form starts with the string `d`, a raw prefix and not a segment test |
| Glob.TailRunSingleSegment | internal/glob/glob.go:55-68 | a slash-free suffix glob can only match the last segment of the remainder |
| Glob.TailRunOnlyLast | internal/glob/glob.go:55-68 | over any segment list, a slash-free suffix glob matches some tail run iff it matches the last segment alone |
| Glob.MatchAnyDepth | internal/glob/glob.go:45-70 | `**/x` matches exactly the paths whose last cleaned segment matches `x` |
| Glob.MatchDirAnyDepth | internal/glob/glob.go:34-70 | `d/**/x` matches exactly the paths starting with `d` whose remainder ends in a segment matching `x` |
| Heredoc.OpenerAt | internal/parser/heredoc.go:6 | a match of `<<-?\s*['"]?(\w+)['"]?` at a position starts with `<<` and has a word-character delimiter inside the match |
| Heredoc.Openers | internal/parser/heredoc.go:11 | all matches in order, non-overlapping, with no match before the first |
| Heredoc.FirstCloser | internal/parser/heredoc.go:24-26 | the first line after the opener that is exactly the delimiter, or none |
| Heredoc.Region | internal/parser/heredoc.go:25-30 | the removed stretch starts just after the opener and ends at the end of the closing delimiter, inside the command |
| Heredoc.Closings | internal/parser/heredoc.go:18-30 | one region (or none) per match, in match order |
| Heredoc.Step | internal/parser/heredoc.go:30-31 | one splice: no region leaves `result` alone; a region fits iff `start <= end <= len(result)`, and then exactly `end - start` characters go, the text before `start` and after `end` kept |
| Heredoc.Process | internal/parser/heredoc.go:29-33 | the loop after matches `i..` in reverse: when it does not panic the result is never longer than the command, and with no regions it is the command itself |
| Heredoc.StripHeredocs | internal/parser/heredoc.go:10-36 | on ASCII input, the reverse splice loop computes `Stripped`, which is `None` exactly where the Go slice would panic (offsets are characters, see Left out) |
| Heredoc.StrippedDeletesRegions | internal/parser/heredoc.go:16-35 | for disjoint regions the output is the input with exactly those regions cut out, and never longer |
| Heredoc.NoOpenerUnchanged | internal/parser/heredoc.go:11-14 | a command without `<<` is returned unchanged |
| Heredoc.NoClosingUnchanged | internal/parser/heredoc.go:24-32 | openers that have no closing line leave the command untouched |
| Heredoc.SingleHeredoc | internal/parser/heredoc.go:20-32 | one terminated heredoc: the opener text is kept and everything from just after it to the end of the closing delimiter, the body lines included, is removed |
| Heredoc.Stripped | internal/parser/heredoc.go:10-36 | a command without openers is returned as it is; a run that does not panic never lengthens the command |
| Heredoc.TwoOnOneLinePanics | internal/parser/heredoc.go:31 | `<<A<<B\nA\nB` makes the code as written slice past the end of `result` |
| Heredoc.StrippedCorrected | internal/parser/heredoc.go:16-35 | the corrected stripper never fails and never lengthens the command |
| Heredoc.CorrectedAgrees | internal/parser/heredoc.go:16-35 | where the regions are disjoint, the corrected stripper gives the output of the code as written |
| Heredoc.TwoOnOneLineCorrected | internal/parser/heredoc.go:31 | on `<<A<<B\nA\nB` the corrected stripper cuts the outer body, inner opener included |
| Extract.NonEmptyValues | internal/hook/extract.go:28-32 | exactly the non-empty flag values |
| Extract.AllValues | internal/hook/extract.go:33-35 | every environment value, in order |
| Extract.ExtractBashPaths | internal/hook/extract.go:20-37 | the append loops yield `BashPaths`: arguments, then non-empty flag values, then environment values |
| Extract.BashPathsMembers | internal/hook/extract.go:21-36 | a Bash candidate is exactly an argument, a non-empty flag value or an environment value; nothing without a string `command` |
| Extract.FilePathOf | internal/hook/extract.go:39-44 | exactly `[file_path]` when it is a string, else nothing |
| Extract.GlobPathsOf | internal/hook/extract.go:46-55 | `path` then `pattern`, each only when it is a string |
| Extract.GrepPathsOf | internal/hook/extract.go:57-62 | only `path`, when it is a string |
| Extract.ExtractPaths | internal/hook/extract.go:6-18 | Bash yields `BashPaths`; Read, Write and Edit the file path; Glob `path` then `pattern`; Grep only its `path`, each element being `path`; every other tool yields nothing |
| Extract.GrepIgnoresPattern | internal/hook/extract.go:46-62 | the Glob tool's pattern is a candidate and the Grep tool's pattern is not |
| Protected.ResolvePath | internal/policy/protected.go:72-85 | the resolved path is clean, and absolute whenever the working directory is |
| Protected.IsAlwaysProtected | internal/policy/protected.go:35-69 | the loops decide exactly `AlwaysProtectedPath`: non-empty, and the resolved basename is `.watchman.yml` or some entry covers the resolved path |
| Protected.AnyEntryCovers | internal/policy/protected.go:49-66 | true iff some entry covers the path: a directory entry its target and everything below `target/`, a file entry its target alone |
| Protected.EmptyNeverProtected | internal/policy/protected.go:36-38 | the empty path is never protected |
| Protected.WatchmanConfigAnywhere | internal/policy/protected.go:36-47 | every path whose last element is `.watchman.yml` is protected: the bare name, `/.watchman.yml`, `d/.watchman.yml` for any `d`, `~/` paths included, whatever the home and working directory |
| Protected.ResolvedNamed | internal/policy/protected.go:72-85 | resolvePath keeps a plain last element: a path that is `n` or ends in `/n` resolves to one that does, in every branch (home expansion, absolute, joined onto the working directory, cleaned alone) |
| Protected.DirEntryBoundary | internal/policy/protected.go:59-62 | a directory entry covers `target + s` iff `s` is empty or starts with `/`, so `~/.ssh/` does not cover `~/.sshx` |
| Protected.BareTildeNotExpanded | internal/policy/protected.go:73-85 | a bare `~` is not expanded; it is joined onto the working directory |
| Protected.MatchProtectedName | internal/policy/protected.go:88-96 | a pattern without `/` matches every path whose last element it is, in any directory, `~/` paths included |
| Protected.MatchPathBoundary | internal/policy/protected.go:100-122 | a pattern whose home expansion is `d` or `d/` (`d` non-empty, without trailing `/`) matches `d + s` iff `s` is empty or starts a new segment |
| Protected.MatchPathFile | internal/policy/protected.go:100-122 | a pattern whose home expansion `P` has no trailing `/` matches exactly `P` and every path below `P/` |
| Protected.MatchPathDir | internal/policy/protected.go:100-122 | a pattern whose home expansion is `d/` matches exactly `d` and every path below `d/` |
| Protected.HomePatternExpands | internal/policy/protected.go:101-105 | with a home directory `h`, `~/a` and `~/a/` both expand to the child `a` of the cleaned `h`: filepath.Join drops the trailing slash |
| Protected.HomePatternMatch | internal/policy/protected.go:100-122 | so `~/a/` and `~/a` match exactly the home child `a` and every path below it |
| ProtectedHome.HomeChildResolves | internal/policy/protected.go:73-79 | `~/m` resolves to the child `m` of home, whatever the working directory |
| ProtectedHome.HomeChildProtected | internal/policy/protected.go:11-66 | the children of home protected are exactly `.ssh`, `.aws`, `.gnupg`, `.gpg`, `.netrc`, `.git-credentials` and `.watchman.yml` |
| Scope.NewScopeToFiles | internal/policy/rule_scope.go:23-31 | a missing config gives empty allow and block lists, otherwise the configured ones |
| Scope.IsBlocked | internal/policy/rule_scope.go:59-63 | true iff some block glob matches the path |
| Scope.IsInScope | internal/policy/rule_scope.go:65-69 | true iff the allow list is empty or some allow glob matches the path |
| Scope.FirstFailing | internal/policy/rule_scope.go:40-53 | the index of the first candidate that is blocked or out of scope, all earlier ones passing |
| Scope.FirstFailure | internal/policy/rule_scope.go:39-55 | allows iff every candidate passes; otherwise the first failing candidate decides and the reason names it |
| Scope.Evaluate | internal/policy/rule_scope.go:34-56 | tools other than Write, Edit and NotebookEdit are allowed; write tools get the first-failure decision over the candidates |
| Scope.BlockBeatsAllow | internal/policy/rule_scope.go:41-46 | a blocked path is denied as blocked even if an allow glob matches it |
| Scope.EmptyListsAllowAll | internal/policy/rule_scope.go:59-69 | an empty block list blocks nothing and an empty allow list puts everything in scope |
| Scope.FirstFailingShift | internal/policy/rule_scope.go:40-53 | passing candidates in front shift the index of the first failing candidate by their number |
| Scope.PassingPrefix | internal/policy/rule_scope.go:40-53 | passing candidates in front do not change the decision |
| Invariants.NewInvariantsRule | internal/policy/rule_invariants.go:19-24 | a missing config becomes the config with no checks |
| Invariants.MatchesPathPatterns | internal/policy/rule_invariants.go:232-255 | the flag loop gives true iff the list is empty, or some inclusion matches and no `!`-exclusion matches |
| Invariants.OnlyExclusionsMatchNothing | internal/policy/rule_invariants.go:237-254 | a non-empty list of only exclusions matches nothing |
| Invariants.ExclusionWins | internal/policy/rule_invariants.go:240-254 | one matching exclusion defeats every inclusion |
| Invariants.ExtOf | internal/policy/rule_invariants.go:207-208 | `${ext}` is empty or starts with the dot, and ends the basename |
| Invariants.NameOf | internal/policy/rule_invariants.go:209 | `${name}` followed by `${ext}` is the basename |
| Invariants.BaseNameOf | internal/policy/rule_invariants.go:212-215 | `${base}` is `${name}` with one trailing `_test` removed |
| Invariants.ExpandPlaceholders | internal/policy/rule_invariants.go:205-228 | a substituted result that is absolute or starts with `.` is kept; any other is joined onto the file's directory |
| Invariants.ExpandLiteral | internal/policy/rule_invariants.go:217-220 | a pattern without placeholders is not changed by substitution |
| Invariants.ExpandName | internal/policy/rule_invariants.go:218 | `${name}t` substitutes to the name followed by `t` |
| Invariants.ExpandBase | internal/policy/rule_invariants.go:219 | `${base}t` substitutes to the base name followed by `t` |
| Invariants.ExpandExt | internal/policy/rule_invariants.go:220-225 | `${ext}` expands to the dotted extension and is not joined onto the directory |
| Invariants.MessageOr | internal/policy/rule_invariants.go:70-73 | a non-empty message replaces the default reason |
| Invariants.FirstDenial | internal/policy/rule_invariants.go:62-78 | a check loop allows iff no entry denies; otherwise the first denying entry's reason is returned |
| Invariants.CoexistenceVerdict | internal/policy/rule_invariants.go:63-77 | an entry denies iff the file matches `If` and the expanded `Require` does not exist; the reason is the configured message, else `coexistence check failed: <name> requires <path>` |
| Invariants.CheckCoexistence | internal/policy/rule_invariants.go:62-78 | allows iff no entry denies; otherwise the first denying entry gives the reason |
| Invariants.ContentVerdict | internal/policy/rule_invariants.go:82-118 | an entry denies only when the file matches its paths; a compiling `Forbid` that matches denies with `content check failed: <name> forbids pattern: <forbid>`, otherwise a compiling `Require` that does not match denies with `content check failed: <name> requires pattern: <require>`; a configured message replaces either |
| Invariants.CheckContent | internal/policy/rule_invariants.go:81-119 | allows iff no entry denies; otherwise the first denying entry gives the reason |
| Invariants.ImportVerdict | internal/policy/rule_invariants.go:122-140 | an entry denies iff it applies, `Forbid` compiles and the content matches it; the reason is the configured message, else `import check failed: <name> forbids import matching: <forbid>` |
| Invariants.CheckImports | internal/policy/rule_invariants.go:121-141 | allows iff no entry denies; otherwise the first denying entry gives the reason |
| Invariants.NamingVerdict | internal/policy/rule_invariants.go:144-162 | an entry denies iff it applies, `Pattern` compiles and the basename does not match it; the reason is the configured message, else `naming check failed: <name> requires pattern: <pattern>` |
| Invariants.CheckNaming | internal/policy/rule_invariants.go:143-163 | allows iff no entry denies; otherwise the first denying entry gives the reason |
| Invariants.RequiredVerdict | internal/policy/rule_invariants.go:168-199 | an entry denies iff the directory matches `Dirs`, any `When` is met by a listing entry, and `dir/Require` does not exist; the reason is the configured message, else `required check failed: <name> requires <require> in <dir>` |
| Invariants.CheckRequired | internal/policy/rule_invariants.go:166-201 | over the directory of the file: allows iff no entry denies; otherwise the first denying entry gives the reason |
| Invariants.CheckResults | internal/policy/rule_invariants.go:33-57 | five outcomes, in the order coexistence, content, imports, naming, required, each allowing one plain |
| Invariants.FindEntry | internal/policy/rule_invariants.go:180-186 | the loop with `break` finds a listing entry iff some entry matches the `When` glob |
| Invariants.FirstDenied | internal/policy/rule_invariants.go:33-58 | the five checks in order: the first denial is returned unchanged, else allow |
| Invariants.Evaluate | internal/policy/rule_invariants.go:28-59 | non-modification tools and a missing config are allowed; otherwise the first denial among coexistence, content, imports, naming and required |
| Invariants.InvalidRegexNeverDenies | internal/policy/rule_invariants.go:81-163 | when no regex compiles, the content, import and naming checks allow |
| Invariants.InvalidForbidSkipsRequire | internal/policy/rule_invariants.go:88-92 | a content entry whose `Forbid` does not compile never reaches its `Require` |
| Invariants.ContentDeniesIff | internal/policy/rule_invariants.go:81-118 | a content entry denies iff it applies and a compiling `Forbid` matches, or a compiling `Require` does not |
| Invariants.ContentMessageUsed | internal/policy/rule_invariants.go:94-97 | when every entry has a message, a denial's reason is one of those messages |
| Invariants.NamingUsesBase | internal/policy/rule_invariants.go:149-154 | the naming check sees only the basename |
| Invariants.RequiredWhenSkips | internal/policy/rule_invariants.go:174-190 | a `When` entry is skipped when the directory cannot be listed or no entry matches |
| Invariants.RequiredDeniesIff | internal/policy/rule_invariants.go:192-199 | an applying entry denies iff `dir/Require` does not exist |
| Matcher.MatchesTool | internal/hook/matcher.go:48-55 | true iff some listed tool equals the name up to ASCII case |
| Matcher.MatchesCommand | internal/hook/matcher.go:40-46 | a pattern that does not compile never matches; otherwise the regex decides |
| Matcher.MatchesAnyPath | internal/hook/matcher.go:57-64 | true iff some path matches some pattern |
| Matcher.Matches | internal/hook/matcher.go:22-38 | the hook applies iff the tool matches, a non-empty `MatchCommand` matches, and there are no path patterns or some path matches one |
| Matcher.NoToolsNeverMatch | internal/hook/matcher.go:48-55 | a hook with no tools never matches |
| Matcher.ToolCaseInsensitive | internal/hook/matcher.go:50 | changing the ASCII case of the tool name changes nothing (see Left out) |
| Matcher.EmptyMatchCommandIgnoresCommand | internal/hook/matcher.go:27-31 | with an empty `MatchCommand` the command is not consulted |
| Matcher.InvalidMatchCommandNeverMatches | internal/hook/matcher.go:40-44 | a `MatchCommand` that does not compile makes the hook not match |
| Matcher.PatternsNeedPaths | internal/hook/matcher.go:33-37 | with path patterns and no paths the hook never matches |
| Executor.EffectiveTimeout | internal/hook/executor.go:45-48 | the hook's timeout when positive, else five seconds |
| Executor.IsCommandNotFound | internal/hook/executor.go:95-106 | no contract of its own (exit status 127, an exec error, or a path error for a missing file); `DecodedOutputOverridesExit` and `Execute` state its effect |
| Executor.OutputToResult | internal/hook/executor.go:108-117 | `deny` denies with the reason; `advise` allows with the warning; anything else allows with nothing |
| Executor.HandleError | internal/hook/executor.go:119-124 | `on_error: deny` denies with `hook error: msg`; any other value allows with warning `hook error (allowed): msg` |
| Executor.Execute | internal/hook/executor.go:44-93 | in order: encode failure, deadline, command not found go to handleError; decodable stdout decides; a failed run denies with stderr or the fixed message; otherwise allow |
| Executor.DeadlineIgnoresOutput | internal/hook/executor.go:67-69 | after a deadline expiry, stdout, stderr and the exit status are irrelevant |
| Executor.DecodedOutputOverridesExit | internal/hook/executor.go:77-82 | decodable stdout decides whatever the exit status, unless the command was not found |
| Executor.FailedRunReason | internal/hook/executor.go:84-90 | a failed run without decodable stdout denies with stderr, or `hook denied (exit code non-zero)` when stderr is empty |
| Executor.ErrorsAllowUnlessDeny | internal/hook/executor.go:119-124 | unless `on_error` is `deny`, a hook error never denies |
| Evaluator.IsToolBlocked | internal/hook/evaluator.go:228-235 | true iff some block entry equals the tool up to ASCII case (see Left out) |
| Evaluator.IsToolAllowed | internal/hook/evaluator.go:237-247 | true iff the allow list is empty or names the tool up to ASCII case (see Left out) |
| Evaluator.FirstContained | internal/hook/evaluator.go:250-254 | the index of the first block entry the command contains |
| Evaluator.IsCommandBlocked | internal/hook/evaluator.go:249-256 | as written: a non-empty answer is an entry the command contains; no contained entry gives "" |
| Evaluator.EmptyEntryHidesLater | internal/hook/evaluator.go:249-256 | as written, an empty entry at the front hides every later entry |
| Evaluator.EmptyEntryLetsThrough | internal/hook/evaluator.go:249-256 | `rm -rf /` contains `rm -rf`, yet `["", "rm -rf"]` does not block it as written |
| Evaluator.FirstBlocking | internal/hook/evaluator.go:250-254 | the index of the first non-empty block entry the command contains |
| Evaluator.BlockingEntry | internal/hook/evaluator.go:249-256 | corrected: non-empty iff some non-empty entry is contained, and then it is the first such entry |
| Evaluator.BlockingEntryAgrees | internal/hook/evaluator.go:249-256 | without empty entries, the corrected and as-written readings agree |
| Evaluator.IsFilesystemTool | internal/hook/evaluator.go:258-269 | no contract of its own (the six exact names); `ToolNamesExact` states what follows |
| Evaluator.IsModificationTool | internal/hook/evaluator.go:271-277 | no contract of its own (Write, Edit, NotebookEdit); `ToolNamesExact` states what follows |
| Evaluator.ToolNamesExact | internal/hook/evaluator.go:258-277 | the names are case-sensitive (`bash` is no filesystem tool), and NotebookEdit is the only modification tool outside the filesystem tools |
| Evaluator.EvaluateWorkspace | internal/hook/evaluator.go:122-133 | every candidate path goes to the workspace rule as a command of its own; allows iff all pass, otherwise the first failing path's reason alone |
| Evaluator.EvaluateScope | internal/hook/evaluator.go:135-146 | a tool that does not write is allowed; otherwise it allows iff the scope rule passes every candidate path, and else the first path it denies decides, with the rule's reason alone |
| Evaluator.PathDenial | internal/hook/evaluator.go:125-132 | the per-path rules allow iff every path passes; otherwise the first failing path's reason |
| Evaluator.EvaluateVersioning | internal/hook/evaluator.go:148-156 | a call without a string `command` is allowed; otherwise `allowed` and `reason` are the versioning rule's on that command, and its warning is dropped |
| Evaluator.EvaluateInvariants | internal/hook/evaluator.go:164-181 | a tool that does not write is allowed; otherwise it allows iff the invariants rule, given the call's `content`, passes every candidate path, and else the first path it denies decides, with that reason alone |
| Evaluator.FirstHookDenial | internal/hook/evaluator.go:200-214 | the index of the first matching hook that denies |
| Evaluator.HookWarnings | internal/hook/evaluator.go:216-218 | at most one `name: warning` per hook |
| Evaluator.HooksResult | internal/hook/evaluator.go:198-225 | denies iff some matching hook denies, with the first one's reason prefixed `name: `; otherwise allows, with the warnings joined by `; ` when there are any |
| Evaluator.EvaluateHooks | internal/hook/evaluator.go:183-226 | the loop computes `HooksResult` |
| Evaluator.UnmatchedHookIgnored | internal/hook/evaluator.go:203-205 | a hook that does not match changes nothing |
| Evaluator.WarningAppended | internal/hook/evaluator.go:216-218 | a matching warning hook adds its warning at the end, in configuration order |
| Evaluator.HooksStage | internal/hook/evaluator.go:183-226 | no hooks allow plainly; it allows iff every hook the matcher applies allows when run, and else the first applying hook that denies decides, with `<name>: <reason>`; an allowing result has no reason |
| Evaluator.FirstStop | internal/hook/evaluator.go:78-119 | allow when no stage stops; otherwise the first stopping stage's result verbatim |
| Evaluator.Cascade | internal/hook/evaluator.go:77-119 | an allowing result is plain allow or the warning of the incremental rule or of the hooks; with every rule off and no hooks it is allow |
| Evaluator.CascadeIsFirstStop | internal/hook/evaluator.go:78-119 | for any per-rule decisions, the nested tests return the result of the first enabled stage that stops, or allow |
| Evaluator.RulesAreFirstStop | internal/hook/evaluator.go:78-119 | the nested rule tests are the stage list workspace, scope, versioning, incremental, invariants, hooks, read front to back |
| Evaluator.AnyProtected | internal/hook/evaluator.go:70-75 | true iff some extracted path is always protected |
| Evaluator.Evaluate | internal/hook/evaluator.go:44-120 | as written: a blocked tool is denied first; then a tool not on a non-empty allow list; any non-filesystem tool is then allowed |
| Evaluator.BlockedBy | internal/hook/evaluator.go:60-67 | only a Bash call with a string `command` is looked up in the block list |
| Evaluator.EvaluateCorrected | internal/hook/evaluator.go:44-120 | corrected: agrees with `Evaluate` whenever the two readings of the block list agree |
| Evaluator.CorrectedAgreesWithoutEmptyEntries | internal/hook/evaluator.go:60-67 | without empty block entries the corrected gate is the code as written |
| Evaluator.CommandBlockDenies | internal/hook/evaluator.go:60-67 | as written: a Bash command whose first contained block entry is non-empty is denied, naming that entry, before any path or rule |
| Evaluator.EmptyFirstEntryBlocksNothing | internal/hook/evaluator.go:60-67 | as written: with an empty first block entry no command is denied by the block list; the call goes on to the protected paths and the rules |
| Evaluator.EmptyEntryEvaluated | internal/hook/evaluator.go:60-67 | as written, `rm -rf /` with the block list `["", "rm -rf"]` passes the block list |
| Evaluator.CommandBlockDeniesCorrected | internal/hook/evaluator.go:60-67 | corrected: a Bash command containing a non-empty block entry is denied, naming the first non-empty entry it contains, at or before that one |
| Evaluator.EmptyEntryDeniedCorrected | internal/hook/evaluator.go:60-67 | corrected: the same call is denied as `rm -rf` |
| Evaluator.ProtectedBeforeRules | internal/hook/evaluator.go:69-75 | a protected path is denied whatever rules and hooks are configured, once the tool lists and block list let the call through |
| Evaluator.PastFixedChecks | internal/hook/evaluator.go:44-119 | once the tool lists, the command block list and the protected paths let a call through, its decision is the rule cascade |
| Evaluator.EvaluateIsFirstStop | internal/hook/evaluator.go:77-119 | past the fixed checks, the first stopping stage decides: a denial, or a warning from incremental or hooks |
| Evaluator.NothingEnabledAllows | internal/hook/evaluator.go:77-119 | with every rule off and no hooks, a call that passes the fixed checks is allowed |
| Evaluator.NotebookEditSkipsRules | internal/hook/evaluator.go:56-58 | NotebookEdit is a modification tool, yet its result depends only on the tool lists |
| ReminderState.Incremented | internal/state/state.go:69-71 | every per-reminder counter one higher, no key added or removed |
| ReminderState.Tracked | internal/state/state.go:81-84 | an untracked reminder starts at count 0, last checked `now`; a tracked one is untouched |
| ReminderState.Run | internal/state/state.go:79-110 | at most one message per reminder |
| ReminderState.Manager.constructor | internal/state/state.go:41-44 | a fresh state has no counts and no times |
| ReminderState.Manager.IncrementTaskCount | internal/state/state.go:67-72 | `TaskCount` and every existing per-reminder counter rise by one; last-checked times unchanged |
| ReminderState.Manager.CheckReminders | internal/state/state.go:75-111 | the new maps and the messages are those of `Run` from the old maps; `TaskCount` unchanged |
| ReminderState.UntrackedNeverTriggers | internal/state/state.go:81-100 | a reminder seen for the first time does not trigger on that call |
| ReminderState.TrackedTriggersIff | internal/state/state.go:86-100 | a tracked reminder triggers iff its task count reached `EveryTasks > 0`, or `EveryMinutes > 0` minutes have passed |
| ReminderState.StepEffect | internal/state/state.go:102-107 | a trigger resets that reminder's count to 0 and its time to `now`; no trigger leaves a tracked state as it was; other reminders are untouched |
| ReminderState.RunAppend | internal/state/state.go:79-110 | processing one more reminder adds its message at the end iff it triggers |
| ReminderState.MessagesFromReminders | internal/state/state.go:103 | every returned message is some reminder's message |
| ReminderState.IncrementAddsNoKeys | internal/state/state.go:69-71 | counting tasks tracks no new reminder |
| Git.Scan | plugins/sentinel/internal/git/git.go:94-125 | nothing collected starts with `-`, is `add` or is a separator |
| Git.IsCommitCommand | plugins/sentinel/internal/git/git.go:77-80 | no contract of its own (`git` and `commit` anywhere in the text); `LegitAddressNotCommit` and `CommitMentioningAddIsBoth` show the substring reading |
| Git.IsAddCommand | plugins/sentinel/internal/git/git.go:82-85 | no contract of its own (`git` and `add` anywhere in the text); `LegitAddressIsAdd` shows the substring reading |
| Git.LegitAddressIsAdd | plugins/sentinel/internal/git/git.go:82-85 | "legit address" reads as a `git add` |
| Git.LegitAddressNotCommit | plugins/sentinel/internal/git/git.go:77-80 | "legit address" does not read as a `git commit` |
| Git.CommitMentioningAddIsBoth | plugins/sentinel/internal/git/git.go:77-85 | `git commit -m add` reads as both, so the add route, tested first, takes it |
| Git.AddFiles | plugins/sentinel/internal/git/git.go:87-128 | the files are some of the whitespace fields in input order, none a flag, `add` or a separator |
| Git.ExtractAddFiles | plugins/sentinel/internal/git/git.go:87-128 | as written, the flag-driven loop computes `AddFiles` |
| Git.ScanSubsequence | plugins/sentinel/internal/git/git.go:89-127 | the files are a subsequence of the whitespace fields, in input order |
| Git.NoAddNoFiles | plugins/sentinel/internal/git/git.go:112-124 | without an `add` field nothing is collected |
| Git.ScanOrigin | plugins/sentinel/internal/git/git.go:96-125 | every collected field stands at some later position, the last one if it is `git`, and after an `add` field unless a `git add` is under way |
| Git.CollectedAfterAdd | plugins/sentinel/internal/git/git.go:112-124 | only fields after an `add` field are collected |
| Git.GitCollectedOnlyLast | plugins/sentinel/internal/git/git.go:109-111 | a `git` field that is not the last is skipped, so a collected `git` is the last field |
| Git.FlagValueSkipped | plugins/sentinel/internal/git/git.go:101-106 | the field after `-C`, `--git-dir` or `--work-tree` is skipped with it |
| Git.AddThenCommitCollectsCommit | plugins/sentinel/internal/git/git.go:118-124 | as written, `git add a.go && git commit -m wip` collects `a.go`, `commit` and `wip` |
| Git.SemicolonScans | plugins/sentinel/internal/git/git.go:118-124 | `git add ; ls` collects `ls` as written and nothing when corrected |
| Git.ScanCorrected | plugins/sentinel/internal/git/git.go:117-124 | corrected: nothing collected starts with `-`, is `add` or is a separator |
| Git.AddFilesCorrected | plugins/sentinel/internal/git/git.go:87-128 | corrected: no collected file is a flag, `add` or a separator |
| Git.CorrectedStopsAtSeparator | plugins/sentinel/internal/git/git.go:119-122 | corrected: inside a `git add`, collection ends at the first separator |
| Git.CorrectedAgrees | plugins/sentinel/internal/git/git.go:118-124 | without separators the corrected and as-written scans agree |
| Git.AddThenCommitCorrected | plugins/sentinel/internal/git/git.go:118-124 | corrected, the same command yields only `a.go` |
| Processor.Fallback | plugins/sentinel/internal/processor/processor.go:37-44 | a failure gives the configured default decision and a warning naming it |
| Processor.Evaluated | plugins/sentinel/internal/processor/processor.go:36-45 | the evaluator's answer, or the default decision with `evaluation error: ` when it fails |
| Processor.AddRoute | plugins/sentinel/internal/processor/processor.go:74-100 | no files allow; a read failure gives the default decision with `failed to read files: `; otherwise the evaluator judges a `GitAdd` input holding the files and their content |
| Processor.ProcessGitAdd | plugins/sentinel/internal/processor/processor.go:72-101 | as written, on `AddFiles`: no files allows without reading or evaluating; files that read become a `GitAdd` input for the evaluator |
| Processor.ProcessGitAddCorrected | plugins/sentinel/internal/processor/processor.go:72-101 | corrected, on `AddFilesCorrected`: no files allows; agrees with the code as written when both readings give the same files |
| Processor.GitAddCorrectedAgrees | plugins/sentinel/internal/processor/processor.go:72-101 | for a command without separators both readings take the same route |
| Processor.AddSemicolonReadsNext | plugins/sentinel/internal/processor/processor.go:72-101 | `git add ; ls`: as written `ls` is read and evaluated; corrected, nothing is |
| Processor.ProcessGitCommit | plugins/sentinel/internal/processor/processor.go:104-132 | a failed diff gives the default decision with `failed to get staged diff: `; an empty staged list allows; otherwise the evaluator judges a `Commit` input holding the staged files and content |
| Processor.ProcessCommitsOnly | plugins/sentinel/internal/processor/processor.go:48-69 | a non-Bash tool, or no string command, allows |
| Processor.Process | plugins/sentinel/internal/processor/processor.go:28-33 | only mode `commits_only` takes the commit route; any other mode evaluates every input |
| Processor.AddBeforeCommit | plugins/sentinel/internal/processor/processor.go:59-64 | a command that reads as both `git add` and `git commit` takes the add route |
| Processor.NeitherAllowed | plugins/sentinel/internal/processor/processor.go:59-68 | a command that is neither is allowed |
| Processor.CommitRouteEvaluatesStaged | plugins/sentinel/internal/processor/processor.go:48-69 | in `commits_only` mode, a Bash `git commit` that is no `git add` with a non-empty staged diff is judged by the evaluator as that `Commit` input |
| Processor.NoFilesNoEvaluation | plugins/sentinel/internal/processor/processor.go:73-76 | as written: a `git add` for which `AddFiles` is empty is allowed, independent of the evaluator and the file reader |
| Processor.FailuresUseDefault | plugins/sentinel/internal/processor/processor.go:28-132 | every answer is allow, the default decision, or an answer the evaluator gave; the processor never fails |
| Client.GetProviders | plugins/sentinel/internal/config/config.go:100-105 | `Providers` when non-empty, else `[Provider]`; never empty |
| Client.NewSingleClient | plugins/sentinel/internal/client/client.go:25-47 | succeeds iff the provider is anthropic, openai or ollama; else `unknown provider: p` |
| Client.FirstUnknown | plugins/sentinel/internal/client/client.go:50-55 | the index of the first provider that cannot be built |
| Client.Clients | plugins/sentinel/internal/client/client.go:50-57 | one named client per provider, in order |
| Client.FallbackClients | plugins/sentinel/internal/client/client.go:49-59 | succeeds iff every provider is known; otherwise `cannot create p client: unknown provider: p` for the first unknown `p` |
| Client.NewFallbackClient | plugins/sentinel/internal/client/client.go:49-59 | the append loop computes `FallbackClients` |
| Client.New | plugins/sentinel/internal/client/client.go:15-23 | exactly one provider gives a single client; more give a fallback client over all of them; either fails on an unknown name |
| Client.OneBadNameFails | plugins/sentinel/internal/client/client.go:52-55 | one unknown name among several providers fails the whole construction |
| Client.FirstSuccess | plugins/sentinel/internal/client/client.go:75-80 | the index of the first client whose call succeeds |
| Client.Errors | plugins/sentinel/internal/client/client.go:80 | `name: err` for each failed client, in order |
| Client.FallbackResult | plugins/sentinel/internal/client/client.go:72-84 | succeeds iff some client succeeds, with the first success; otherwise `all providers failed: ` and the errors joined by `; ` |
| Client.FallbackEvaluate | plugins/sentinel/internal/client/client.go:72-84 | the loop computes `FallbackResult` |
| Client.LaterClientsIgnored | plugins/sentinel/internal/client/client.go:75-78 | clients after the first successful one are never consulted |
| Setup.HasWatchmanHook | internal/cli/setup.go:77-101 | true iff some object entry's `hooks` list holds the string `watchman` or an object whose string `command` contains `watchman`; the path argument plays no part |
| Setup.PreToolUseOf | internal/cli/setup.go:35-44 | no contract of its own (`hooks.PreToolUse` when both have the right shape, else the empty list); `Configure` and `SecondRunIsNoop` are stated on it |
| Setup.WatchmanEntry | internal/cli/setup.go:51-59 | the installed entry matches every tool (`*`) and holds one hook |
| Setup.Configure | internal/cli/setup.go:35-61 | unchanged when watchman is already hooked; otherwise other top-level keys and other `hooks` keys are kept and `hooks.PreToolUse` becomes the watchman entry alone |
| Setup.InstalledEntryRecognised | internal/cli/setup.go:51-59 | the installed entry is recognised whenever its command path mentions watchman |
| Setup.SecondRunIsNoop | internal/cli/setup.go:46-49 | configuring twice leaves the second run with nothing to do |

## Left out

- Process spawning, stdin piping, the context timeout and buffer capture of a hook run. The run's outcome (encode error, deadline, error kind, stdout, stderr) is an input record, and JSON decoding of stdout is a function parameter.
- Executor.Execute: `Duration.String` in the timeout message is not modelled. The deadline warning's exact text is not stated.
- Executor.EffectiveTimeout: durations are unbounded integers, with no 64-bit overflow.
- ReminderState.Due, ReminderState.Manager.CheckReminders: `EveryMinutes * Minute` and `now - lastChecked` are unbounded integers. Go's `time.Duration` product wraps at 64 bits and `Time.Sub` saturates; the two differ only for intervals of about 292 years or more.
- The regex engine. Compilation and matching are an abstract `RegexEngine`, used for `Forbid`/`Require`/`Pattern`/`MatchCommand`. The heredoc opener and closer expressions are re-expressed as scans.
- `filepath.Match` is modelled for literals, `*` and `?`. Character classes `[...]` and `\` escapes are taken literally, and malformed-pattern errors are not modelled.
- `filepath.Clean`, `Base`, `Dir`, `Ext`, `Join` and `IsAbs` are small Unix-separator models in `FilePath`.
- The filesystem: `os.Stat`, `os.ReadDir`, `os.Getwd` and `os.UserHomeDir` are parameters.
- Invariants.CoexistenceVerdict, Invariants.RequiredVerdict: a `Stat` error other than not-exist lets the check pass in the source. Here a path is simply in `existing` or not, so that error case has no counterpart.
- Protected: the source calls `os.UserHomeDir` and `os.Getwd` once per use. The model reads one fixed home directory and one fixed working directory for the whole decision.
- `parser.Parse` and the workspace, versioning and incremental rules are not part of this model. They are abstract functions of `Evaluator.Host`; the heredoc stripper is modelled on its own.
- The iteration order of `parser.Command`'s flag and env maps is an input (a sequence of pairs). Go leaves that order unspecified.
- JSON numbers are Dafny reals. Encoding failures and the marshal/unmarshal step of `RunSetup` are not modelled.
- The entry points: cmd/watchman/main.go and the sentinel main.go, with stdin/stdout, exit codes and logging.
- The sentinel AI clients (Anthropic, OpenAI, Ollama), with their network calls and prompts. The standards loader, and the evaluator glue that only forwards to the loader and a client.
- The sentinel's `GetStagedDiff` and `ReadFiles`, with their process and file I/O. Their results are parameters of `Processor.Env`, and so is the cancellation context the evaluator receives.
- `State` `Load`/`Save`, `NewManager`'s state path, and `RunSetup`'s directory creation, file reads and writes and messages.
- Which internal/config types exist, and their YAML loading, are not part of this model. `Config` holds only the fields the core reads.
- Protected.MatchProtectedPath and Protected.MatchPath are predicates without their own contracts. Their behaviour is stated by `MatchProtectedName`, `MatchPathFile`, `MatchPathDir`, `MatchPathBoundary` and `HomePatternMatch`.
- Strings.EqualFold folds ASCII letters only. Go's `strings.EqualFold` uses Unicode simple folding, so `ſ` equals `s` and the Kelvin sign equals `k` there but not here.
- Matcher.MatchesTool: tool names equal only up to non-ASCII case (`ſ`/`s`, Kelvin sign/`k`) match in the source but not in the model, because of the ASCII `EqualFold`.
- Matcher.ToolCaseInsensitive: stated for ASCII case changes only, for the same reason.
- Evaluator.IsToolBlocked: the same ASCII-only folding; a block entry equal to the tool only up to Unicode case blocks in the source but not here.
- Evaluator.IsToolAllowed: the same ASCII-only folding; an allow entry equal to the tool only up to Unicode case allows in the source but not here.
- Heredoc.StripHeredocs, Heredoc.Stripped, Heredoc.Region: strings are sequences of characters, while Go's regexp offsets and slices count UTF-8 bytes. Positions, the panic condition and the output therefore agree with the source on ASCII commands only. On `<<A<<B\nx\nA\nB\néé` the model reports the panic (`None`), while Go's byte offsets let the slice through and leave `<<A` followed by a stray continuation byte.
- Heredoc.Step, Heredoc.Process: offsets are characters, not bytes, as above.

## Findings

| source | as written | input that shows it | evidently intended | confidence | as-written member | corrected member |
|---|---|---|---|---|---|---|
| internal/parser/heredoc.go:31 | regions are cut from the back using offsets into the original command; when a later opener sits inside an earlier heredoc's region, the earlier cut ends beyond the already shortened `result` and the slice panics | `<<A<<B\nA\nB` (two heredocs opened on one line) | remove each outermost heredoc body; ignore openers inside a body already being removed | not executed | Heredoc.TwoOnOneLinePanics | Heredoc.StrippedCorrected |
| internal/hook/evaluator.go:249-256 | an empty `commands.block` entry is contained in every command, so `isCommandBlocked` returns the empty string, which the caller reads as "not blocked", and the later entries are never tried | block `["", "rm -rf"]`, command `rm -rf /` | skip empty entries and report the first non-empty entry contained | not executed | Evaluator.EmptyEntryEvaluated | Evaluator.EvaluateCorrected |
| plugins/sentinel/internal/git/git.go:118-124 | the outer test already excludes the separators, so the inner `break` never runs and collection carries on into the next command | `git add a.go && git commit -m wip` yields `a.go`, `commit`, `wip`; `git add ; ls` yields `ls` | stop collecting at the first `&&`, `;` or `\|\|` | not executed | Processor.AddSemicolonReadsNext | Processor.ProcessGitAddCorrected |

`Evaluator.Evaluate` and `Processor.ProcessGitAdd` model the code as written, using
`IsCommandBlocked` and `AddFiles`. The corrected gates are separate members:
`Evaluator.EvaluateCorrected` with `BlockingEntry`, and `Processor.ProcessGitAddCorrected`
with `AddFilesCorrected`. Nothing in the model calls the heredoc stripper, because
`parser.Parse` is abstract there.
