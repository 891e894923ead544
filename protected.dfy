/** internal/policy/protected.go: the paths no configuration can open up. The home
    directory and the working directory come from the operating system; here they are
    the parameter `os`, with `None` where Go's call fails. */
module Protected {
  import opened Wrappers
  import opened Strings
  import opened FilePath

  /** alwaysProtected: credentials and watchman's own files. An entry ending in `/` is a
      directory. */
  const AlwaysProtected: seq<string> := [
    "~/.claude/.credentials.json",
    "~/.claude/settings.json",
    "~/.claude/settings.local.json",
    "~/.ssh/",
    "~/.aws/",
    "~/.gnupg/",
    "~/.gpg/",
    "~/.config/gh/",
    "~/.config/watchman/",
    "~/.netrc",
    "~/.git-credentials",
    "~/go/bin/watchman"]

  /** protectedFilenames: names protected in every directory. */
  const ProtectedFilenames: seq<string> := [".watchman.yml"]

  /** What os.UserHomeDir and os.Getwd report. */
  datatype Os = Os(home: Option<string>, cwd: Option<string>)

  /** A leading `~/` replaced by the home directory when that is known. */
  function ExpandHome(p: string, home: Option<string>): string
  {
    if HasPrefix(p, "~/") && home.Some? then Join2(home.value, p[2..]) else p
  }

  /** resolvePath: home expansion, then the path cleaned, relative paths first joined
      onto the working directory. The result is clean, and absolute whenever the
      working directory is. */
  function ResolvePath(p: string, os: Os): (r: string)
    ensures Clean(r) == r
    ensures os.cwd.Some? && IsAbs(os.cwd.value) ==> IsAbs(r)
  {
    var q := ExpandHome(p, os.home);
    if IsAbs(q) then
      CleanIdempotent(q);
      CleanIsAbs(q);
      Clean(q)
    else if os.cwd.Some? then
      var j := Join2(os.cwd.value, q);
      CleanIdempotent(j);
      CleanIsAbs(j);
      CleanIsAbs(os.cwd.value + "/" + q);
      Clean(j)
    else
      CleanIdempotent(q);
      Clean(q)
  }

  /** What an entry of alwaysProtected stands for once its trailing slash is dropped and
      `~/` is expanded. */
  function EntryTarget(entry: string, home: Option<string>): string
  {
    ExpandHome(TrimSuffix(entry, "/"), home)
  }

  /** A directory entry covers its target and everything below `target + "/"`; a file
      entry covers its target only. */
  predicate EntryCovers(entry: string, absPath: string, home: Option<string>)
  {
    var t := EntryTarget(entry, home);
    if HasSuffix(entry, "/") then absPath == t || HasPrefix(absPath, t + "/")
    else absPath == t
  }

  /** The decision IsAlwaysProtected computes. */
  predicate AlwaysProtectedPath(p: string, os: Os)
  {
    var abs := ResolvePath(p, os);
    p != ""
    && (Base(abs) in ProtectedFilenames
        || exists k :: 0 <= k < |AlwaysProtected| && EntryCovers(AlwaysProtected[k], abs, os.home))
  }

  /** IsAlwaysProtected: the two fixed lists scanned in order, returning at the first
      hit. */
  method IsAlwaysProtected(p: string, os: Os) returns (r: bool)
    ensures r == AlwaysProtectedPath(p, os)
  {
    if p == "" {
      return false;
    }
    var absPath := ResolvePath(p, os);
    var filename := Base(absPath);
    var i := 0;
    while i < |ProtectedFilenames|
      invariant 0 <= i <= |ProtectedFilenames|
      invariant forall k :: 0 <= k < i ==> ProtectedFilenames[k] != filename
    {
      if filename == ProtectedFilenames[i] {
        return true;
      }
      i := i + 1;
    }
    r := AnyEntryCovers(AlwaysProtected, absPath, os.home);
  }

  /** The loop over alwaysProtected in IsAlwaysProtected. */
  method AnyEntryCovers(entries: seq<string>, absPath: string, home: Option<string>) returns (r: bool)
    ensures r <==> exists k :: 0 <= k < |entries| && EntryCovers(entries[k], absPath, home)
  {
    var j := 0;
    while j < |entries|
      invariant 0 <= j <= |entries|
      invariant forall k :: 0 <= k < j ==> !EntryCovers(entries[k], absPath, home)
    {
      var pattern := entries[j];
      var isDir := HasSuffix(pattern, "/");
      var expandedPattern := TrimSuffix(pattern, "/");
      if HasPrefix(expandedPattern, "~/") && home.Some? {
        expandedPattern := Join2(home.value, expandedPattern[2..]);
      }
      assert expandedPattern == EntryTarget(pattern, home);
      if isDir {
        if absPath == expandedPattern || HasPrefix(absPath, expandedPattern + "/") {
          return true;
        }
      } else if absPath == expandedPattern {
        return true;
      }
      j := j + 1;
    }
    return false;
  }

  /** A directory entry's prefix test is separator-aware: it covers `target + s`
      exactly when `s` is empty or starts a new segment, so `~/.ssh/` does not cover
      `~/.sshx`. */
  lemma DirEntryBoundary(entry: string, s: string, home: Option<string>)
    requires HasSuffix(entry, "/")
    ensures EntryCovers(entry, EntryTarget(entry, home) + s, home) <==> s == "" || s[0] == '/'
  {
    var t := EntryTarget(entry, home);
    if s != "" {
      assert (t + s)[..|t| + 1] == t + [s[0]];
      assert |t + s| > |t|;
      assert (t + [s[0]])[|t|] == s[0];
      assert (t + "/")[|t|] == '/';
      if s[0] == '/' {
        assert t + [s[0]] == t + "/";
      }
    } else {
      assert t + s == t;
    }
  }

  /** `x` is the name `n` itself or a path whose last element is `n`. */
  predicate Named(x: string, n: string)
  {
    x == n || HasSuffix(x, "/" + n)
  }

  /** A path named `n` has basename `n`. */
  lemma NamedBase(x: string, n: string)
    requires Plain(n) && Named(x, n)
    ensures Base(x) == n
  {
    if x == n {
      BaseOfChild("", n);
    } else {
      var d := x[..|x| - |n| - 1];
      assert x == d + "/" + n;
      BaseOfChild(d, n);
    }
  }

  /** The child `n` of any cleaned directory is named `n`. */
  lemma ChildNamed(c: string, n: string)
    ensures Named(Child(c, n), n)
  {
    if c != "/" && c != "." {
      assert (c + "/" + n)[|c|..] == "/" + n;
    }
  }

  /** Cleaning a path keeps a plain last element. */
  lemma NamedClean(x: string, n: string)
    requires Plain(n) && Named(x, n)
    ensures Named(Clean(x), n)
  {
    if x == n {
      CleanPlain(n);
    } else {
      var d := x[..|x| - |n| - 1];
      assert x == d + "/" + n;
      if d == "" {
        assert x == "/" + n;
        CleanRootChild(n);
      } else {
        CleanChild(d, n);
        ChildNamed(Clean(d), n);
      }
    }
  }

  /** A path named `n` is still named `n` below any directory. */
  lemma NamedUnder(a: string, x: string, n: string)
    requires Named(x, n)
    ensures Named(a + "/" + x, n)
  {
    var y := a + "/" + x;
    if x == n {
      assert y[|a|..] == "/" + n;
    } else {
      assert y[|y| - |n| - 1..] == x[|x| - |n| - 1..];
    }
  }

  /** filepath.Join keeps a plain last element. */
  lemma NamedJoin(a: string, x: string, n: string)
    requires Plain(n) && Named(x, n)
    ensures Named(Join2(a, x), n)
  {
    if a != "" {
      NamedUnder(a, x, n);
      NamedClean(a + "/" + x, n);
    } else {
      NamedClean(x, n);
    }
  }

  /** Home expansion keeps a plain last element. */
  lemma NamedExpand(p: string, n: string, home: Option<string>)
    requires Plain(n) && Named(p, n)
    ensures Named(ExpandHome(p, home), n)
  {
    if HasPrefix(p, "~/") && home.Some? {
      var r := p[2..];
      assert p[1] == '/' && p[0] == '~';
      assert p != n;
      assert p[|p| - |n| - 1] == '/';
      if |r| > |n| {
        assert r[|r| - |n| - 1..] == p[|p| - |n| - 1..];
      } else {
        assert |p| == |n| + 2;
        assert r == p[|p| - |n|..];
      }
      NamedJoin(home.value, r, n);
    }
  }

  /** resolvePath keeps a plain last element, whatever the home and working directory. */
  lemma ResolvedNamed(p: string, n: string, os: Os)
    requires Plain(n) && Named(p, n)
    ensures Named(ResolvePath(p, os), n)
  {
    var q := ExpandHome(p, os.home);
    NamedExpand(p, n, os.home);
    if IsAbs(q) {
      NamedClean(q, n);
    } else if os.cwd.Some? {
      NamedJoin(os.cwd.value, q, n);
      NamedClean(Join2(os.cwd.value, q), n);
    } else {
      NamedClean(q, n);
    }
  }

  /** `.watchman.yml` is protected in every directory: the bare name, `/.watchman.yml`,
      `d/.watchman.yml` for any `d`, and `~/`-paths alike. */
  lemma WatchmanConfigAnywhere(p: string, os: Os)
    requires Named(p, ".watchman.yml")
    ensures AlwaysProtectedPath(p, os)
  {
    assert Plain(".watchman.yml");
    ResolvedNamed(p, ".watchman.yml", os);
    NamedBase(ResolvePath(p, os), ".watchman.yml");
  }

  /** The empty path is never protected, whatever the lists say. */
  lemma EmptyNeverProtected(os: Os)
    ensures !AlwaysProtectedPath("", os)
  {
  }

  /** A bare `~` is not expanded: it is a relative name joined onto the working
      directory. */
  lemma BareTildeNotExpanded(os: Os)
    requires os.cwd.Some? && os.cwd.value != ""
    ensures ResolvePath("~", os) == Clean(Child(Clean(os.cwd.value), "~"))
  {
    assert !HasPrefix("~", "~/");
    assert Plain("~");
    CleanChild(os.cwd.value, "~");
  }

  /** matchPath: after home expansion, an exact match; a pattern ending in `/` also
      matches the path without that slash and every path it prefixes; any other
      pattern also matches every path below `pattern + "/"`. */
  predicate MatchPath(path: string, pattern: string, home: Option<string>)
  {
    var pat := ExpandHome(pattern, home);
    path == pat
    || (if HasSuffix(pat, "/") then HasPrefix(path, pat) || path == TrimSuffix(pat, "/")
        else HasPrefix(path, pat + "/"))
  }

  /** MatchProtectedPath: a pattern without `/` names a file in any directory and is
      compared with the resolved path's last element; any other pattern goes through
      matchPath against the resolved path. */
  predicate MatchProtectedPath(path: string, pattern: string, os: Os)
  {
    var absPath := ResolvePath(path, os);
    if !Contains(pattern, "/") then Base(absPath) == pattern
    else MatchPath(absPath, pattern, os.home)
  }

  /** A pattern whose expansion `P` has no trailing `/` matches `P` itself and every
      path below `P/`. */
  lemma MatchPathFile(path: string, pattern: string, home: Option<string>)
    requires ExpandHome(pattern, home) != ""
    requires ExpandHome(pattern, home)[|ExpandHome(pattern, home)| - 1] != '/'
    ensures MatchPath(path, pattern, home) <==>
      path == ExpandHome(pattern, home) || HasPrefix(path, ExpandHome(pattern, home) + "/")
  {
    var pat := ExpandHome(pattern, home);
    assert !HasSuffix(pat, "/") by {
      assert pat[|pat| - 1..] == [pat[|pat| - 1]];
    }
  }

  /** A pattern that expands to `d/` matches `d` itself and every path below `d/`. */
  lemma MatchPathDir(path: string, pattern: string, d: string, home: Option<string>)
    requires d != "" && d[|d| - 1] != '/'
    requires ExpandHome(pattern, home) == d + "/"
    ensures MatchPath(path, pattern, home) <==> path == d || HasPrefix(path, d + "/")
  {
    assert HasSuffix(d + "/", "/") && TrimSuffix(d + "/", "/") == d;
  }

  /** matchPath is separator-aware: a pattern expanding to `d` or `d/` matches `d + s`
      exactly when `s` is empty or starts a new segment. */
  lemma MatchPathBoundary(pattern: string, d: string, s: string, home: Option<string>)
    requires d != "" && d[|d| - 1] != '/'
    requires ExpandHome(pattern, home) == d || ExpandHome(pattern, home) == d + "/"
    ensures MatchPath(d + s, pattern, home) <==> s == "" || s[0] == '/'
  {
    if ExpandHome(pattern, home) == d {
      MatchPathFile(d + s, pattern, home);
    } else {
      MatchPathDir(d + s, pattern, d, home);
    }
    PrefixBoundary(d, s);
  }

  /** `q + s` is `q` or lies below `q/` exactly when `s` is empty or starts a segment. */
  lemma PrefixBoundary(q: string, s: string)
    ensures q + s == q || HasPrefix(q + s, q + "/") <==> s == "" || s[0] == '/'
  {
    if s != "" {
      assert |q + s| > |q|;
      assert (q + s)[|q|] == s[0];
      if s[0] == '/' {
        assert (q + s)[..|q| + 1] == q + "/";
      } else {
        assert (q + "/")[|q|] == '/';
      }
    } else {
      assert q + s == q;
    }
  }

  /** With a home directory `h`, `~/a` and `~/a/` both expand to the child `a` of the
      cleaned home: filepath.Join drops the trailing slash. */
  lemma HomePatternExpands(a: string, h: string)
    requires Plain(a)
    ensures ExpandHome("~/" + a, Some(h)) == Child(Clean(h), a)
    ensures ExpandHome("~/" + a + "/", Some(h)) == Child(Clean(h), a)
  {
    assert ("~/" + a)[..2] == "~/" && ("~/" + a)[2..] == a;
    assert ("~/" + a + "/")[..2] == "~/" && ("~/" + a + "/")[2..] == a + "/";
    CleanTrailingSlash(a);
    if h != "" {
      CleanChild(h, a);
      assert h + "/" + (a + "/") == (h + "/" + a) + "/";
      CleanTrailingSlash(h + "/" + a);
    } else {
      CleanPlain(a);
      CleanOfEmpty();
    }
  }

  lemma CleanOfEmpty()
    ensures Clean("") == "."
  {
    SplitFree("", '/');
  }

  /** So with a home directory, a `~/a/` entry and a `~/a` entry match the same paths:
      the home child `a` and everything below it. */
  lemma HomePatternMatch(path: string, a: string, h: string)
    requires Plain(a)
    ensures MatchPath(path, "~/" + a + "/", Some(h)) <==>
      path == Child(Clean(h), a) || HasPrefix(path, Child(Clean(h), a) + "/")
    ensures MatchPath(path, "~/" + a, Some(h)) <==>
      path == Child(Clean(h), a) || HasPrefix(path, Child(Clean(h), a) + "/")
  {
    var d := Child(Clean(h), a);
    HomePatternExpands(a, h);
    assert d[|d| - 1] == a[|a| - 1];
    MatchPathFile(path, "~/" + a + "/", Some(h));
    MatchPathFile(path, "~/" + a, Some(h));
  }

  /** A pattern without `/` matches every path whose last element it is. */
  lemma MatchProtectedName(p: string, n: string, os: Os)
    requires Plain(n) && Named(p, n)
    ensures MatchProtectedPath(p, n, os)
  {
    ResolvedNamed(p, n, os);
    NamedBase(ResolvePath(p, os), n);
    NoSlashNoContains(n);
  }

  lemma NoSlashNoContains(n: string)
    requires NoSlash(n)
    ensures !Contains(n, "/")
  {
    forall k ensures !OccursAt(n, "/", k) {
      OccursAtChar(n, '/', k);
    }
  }
}

/** Which children of the home directory the fixed list protects. */
module ProtectedHome {
  import opened Wrappers
  import opened Strings
  import opened FilePath
  import opened Protected

  /** For an absolute clean home `h`, Child(h, x) is `Stem(h) + "/" + x`. */
  function Stem(h: string): string
  {
    if h == "/" then "" else h
  }

  lemma ChildOfAbs(h: string, x: string)
    requires IsAbs(h)
    ensures Child(h, x) == Stem(h) + "/" + x
  {
  }

  lemma JoinHome1(h: string, a: string)
    requires IsAbs(h) && Clean(h) == h && Plain(a)
    ensures Join2(h, a) == Stem(h) + "/" + a
  {
    CleanChild(h, a);
  }

  lemma JoinHome2(h: string, a: string, b: string)
    requires IsAbs(h) && Clean(h) == h && Plain(a) && Plain(b)
    ensures Join2(h, a + "/" + b) == Stem(h) + "/" + a + "/" + b
  {
    SlashAssoc(h, a, b);
    CleanChild(h + "/" + a, b);
    JoinHome1(h, a);
    var c := Stem(h) + "/" + a;
    assert IsAbs(c) && c != "/";
  }

  lemma JoinHome3(h: string, a: string, b: string, c: string)
    requires IsAbs(h) && Clean(h) == h && Plain(a) && Plain(b) && Plain(c)
    ensures Join2(h, a + "/" + (b + "/" + c)) == Stem(h) + "/" + a + "/" + (b + "/" + c)
  {
    JoinRegroup(h, a, b, c);
    CleanHome3(h, a, b, c);
    SlashAssoc(Stem(h) + "/" + a, b, c);
  }

  lemma JoinRegroup(h: string, a: string, b: string, c: string)
    requires h != ""
    ensures Join2(h, a + "/" + (b + "/" + c)) == Clean((h + "/" + (a + "/" + b)) + "/" + c)
  {
    SlashAssoc(h, a, b + "/" + c);
    SlashAssoc(h + "/" + a, b, c);
    SlashAssoc(h, a, b);
  }

  lemma CleanHome3(h: string, a: string, b: string, c: string)
    requires IsAbs(h) && Clean(h) == h && Plain(a) && Plain(b) && Plain(c)
    ensures Clean((h + "/" + (a + "/" + b)) + "/" + c) == Stem(h) + "/" + a + "/" + b + "/" + c
  {
    CleanChild(h + "/" + (a + "/" + b), c);
    JoinHome2(h, a, b);
    var t := Stem(h) + "/" + a + "/" + b;
    assert IsAbs(t) && t != "/";
  }

  /** `s/m` is `s/a` exactly when `m` is `a`, and is never `s/a/rest` or below it. */
  lemma SiblingNames(s: string, m: string, a: string, rest: string)
    requires NoSlash(m)
    ensures s + "/" + m == s + "/" + a <==> m == a
    ensures s + "/" + m != s + "/" + a + "/" + rest
    ensures !HasPrefix(s + "/" + m, s + "/" + a + "/" + rest)
  {
    var x := s + "/" + m;
    assert x[|s| + 1..] == m;
    if x == s + "/" + a {
      assert (s + "/" + a)[|s| + 1..] == a;
    }
    var y := s + "/" + a + "/" + rest;
    assert y[|s| + 1 + |a|] == '/';
  }

  /** A one-segment entry `~/a` or `~/a/` covers the home child `m` exactly when `m`
      is `a`. */
  lemma OneSegmentEntry(entry: string, a: string, h: string, m: string)
    requires entry == "~/" + a || entry == "~/" + a + "/"
    requires IsAbs(h) && Clean(h) == h && Plain(a) && Plain(m)
    ensures EntryCovers(entry, Stem(h) + "/" + m, Some(h)) <==> m == a
  {
    var t := "~/" + a;
    assert t[|t| - 1] == a[|a| - 1];
    assert t[|t| - 1..] == [t[|t| - 1]];
    assert TrimSuffix(entry, "/") == t;
    assert t[..2] == "~/" && t[2..] == a;
    JoinHome1(h, a);
    SiblingNames(Stem(h), m, a, "");
    assert Stem(h) + "/" + a + "/" == Stem(h) + "/" + a + "/" + "";
  }

  /** An entry two or more segments below home covers no child of home. */
  lemma DeepEntry(entry: string, a: string, rest: string, h: string, m: string)
    requires TrimSuffix(entry, "/") == "~/" + a + "/" + rest
    requires Join2(h, a + "/" + rest) == Stem(h) + "/" + a + "/" + rest
    requires NoSlash(m)
    ensures !EntryCovers(entry, Stem(h) + "/" + m, Some(h))
  {
    var t := "~/" + a + "/" + rest;
    assert t[..2] == "~/" && t[2..] == a + "/" + rest;
    SiblingNames(Stem(h), m, a, rest);
    SiblingNames(Stem(h), m, a, rest + "/");
    assert Stem(h) + "/" + a + "/" + rest + "/" == Stem(h) + "/" + a + "/" + (rest + "/");
  }

  lemma TrimNoTrailingSlash(t: string)
    requires |t| > 0 && t[|t| - 1] != '/'
    ensures TrimSuffix(t, "/") == t
  {
    assert t[|t| - 1..] == [t[|t| - 1]];
  }

  lemma TrimTrailingSlash(t: string)
    ensures TrimSuffix(t + "/", "/") == t
  {
    assert (t + "/")[|t|..] == "/";
  }

  /** A name that is not `.` or `..` and has no `/` is plain. */
  lemma PlainName(n: string)
    requires n != "" && n != "." && n != ".." && forall j :: 0 <= j < |n| ==> n[j] != '/'
    ensures Plain(n)
  {
  }

  /** An entry `~/a/b` or `~/a/b/` with plain `a` and `b` covers no child of home. */
  lemma TwoSegmentEntry(entry: string, a: string, b: string, h: string, m: string)
    requires TrimSuffix(entry, "/") == "~/" + a + "/" + b
    requires IsAbs(h) && Clean(h) == h && Plain(a) && Plain(b) && Plain(m)
    ensures !EntryCovers(entry, Stem(h) + "/" + m, Some(h))
  {
    JoinHome2(h, a, b);
    DeepEntry(entry, a, b, h, m);
  }

  /** The home children the entries of alwaysProtected cover, "" for the deeper ones. */
  const HomeEntryNames: seq<string> :=
    ["", "", "", ".ssh", ".aws", ".gnupg", ".gpg", "", "", ".netrc", ".git-credentials", ""]

  /** `~/.claude/.credentials.json` covers no child of home. */
  lemma CredentialsEntry(h: string, m: string)
    requires IsAbs(h) && Clean(h) == h && Plain(m)
    ensures !EntryCovers(AlwaysProtected[0], Stem(h) + "/" + m, Some(h))
  {
    CredentialsShape();
    TwoSegmentEntry(AlwaysProtected[0], ".claude", ".credentials.json", h, m);
  }

  lemma CredentialsShape()
    ensures TrimSuffix(AlwaysProtected[0], "/") == "~/" + ".claude" + "/" + ".credentials.json"
    ensures Plain(".claude") && Plain(".credentials.json")
  {
    assert AlwaysProtected[0] == "~/.claude/.credentials.json";
    TrimNoTrailingSlash("~/.claude/.credentials.json");
    assert "~/" + ".claude" + "/" + ".credentials.json" == "~/.claude/.credentials.json";
    PlainName(".claude");
    PlainName(".credentials.json");
  }

  /** `~/.claude/settings.json` covers no child of home. */
  lemma SettingsEntry(h: string, m: string)
    requires IsAbs(h) && Clean(h) == h && Plain(m)
    ensures !EntryCovers(AlwaysProtected[1], Stem(h) + "/" + m, Some(h))
  {
    SettingsShape();
    TwoSegmentEntry(AlwaysProtected[1], ".claude", "settings.json", h, m);
  }

  lemma SettingsShape()
    ensures TrimSuffix(AlwaysProtected[1], "/") == "~/" + ".claude" + "/" + "settings.json"
    ensures Plain(".claude") && Plain("settings.json")
  {
    assert AlwaysProtected[1] == "~/.claude/settings.json";
    TrimNoTrailingSlash("~/.claude/settings.json");
    assert "~/" + ".claude" + "/" + "settings.json" == "~/.claude/settings.json";
    PlainName(".claude");
    PlainName("settings.json");
  }

  /** `~/.claude/settings.local.json` covers no child of home. */
  lemma LocalSettingsEntry(h: string, m: string)
    requires IsAbs(h) && Clean(h) == h && Plain(m)
    ensures !EntryCovers(AlwaysProtected[2], Stem(h) + "/" + m, Some(h))
  {
    LocalSettingsShape();
    TwoSegmentEntry(AlwaysProtected[2], ".claude", "settings.local.json", h, m);
  }

  lemma LocalSettingsShape()
    ensures TrimSuffix(AlwaysProtected[2], "/") == "~/" + ".claude" + "/" + "settings.local.json"
    ensures Plain(".claude") && Plain("settings.local.json")
  {
    assert AlwaysProtected[2] == "~/.claude/settings.local.json";
    TrimNoTrailingSlash("~/.claude/settings.local.json");
    assert "~/" + ".claude" + "/" + "settings.local.json" == "~/.claude/settings.local.json";
    PlainName(".claude");
    PlainName("settings.local.json");
  }

  /** `~/.config/gh/` covers no child of home. */
  lemma GhConfigEntry(h: string, m: string)
    requires IsAbs(h) && Clean(h) == h && Plain(m)
    ensures !EntryCovers(AlwaysProtected[7], Stem(h) + "/" + m, Some(h))
  {
    GhConfigShape();
    TwoSegmentEntry(AlwaysProtected[7], ".config", "gh", h, m);
  }

  lemma GhConfigShape()
    ensures TrimSuffix(AlwaysProtected[7], "/") == "~/" + ".config" + "/" + "gh"
    ensures Plain(".config") && Plain("gh")
  {
    assert AlwaysProtected[7] == "~/.config/gh" + "/";
    TrimTrailingSlash("~/.config/gh");
    assert "~/" + ".config" + "/" + "gh" == "~/.config/gh";
    PlainName(".config");
    PlainName("gh");
  }

  /** `~/.config/watchman/` covers no child of home. */
  lemma WatchmanConfigEntry(h: string, m: string)
    requires IsAbs(h) && Clean(h) == h && Plain(m)
    ensures !EntryCovers(AlwaysProtected[8], Stem(h) + "/" + m, Some(h))
  {
    WatchmanConfigShape();
    TwoSegmentEntry(AlwaysProtected[8], ".config", "watchman", h, m);
  }

  lemma WatchmanConfigShape()
    ensures TrimSuffix(AlwaysProtected[8], "/") == "~/" + ".config" + "/" + "watchman"
    ensures Plain(".config") && Plain("watchman")
  {
    assert AlwaysProtected[8] == "~/.config/watchman" + "/";
    TrimTrailingSlash("~/.config/watchman");
    assert "~/" + ".config" + "/" + "watchman" == "~/.config/watchman";
    PlainName(".config");
    PlainName("watchman");
  }

  /** `~/go/bin/watchman` covers no child of home. */
  lemma GoBinEntry(h: string, m: string)
    requires IsAbs(h) && Clean(h) == h && Plain(m)
    ensures !EntryCovers(AlwaysProtected[11], Stem(h) + "/" + m, Some(h))
  {
    var e := AlwaysProtected[11];
    assert TrimSuffix(e, "/") == "~/" + "go" + "/" + "bin/watchman" by {
      assert e == "~/go/bin/watchman";
    }
    GoBinTarget(h);
    DeepEntry(e, "go", "bin/watchman", h, m);
  }

  lemma GoBinTarget(h: string)
    requires IsAbs(h) && Clean(h) == h
    ensures Join2(h, "go" + "/" + "bin/watchman") == Stem(h) + "/" + "go" + "/" + "bin/watchman"
  {
    assert Plain("go") && Plain("bin") && Plain("watchman");
    JoinHome3(h, "go", "bin", "watchman");
    assert "bin" + "/" + "watchman" == "bin/watchman";
  }

  lemma ShallowEntry(k: nat, h: string, m: string)
    requires 3 <= k < 7 || 9 <= k < 11
    requires IsAbs(h) && Clean(h) == h && Plain(m)
    ensures EntryCovers(AlwaysProtected[k], Stem(h) + "/" + m, Some(h)) <==> m == HomeEntryNames[k]
  {
    var a := HomeEntryNames[k];
    assert Plain(a);
    OneSegmentEntry(AlwaysProtected[k], a, h, m);
  }

  lemma HomeEntry(k: nat, h: string, m: string)
    requires k < |AlwaysProtected| && IsAbs(h) && Clean(h) == h && Plain(m)
    ensures EntryCovers(AlwaysProtected[k], Stem(h) + "/" + m, Some(h)) <==> m == HomeEntryNames[k]
  {
    if k == 0 {
      CredentialsEntry(h, m);
    } else if k == 1 {
      SettingsEntry(h, m);
    } else if k == 2 {
      LocalSettingsEntry(h, m);
    } else if k == 7 {
      GhConfigEntry(h, m);
    } else if k == 8 {
      WatchmanConfigEntry(h, m);
    } else if k == 11 {
      GoBinEntry(h, m);
    } else {
      ShallowEntry(k, h, m);
    }
  }

  /** `~/m` resolves to the child `m` of home, whatever the working directory. */
  lemma HomeChildResolves(h: string, m: string, cwd: Option<string>)
    requires IsAbs(h) && Clean(h) == h && Plain(m)
    ensures ResolvePath("~/" + m, Os(Some(h), cwd)) == Stem(h) + "/" + m
    ensures Base(Stem(h) + "/" + m) == m
  {
    var p := "~/" + m;
    assert p[..2] == "~/" && p[2..] == m;
    JoinHome1(h, m);
    var r := Stem(h) + "/" + m;
    assert IsAbs(r);
    CleanIdempotent(h + "/" + m);
    BaseOfChild(Stem(h), m);
  }

  /** The names HomeEntryNames lists, beside `.watchman.yml`. */
  lemma HomeEntryNamesAre(m: string)
    requires m != ""
    ensures (exists k :: 0 <= k < |HomeEntryNames| && m == HomeEntryNames[k])
      <==> m in {".ssh", ".aws", ".gnupg", ".gpg", ".netrc", ".git-credentials"}
  {
    if m == ".ssh" {
      assert m == HomeEntryNames[3];
    } else if m == ".aws" {
      assert m == HomeEntryNames[4];
    } else if m == ".gnupg" {
      assert m == HomeEntryNames[5];
    } else if m == ".gpg" {
      assert m == HomeEntryNames[6];
    } else if m == ".netrc" {
      assert m == HomeEntryNames[9];
    } else if m == ".git-credentials" {
      assert m == HomeEntryNames[10];
    }
  }

  /** Which children of home are protected: exactly `.ssh`, `.aws`, `.gnupg`, `.gpg`,
      `.netrc`, `.git-credentials` and `.watchman.yml`. */
  lemma HomeChildProtected(h: string, m: string, cwd: Option<string>)
    requires IsAbs(h) && Clean(h) == h && Plain(m)
    ensures AlwaysProtectedPath("~/" + m, Os(Some(h), cwd)) <==>
      m in {".ssh", ".aws", ".gnupg", ".gpg", ".netrc", ".git-credentials", ".watchman.yml"}
  {
    var os := Os(Some(h), cwd);
    HomeChildResolves(h, m, cwd);
    var r := Stem(h) + "/" + m;
    ProtectedAt("~/" + m, os, r);
    EntriesCoverChild(h, m);
    ProtectedFilename(r, m);
    ProtectedHomeNames(m);
  }

  lemma ProtectedFilename(r: string, m: string)
    requires Base(r) == m
    ensures Base(r) in ProtectedFilenames <==> m == ".watchman.yml"
  {
  }

  lemma ProtectedHomeNames(m: string)
    ensures m in {".ssh", ".aws", ".gnupg", ".gpg", ".netrc", ".git-credentials", ".watchman.yml"}
      <==> m in {".ssh", ".aws", ".gnupg", ".gpg", ".netrc", ".git-credentials"} || m == ".watchman.yml"
  {
  }

  /** The entries of alwaysProtected that cover the home child `m`. */
  lemma EntriesCoverChild(h: string, m: string)
    requires IsAbs(h) && Clean(h) == h && Plain(m)
    ensures (exists k :: 0 <= k < |AlwaysProtected| && EntryCovers(AlwaysProtected[k], Stem(h) + "/" + m, Some(h)))
      <==> m in {".ssh", ".aws", ".gnupg", ".gpg", ".netrc", ".git-credentials"}
  {
    var r := Stem(h) + "/" + m;
    forall k | 0 <= k < |AlwaysProtected|
      ensures EntryCovers(AlwaysProtected[k], r, Some(h)) <==> m == HomeEntryNames[k]
    {
      HomeEntry(k, h, m);
    }
    assert (exists k :: 0 <= k < |AlwaysProtected| && EntryCovers(AlwaysProtected[k], r, Some(h)))
      <==> (exists k :: 0 <= k < |HomeEntryNames| && m == HomeEntryNames[k]);
    HomeEntryNamesAre(m);
  }

  /** AlwaysProtectedPath in terms of the resolved path. */
  lemma ProtectedAt(p: string, os: Os, r: string)
    requires ResolvePath(p, os) == r
    ensures AlwaysProtectedPath(p, os) <==>
      p != "" && (Base(r) in ProtectedFilenames
                  || exists k :: 0 <= k < |AlwaysProtected| && EntryCovers(AlwaysProtected[k], r, os.home))
  {
  }
}
