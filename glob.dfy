/** internal/glob: path matching with `*`/`?` single-segment wildcards, a fallback to the
    basename, and one `**` that splits a pattern into a raw string prefix and a suffix
    glob tried against every trailing run of segments. */
module Glob {
  import opened Strings
  import opened FilePath

  /** Some trailing run of `parts`, joined by the separator, matches `suffix`. */
  predicate TailRunMatches(suffix: string, parts: seq<string>)
  {
    exists i :: 0 <= i < |parts| && WildMatch(suffix, Join(parts[i..], "/"))
  }

  /** What matchDoublestar decides once the pattern is split into `prefix` and `suffix`. */
  predicate DoublestarParts(path: string, prefix: string, suffix: string)
  {
    if prefix != "" && !HasPrefix(path, prefix) then false
    else if suffix == "" then true
    else
      var remaining := if prefix != "" then TrimPrefix(TrimPrefix(path, prefix), "/") else path;
      TailRunMatches(suffix, Split(remaining, "/"))
  }

  /** What matchDoublestar decides for a cleaned path and a cleaned pattern: the pattern
      must split on `**` into exactly two pieces. */
  predicate DoublestarMatches(path: string, pattern: string)
  {
    var parts := Split(pattern, "**");
    |parts| == 2 && DoublestarParts(path, TrimSuffix(parts[0], "/"), TrimPrefix(parts[1], "/"))
  }

  /** matchDoublestar. The source repeats the `suffix == ""` test after computing
      `remaining`; that second test cannot succeed and is not repeated here. */
  method MatchDoublestar(path: string, pattern: string) returns (matched: bool)
    ensures matched == DoublestarMatches(path, pattern)
  {
    var parts := Split(pattern, "**");
    if |parts| != 2 {
      return false;
    }
    var prefix := TrimSuffix(parts[0], "/");
    var suffix := TrimPrefix(parts[1], "/");
    if prefix != "" && !HasPrefix(path, prefix) {
      return false;
    }
    if suffix == "" {
      return true;
    }
    var remaining := path;
    if prefix != "" {
      remaining := TrimPrefix(path, prefix);
      remaining := TrimPrefix(remaining, "/");
    }
    var pathParts := Split(remaining, "/");
    var i := 0;
    while i < |pathParts|
      invariant 0 <= i <= |pathParts|
      invariant forall k :: 0 <= k < i ==> !WildMatch(suffix, Join(pathParts[k..], "/"))
    {
      var candidate := Join(pathParts[i..], "/");
      if WildMatch(suffix, candidate)
         || (|pathParts[i..]| == 1 && WildMatch(suffix, pathParts[|pathParts| - 1]))
      {
        return true;
      }
      i := i + 1;
    }
    return false;
  }

  /** glob.Match: both operands are cleaned; a `**` pattern goes to matchDoublestar,
      any other pattern must match the whole path or its basename. */
  predicate Match(path: string, pattern: string)
  {
    var p := Clean(path);
    var pat := Clean(pattern);
    if Contains(pat, "**") then DoublestarMatches(p, pat)
    else WildMatch(pat, p) || WildMatch(pat, Base(p))
  }

  /** glob.MatchAny. */
  function MatchAny(path: string, patterns: seq<string>): (r: bool)
    ensures r <==> exists i :: 0 <= i < |patterns| && Match(path, patterns[i])
  {
    if |patterns| == 0 then false
    else if Match(path, patterns[0]) then true
    else
      var r := MatchAny(path, patterns[1..]);
      assert forall i :: 1 <= i < |patterns| ==> patterns[i] == patterns[1..][i - 1];
      r
  }

  /** A leading `./` on a relative path changes no match. */
  lemma MatchDotSlash(s: string, pattern: string)
    requires !IsAbs(s)
    ensures Match("./" + s, pattern) == Match(s, pattern)
  {
    CleanDotSlash(s);
  }

  /** A string without `*` holds no `**`. */
  lemma NoStarNoDoublestar(s: string)
    requires forall j :: 0 <= j < |s| ==> s[j] != '*'
    ensures !Contains(s, "**")
  {
    forall k | 0 <= k && k + 2 <= |s| ensures !OccursAt(s, "**", k) {
      assert s[k..k + 2][0] == s[k];
    }
    ContainsIff(s, "**");
  }

  /** A character other than `*` in front of a string without `**` adds none. */
  lemma NoDoublestarCons(c: char, s: string)
    requires c != '*' && !Contains(s, "**")
    ensures !Contains([c] + s, "**")
  {
    var t := [c] + s;
    ContainsIff(s, "**");
    assert t[1..] == s;
    forall k | 0 <= k ensures !OccursAt(t, "**", k) {
      if k == 0 {
        if 2 <= |t| {
          assert t[0..2][0] == c;
        }
      } else {
        OccursAtTail(t, "**", k - 1);
      }
    }
    ContainsIff(t, "**");
  }

  /** A character other than `*` after a string without `**` adds none. */
  lemma NoDoublestarSnoc(s: string, c: char)
    requires c != '*' && !Contains(s, "**")
    ensures !Contains(s + [c], "**")
  {
    var t := s + [c];
    ContainsIff(s, "**");
    forall k | 0 <= k && k + 2 <= |t| ensures !OccursAt(t, "**", k) {
      if k + 2 <= |s| {
        assert t[k..k + 2] == s[k..k + 2];
        assert !OccursAt(s, "**", k);
      } else {
        assert t[k..k + 2][1] == c && "**"[1] == '*';
        assert t[k..k + 2] != "**";
      }
    }
    ContainsIff(t, "**");
  }

  /** Where the first `**` of a pattern is, when exactly one stands before any other. */
  lemma FindDoublestar(a: string, b: string)
    requires !Contains(a, "**") && (a == "" || a[|a| - 1] != '*')
    ensures Find(a + "**" + b, "**") == |a|
  {
    var s := a + "**" + b;
    assert s[|a|..|a| + 2] == "**";
    assert OccursAt(s, "**", |a|);
    ContainsIff(a, "**");
    forall k | 0 <= k < |a| ensures !OccursAt(s, "**", k) {
      if k + 2 <= |a| {
        assert a[k..k + 2] == s[k..k + 2];
        assert !OccursAt(a, "**", k);
      } else {
        assert s[k..k + 2][0] == a[|a| - 1] && "**"[0] == '*';
        assert s[k..k + 2] != "**";
      }
    }
  }

  /** A pattern with exactly one `**`, not run together with another `*` on its left,
      splits into the text before and after it. */
  lemma SplitDoublestar(a: string, b: string)
    requires !Contains(a, "**") && (a == "" || a[|a| - 1] != '*') && !Contains(b, "**")
    ensures Split(a + "**" + b, "**") == [a, b]
  {
    var s := a + "**" + b;
    FindDoublestar(a, b);
    assert s[..|a|] == a;
    assert s[|a| + 2..] == b;
    assert Split(b, "**") == [b];
    assert Split(s, "**") == [s[..|a|]] + Split(s[|a| + 2..], "**");
  }

  /** A split on `**` into two pieces means the pattern holds `**`. */
  lemma SplitTwoContains(s: string)
    requires |Split(s, "**")| == 2
    ensures Contains(s, "**")
  {
  }

  /** Once the cleaned pattern is known to split into `a` and `b`, Match is the doublestar
      test on the trimmed pieces. */
  lemma MatchSplit(path: string, pattern: string, a: string, b: string)
    requires Split(Clean(pattern), "**") == [a, b]
    ensures Match(path, pattern) == DoublestarParts(Clean(path), TrimSuffix(a, "/"), TrimPrefix(b, "/"))
  {
    SplitTwoContains(Clean(pattern));
  }

  /** Over the segments of `remaining`, a slash-free suffix glob can only match the last
      segment. */
  lemma TailRunSingleSegment(x: string, remaining: string)
    requires NoSlash(x)
    ensures TailRunMatches(x, Split(remaining, "/")) <==> WildMatch(x, AfterLastSlash(remaining))
  {
    TailRunOnlyLast(x, Split(remaining, "/"));
    SplitLastPiece(remaining);
  }

  /** Over any segment list, a slash-free glob can only match the run made of the last
      segment alone. */
  lemma TailRunOnlyLast(x: string, parts: seq<string>)
    requires NoSlash(x) && |parts| > 0
    ensures TailRunMatches(x, parts) <==> WildMatch(x, parts[|parts| - 1])
  {
    var last := |parts| - 1;
    assert parts[last..] == [parts[last]];
    forall i | 0 <= i < last ensures !WildMatch(x, Join(parts[i..], "/")) {
      EarlierTailFails(x, parts, i);
    }
  }

  lemma EarlierTailFails(x: string, parts: seq<string>, i: int)
    requires NoSlash(x) && 0 <= i < |parts| - 1
    ensures !WildMatch(x, Join(parts[i..], "/"))
  {
    JoinTailHasSlash(parts, i);
    if WildMatch(x, Join(parts[i..], "/")) {
      WildMatchNoSlash(x, Join(parts[i..], "/"));
    }
  }

  /** `*` followed by a literal extension matches exactly the paths whose cleaned
      basename ends in it, at any depth. */
  lemma MatchStarSuffix(path: string, x: string)
    requires Literal(x) && NoSlash(x)
    ensures Match(path, "*" + x) <==> Base(Clean(path)) != "/" && HasSuffix(Base(Clean(path)), x)
  {
    var pat := "*" + x;
    assert Plain(pat) by {
      assert pat[0] == '*';
    }
    CleanPlain(pat);
    assert !Contains(pat, "**") by {
      forall k | 0 <= k && k + 2 <= |pat| ensures !OccursAt(pat, "**", k) {
        assert pat[k..k + 2][1] == pat[k + 1] == x[k];
      }
      ContainsIff(pat, "**");
    }
    var c := Clean(path);
    StarSuffix(x, c);
    StarSuffix(x, Base(c));
    if WildMatch(pat, c) {
      AfterLastSlashPlain(c);
      if c != "" && c[|c| - 1] != '/' {
        BaseNoTrailing(c);
      }
      CleanNonEmpty(path);
    }
  }

  /** Two separate `**` in the cleaned pattern make every match fail. */
  lemma TwoDoublestarsNeverMatch(path: string, pattern: string, i: int, j: int)
    requires OccursAt(Clean(pattern), "**", i) && OccursAt(Clean(pattern), "**", j) && i + 2 <= j
    ensures !Match(path, pattern)
  {
    ContainsAt(Clean(pattern), "**", i);
    SplitAtLeastThree(Clean(pattern), "**", i, j);
  }

  /** `**` alone matches every path. */
  lemma MatchDoublestarAlone(path: string)
    ensures Match(path, "**")
  {
    assert Plain("**");
    CleanPlain("**");
    SplitDoublestar("", "");
    MatchSplit(path, "**", "", "");
  }

  // Under a clean directory d, the pattern d + "/**" matches exactly the paths whose
  // cleaned form starts with the string d. The test is a raw string prefix, so d
  // followed by any further characters is accepted too.
  lemma MatchDirDoublestar(path: string, d: string)
    requires Clean(d) == d && d != "." && d != "/" && !Contains(d, "**")
    ensures Match(path, d + "/**") <==> HasPrefix(Clean(path), d)
  {
    CleanNonEmpty(d);
    assert Plain("**");
    CleanChild(d, "**");
    var pat := d + "/**";
    assert d + "/" + "**" == pat;
    assert Clean(pat) == pat;
    assert pat == (d + "/") + "**" + "";
    NoDoublestarSnoc(d, '/');
    SplitDoublestar(d + "/", "");
    assert TrimSuffix(d + "/", "/") == d;
    MatchSplit(path, pat, d + "/", "");
  }

  // The pattern "**/" + x, for a slash-free x, matches exactly the paths whose last
  // cleaned segment matches x.
  lemma MatchAnyDepth(path: string, x: string)
    requires Plain(x) && !Contains(x, "**")
    ensures Match(path, "**/" + x) <==> WildMatch(x, AfterLastSlash(Clean(path)))
  {
    var pat := "**/" + x;
    AnyDepthClean(x);
    AnyDepthSplit(x);
    TrimSlashHead(x);
    MatchSplit(path, pat, "", "/" + x);
    TailRunSingleSegment(x, Clean(path));
  }

  lemma AnyDepthClean(x: string)
    requires Plain(x)
    ensures Clean("**/" + x) == "**/" + x
  {
    PlainDoublestar();
    CleanPlain("**");
    CleanChild("**", x);
    AnyDepthRegroup(x);
  }

  lemma AnyDepthRegroup(x: string)
    ensures "**" + "/" + x == "**/" + x
    ensures "**/" + x == "" + "**" + ("/" + x)
  {
    assert "**/" == "**" + "/";
  }

  lemma AnyDepthSplit(x: string)
    requires Plain(x) && !Contains(x, "**")
    ensures Split("**/" + x, "**") == ["", "/" + x]
  {
    AnyDepthRegroup(x);
    NoDoublestarCons('/', x);
    SplitDoublestar("", "/" + x);
  }

  lemma TrimSlashHead(x: string)
    ensures TrimPrefix("/" + x, "/") == x
  {
    assert ("/" + x)[..1] == "/";
  }


  // The pattern d + "/**/" + x, for a clean directory d and a slash-free x, matches
  // exactly the paths that start with the string d and whose remainder after d and one
  // slash ends in a segment matching x.
  lemma MatchDirAnyDepth(path: string, d: string, x: string)
    requires Clean(d) == d && d != "." && d != "/" && !Contains(d, "**")
    requires Plain(x) && !Contains(x, "**")
    ensures Match(path, d + "/**/" + x) <==>
      HasPrefix(Clean(path), d)
      && WildMatch(x, AfterLastSlash(TrimPrefix(TrimPrefix(Clean(path), d), "/")))
  {
    var pat := d + "/**/" + x;
    DirAnyDepthPattern(d, x);
    assert TrimSuffix(d + "/", "/") == d;
    assert TrimPrefix("/" + x, "/") == x;
    MatchSplit(path, pat, d + "/", "/" + x);
    CleanNonEmpty(d);
    TailRunSingleSegment(x, TrimPrefix(TrimPrefix(Clean(path), d), "/"));
  }

  /** The pattern d + "/" + "**" + "/" + x is clean and splits around its one `**`. */
  lemma DirAnyDepthPattern(d: string, x: string)
    requires Clean(d) == d && d != "." && d != "/" && !Contains(d, "**")
    requires Plain(x) && !Contains(x, "**")
    ensures Clean(d + "/**/" + x) == d + "/**/" + x
    ensures Split(d + "/**/" + x, "**") == [d + "/", "/" + x]
  {
    DirAnyDepthClean(d, x);
    DirAnyDepthSplit(d, x);
  }

  lemma DirAnyDepthClean(d: string, x: string)
    requires Clean(d) == d && d != "." && d != "/" && Plain(x)
    ensures Clean(d + "/**/" + x) == d + "/**/" + x
  {
    PlainDoublestar();
    DoublestarRegroup(d, x);
    CleanGrandchild(d, "**", x, d + "/**/" + x);
  }

  lemma DoublestarRegroup(d: string, x: string)
    ensures d + "/**/" + x == d + "/" + "**" + "/" + x
  {
    assert "/**/" == "/" + "**" + "/";
  }

  lemma PlainDoublestar()
    ensures Plain("**")
  {
    assert "**"[0] != '/' && "**"[1] != '/';
  }

  /** Below a clean directory other than `.` and `/`, two plain names stay as written. */
  lemma CleanGrandchild(d: string, a: string, x: string, t: string)
    requires Clean(d) == d && d != "." && d != "/" && Plain(a) && Plain(x)
    requires t == d + "/" + a + "/" + x
    ensures Clean(t) == t
  {
    CleanNonEmpty(d);
    CleanChild(d, a);
    var c := d + "/" + a;
    assert c != "." && c != "/" by {
      assert c[|c| - 1] == a[|a| - 1];
    }
    CleanChild(c, x);
  }

  lemma DirAnyDepthSplit(d: string, x: string)
    requires !Contains(d, "**") && !Contains(x, "**")
    ensures Split(d + "/**/" + x, "**") == [d + "/", "/" + x]
  {
    assert d + "/**/" + x == (d + "/") + "**" + ("/" + x);
    NoDoublestarSnoc(d, '/');
    NoDoublestarCons('/', x);
    SplitDoublestar(d + "/", "/" + x);
  }

  /** Any pattern whose cleaned form has no `**` never reaches the doublestar branch: the
      cleaned pattern must match the cleaned path or its basename. */
  lemma MatchWithoutDoublestar(path: string, pattern: string)
    requires !Contains(Clean(pattern), "**")
    ensures Match(path, pattern) <==> WildMatch(Clean(pattern), Clean(path)) || WildMatch(Clean(pattern), Base(Clean(path)))
  {
  }

  /** A single plain name is its own cleaned form, so it is matched as written. */
  lemma MatchPlainPattern(path: string, pattern: string)
    requires Plain(pattern) && !Contains(pattern, "**")
    ensures Match(path, pattern) <==> WildMatch(pattern, Clean(path)) || WildMatch(pattern, Base(Clean(path)))
  {
    CleanPlain(pattern);
    MatchWithoutDoublestar(path, pattern);
  }
}
