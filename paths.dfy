/** The lexical parts of Go's `path/filepath` package on a Unix host (separator `/`):
    IsAbs, Clean, Base, Dir, Ext, Join, and Match restricted to literals, `*` and `?`.
    Clean is modelled the way it is specified: the path is read segment by segment onto
    a stack, `.` and empty segments are dropped, `..` removes the last real segment. */
module FilePath {
  import opened Strings

  /** The string is free of the separator. */
  predicate NoSlash(s: string)
  {
    forall j :: 0 <= j < |s| ==> s[j] != '/'
  }

  /** A single path element that Clean keeps as it is. */
  predicate Plain(n: string)
  {
    n != "" && n != "." && n != ".." && NoSlash(n)
  }

  /** filepath.IsAbs. */
  predicate IsAbs(p: string)
  {
    |p| > 0 && p[0] == '/'
  }

  /** Reading one segment onto the stack of kept segments. */
  function Push(rooted: bool, stack: seq<string>, seg: string): seq<string>
  {
    if seg == "" || seg == "." then stack
    else if seg == ".." then
      if |stack| > 0 && stack[|stack| - 1] != ".." then stack[..|stack| - 1]
      else if rooted then stack
      else stack + [".."]
    else stack + [seg]
  }

  /** Reading a sequence of segments left to right. */
  function Normalize(rooted: bool, stack: seq<string>, segs: seq<string>): seq<string>
    decreases |segs|
  {
    if |segs| == 0 then stack else Normalize(rooted, Push(rooted, stack, segs[0]), segs[1..])
  }

  /** Writing the kept segments back as a path. */
  function Assemble(rooted: bool, stack: seq<string>): string
  {
    if rooted then "/" + Join(stack, "/")
    else if |stack| == 0 then "."
    else Join(stack, "/")
  }

  /** filepath.Clean. */
  function Clean(p: string): string
  {
    var rooted := IsAbs(p);
    Assemble(rooted, Normalize(rooted, [], Split(p, "/")))
  }

  /** A stack Clean can produce: plain segments, with `..` only as a leading run of a
      relative path. */
  predicate Normal(rooted: bool, stack: seq<string>)
  {
    (forall i :: 0 <= i < |stack| ==> stack[i] != "" && stack[i] != ".")
    && (forall i, j :: 0 <= i < |stack| && 0 <= j < |stack[i]| ==> stack[i][j] != '/')
    && (forall i :: 0 <= i < |stack| && stack[i] == ".." ==> !rooted && forall j :: 0 <= j < i ==> stack[j] == "..")
  }

  lemma PushNormal(rooted: bool, stack: seq<string>, seg: string)
    requires Normal(rooted, stack) && NoSlash(seg)
    ensures Normal(rooted, Push(rooted, stack, seg))
  {
  }

  lemma {:induction false} NormalizeNormal(rooted: bool, stack: seq<string>, segs: seq<string>)
    requires Normal(rooted, stack)
    requires forall i, j :: 0 <= i < |segs| && 0 <= j < |segs[i]| ==> segs[i][j] != '/'
    ensures Normal(rooted, Normalize(rooted, stack, segs))
    decreases |segs|
  {
    if |segs| > 0 {
      assert NoSlash(segs[0]);
      PushNormal(rooted, stack, segs[0]);
      NormalizeNormal(rooted, Push(rooted, stack, segs[0]), segs[1..]);
    }
  }

  /** Reading one more segment at the end is one more Push. */
  lemma {:induction false} NormalizeAppend(rooted: bool, stack: seq<string>, segs: seq<string>, seg: string)
    ensures Normalize(rooted, stack, segs + [seg]) == Push(rooted, Normalize(rooted, stack, segs), seg)
    decreases |segs|
  {
    if |segs| == 0 {
      assert (segs + [seg])[1..] == [];
    } else {
      assert (segs + [seg])[1..] == segs[1..] + [seg];
      NormalizeAppend(rooted, Push(rooted, stack, segs[0]), segs[1..], seg);
    }
  }

  /** Reading a normal stack from scratch reproduces it. */
  lemma {:induction false} NormalizeFixedFrom(rooted: bool, stack: seq<string>, i: nat)
    requires Normal(rooted, stack) && i <= |stack|
    ensures Normalize(rooted, stack[..i], stack[i..]) == stack
    decreases |stack| - i
  {
    if i < |stack| {
      assert Push(rooted, stack[..i], stack[i]) == stack[..i + 1];
      assert stack[i..][1..] == stack[i + 1..];
      NormalizeFixedFrom(rooted, stack, i + 1);
    } else {
      assert stack[..i] == stack;
    }
  }

  /** The root alone splits into two empty pieces. */
  lemma SplitRoot()
    ensures Split("/", "/") == ["", ""]
  {
    assert Split("/", "/") == Split("", "/") + Split("", "/") by {
      assert "/" == "" + ['/'] + "";
      SplitConcatChar("", '/', "");
    }
    assert Split("", "/") == [""] by {
      SplitFree("", '/');
    }
  }

  /** A rooted path written by Assemble from a non-empty stack splits into an empty
      first piece and the stack. */
  lemma SplitRooted(stack: seq<string>)
    requires Normal(true, stack) && |stack| > 0
    ensures Split("/" + Join(stack, "/"), "/") == [""] + stack
  {
    var j := Join(stack, "/");
    assert Split("/" + j, "/") == Split("", "/") + Split(j, "/") by {
      assert "/" + j == "" + ['/'] + j;
      SplitConcatChar("", '/', j);
    }
    assert Split("", "/") == [""] by {
      SplitFree("", '/');
    }
    assert Split(j, "/") == stack by {
      SplitJoinChar(stack, '/');
    }
  }

  /** Splitting the path Assemble writes and reading it again gives back the stack and
      the rootedness. */
  lemma AssembleSplit(rooted: bool, stack: seq<string>)
    requires Normal(rooted, stack)
    ensures IsAbs(Assemble(rooted, stack)) == rooted
    ensures Normalize(rooted, [], Split(Assemble(rooted, stack), "/")) == stack
  {
    NormalizeFixedFrom(rooted, stack, 0);
    assert stack[..0] == [] && stack[0..] == stack;
    if rooted && |stack| == 0 {
      SplitRoot();
      assert Join(stack, "/") == "";
    } else if rooted {
      SplitRooted(stack);
      var segs := [""] + stack;
      assert segs[1..] == stack;
      assert Normalize(rooted, [], segs) == Normalize(rooted, [], stack);
    } else if |stack| == 0 {
      SplitFree(".", '/');
    } else {
      SplitJoinChar(stack, '/');
      JoinStartsWithFirst(stack, "/");
    }
  }

  /** Clean is Assemble of a normal stack. */
  lemma CleanNormal(p: string)
    ensures Normal(IsAbs(p), Normalize(IsAbs(p), [], Split(p, "/")))
  {
    SplitPiecesFree(p, '/');
    NormalizeNormal(IsAbs(p), [], Split(p, "/"));
  }

  /** Clean keeps the rootedness of its argument. */
  lemma CleanIsAbs(p: string)
    ensures IsAbs(Clean(p)) == IsAbs(p)
  {
    CleanNormal(p);
    AssembleSplit(IsAbs(p), Normalize(IsAbs(p), [], Split(p, "/")));
  }

  /** Clean is idempotent. */
  lemma CleanIdempotent(p: string)
    ensures Clean(Clean(p)) == Clean(p)
  {
    CleanNormal(p);
    AssembleSplit(IsAbs(p), Normalize(IsAbs(p), [], Split(p, "/")));
  }

  /** A leading `./` on a relative path makes no difference to Clean. */
  lemma CleanDotSlash(s: string)
    requires !IsAbs(s)
    ensures Clean("./" + s) == Clean(s)
  {
    assert "./" + s == "." + ['/'] + s;
    SplitConcatChar(".", '/', s);
    SplitFree(".", '/');
    var segs := Split("./" + s, "/");
    assert segs == ["."] + Split(s, "/");
    assert segs[1..] == Split(s, "/");
  }

  /** The name of the child `n` of the cleaned directory `c`. */
  function Child(c: string, n: string): (r: string)
    ensures HasSuffix(r, n)
  {
    if c == "/" then "/" + n else if c == "." then n else c + "/" + n
  }

  /** Splitting `p + "/" + n` on the separator appends the piece `n`. */
  lemma SplitChild(p: string, n: string)
    requires NoSlash(n)
    ensures Split(p + "/" + n, "/") == Split(p, "/") + [n]
  {
    assert p + "/" + n == p + ['/'] + n;
    SplitConcatChar(p, '/', n);
    SplitFree(n, '/');
  }

  /** Writing a stack with one more plain segment writes the child of the shorter one. */
  lemma AssembleChild(rooted: bool, st: seq<string>, n: string)
    requires Normal(rooted, st) && Plain(n)
    ensures Assemble(rooted, st + [n]) == Child(Assemble(rooted, st), n)
  {
    JoinAppend(st, n, "/");
    if |st| > 0 {
      var j := Join(st, "/");
      JoinOfNormal(rooted, st);
      if rooted {
        RootedChild(j, n);
      } else {
        assert Child(j, n) == j + "/" + n;
      }
    }
  }

  /** The written form of a non-empty stack is neither empty nor `.`, nor rooted. */
  lemma JoinOfNormal(rooted: bool, st: seq<string>)
    requires Normal(rooted, st) && |st| > 0
    ensures Join(st, "/") != "" && Join(st, "/") != "." && Join(st, "/")[0] != '/'
  {
    JoinStartsWithFirst(st, "/");
    assert |st[0]| > 0 && st[0] != "." && st[0][0] != '/';
    if |st| > 1 {
      assert |Join(st, "/")| >= |st[0]| + 1;
    }
  }

  lemma RootedChild(j: string, n: string)
    requires j != ""
    ensures "/" + (j + "/" + n) == Child("/" + j, n)
  {
    assert ("/" + j)[0] == '/' && |"/" + j| > 1;
  }


  /** Joining with `/` regroups freely. */
  lemma SlashAssoc(x: string, y: string, z: string)
    ensures x + "/" + (y + "/" + z) == x + "/" + y + "/" + z
  {
  }

  /** Cleaning a plain child of a non-empty path is taking that child of the cleaned path. */
  lemma CleanChild(p: string, n: string)
    requires p != "" && Plain(n)
    ensures Clean(p + "/" + n) == Child(Clean(p), n)
  {
    var rooted := IsAbs(p);
    assert IsAbs(p + "/" + n) == rooted;
    SplitChild(p, n);
    NormalizeAppend(rooted, [], Split(p, "/"), n);
    CleanNormal(p);
    AssembleChild(rooted, Normalize(rooted, [], Split(p, "/")), n);
  }

  /** A plain element directly under the root is already clean. */
  lemma CleanRootChild(n: string)
    requires Plain(n)
    ensures Clean("/" + n) == "/" + n
  {
    SplitChild("", n);
    SplitFree("", '/');
    assert "" + "/" + n == "/" + n;
    assert Split("/" + n, "/") == ["", n];
    assert ["", n][1..] == [n] && [n][1..] == [];
    assert Normalize(true, [], ["", n]) == Normalize(true, [], [n]);
    assert Normalize(true, [], [n]) == Normalize(true, [n], []);
  }

  /** A trailing slash makes no difference to Clean. */
  lemma CleanTrailingSlash(x: string)
    requires x != ""
    ensures Clean(x + "/") == Clean(x)
  {
    SplitChild(x, "");
    assert x + "/" + "" == x + "/";
    NormalizeAppend(IsAbs(x), [], Split(x, "/"), "");
    assert IsAbs(x + "/") == IsAbs(x);
  }

  /** The piece of `s` after its last slash (all of `s` when it has none). */
  function AfterLastSlash(s: string): (r: string)
    ensures HasSuffix(s, r) && NoSlash(r)
    ensures |r| < |s| ==> s[|s| - |r| - 1] == '/'
  {
    if |s| == 0 then ""
    else if s[|s| - 1] == '/' then ""
    else
      var r := AfterLastSlash(s[..|s| - 1]);
      assert s[..|s| - 1][|s| - 1 - |r|..] == r;
      r + [s[|s| - 1]]
  }

  /** The path with its trailing slashes removed. */
  function TrimTrailingSlashes(s: string): (r: string)
    ensures HasPrefix(s, r)
    ensures |r| == 0 || r[|r| - 1] != '/'
    ensures forall j :: |r| <= j < |s| ==> s[j] == '/'
  {
    if |s| > 0 && s[|s| - 1] == '/' then TrimTrailingSlashes(s[..|s| - 1]) else s
  }

  /** filepath.Base: the last element, ignoring trailing slashes; "." for the empty path
      and "/" for a path of slashes. */
  function Base(p: string): (r: string)
    ensures r != ""
    ensures r == "/" || NoSlash(r)
  {
    if p == "" then "."
    else
      var q := AfterLastSlash(TrimTrailingSlashes(p));
      if q == "" then "/" else q
  }

  /** The last element of a path that does not end in a slash. */
  lemma BaseNoTrailing(p: string)
    requires p != "" && p[|p| - 1] != '/'
    ensures Base(p) == AfterLastSlash(p)
  {
  }

  /** Base of a child is the child's name. */
  lemma BaseOfChild(d: string, n: string)
    requires n != "" && NoSlash(n)
    ensures Base(d + "/" + n) == n
    ensures Base(n) == n
  {
    var s := d + "/" + n;
    assert s[|s| - 1] == n[|n| - 1];
    BaseNoTrailing(s);
    BaseNoTrailing(n);
    AfterLastSlashOf(d, n);
    AfterLastSlashPlain(n);
  }

  lemma {:induction false} AfterLastSlashPlain(n: string)
    requires NoSlash(n)
    ensures AfterLastSlash(n) == n
    decreases |n|
  {
    if |n| > 0 {
      AfterLastSlashPlain(n[..|n| - 1]);
      assert n[..|n| - 1] + [n[|n| - 1]] == n;
    }
  }

  lemma {:induction false} AfterLastSlashOf(d: string, n: string)
    requires NoSlash(n)
    ensures AfterLastSlash(d + "/" + n) == n
    decreases |n|
  {
    var s := d + "/" + n;
    if |n| == 0 {
    } else {
      assert s[..|s| - 1] == d + "/" + n[..|n| - 1];
      AfterLastSlashOf(d, n[..|n| - 1]);
      assert n[..|n| - 1] + [n[|n| - 1]] == n;
    }
  }

  /** Index of the last slash in `s`, or -1. */
  function LastSlash(s: string): (r: int)
    ensures -1 <= r < |s|
    ensures r >= 0 ==> s[r] == '/'
    ensures forall j :: r < j < |s| ==> s[j] != '/'
  {
    if |s| == 0 then -1
    else if s[|s| - 1] == '/' then |s| - 1
    else LastSlash(s[..|s| - 1])
  }

  /** filepath.Dir: everything up to the last slash, cleaned. */
  function Dir(p: string): string
  {
    Clean(p[..LastSlash(p) + 1])
  }

  /** Dir of a child is the cleaned parent. */
  lemma DirOfChild(d: string, n: string)
    requires NoSlash(n)
    ensures Dir(d + "/" + n) == Clean(d + "/")
  {
    var s := d + "/" + n;
    assert s[|d|] == '/';
    assert LastSlash(s) == |d|;
    assert s[..|d| + 1] == d + "/";
  }

  /** The extension: the suffix from the last dot of the last element, or "". */
  function Ext(p: string): (r: string)
    ensures r == "" || (r[0] == '.' && HasSuffix(p, r) && NoSlash(r))
    ensures r != "" ==> forall j :: 1 <= j < |r| ==> r[j] != '.'
  {
    if |p| == 0 || p[|p| - 1] == '/' then ""
    else if p[|p| - 1] == '.' then [p[|p| - 1]]
    else
      var r := Ext(p[..|p| - 1]);
      if r == "" then ""
      else
        assert p[..|p| - 1][|p| - 1 - |r|..] == r;
        r + [p[|p| - 1]]
  }

  /** filepath.Join of two elements: the non-empty ones joined by the separator and
      cleaned; "" when both are empty. */
  function Join2(a: string, b: string): string
  {
    if a != "" then Clean(a + "/" + b)
    else if b != "" then Clean(b)
    else ""
  }

  /** filepath.Match on patterns made of literal characters, `*` (any run of non-slash
      characters) and `?` (one non-slash character). */
  predicate WildMatch(pat: string, name: string)
    decreases |pat| + |name|
  {
    if |pat| == 0 then |name| == 0
    else if pat[0] == '*' then
      WildMatch(pat[1..], name) || (|name| > 0 && name[0] != '/' && WildMatch(pat, name[1..]))
    else if pat[0] == '?' then
      |name| > 0 && name[0] != '/' && WildMatch(pat[1..], name[1..])
    else
      |name| > 0 && name[0] == pat[0] && WildMatch(pat[1..], name[1..])
  }

  /** The pattern holds no wildcard. */
  predicate Literal(pat: string)
  {
    forall j :: 0 <= j < |pat| ==> pat[j] != '*' && pat[j] != '?'
  }

  /** A pattern without wildcards matches exactly itself. */
  lemma {:induction false} WildMatchLiteral(pat: string, name: string)
    requires Literal(pat)
    ensures WildMatch(pat, name) <==> name == pat
    decreases |pat|
  {
    if |pat| > 0 && |name| > 0 {
      WildMatchLiteral(pat[1..], name[1..]);
      if name[0] == pat[0] && name[1..] == pat[1..] {
        assert name == [name[0]] + name[1..];
        assert pat == [pat[0]] + pat[1..];
      }
    }
  }

  /** A wildcard matches only names with as many slashes as the pattern, so a pattern free
      of slashes matches only names free of slashes. */
  lemma {:induction false} WildMatchNoSlash(pat: string, name: string)
    requires NoSlash(pat) && WildMatch(pat, name)
    ensures NoSlash(name)
    decreases |pat| + |name|
  {
    if |pat| > 0 {
      if pat[0] == '*' {
        if WildMatch(pat[1..], name) {
          WildMatchNoSlash(pat[1..], name);
        } else {
          WildMatchNoSlash(pat, name[1..]);
        }
      } else {
        WildMatchNoSlash(pat[1..], name[1..]);
      }
    }
  }

  /** `*` followed by a literal `x` matches exactly the slash-free names ending in `x`. */
  lemma {:induction false} StarSuffix(x: string, name: string)
    requires Literal(x) && NoSlash(x)
    ensures WildMatch("*" + x, name) <==> NoSlash(name) && HasSuffix(name, x)
    decreases |name|
  {
    var pat := "*" + x;
    assert pat[1..] == x;
    WildMatchLiteral(x, name);
    if |name| > 0 {
      StarSuffix(x, name[1..]);
      if HasSuffix(name[1..], x) {
        assert name[|name| - |x|..] == name[1..][|name| - 1 - |x|..];
      }
      if HasSuffix(name, x) && name != x {
        assert |x| < |name|;
        assert name[1..][|name| - 1 - |x|..] == name[|name| - |x|..];
      }
    }
  }

  /** A plain element is already clean. */
  lemma CleanPlain(n: string)
    requires Plain(n)
    ensures Clean(n) == n
  {
    SplitFree(n, '/');
    assert Normalize(false, [], [n]) == Normalize(false, [n], []);
  }

  /** The last piece of a split on the separator is what follows the last slash. */
  lemma SplitLastPiece(s: string)
    ensures Split(s, "/")[|Split(s, "/")| - 1] == AfterLastSlash(s)
  {
    var r := AfterLastSlash(s);
    if |r| == |s| {
      assert r == s;
      SplitFree(r, '/');
    } else {
      var a := s[..|s| - |r| - 1];
      CutAtLastSlash(s, r);
      LastPieceOf(s, a, r);
    }
  }

  lemma CutAtLastSlash(s: string, r: string)
    requires HasSuffix(s, r) && |r| < |s| && s[|s| - |r| - 1] == '/'
    ensures s == s[..|s| - |r| - 1] + "/" + r
  {
  }

  lemma LastPieceOf(s: string, a: string, r: string)
    requires s == a + "/" + r && NoSlash(r)
    ensures Split(s, "/")[|Split(s, "/")| - 1] == r
  {
    SplitFree(r, '/');
    SplitConcatChar(a, '/', r);
  }

  /** Joining two pieces or more with the separator gives a string holding a slash. */
  lemma JoinTailHasSlash(parts: seq<string>, i: int)
    requires 0 <= i < |parts| - 1
    ensures !NoSlash(Join(parts[i..], "/"))
  {
    assert parts[i..][1..] == parts[i + 1..];
    assert Join(parts[i..], "/") == parts[i] + "/" + Join(parts[i + 1..], "/");
    assert Join(parts[i..], "/")[|parts[i]|] == '/';
  }

  /** Clean never yields the empty string. */
  lemma CleanNonEmpty(p: string)
    ensures Clean(p) != ""
  {
    CleanNormal(p);
    var st := Normalize(IsAbs(p), [], Split(p, "/"));
    if |st| > 0 {
      JoinStartsWithFirst(st, "/");
    }
  }
}
