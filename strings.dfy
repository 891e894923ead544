/** The parts of Go's `strings` package the core uses: substring search, prefix and
    suffix tests and trims, Split, Join, ReplaceAll, Fields and an ASCII EqualFold.
    Each function models the Go function of the same name on `seq<char>`. */
module Strings {

  /** `sub` occurs in `s` starting at index `k`. */
  predicate OccursAt(s: string, sub: string, k: int)
  {
    0 <= k && k + |sub| <= |s| && s[k..k + |sub|] == sub
  }

  lemma OccursAtTail(s: string, sub: string, k: int)
    requires |s| > 0 && k >= 0
    ensures OccursAt(s, sub, k + 1) <==> OccursAt(s[1..], sub, k)
  {
    if k + 1 + |sub| <= |s| {
      assert s[k + 1..k + 1 + |sub|] == s[1..][k..k + |sub|];
    }
  }

  /** strings.Index: the first index at which `sub` occurs in `s`, or -1. */
  function Find(s: string, sub: string): (r: int)
    ensures r == -1 || 0 <= r <= |s| - |sub|
    ensures r >= 0 ==> OccursAt(s, sub, r)
    ensures r >= 0 ==> forall k :: 0 <= k < r ==> !OccursAt(s, sub, k)
    ensures r < 0 ==> forall k :: !OccursAt(s, sub, k)
    decreases |s|
  {
    if |sub| > |s| then -1
    else if s[..|sub|] == sub then 0
    else
      var t := Find(s[1..], sub);
      assert forall k :: k >= 1 ==> (OccursAt(s, sub, k) <==> OccursAt(s[1..], sub, k - 1)) by {
        forall k | k >= 1 ensures OccursAt(s, sub, k) <==> OccursAt(s[1..], sub, k - 1) {
          OccursAtTail(s, sub, k - 1);
        }
      }
      assert !OccursAt(s, sub, 0);
      if t < 0 then -1 else t + 1
  }

  /** strings.Contains. */
  predicate Contains(s: string, sub: string)
  {
    Find(s, sub) >= 0
  }

  lemma ContainsIff(s: string, sub: string)
    ensures Contains(s, sub) <==> exists k :: OccursAt(s, sub, k)
  {
  }

  /** A witness occurrence makes `Contains` true. */
  lemma ContainsAt(s: string, sub: string, k: int)
    requires OccursAt(s, sub, k)
    ensures Contains(s, sub)
  {
  }

  /** strings.HasPrefix. */
  predicate HasPrefix(s: string, p: string)
  {
    |p| <= |s| && s[..|p|] == p
  }

  /** strings.HasSuffix. */
  predicate HasSuffix(s: string, x: string)
  {
    |x| <= |s| && s[|s| - |x|..] == x
  }

  /** strings.TrimPrefix. */
  function TrimPrefix(s: string, p: string): (r: string)
    ensures HasPrefix(s, p) ==> s == p + r
    ensures !HasPrefix(s, p) ==> r == s
  {
    if HasPrefix(s, p) then s[|p|..] else s
  }

  /** strings.TrimSuffix. */
  function TrimSuffix(s: string, x: string): (r: string)
    ensures HasSuffix(s, x) ==> s == r + x
    ensures !HasSuffix(s, x) ==> r == s
  {
    if HasSuffix(s, x) then s[..|s| - |x|] else s
  }

  /** strings.Split for a non-empty separator: the pieces between successive
      leftmost, non-overlapping occurrences of `sep`. */
  function Split(s: string, sep: string): (r: seq<string>)
    requires |sep| > 0
    ensures |r| >= 1
    decreases |s|
  {
    var i := Find(s, sep);
    if i < 0 then [s] else [s[..i]] + Split(s[i + |sep|..], sep)
  }

  /** strings.Join. */
  function Join(parts: seq<string>, sep: string): string
  {
    if |parts| == 0 then ""
    else if |parts| == 1 then parts[0]
    else parts[0] + sep + Join(parts[1..], sep)
  }

  /** strings.ReplaceAll for a non-empty `target`: every leftmost, non-overlapping
      occurrence replaced, scanning left to right. */
  function ReplaceAll(s: string, target: string, replacement: string): (r: string)
    requires |target| > 0
    ensures !Contains(s, target) ==> r == s
    decreases |s|
  {
    var i := Find(s, target);
    if i < 0 then s else s[..i] + replacement + ReplaceAll(s[i + |target|..], target, replacement)
  }

  /** unicode.IsSpace: the Unicode White_Space characters. */
  predicate IsSpace(c: char)
  {
    c == ' ' || c == '\t' || c == '\n' || c == '\r' || c == '\U{000B}' || c == '\U{000C}'
    || c == '\U{0085}' || c == '\U{00A0}' || c == '\U{1680}'
    || ('\U{2000}' <= c <= '\U{200A}')
    || c == '\U{2028}' || c == '\U{2029}' || c == '\U{202F}' || c == '\U{205F}' || c == '\U{3000}'
  }

  /** Length of the longest prefix of `s` holding no white space. */
  function WordLength(s: string): (n: nat)
    ensures n <= |s|
    ensures forall i :: 0 <= i < n ==> !IsSpace(s[i])
    ensures n < |s| ==> IsSpace(s[n])
  {
    if |s| == 0 || IsSpace(s[0]) then 0 else 1 + WordLength(s[1..])
  }

  /** strings.Fields: the maximal runs of non-space characters, in order. */
  function Fields(s: string): (r: seq<string>)
    ensures forall i :: 0 <= i < |r| ==> |r[i]| > 0
    ensures forall i, j :: 0 <= i < |r| && 0 <= j < |r[i]| ==> !IsSpace(r[i][j])
    decreases |s|
  {
    if |s| == 0 then []
    else if IsSpace(s[0]) then Fields(s[1..])
    else
      var n := WordLength(s);
      [s[..n]] + Fields(s[n..])
  }

  /** ASCII lower-casing of one character. */
  function LowerAscii(c: char): char
  {
    if 'A' <= c <= 'Z' then (c as int + 32) as char else c
  }

  /** strings.EqualFold restricted to ASCII letters: equal up to the case of A-Z. */
  predicate EqualFold(a: string, b: string)
  {
    |a| == |b| && forall i :: 0 <= i < |a| ==> LowerAscii(a[i]) == LowerAscii(b[i])
  }

  /** Case folding is symmetric, so `EqualFold(t, tool)` and `EqualFold(tool, t)` agree. */
  lemma EqualFoldSymmetric(a: string, b: string)
    ensures EqualFold(a, b) <==> EqualFold(b, a)
  {
  }

  /** A single-character pattern occurs exactly where that character stands. */
  lemma OccursAtChar(s: string, c: char, k: int)
    ensures OccursAt(s, [c], k) <==> 0 <= k < |s| && s[k] == c
  {
    if 0 <= k < |s| {
      assert s[k..k + 1] == [s[k]];
    }
  }

  /** The first occurrence of `c` in `a + [c] + b` is the first in `a`, or the added one. */
  lemma FindCharConcat(a: string, c: char, b: string)
    ensures Find(a + [c] + b, [c]) == (if Find(a, [c]) >= 0 then Find(a, [c]) else |a|)
  {
    var s := a + [c] + b;
    var fa := Find(a, [c]);
    var fs := Find(s, [c]);
    forall k | 0 <= k < |a|
      ensures OccursAt(s, [c], k) <==> OccursAt(a, [c], k)
    {
      OccursAtChar(s, c, k);
      OccursAtChar(a, c, k);
    }
    OccursAtChar(s, c, |a|);
  }

  /** Splitting on one character distributes over a concatenation at that character. */
  lemma {:induction false} SplitConcatChar(a: string, c: char, b: string)
    ensures Split(a + [c] + b, [c]) == Split(a, [c]) + Split(b, [c])
    decreases |a|
  {
    var s := a + [c] + b;
    FindCharConcat(a, c, b);
    var k := Find(a, [c]);
    if k >= 0 {
      OccursAtChar(a, c, k);
      SlicesAroundInner(a, c, b, k);
      SplitConcatChar(a[k + 1..], c, b);
    } else {
      SlicesAroundJoint(a, c, b);
    }
  }

  lemma SlicesAroundInner(a: string, c: char, b: string, k: int)
    requires 0 <= k < |a|
    ensures (a + [c] + b)[..k] == a[..k]
    ensures (a + [c] + b)[k + 1..] == a[k + 1..] + [c] + b
  {
  }

  lemma SlicesAroundJoint(a: string, c: char, b: string)
    ensures (a + [c] + b)[..|a|] == a
    ensures (a + [c] + b)[|a| + 1..] == b
  {
  }

  /** No piece of a split on `c` contains `c`. */
  lemma {:induction false} SplitPiecesFree(s: string, c: char)
    ensures forall i, j :: 0 <= i < |Split(s, [c])| && 0 <= j < |Split(s, [c])[i]| ==> Split(s, [c])[i][j] != c
    decreases |s|
  {
    var k := Find(s, [c]);
    if k < 0 {
      forall j | 0 <= j < |s| ensures s[j] != c {
        OccursAtChar(s, c, j);
      }
    } else {
      forall j | 0 <= j < k ensures s[j] != c {
        OccursAtChar(s, c, j);
      }
      SplitPiecesFree(s[k + 1..], c);
    }
  }

  /** A string free of `c` splits into itself alone. */
  lemma SplitFree(s: string, c: char)
    requires forall j :: 0 <= j < |s| ==> s[j] != c
    ensures Split(s, [c]) == [s]
  {
    forall k ensures !OccursAt(s, [c], k) {
      OccursAtChar(s, c, k);
    }
  }

  /** Joining pieces free of `c` with `c` and splitting again gives the pieces back. */
  lemma {:induction false} SplitJoinChar(parts: seq<string>, c: char)
    requires |parts| > 0
    requires forall i, j :: 0 <= i < |parts| && 0 <= j < |parts[i]| ==> parts[i][j] != c
    ensures Split(Join(parts, [c]), [c]) == parts
    decreases |parts|
  {
    SplitFree(parts[0], c);
    if |parts| > 1 {
      SplitJoinChar(parts[1..], c);
      SplitConcatChar(parts[0], c, Join(parts[1..], [c]));
      assert Join(parts, [c]) == parts[0] + [c] + Join(parts[1..], [c]);
    }
  }

  /** Appending one piece to a join adds one separator (none when the list was empty). */
  lemma {:induction false} JoinAppend(xs: seq<string>, x: string, sep: string)
    ensures Join(xs + [x], sep) == if xs == [] then x else Join(xs, sep) + sep + x
    decreases |xs|
  {
    if |xs| > 1 {
      assert (xs + [x])[1..] == xs[1..] + [x];
      JoinAppend(xs[1..], x, sep);
    } else if |xs| == 1 {
      assert (xs + [x])[1..] == [x];
    }
  }

  /** A join of non-empty pieces starts with the first piece. */
  lemma JoinStartsWithFirst(parts: seq<string>, sep: string)
    requires |parts| > 0
    ensures HasPrefix(Join(parts, sep), parts[0])
  {
  }

  /** One occurrence of `sep` already makes the split yield two pieces or more. */
  lemma SplitAtLeastTwo(s: string, sep: string, i: int)
    requires |sep| > 0 && OccursAt(s, sep, i)
    ensures |Split(s, sep)| >= 2
  {
  }

  /** An occurrence survives dropping a prefix that ends before it. */
  lemma OccursAtDrop(s: string, sub: string, d: int, j: int)
    requires OccursAt(s, sub, j) && 0 <= d <= j
    ensures OccursAt(s[d..], sub, j - d)
  {
    assert s[d..][j - d..j - d + |sub|] == s[j..j + |sub|];
  }

  /** A split at the first occurrence `k` yields one piece more than the rest. */
  lemma SplitFirst(s: string, sep: string, k: int)
    requires |sep| > 0 && k == Find(s, sep) && k >= 0
    ensures |Split(s, sep)| == 1 + |Split(s[k + |sep|..], sep)|
  {
  }

  /** Two occurrences of `sep` that do not overlap make the split yield three pieces or more. */
  lemma SplitAtLeastThree(s: string, sep: string, i: int, j: int)
    requires |sep| > 0 && OccursAt(s, sep, i) && OccursAt(s, sep, j) && i + |sep| <= j
    ensures |Split(s, sep)| >= 3
  {
    var k := Find(s, sep);
    assert 0 <= k <= i;
    var t := s[k + |sep|..];
    OccursAtDrop(s, sep, k + |sep|, j);
    SplitAtLeastTwo(t, sep, j - k - |sep|);
    SplitFirst(s, sep, k);
  }
}
