/** internal/parser/heredoc.go: removing heredoc bodies from a shell command before it is
    tokenised. The opener regular expression `<<-?\s*['"]?(\w+)['"]?` and the closing
    expression `(?m)^DELIM$` are written out as scans with the same leftmost-first
    result. A Go slice panic is the `None` result. */
module Heredoc {
  import opened Wrappers
  import opened Strings

  /** RE2 `\w`. */
  predicate IsWordChar(c: char)
  {
    ('0' <= c <= '9') || ('A' <= c <= 'Z') || ('a' <= c <= 'z') || c == '_'
  }

  /** RE2 `\s`: tab, newline, form feed, carriage return and space. */
  predicate IsRegexSpace(c: char)
  {
    c == '\t' || c == '\n' || c == '\U{000C}' || c == '\r' || c == ' '
  }

  predicate IsQuote(c: char)
  {
    c == '\'' || c == '"'
  }

  /** The end of the run of `\s` characters starting at `i`. */
  function SpaceEnd(s: string, i: nat): (j: nat)
    requires i <= |s|
    ensures i <= j <= |s|
    ensures forall k :: i <= k < j ==> IsRegexSpace(s[k])
    ensures j < |s| ==> !IsRegexSpace(s[j])
    decreases |s| - i
  {
    if i < |s| && IsRegexSpace(s[i]) then SpaceEnd(s, i + 1) else i
  }

  /** The end of the run of `\w` characters starting at `i`. */
  function WordEnd(s: string, i: nat): (j: nat)
    requires i <= |s|
    ensures i <= j <= |s|
    ensures forall k :: i <= k < j ==> IsWordChar(s[k])
    ensures j < |s| ==> !IsWordChar(s[j])
    decreases |s| - i
  {
    if i < |s| && IsWordChar(s[i]) then WordEnd(s, i + 1) else i
  }

  /** One match of the opener expression: where it starts, the delimiter group and where
      the whole match ends. */
  datatype Opener = Opener(start: nat, delimStart: nat, delimEnd: nat, end: nat)

  /** The match lies in `s`, starts with `<<` and its delimiter is a run of word
      characters. */
  predicate OpenerIn(s: string, m: Opener)
  {
    m.start + 2 <= m.delimStart < m.delimEnd <= m.end <= |s|
    && s[m.start] == '<' && s[m.start + 1] == '<'
    && (forall k :: m.delimStart <= k < m.delimEnd ==> IsWordChar(s[k]))
  }

  /** The match of the opener expression that starts at `p`, if any. Every optional part
      is taken when present and the delimiter is the longest word run; other choices
      cannot lead to a match, so this is the leftmost-first match at `p`. */
  function OpenerAt(s: string, p: nat): (r: Option<Opener>)
    ensures r.Some? ==> r.value.start == p && OpenerIn(s, r.value)
  {
    if p + 2 <= |s| && s[p] == '<' && s[p + 1] == '<' then
      var a := if p + 2 < |s| && s[p + 2] == '-' then p + 3 else p + 2;
      var b := SpaceEnd(s, a);
      var c := if b < |s| && IsQuote(s[b]) then b + 1 else b;
      var d := WordEnd(s, c);
      if d == c then None
      else Some(Opener(p, c, d, if d < |s| && IsQuote(s[d]) then d + 1 else d))
    else None
  }

  /** The matches are in `s`, in order and do not overlap. */
  predicate Ordered(s: string, ms: seq<Opener>)
  {
    (forall i :: 0 <= i < |ms| ==> OpenerIn(s, ms[i]))
    && (forall i, j :: 0 <= i < j < |ms| ==> ms[i].end <= ms[j].start)
  }

  /** FindAllStringSubmatchIndex from `pos`: the leftmost match, then the matches after
      its end. */
  function Openers(s: string, pos: nat): (ms: seq<Opener>)
    ensures Ordered(s, ms)
    ensures forall i :: 0 <= i < |ms| ==> pos <= ms[i].start
    ensures NoOpenerBetween(s, pos, if |ms| == 0 then |s| else ms[0].start)
    decreases |s| - pos
  {
    if pos >= |s| then []
    else match OpenerAt(s, pos)
      case Some(m) =>
        var rest := Openers(s, m.end);
        OrderedCons(s, m, rest);
        [m] + rest
      case None =>
        var rest := Openers(s, pos + 1);
        NoOpenerBefore(s, pos, if |rest| == 0 then |s| else rest[0].start);
        rest
  }

  /** No match of the opener expression starts in `[lo, hi)`. */
  predicate NoOpenerBetween(s: string, lo: nat, hi: nat)
  {
    forall p :: lo <= p < hi ==> OpenerAt(s, p).None?
  }

  lemma NoOpenerBefore(s: string, lo: nat, hi: nat)
    requires OpenerAt(s, lo).None? && NoOpenerBetween(s, lo + 1, hi)
    ensures NoOpenerBetween(s, lo, hi)
  {
  }

  /** A match in front of ordered matches that start after its end keeps them ordered. */
  lemma OrderedCons(s: string, m: Opener, rest: seq<Opener>)
    requires OpenerIn(s, m) && Ordered(s, rest)
    requires forall i :: 0 <= i < |rest| ==> m.end <= rest[i].start
    ensures Ordered(s, [m] + rest)
  {
    var ms := [m] + rest;
    assert forall i :: 1 <= i < |ms| ==> ms[i] == rest[i - 1];
  }

  /** A closing line for `d` in `text` at `q`: `d` at the start of a line and running to
      the end of that line. */
  predicate ClosesAt(text: string, d: string, q: nat)
  {
    (q == 0 || (q <= |text| && text[q - 1] == '\n'))
    && OccursAt(text, d, q)
    && (q + |d| == |text| || (q + |d| < |text| && text[q + |d|] == '\n'))
  }

  /** FindStringIndex of `(?m)^d$` from `q`: the start of the first closing line. */
  function FirstCloser(text: string, d: string, q: nat): (r: Option<nat>)
    ensures r.Some? ==> q <= r.value && ClosesAt(text, d, r.value)
    ensures r.Some? ==> forall k :: q <= k < r.value ==> !ClosesAt(text, d, k)
    ensures r.None? ==> forall k :: q <= k ==> !ClosesAt(text, d, k)
    decreases |text| - q
  {
    if q + |d| > |text| then None
    else if ClosesAt(text, d, q) then Some(q)
    else FirstCloser(text, d, q + 1)
  }

  /** A stretch `[start, end)` of the command. */
  datatype Span = Span(start: nat, end: nat)

  /** The stretch a terminated heredoc removes: from just after the opener to the end of
      its closing delimiter. `None` when no closing line follows. */
  function Region(s: string, m: Opener): (r: Option<Span>)
    requires OpenerIn(s, m)
    ensures r.Some? ==> m.end <= r.value.start == m.end <= r.value.end <= |s|
  {
    var d := s[m.delimStart..m.delimEnd];
    match FirstCloser(s[m.end..], d, 0)
      case Some(q) => Some(Span(m.end, m.end + q + |d|))
      case None => None
  }

  /** The regions the matches would remove, one entry per match. */
  function Closings(s: string, ms: seq<Opener>): (cs: seq<Option<Span>>)
    requires Ordered(s, ms)
    ensures |cs| == |ms|
    ensures forall i :: 0 <= i < |ms| ==> cs[i] == Region(s, ms[i])
    ensures forall i :: 0 <= i < |cs| && cs[i].Some? ==> cs[i].value.start <= cs[i].value.end <= |s|
    ensures forall i :: 0 <= i < |cs| && cs[i].Some? ==> cs[i].value.start == ms[i].end
  {
    if |ms| == 0 then []
    else
      assert Ordered(s, ms[1..]);
      [Region(s, ms[0])] + Closings(s, ms[1..])
  }

  /** One pass of the loop body over the current `result`; `None` is the slice panic when
      the region ends beyond the current result. */
  function Step(result: string, c: Option<Span>): (r: Option<string>)
    ensures c.None? ==> r == Some(result)
    ensures c.Some? ==> (r.Some? <==> c.value.start <= c.value.end <= |result|)
    ensures r.Some? && c.Some? ==>
      |r.value| == |result| - (c.value.end - c.value.start)
      && r.value[..c.value.start] == result[..c.value.start]
      && r.value[c.value.start..] == result[c.value.end..]
  {
    match c
      case None => Some(result)
      case Some(sp) => if sp.start <= sp.end <= |result| then Some(result[..sp.start] + result[sp.end..]) else None
  }

  /** The loop after it has handled matches `i` to the last, in reverse order. */
  function Process(s: string, cs: seq<Option<Span>>, i: nat): (r: Option<string>)
    requires i <= |cs|
    ensures r.Some? ==> |r.value| <= |s|
    ensures (forall k :: i <= k < |cs| ==> cs[k].None?) ==> r == Some(s)
    decreases |cs| - i
  {
    if i == |cs| then Some(s)
    else match Process(s, cs, i + 1)
      case None => None
      case Some(r) => Step(r, cs[i])
  }

  /** stripHeredocs as written, `None` where it panics. */
  function Stripped(cmd: string): (r: Option<string>)
    ensures Openers(cmd, 0) == [] ==> r == Some(cmd)
    ensures r.Some? ==> |r.value| <= |cmd|
  {
    var ms := Openers(cmd, 0);
    if |ms| == 0 then Some(cmd) else Process(cmd, Closings(cmd, ms), 0)
  }

  lemma {:induction false} ProcessNoneStays(s: string, cs: seq<Option<Span>>, i: nat, k: nat)
    requires i <= k <= |cs| && Process(s, cs, k).None?
    ensures Process(s, cs, i).None?
    decreases k - i
  {
    if i < k {
      ProcessNoneStays(s, cs, i + 1, k);
    }
  }

  /** stripHeredocs: the reverse splice loop over the matches. */
  method StripHeredocs(cmd: string) returns (r: Option<string>)
    ensures r == Stripped(cmd)
  {
    var ms := Openers(cmd, 0);
    if |ms| == 0 {
      return Some(cmd);
    }
    ghost var cs := Closings(cmd, ms);
    assert Stripped(cmd) == Process(cmd, cs, 0);
    var result := cmd;
    var i := |ms| - 1;
    while i >= 0
      invariant -1 <= i < |ms|
      invariant Process(cmd, cs, i + 1) == Some(result)
    {
      var m := ms[i];
      var fullMatchEnd := m.end;
      var delimiter := cmd[m.delimStart..m.delimEnd];
      var remaining := cmd[fullMatchEnd..];
      var closing := FirstCloser(remaining, delimiter, 0);
      ProcessStep(cmd, ms, i, result);
      if closing.Some? {
        var contentEnd := fullMatchEnd + closing.value + |delimiter|;
        if contentEnd > |result| {
          ProcessNoneStays(cmd, cs, 0, i);
          return None;
        }
        result := result[..fullMatchEnd] + result[contentEnd..];
      }
      i := i - 1;
    }
    return Some(result);
  }

  /** The loop body at match `i`, applied to what the later matches left: the region
      cut when a closing line follows, a panic when it ends beyond the current result. */
  lemma ProcessStep(s: string, ms: seq<Opener>, i: nat, result: string)
    requires Ordered(s, ms) && i < |ms| && Process(s, Closings(s, ms), i + 1) == Some(result)
    ensures var m := ms[i];
      var d := s[m.delimStart..m.delimEnd];
      Process(s, Closings(s, ms), i) ==
        match FirstCloser(s[m.end..], d, 0)
          case None => Some(result)
          case Some(q) =>
            if m.end + q + |d| <= |result| then Some(result[..m.end] + result[m.end + q + |d|..]) else None
  {
    var cs := Closings(s, ms);
    assert cs[i] == Region(s, ms[i]);
  }

  /** The terminated regions among `cs`, in order. */
  function Regions(cs: seq<Option<Span>>): (rs: seq<Span>)
    ensures forall k :: 0 <= k < |rs| ==> exists i :: 0 <= i < |cs| && cs[i] == Some(rs[k])
  {
    if |cs| == 0 then []
    else
      var rest := Regions(cs[1..]);
      assert forall k :: 0 <= k < |rest| ==> exists i :: 0 <= i < |cs| && cs[i] == Some(rest[k]) by {
        forall k | 0 <= k < |rest| ensures exists i :: 0 <= i < |cs| && cs[i] == Some(rest[k]) {
          var i :| 0 <= i < |cs[1..]| && cs[1..][i] == Some(rest[k]);
          assert cs[i + 1] == Some(rest[k]);
        }
      }
      match cs[0]
        case Some(sp) => [sp] + rest
        case None => rest
  }

  /** The regions lie in the command and none reaches into the next. */
  predicate Disjoint(s: string, rs: seq<Span>)
  {
    (forall k :: 0 <= k < |rs| ==> rs[k].start <= rs[k].end <= |s|)
    && (forall j, k :: 0 <= j < k < |rs| ==> rs[j].end <= rs[k].start)
  }

  /** The command from `from` on with the regions `rs` cut out. */
  function Delete(s: string, rs: seq<Span>, from: nat): string
    requires Disjoint(s, rs) && from <= |s| && (|rs| == 0 || from <= rs[0].start)
  {
    if |rs| == 0 then s[from..]
    else s[from..rs[0].start] + Delete(s, rs[1..], rs[0].end)
  }

  lemma DisjointTail(s: string, rs: seq<Span>)
    requires Disjoint(s, rs) && |rs| > 0
    ensures Disjoint(s, rs[1..])
  {
    forall j, k | 0 <= j < k < |rs| - 1 ensures rs[1..][j].end <= rs[1..][k].start {
      assert rs[1..][j] == rs[j + 1] && rs[1..][k] == rs[k + 1];
    }
  }

  /** Cutting from the start equals keeping the prefix up to `from` and cutting after it. */
  lemma {:induction false} DeleteSplit(s: string, rs: seq<Span>, from: nat)
    requires Disjoint(s, rs) && from <= |s| && (|rs| == 0 || from <= rs[0].start)
    ensures Delete(s, rs, 0) == s[..from] + Delete(s, rs, from)
  {
    if |rs| == 0 {
      assert s == s[..from] + s[from..];
    } else {
      DisjointTail(s, rs);
      var a := rs[0].start;
      var tail := Delete(s, rs[1..], rs[0].end);
      assert Delete(s, rs, 0) == s[0..a] + tail;
      assert Delete(s, rs, from) == s[from..a] + tail;
      assert s[0..a] == s[..from] + s[from..a];
    }
  }

  lemma {:induction false} DeleteNotLonger(s: string, rs: seq<Span>, from: nat)
    requires Disjoint(s, rs) && from <= |s| && (|rs| == 0 || from <= rs[0].start)
    ensures |Delete(s, rs, from)| <= |s| - from
    decreases |rs|
  {
    if |rs| > 0 {
      DisjointTail(s, rs);
      DeleteNotLonger(s, rs[1..], rs[0].end);
    }
  }

  /** The regions of the matches from `i` on. */
  lemma RegionsTail(cs: seq<Option<Span>>, i: nat)
    requires i < |cs|
    ensures Regions(cs[i..]) == (match cs[i]
      case Some(sp) => [sp] + Regions(cs[i + 1..])
      case None => Regions(cs[i + 1..]))
  {
    assert cs[i..][1..] == cs[i + 1..];
  }

  /** With disjoint regions, the loop from match `i` on has cut exactly the regions of
      those matches. */
  lemma {:induction false} ProcessDeletes(s: string, cs: seq<Option<Span>>, i: nat)
    requires i <= |cs|
    requires Disjoint(s, Regions(cs[i..]))
    ensures Process(s, cs, i) == Some(Delete(s, Regions(cs[i..]), 0))
    decreases |cs| - i
  {
    if i == |cs| {
      assert cs[i..] == [];
    } else {
      RegionsTail(cs, i);
      var rest := Regions(cs[i + 1..]);
      if cs[i].None? {
        assert Regions(cs[i..]) == rest;
        ProcessDeletes(s, cs, i + 1);
      } else {
        var sp := cs[i].value;
        assert Regions(cs[i..]) == [sp] + rest;
        CutFirst(s, sp, rest);
        ProcessDeletes(s, cs, i + 1);
      }
    }
  }

  /** Cutting the first of disjoint regions from the text with the others already cut. */
  lemma CutFirst(s: string, sp: Span, rest: seq<Span>)
    requires Disjoint(s, [sp] + rest)
    ensures Disjoint(s, rest)
    ensures Step(Delete(s, rest, 0), Some(sp)) == Some(Delete(s, [sp] + rest, 0))
  {
    DisjointTail(s, [sp] + rest);
    assert ([sp] + rest)[1..] == rest;
    assert ([sp] + rest)[0] == sp;
    if |rest| > 0 {
      assert ([sp] + rest)[1] == rest[0];
    }
    DeleteSplit(s, rest, sp.end);
    var r := Delete(s, rest, 0);
    assert r == s[..sp.end] + Delete(s, rest, sp.end);
    assert r[..sp.start] == s[..sp.start];
    assert r[sp.end..] == Delete(s, rest, sp.end);
    assert Delete(s, [sp] + rest, 0) == s[0..sp.start] + Delete(s, rest, sp.end);
  }

  /** The regions of the terminated heredocs of a command. */
  function CommandRegions(cmd: string): seq<Span>
  {
    Regions(Closings(cmd, Openers(cmd, 0)))
  }

  /** For disjoint regions the output is the command with exactly those regions cut out,
      so it is never longer than the input. */
  lemma StrippedDeletesRegions(cmd: string)
    requires Disjoint(cmd, CommandRegions(cmd))
    ensures Stripped(cmd) == Some(Delete(cmd, CommandRegions(cmd), 0))
    ensures |Delete(cmd, CommandRegions(cmd), 0)| <= |cmd|
  {
    var cs := Closings(cmd, Openers(cmd, 0));
    assert cs[0..] == cs;
    ProcessDeletes(cmd, cs, 0);
    DeleteNotLonger(cmd, CommandRegions(cmd), 0);
  }

  /** A command without `<<` is returned unchanged. */
  lemma NoOpenerUnchanged(cmd: string)
    requires !Contains(cmd, "<<")
    ensures Stripped(cmd) == Some(cmd)
  {
    var ms := Openers(cmd, 0);
    if |ms| > 0 {
      var m := ms[0];
      assert cmd[m.start..m.start + 2] == "<<";
      ContainsAt(cmd, "<<", m.start);
    }
  }

  /** Openers without a closing line leave the command untouched. */
  lemma NoClosingUnchanged(cmd: string)
    requires forall i :: 0 <= i < |Openers(cmd, 0)| ==> Region(cmd, Openers(cmd, 0)[i]).None?
    ensures Stripped(cmd) == Some(cmd)
  {
    var ms := Openers(cmd, 0);
    assert forall k :: 0 <= k < |ms| ==> Closings(cmd, ms)[k].None?;
  }

  /** One terminated heredoc: the opener text is kept and everything from just after it
      to the end of the closing delimiter is removed. */
  lemma SingleHeredoc(cmd: string)
    requires |Openers(cmd, 0)| == 1 && Region(cmd, Openers(cmd, 0)[0]).Some?
    ensures var m := Openers(cmd, 0)[0];
      Stripped(cmd) == Some(cmd[..m.end] + cmd[Region(cmd, m).value.end..])
  {
    var ms := Openers(cmd, 0);
    var cs := Closings(cmd, ms);
    assert Process(cmd, cs, 1) == Some(cmd);
  }

  /** The corrected selection: walking forward, a region is kept only when it starts at or
      after the end of the last kept one, so a heredoc opener written inside another
      heredoc's body is ignored. */
  function Kept(rs: seq<Span>, last: nat): (ks: seq<Span>)
    ensures forall k :: 0 <= k < |ks| ==> last <= ks[k].start
    ensures forall k :: 0 <= k < |ks| ==> ks[k] in rs
    ensures forall j, k :: 0 <= j < k < |ks| ==> ks[j].end <= ks[k].start
  {
    if |rs| == 0 then []
    else if rs[0].start >= last && rs[0].start <= rs[0].end then
      var rest := Kept(rs[1..], rs[0].end);
      assert forall k :: 0 <= k < |rest| ==> rest[k] in rs;
      [rs[0]] + rest
    else
      var rest := Kept(rs[1..], last);
      assert forall k :: 0 <= k < |rest| ==> rest[k] in rs;
      rest
  }

  /** Disjoint regions are all kept. */
  lemma {:induction false} KeptDisjoint(rs: seq<Span>, last: nat)
    requires forall k :: 0 <= k < |rs| ==> rs[k].start <= rs[k].end
    requires forall j, k :: 0 <= j < k < |rs| ==> rs[j].end <= rs[k].start
    requires |rs| == 0 || last <= rs[0].start
    ensures Kept(rs, last) == rs
    decreases |rs|
  {
    if |rs| > 0 {
      KeptDisjoint(rs[1..], rs[0].end);
    }
  }

  /** stripHeredocs as evidently intended: the command with the kept regions cut out. It
      never fails. */
  function StrippedCorrected(cmd: string): (r: string)
    ensures |r| <= |cmd|
  {
    var ks := Kept(CommandRegions(cmd), 0);
    KeptInCommand(cmd);
    DeleteNotLonger(cmd, ks, 0);
    Delete(cmd, ks, 0)
  }

  /** Every region of a command lies in it. */
  lemma RegionsInCommand(cmd: string)
    ensures forall sp :: sp in CommandRegions(cmd) ==> sp.start <= sp.end <= |cmd|
  {
    var cs := Closings(cmd, Openers(cmd, 0));
    var rs := Regions(cs);
    forall sp | sp in rs
      ensures sp.start <= sp.end <= |cmd|
    {
      var k :| 0 <= k < |rs| && rs[k] == sp;
      var i :| 0 <= i < |cs| && cs[i] == Some(rs[k]);
    }
  }

  /** The kept regions are disjoint and lie in the command. */
  lemma KeptInCommand(cmd: string)
    ensures Disjoint(cmd, Kept(CommandRegions(cmd), 0))
  {
    RegionsInCommand(cmd);
  }

  /** Where the source does not panic because the regions are disjoint, the corrected
      version gives the same output. */
  lemma CorrectedAgrees(cmd: string)
    requires Disjoint(cmd, CommandRegions(cmd))
    ensures Stripped(cmd) == Some(StrippedCorrected(cmd))
  {
    StrippedDeletesRegions(cmd);
    KeptDisjoint(CommandRegions(cmd), 0);
  }

  /** `<<A<<B`, a line `A` and a line `B`: two heredocs opened on one line, as in
      `cat <<A <<B`. */
  const TwoOnOneLine: string := "<<A<<B\nA\nB"

  lemma TwoOnOneLineNoLaterOpener()
    ensures Openers(TwoOnOneLine, 6) == []
  {
    var cmd := TwoOnOneLine;
    assert Openers(cmd, 9) == [];
    assert Openers(cmd, 8) == [];
    assert Openers(cmd, 7) == [];
  }

  lemma TwoOnOneLineFirstOpener()
    ensures OpenerAt(TwoOnOneLine, 0) == Some(Opener(0, 2, 3, 3))
  {
    var cmd := TwoOnOneLine;
    assert WordEnd(cmd, 3) == 3 && WordEnd(cmd, 2) == 3;
  }

  lemma TwoOnOneLineSecondOpener()
    ensures OpenerAt(TwoOnOneLine, 3) == Some(Opener(3, 5, 6, 6))
  {
    var cmd := TwoOnOneLine;
    assert WordEnd(cmd, 6) == 6 && WordEnd(cmd, 5) == 6;
  }

  lemma TwoOnOneLineOpeners()
    ensures Openers(TwoOnOneLine, 0) == [Opener(0, 2, 3, 3), Opener(3, 5, 6, 6)]
  {
    var cmd := TwoOnOneLine;
    assert Openers(cmd, 3) == [Opener(3, 5, 6, 6)] by {
      TwoOnOneLineSecondOpener();
      TwoOnOneLineNoLaterOpener();
    }
    TwoOnOneLineFirstOpener();
  }

  lemma TwoOnOneLineFirstRegion()
    ensures OpenerIn(TwoOnOneLine, Opener(0, 2, 3, 3))
    ensures Region(TwoOnOneLine, Opener(0, 2, 3, 3)) == Some(Span(3, 8))
  {
    var cmd := TwoOnOneLine;
    var t := cmd[3..];
    assert t == "<<B\nA\nB";
    assert cmd[2..3] == "A";
    assert ClosesAt(t, "A", 4) by {
      assert t[4..5] == "A";
    }
    assert !ClosesAt(t, "A", 0) by {
      assert t[0..1][0] == '<' && "A"[0] == 'A';
    }
    assert FirstCloser(t, "A", 0) == Some(4);
  }

  lemma TwoOnOneLineSecondRegion()
    ensures OpenerIn(TwoOnOneLine, Opener(3, 5, 6, 6))
    ensures Region(TwoOnOneLine, Opener(3, 5, 6, 6)) == Some(Span(6, 10))
  {
    var cmd := TwoOnOneLine;
    var t := cmd[6..];
    assert t == "\nA\nB";
    assert cmd[5..6] == "B";
    assert ClosesAt(t, "B", 3) by {
      assert t[3..4] == "B";
    }
    assert !ClosesAt(t, "B", 1) by {
      assert t[1..2][0] == 'A' && "B"[0] == 'B';
    }
    assert !ClosesAt(t, "B", 0) by {
      assert t[0..1] != "B";
    }
    assert FirstCloser(t, "B", 0) == Some(3);
  }

  lemma TwoOnOneLineClosings()
    ensures Closings(TwoOnOneLine, Openers(TwoOnOneLine, 0)) == [Some(Span(3, 8)), Some(Span(6, 10))]
  {
    TwoOnOneLineOpeners();
    TwoOnOneLineFirstRegion();
    TwoOnOneLineSecondRegion();
  }

  /** The source panics on two heredocs opened on one line: the reverse loop first cuts
      the second body, and the first region then ends beyond the shortened result. */
  lemma TwoOnOneLinePanics()
    ensures Stripped(TwoOnOneLine) == None
  {
    var cmd := TwoOnOneLine;
    TwoOnOneLineOpeners();
    TwoOnOneLineClosings();
    var cs := Closings(cmd, Openers(cmd, 0));
    assert Process(cmd, cs, 2) == Some(cmd);
    assert Process(cmd, cs, 1) == Some(cmd[..6] + cmd[10..]);
    assert |cmd[..6] + cmd[10..]| == 6;
    assert Process(cmd, cs, 0) == None;
  }

  lemma TwoOnOneLineRegions()
    ensures CommandRegions(TwoOnOneLine) == [Span(3, 8), Span(6, 10)]
  {
    TwoOnOneLineClosings();
    RegionsOfTwo(Span(3, 8), Span(6, 10));
  }

  lemma RegionsOfTwo(a: Span, b: Span)
    ensures Regions([Some(a), Some(b)]) == [a, b]
  {
    var cs: seq<Option<Span>> := [Some(a), Some(b)];
    assert cs[1..] == [Some(b)] && cs[1..][1..] == [];
    assert Regions(cs[1..]) == [b];
  }

  lemma TwoOnOneLineKept()
    ensures Kept([Span(3, 8), Span(6, 10)], 0) == [Span(3, 8)]
  {
    var rs := [Span(3, 8), Span(6, 10)];
    assert rs[1..] == [Span(6, 10)] && rs[1..][1..] == [];
    assert Kept(rs[1..], 8) == [];
  }

  lemma DeleteOne(s: string, a: nat, b: nat)
    requires a <= b <= |s|
    ensures Delete(s, [Span(a, b)], 0) == s[..a] + s[b..]
  {
    assert [Span(a, b)][1..] == [];
  }

  /** The corrected version keeps only the outer heredoc's region, so the inner opener
      `<<B`, which lies inside it, is cut out with the body. */
  lemma TwoOnOneLineCorrected()
    ensures StrippedCorrected(TwoOnOneLine) == "<<A\nB"
  {
    var cmd := TwoOnOneLine;
    TwoOnOneLineRegions();
    TwoOnOneLineKept();
    DeleteOne(cmd, 3, 8);
    TwoOnOneLineCut();
  }

  lemma TwoOnOneLineCut()
    ensures TwoOnOneLine[..3] + TwoOnOneLine[8..] == "<<A\nB"
  {
  }
}
