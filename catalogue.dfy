/**
 * `parseRawData`: the catalogue outline is split into lines; each trimmed,
 * non-blank line is a section header (`I. ...`), a sub-pattern header
 * (`Pattern N: ...`) or, once a sub-pattern is current, a comma-separated
 * list of `N. Name` problems. Both copies of the parser (the React service
 * and the older script) have the same logic.
 */
module Catalogue {
  import opened Wrappers
  import Text
  import Slug

  predicate IsLineTerminator(c: char)
  {
    c == '\n' || c == '\r' || c == '\U{2028}' || c == '\U{2029}'
  }

  /** The characters `\s` matches and `trim()` removes. */
  predicate IsWhiteSpace(c: char)
  {
    c == '\t' || c == '\U{000B}' || c == '\U{000C}' || c == ' ' || c == '\U{00A0}' || c == '\U{1680}' ||
    ('\U{2000}' <= c <= '\U{200A}') || c == '\U{202F}' || c == '\U{205F}' || c == '\U{3000}' ||
    c == '\U{FEFF}' || IsLineTerminator(c)
  }

  predicate IsRomanLetter(c: char) { c == 'I' || c == 'V' || c == 'X' }

  predicate NoTerminator(s: string)
  {
    forall i :: 0 <= i < |s| ==> !IsLineTerminator(s[i])
  }

  // ----- trim() and split() -----

  function TrimStart(s: string): string
  {
    if s != [] && IsWhiteSpace(s[0]) then TrimStart(s[1..]) else s
  }

  function TrimEnd(s: string): string
  {
    if s != [] && IsWhiteSpace(s[|s| - 1]) then TrimEnd(s[..|s| - 1]) else s
  }

  function Trim(s: string): string
  {
    TrimEnd(TrimStart(s))
  }

  lemma {:induction false} TrimStartShape(s: string) returns (i: nat)
    ensures i <= |s| && TrimStart(s) == s[i..]
    ensures forall k :: 0 <= k < i ==> IsWhiteSpace(s[k])
    ensures i < |s| ==> !IsWhiteSpace(s[i])
  {
    if s != [] && IsWhiteSpace(s[0]) {
      var j := TrimStartShape(s[1..]);
      i := j + 1;
      assert s[1..][j..] == s[i..];
    } else {
      i := 0;
    }
  }

  lemma {:induction false} TrimEndShape(s: string) returns (j: nat)
    ensures j <= |s| && TrimEnd(s) == s[..j]
    ensures forall k :: j <= k < |s| ==> IsWhiteSpace(s[k])
    ensures j > 0 ==> !IsWhiteSpace(s[j - 1])
  {
    if s != [] && IsWhiteSpace(s[|s| - 1]) {
      j := TrimEndShape(s[..|s| - 1]);
      assert s[..|s| - 1][..j] == s[..j];
    } else {
      j := |s|;
    }
  }

  /**
   * Trimming keeps a middle slice and drops only white space around it; what
   * it keeps is empty or starts and ends with a character that is not white.
   */
  lemma TrimShape(s: string) returns (i: nat, j: nat)
    ensures i <= j <= |s| && Trim(s) == s[i..j]
    ensures forall k :: 0 <= k < i ==> IsWhiteSpace(s[k])
    ensures forall k :: j <= k < |s| ==> IsWhiteSpace(s[k])
    ensures i < j ==> !IsWhiteSpace(s[i]) && !IsWhiteSpace(s[j - 1])
  {
    i := TrimStartShape(s);
    var t := s[i..];
    var n := TrimEndShape(t);
    j := i + n;
    assert t[..n] == s[i..j];
    forall k | j <= k < |s| ensures IsWhiteSpace(s[k]) {
      assert s[k] == t[k - i];
    }
    if i < j {
      assert s[i] == t[0] && s[j - 1] == t[n - 1];
    }
  }

  /** `s.split(sep)` for a one-character separator. */
  function Split(s: string, sep: char): (r: seq<string>)
    ensures |r| >= 1
  {
    if s == [] then [""]
    else
      var rest := Split(s[1..], sep);
      if s[0] == sep then [""] + rest else [[s[0]] + rest[0]] + rest[1..]
  }

  /** Joining the pieces with the separator gives the string back. */
  lemma {:induction false} SplitJoin(s: string, sep: char)
    ensures Text.JoinStrings(Split(s, sep), [sep]) == s
  {
    if s != [] {
      SplitJoin(s[1..], sep);
      if s[0] == sep {
        SplitJoinAtSep(s, sep);
      } else {
        SplitJoinInPiece(s, sep);
      }
    }
  }

  /** The step of `SplitJoin` for a string that starts with the separator. */
  lemma SplitJoinAtSep(s: string, sep: char)
    requires s != [] && s[0] == sep
    requires Text.JoinStrings(Split(s[1..], sep), [sep]) == s[1..]
    ensures Text.JoinStrings(Split(s, sep), [sep]) == s
  {
    var rest := Split(s[1..], sep);
    assert Split(s, sep) == [""] + rest;
    Text.JoinCons("", rest, [sep]);
    assert s == [sep] + s[1..];
  }

  /** The step of `SplitJoin` for a string that starts inside a piece. */
  lemma SplitJoinInPiece(s: string, sep: char)
    requires s != [] && s[0] != sep
    requires Text.JoinStrings(Split(s[1..], sep), [sep]) == s[1..]
    ensures Text.JoinStrings(Split(s, sep), [sep]) == s
  {
    var rest := Split(s[1..], sep);
    var head := [s[0]] + rest[0];
    assert Split(s, sep) == [head] + rest[1..];
    assert s == [s[0]] + s[1..];
    if |rest| > 1 {
      JoinInPiece(s[0], rest, [sep]);
    } else {
      assert rest == [rest[0]];
      assert Split(s, sep) == [head];
    }
  }

  /** Growing the first piece by one character grows the joined string the same way. */
  lemma JoinInPiece(c: char, rest: seq<string>, sep: string)
    requires |rest| > 1
    ensures Text.JoinStrings([[c] + rest[0]] + rest[1..], sep) == [c] + Text.JoinStrings(rest, sep)
  {
    var tail := Text.JoinStrings(rest[1..], sep);
    assert rest == [rest[0]] + rest[1..];
    Text.JoinCons(rest[0], rest[1..], sep);
    Text.JoinCons([c] + rest[0], rest[1..], sep);
    assert [c] + rest[0] + sep + tail == [c] + (rest[0] + sep + tail);
  }

  /** No piece holds the separator. */
  lemma {:induction false} SplitPieces(s: string, sep: char)
    ensures forall k, i :: 0 <= k < |Split(s, sep)| && 0 <= i < |Split(s, sep)[k]| ==> Split(s, sep)[k][i] != sep
  {
    if s != [] {
      var rest := Split(s[1..], sep);
      SplitPieces(s[1..], sep);
      var r := Split(s, sep);
      if s[0] != sep {
        forall k, i | 0 <= k < |r| && 0 <= i < |r[k]| ensures r[k][i] != sep {
          if k == 0 && i > 0 {
            assert r[0][i] == rest[0][i - 1];
          } else if k > 0 {
            assert r[k] == rest[k];
          }
        }
      }
    }
  }

  // ----- the three line patterns -----

  /** The length of the longest prefix whose characters all satisfy `f`. */
  function PrefixLen(s: string, f: char -> bool): (n: nat)
    ensures n <= |s|
  {
    if s == [] || !f(s[0]) then 0 else 1 + PrefixLen(s[1..], f)
  }

  lemma {:induction false} PrefixLenShape(s: string, f: char -> bool)
    ensures forall k :: 0 <= k < PrefixLen(s, f) ==> f(s[k])
    ensures PrefixLen(s, f) < |s| ==> !f(s[PrefixLen(s, f)])
  {
    if s != [] && f(s[0]) {
      PrefixLenShape(s[1..], f);
    }
  }

  /** The longest prefix is exactly a run followed by a character outside it. */
  lemma {:induction false} PrefixLenOf(w: string, t: string, f: char -> bool)
    requires forall k :: 0 <= k < |w| ==> f(w[k])
    requires t == [] || !f(t[0])
    ensures PrefixLen(w + t, f) == |w|
    decreases |w|
  {
    if w == [] {
      assert w + t == t;
    } else {
      assert (w + t)[1..] == w[1..] + t;
      PrefixLenOf(w[1..], t, f);
    }
  }

  /** `\s+.+` from position p: white space, then a character that is not a line terminator. */
  predicate WhiteThenText(s: string, p: nat)
    decreases |s| - p
  {
    p + 1 < |s| && IsWhiteSpace(s[p]) && (!IsLineTerminator(s[p + 1]) || WhiteThenText(s, p + 1))
  }

  /** `/^[IVX]+\.\s+.+/`: a section header. */
  predicate IsHeader(line: string)
  {
    var n := PrefixLen(line, IsRomanLetter);
    0 < n < |line| && line[n] == '.' && WhiteThenText(line, n + 1)
  }

  /** `/^Pattern\s+\d+:/`: a sub-pattern header. */
  predicate IsSubHeader(line: string)
  {
    |line| >= 7 && line[..7] == "Pattern" &&
    var a := 7 + PrefixLen(line[7..], IsWhiteSpace);
    var b := a + PrefixLen(line[a..], Text.IsDigit);
    7 < a < b < |line| && line[b] == ':'
  }

  datatype Problem = Problem(id: string, name: string, url: string)

  const ProblemsUrl: string := "https://leetcode.com/problems/"

  /** The record made for a problem name. */
  function MakeProblem(id: string, name: string): Problem
  {
    Problem(id, name, ProblemsUrl + Slug.NameToUrlSlug(name) + "/")
  }

  /** `problemString.trim().match(/^(\d+)\.\s+(.+)$/)`, made into a problem record. */
  function MatchProblem(piece: string): Option<Problem>
  {
    var c := Captures(Trim(piece));
    if c.Some? then Some(MakeProblem(c.value.0, c.value.1)) else None
  }

  /** The two groups the pattern captures in an already trimmed piece `t`: the id and the name. */
  function Captures(t: string): Option<(string, string)>
  {
    var d := PrefixLen(t, Text.IsDigit);
    if 0 < d < |t| && t[d] == '.' then
      var w := PrefixLen(t[d + 1..], IsWhiteSpace);
      var name := t[d + 1 + w..];
      if w > 0 && name != [] && NoTerminator(name) then Some((t[..d], name)) else None
    else None
  }

  predicate IsDigits(s: string)
  {
    |s| > 0 && forall i :: 0 <= i < |s| ==> Text.IsDigit(s[i])
  }

  predicate IsGap(s: string)
  {
    |s| > 0 && forall i :: 0 <= i < |s| ==> IsWhiteSpace(s[i])
  }

  /** What `(.+)$` captures after the greedy `\s+`: text that starts with a non-white character. */
  predicate IsName(s: string)
  {
    |s| > 0 && !IsWhiteSpace(s[0]) && NoTerminator(s)
  }

  /** The id is digits and the name starts with a character that is not white space. */
  lemma CapturesFields(t: string)
    ensures var c := Captures(t); c.Some? ==> IsDigits(c.value.0) && IsName(c.value.1)
  {
    var d := PrefixLen(t, Text.IsDigit);
    PrefixLenShape(t, Text.IsDigit);
    if 0 < d < |t| && t[d] == '.' {
      var u := t[d + 1..];
      var w := PrefixLen(u, IsWhiteSpace);
      PrefixLenShape(u, IsWhiteSpace);
      if w > 0 && w < |u| {
        assert u[w..][0] == u[w];
      }
    }
  }

  /** A match splits the trimmed piece into the id, ".", white space `gap`, and the name. */
  lemma CapturesSplit(t: string) returns (gap: string)
    ensures var c := Captures(t); c.Some? ==> t == c.value.0 + "." + gap + c.value.1 && IsGap(gap)
  {
    var d := PrefixLen(t, Text.IsDigit);
    gap := "";
    if 0 < d < |t| && t[d] == '.' {
      var u := t[d + 1..];
      var w := PrefixLen(u, IsWhiteSpace);
      var name := u[w..];
      if w > 0 && name != [] && NoTerminator(name) {
        gap := u[..w];
        LeadingGap(u);
        CutAround(t, d, w);
      }
    }
  }

  /** The leading white space of a string, when there is some, is a gap. */
  lemma LeadingGap(u: string)
    requires PrefixLen(u, IsWhiteSpace) > 0
    ensures IsGap(u[..PrefixLen(u, IsWhiteSpace)])
  {
    PrefixLenShape(u, IsWhiteSpace);
  }

  /** Cutting a string at a "." and again `w` characters later. */
  lemma CutAround(t: string, d: nat, w: nat)
    requires d < |t| && t[d] == '.' && w <= |t| - d - 1
    ensures t == t[..d] + "." + t[d + 1..][..w] + t[d + 1..][w..]
  {
    var u := t[d + 1..];
    assert u == u[..w] + u[w..];
    assert t == t[..d] + [t[d]] + u;
  }

  /** Conversely every such split of a trimmed piece is what the pattern captures. */
  lemma CapturesComplete(t: string, id: string, gap: string, name: string)
    requires t == id + "." + gap + name
    requires IsDigits(id) && IsGap(gap) && IsName(name)
    ensures Captures(t) == Some((id, name))
  {
    assert t == id + ("." + gap + name);
    PrefixLenOf(id, "." + gap + name, Text.IsDigit);
    var d := |id|;
    assert t[d] == '.' && t[..d] == id;
    var u := t[d + 1..];
    assert u == gap + name;
    PrefixLenOf(gap, name, IsWhiteSpace);
    assert u[|gap|..] == name;
  }

  // ----- the outline -----

  datatype SubPattern = SubPattern(id: string, name: string, problems: seq<Problem>)

  datatype Pattern = Pattern(id: string, name: string, subPatterns: seq<SubPattern>)

  /**
   * Where problem lines go: nowhere (`currentSubPattern` is null), into the
   * last sub-pattern of the last pattern, or into a sub-pattern that was made
   * while no pattern was open and is attached to nothing.
   */
  datatype Current = NoSub | Attached | Detached

  datatype State = State(patterns: seq<Pattern>, current: Current)

  predicate Valid(st: State)
  {
    st.current == Attached ==> st.patterns != [] && st.patterns[|st.patterns| - 1].subPatterns != []
  }

  /** The problems of a line's comma pieces, in order; pieces that do not match are dropped. */
  function Problems(pieces: seq<string>): seq<Problem>
  {
    if pieces == [] then []
    else
      var m := MatchProblem(pieces[|pieces| - 1]);
      Problems(pieces[..|pieces| - 1]) + (if m.Some? then [m.value] else [])
  }

  /** `currentPattern.subPatterns.push(sub)`. */
  function AddSub(ps: seq<Pattern>, sub: SubPattern): seq<Pattern>
    requires ps != []
  {
    var last := ps[|ps| - 1];
    ps[..|ps| - 1] + [Pattern(last.id, last.name, last.subPatterns + [sub])]
  }

  /** Pushing problems into the current sub-pattern, which is the last one of the last pattern. */
  function AddProblems(ps: seq<Pattern>, found: seq<Problem>): seq<Pattern>
    requires ps != [] && ps[|ps| - 1].subPatterns != []
  {
    var last := ps[|ps| - 1];
    var subs := last.subPatterns;
    var sub := subs[|subs| - 1];
    ps[..|ps| - 1] + [Pattern(last.id, last.name, subs[..|subs| - 1] + [SubPattern(sub.id, sub.name, sub.problems + found)])]
  }

  /** One line of the `forEach`. */
  function Step(st: State, raw: string): (r: State)
    requires Valid(st)
    ensures Valid(r)
  {
    var line := Trim(raw);
    if line == "" then st
    else if IsHeader(line) then State(st.patterns + [Pattern(Slug.GenerateId(line), line, [])], NoSub)
    else if IsSubHeader(line) then
      if st.patterns == [] then State(st.patterns, Detached)
      else State(AddSub(st.patterns, SubPattern(Slug.GenerateId(line), line, [])), Attached)
    else if st.current == NoSub || st.current == Detached then st
    else State(AddProblems(st.patterns, Problems(Split(line, ','))), Attached)
  }

  /** The state after the given lines, from no patterns and no current sub-pattern. */
  function Run(lines: seq<string>): (r: State)
    ensures Valid(r)
  {
    if lines == [] then State([], NoSub) else Step(Run(lines[..|lines| - 1]), lines[|lines| - 1])
  }

  /** `parseRawData`: a value that is not a string makes `split` throw, and the result is `null`. */
  function ParseRawData(rawData: Option<string>): Option<seq<Pattern>>
  {
    if rawData.None? then None else Some(Run(Split(rawData.value, '\n')).patterns)
  }

  /** The inner `forEach` over the comma pieces of a problem line. */
  method CollectProblems(pieces: seq<string>) returns (found: seq<Problem>)
    ensures found == Problems(pieces)
  {
    found := [];
    for k := 0 to |pieces|
      invariant found == Problems(pieces[..k])
    {
      assert pieces[..k + 1][..k] == pieces[..k];
      var m := MatchProblem(pieces[k]);
      if m.Some? {
        found := found + [m.value];
      }
    }
    assert pieces[..|pieces|] == pieces;
  }

  method Parse(rawData: Option<string>) returns (r: Option<seq<Pattern>>)
    ensures r == ParseRawData(rawData)
  {
    if rawData.None? {
      return None;
    }
    var lines := Split(rawData.value, '\n');
    var patterns: seq<Pattern> := [];
    var current := NoSub;
    for i := 0 to |lines|
      invariant State(patterns, current) == Run(lines[..i])
    {
      assert lines[..i + 1][..i] == lines[..i];
      var line := Trim(lines[i]);
      if line == "" {
        continue;
      }
      if IsHeader(line) {
        patterns := patterns + [Pattern(Slug.GenerateId(line), line, [])];
        current := NoSub;
      } else if IsSubHeader(line) {
        if patterns != [] {
          patterns := AddSub(patterns, SubPattern(Slug.GenerateId(line), line, []));
          current := Attached;
        } else {
          current := Detached;
        }
      } else if current != NoSub {
        var found := CollectProblems(Split(line, ','));
        if current == Attached {
          patterns := AddProblems(patterns, found);
        }
      }
    }
    assert lines[..|lines|] == lines;
    r := Some(patterns);
  }

  // ----- properties of the outline -----

  /** A problem record as a match makes it. */
  predicate GoodProblem(p: Problem)
  {
    IsDigits(p.id) && IsName(p.name) && p == MakeProblem(p.id, p.name)
  }

  predicate GoodSub(sub: SubPattern)
  {
    IsSubHeader(sub.name) && sub.id == Slug.GenerateId(sub.name) &&
    AllGood(sub.problems)
  }

  predicate GoodPattern(p: Pattern)
  {
    IsHeader(p.name) && p.id == Slug.GenerateId(p.name) &&
    forall k :: 0 <= k < |p.subPatterns| ==> GoodSub(p.subPatterns[k])
  }

  /**
   * Every pattern is named by a header line, every sub-pattern by a
   * sub-header line, each with the slug of its name as id, and every
   * problem has a digit id, a name and the name's problem page.
   */
  predicate WellFormed(ps: seq<Pattern>)
  {
    forall i :: 0 <= i < |ps| ==> GoodPattern(ps[i])
  }

  lemma {:induction false} ProblemsGood(pieces: seq<string>)
    ensures AllGood(Problems(pieces))
  {
    if pieces != [] {
      var m := MatchProblem(pieces[|pieces| - 1]);
      ProblemsGood(pieces[..|pieces| - 1]);
      CapturesFields(Trim(pieces[|pieces| - 1]));
      AllGoodAppend(Problems(pieces[..|pieces| - 1]), if m.Some? then [m.value] else []);
    }
  }

  /** Every problem comes from a matching piece of the line. */
  lemma {:induction false} ProblemsSound(pieces: seq<string>)
    ensures forall q :: q in Problems(pieces) ==> exists k :: 0 <= k < |pieces| && MatchProblem(pieces[k]) == Some(q)
  {
    if pieces != [] {
      var init := pieces[..|pieces| - 1];
      ProblemsSound(init);
      forall q | q in Problems(pieces) ensures exists k :: 0 <= k < |pieces| && MatchProblem(pieces[k]) == Some(q) {
        if q in Problems(init) {
          var k :| 0 <= k < |init| && MatchProblem(init[k]) == Some(q);
          assert pieces[k] == init[k];
        } else {
          assert MatchProblem(pieces[|pieces| - 1]) == Some(q);
        }
      }
    }
  }

  /** Every matching piece gives a problem. */
  lemma {:induction false} ProblemsComplete(pieces: seq<string>, k: nat)
    requires k < |pieces| && MatchProblem(pieces[k]).Some?
    ensures MatchProblem(pieces[k]).value in Problems(pieces)
  {
    var init := pieces[..|pieces| - 1];
    if k < |pieces| - 1 {
      assert init[k] == pieces[k];
      ProblemsComplete(init, k);
    }
  }

  lemma AppendGood(ps: seq<Pattern>, p: Pattern)
    requires WellFormed(ps) && GoodPattern(p)
    ensures WellFormed(ps + [p])
  {
    var r := ps + [p];
    assert forall i :: 0 <= i < |ps| ==> r[i] == ps[i];
  }

  lemma AddSubGood(ps: seq<Pattern>, sub: SubPattern)
    requires ps != [] && WellFormed(ps) && GoodSub(sub)
    ensures WellFormed(AddSub(ps, sub))
  {
    var last := ps[|ps| - 1];
    assert GoodPattern(last);
    var subs := last.subPatterns + [sub];
    assert forall k :: 0 <= k < |last.subPatterns| ==> subs[k] == last.subPatterns[k];
    AppendGood(ps[..|ps| - 1], Pattern(last.id, last.name, subs));
  }

  predicate AllGood(qs: seq<Problem>)
  {
    forall k :: 0 <= k < |qs| ==> GoodProblem(qs[k])
  }

  lemma AllGoodAppend(a: seq<Problem>, b: seq<Problem>)
    requires AllGood(a) && AllGood(b)
    ensures AllGood(a + b)
  {
    forall k | 0 <= k < |a + b| ensures GoodProblem((a + b)[k]) {
      if k >= |a| {
        assert (a + b)[k] == b[k - |a|];
      } else {
        assert (a + b)[k] == a[k];
      }
    }
  }

  lemma AddProblemsGood(ps: seq<Pattern>, found: seq<Problem>)
    requires ps != [] && ps[|ps| - 1].subPatterns != [] && WellFormed(ps)
    requires AllGood(found)
    ensures WellFormed(AddProblems(ps, found))
  {
    var last := ps[|ps| - 1];
    assert GoodPattern(last);
    var subs := last.subPatterns;
    var sub := subs[|subs| - 1];
    assert GoodSub(sub);
    assert AllGood(sub.problems);
    AllGoodAppend(sub.problems, found);
    var sub' := SubPattern(sub.id, sub.name, sub.problems + found);
    assert GoodSub(sub');
    var subs' := subs[..|subs| - 1] + [sub'];
    assert forall k :: 0 <= k < |subs| - 1 ==> subs'[k] == subs[k];
    AppendGood(ps[..|ps| - 1], Pattern(last.id, last.name, subs'));
  }

  lemma StepWellFormed(st: State, raw: string)
    requires Valid(st) && WellFormed(st.patterns)
    ensures WellFormed(Step(st, raw).patterns)
  {
    var line := Trim(raw);
    if line == "" {
    } else if IsHeader(line) {
      AppendGood(st.patterns, Pattern(Slug.GenerateId(line), line, []));
    } else if IsSubHeader(line) {
      if st.patterns != [] {
        AddSubGood(st.patterns, SubPattern(Slug.GenerateId(line), line, []));
      }
    } else if st.current == Attached {
      ProblemsGood(Split(line, ','));
      AddProblemsGood(st.patterns, Problems(Split(line, ',')));
    }
  }

  lemma {:induction false} RunWellFormed(lines: seq<string>)
    ensures WellFormed(Run(lines).patterns)
  {
    if lines != [] {
      RunWellFormed(lines[..|lines| - 1]);
      StepWellFormed(Run(lines[..|lines| - 1]), lines[|lines| - 1]);
    }
  }

  function Names(ps: seq<Pattern>): seq<string>
  {
    seq(|ps|, i requires 0 <= i < |ps| => ps[i].name)
  }

  /** The trimmed header lines, in order. */
  function Headers(lines: seq<string>): seq<string>
  {
    if lines == [] then []
    else
      var line := Trim(lines[|lines| - 1]);
      Headers(lines[..|lines| - 1]) + (if IsHeader(line) then [line] else [])
  }

  lemma NamesAddSub(ps: seq<Pattern>, sub: SubPattern)
    requires ps != []
    ensures Names(AddSub(ps, sub)) == Names(ps)
  {
    var r := AddSub(ps, sub);
    assert forall i :: 0 <= i < |ps| ==> r[i].name == ps[i].name;
  }

  lemma NamesAddProblems(ps: seq<Pattern>, found: seq<Problem>)
    requires ps != [] && ps[|ps| - 1].subPatterns != []
    ensures Names(AddProblems(ps, found)) == Names(ps)
  {
    var r := AddProblems(ps, found);
    assert forall i :: 0 <= i < |ps| ==> r[i].name == ps[i].name;
  }

  lemma NamesAppend(ps: seq<Pattern>, p: Pattern)
    ensures Names(ps + [p]) == Names(ps) + [p.name]
  {
  }

  /** The patterns are the header lines, in input order, one each. */
  lemma {:induction false} RunHeaders(lines: seq<string>)
    ensures Names(Run(lines).patterns) == Headers(lines)
  {
    if lines != [] {
      var init := lines[..|lines| - 1];
      RunHeaders(init);
      var st := Run(init);
      var line := Trim(lines[|lines| - 1]);
      if line == "" {
      } else if IsHeader(line) {
        NamesAppend(st.patterns, Pattern(Slug.GenerateId(line), line, []));
      } else if IsSubHeader(line) {
        if st.patterns != [] {
          NamesAddSub(st.patterns, SubPattern(Slug.GenerateId(line), line, []));
        }
      } else if st.current == Attached {
        NamesAddProblems(st.patterns, Problems(Split(line, ',')));
      }
    }
  }

  function SubNamesOf(subs: seq<SubPattern>): seq<string>
  {
    seq(|subs|, k requires 0 <= k < |subs| => subs[k].name)
  }

  /** All sub-pattern names, pattern by pattern. */
  function SubNames(ps: seq<Pattern>): seq<string>
  {
    if ps == [] then [] else SubNames(ps[..|ps| - 1]) + SubNamesOf(ps[|ps| - 1].subPatterns)
  }

  /** The trimmed sub-header lines that come after some header line, in order. */
  function SubHeaders(lines: seq<string>): seq<string>
  {
    if lines == [] then []
    else
      var init := lines[..|lines| - 1];
      var line := Trim(lines[|lines| - 1]);
      SubHeaders(init) + (if !IsHeader(line) && IsSubHeader(line) && Headers(init) != [] then [line] else [])
  }

  lemma SubNamesAddSub(ps: seq<Pattern>, sub: SubPattern)
    requires ps != []
    ensures SubNames(AddSub(ps, sub)) == SubNames(ps) + [sub.name]
  {
    var r := AddSub(ps, sub);
    assert r[..|r| - 1] == ps[..|ps| - 1];
    var a := ps[|ps| - 1].subPatterns;
    assert r[|r| - 1].subPatterns == a + [sub];
    assert SubNamesOf(a + [sub]) == SubNamesOf(a) + [sub.name];
  }

  lemma {:induction false} SubNamesAddProblems(ps: seq<Pattern>, found: seq<Problem>)
    requires ps != [] && ps[|ps| - 1].subPatterns != []
    ensures SubNames(AddProblems(ps, found)) == SubNames(ps)
  {
    var r := AddProblems(ps, found);
    assert r[..|r| - 1] == ps[..|ps| - 1];
    var a := ps[|ps| - 1].subPatterns;
    var b := r[|r| - 1].subPatterns;
    assert forall k :: 0 <= k < |a| ==> a[k].name == b[k].name;
    assert SubNamesOf(a) == SubNamesOf(b);
  }

  lemma SubNamesNewPattern(ps: seq<Pattern>, p: Pattern)
    requires p.subPatterns == []
    ensures SubNames(ps + [p]) == SubNames(ps)
  {
    assert (ps + [p])[..|ps|] == ps;
  }

  /**
   * The sub-patterns are the sub-header lines that follow a header, in
   * input order: one before any header is attached to nothing.
   */
  lemma {:induction false} RunSubHeaders(lines: seq<string>)
    ensures SubNames(Run(lines).patterns) == SubHeaders(lines)
  {
    if lines != [] {
      var init := lines[..|lines| - 1];
      RunSubHeaders(init);
      RunHeaders(init);
      var st := Run(init);
      var line := Trim(lines[|lines| - 1]);
      assert |Names(st.patterns)| == |st.patterns|;
      if line == "" {
      } else if IsHeader(line) {
        SubNamesNewPattern(st.patterns, Pattern(Slug.GenerateId(line), line, []));
      } else if IsSubHeader(line) {
        if st.patterns != [] {
          SubNamesAddSub(st.patterns, SubPattern(Slug.GenerateId(line), line, []));
        }
      } else if st.current == Attached {
        SubNamesAddProblems(st.patterns, Problems(Split(line, ',')));
      }
    }
  }

  predicate IsBlank(line: string) { Trim(line) == "" }

  function NonBlank(lines: seq<string>): seq<string>
  {
    if lines == [] then []
    else NonBlank(lines[..|lines| - 1]) + (if IsBlank(lines[|lines| - 1]) then [] else [lines[|lines| - 1]])
  }

  /** Blank and white-space-only lines make no difference. */
  lemma {:induction false} BlankLinesIgnored(lines: seq<string>)
    ensures Run(NonBlank(lines)) == Run(lines)
  {
    if lines != [] {
      var init := lines[..|lines| - 1];
      var last := lines[|lines| - 1];
      BlankLinesIgnored(init);
      assert Run(lines) == Step(Run(init), last);
      if IsBlank(last) {
        assert NonBlank(lines) == NonBlank(init);
      } else {
        var nb := NonBlank(init) + [last];
        assert NonBlank(lines) == nb;
        assert nb[..|nb| - 1] == NonBlank(init) && nb[|nb| - 1] == last;
        assert Run(nb) == Step(Run(NonBlank(init)), last);
      }
    }
  }

  /** Neither kind of header. */
  predicate IsPlain(line: string)
  {
    !IsHeader(Trim(line)) && !IsSubHeader(Trim(line))
  }

  /**
   * Without an attached sub-pattern a plain line changes nothing: its
   * problems are dropped, also when the current sub-pattern is detached.
   */
  lemma PlainKeeps(st: State, raw: string)
    requires Valid(st) && st.current != Attached && IsPlain(raw)
    ensures Step(st, raw) == st
  {
  }

  /**
   * A problem line under an attached sub-pattern appends the problems of
   * its comma pieces to that sub-pattern, and nothing else changes.
   */
  lemma ProblemLineAppends(st: State, raw: string)
    requires Valid(st) && st.current == Attached && !IsBlank(raw) && IsPlain(raw)
    ensures var r := Step(st, raw); var n := |st.patterns|; var p := st.patterns[n - 1];
      var m := |p.subPatterns|; var sub := p.subPatterns[m - 1];
      r.current == Attached && |r.patterns| == n && r.patterns[..n - 1] == st.patterns[..n - 1] &&
      r.patterns[n - 1].id == p.id && r.patterns[n - 1].name == p.name &&
      |r.patterns[n - 1].subPatterns| == m &&
      r.patterns[n - 1].subPatterns[..m - 1] == p.subPatterns[..m - 1] &&
      r.patterns[n - 1].subPatterns[m - 1] ==
        SubPattern(sub.id, sub.name, sub.problems + Problems(Split(Trim(raw), ',')))
  {
  }

  /**
   * A header clears the current sub-pattern: the plain lines after it add
   * nothing until the next `Pattern N:` line.
   */
  lemma {:induction false} HeaderClearsSub(pre: seq<string>, header: string, more: seq<string>)
    requires IsHeader(Trim(header))
    requires forall k :: 0 <= k < |more| ==> IsPlain(more[k])
    ensures Run(pre + [header] + more) == Run(pre + [header])
    ensures Run(pre + [header]).current == NoSub
  {
    var base := pre + [header];
    assert base[..|base| - 1] == pre;
    if more != [] {
      var init := more[..|more| - 1];
      var last := more[|more| - 1];
      HeaderClearsSub(pre, header, init);
      var all := base + more;
      assert all == pre + [header] + more;
      assert all[..|all| - 1] == pre + [header] + init && all[|all| - 1] == last;
      assert Run(all) == Step(Run(pre + [header] + init), last);
      assert IsPlain(last);
      PlainKeeps(Run(base), last);
    } else {
      assert base + more == base;
    }
  }
}
