/**
 * `generateId` and `nameToUrlSlug`: lower-case the name, replace every run
 * of characters other than `[a-z0-9]` by one "-", then drop one leading and
 * one trailing "-". Lower-casing is modelled on ASCII letters.
 */
module Slug {
  import Text

  predicate IsLowerAlnum(c: char) { 'a' <= c <= 'z' || '0' <= c <= '9' }

  predicate IsSlugChar(c: char) { IsLowerAlnum(c) || c == '-' }

  /** A result of the generator: slug characters, no "--", no "-" at either end. */
  predicate IsSlug(r: string)
  {
    (forall i :: 0 <= i < |r| ==> IsSlugChar(r[i])) &&
    (forall i :: 0 <= i < |r| - 1 ==> !(r[i] == '-' && r[i + 1] == '-')) &&
    (|r| > 0 ==> r[0] != '-' && r[|r| - 1] != '-')
  }

  function LowerChar(c: char): char
  {
    if 'A' <= c <= 'Z' then (c as int + 32) as char else c
  }

  /** `toLowerCase()`. */
  function Lower(s: string): string
  {
    seq(|s|, i requires 0 <= i < |s| => LowerChar(s[i]))
  }

  /** `replace(/[^a-z0-9]+/g, '-')`: the last character of each separator run becomes the "-". */
  function Collapse(s: string): string
  {
    if s == [] then []
    else if IsLowerAlnum(s[0]) then [s[0]] + Collapse(s[1..])
    else if |s| > 1 && !IsLowerAlnum(s[1]) then Collapse(s[1..])
    else "-" + Collapse(s[1..])
  }

  /** `replace(/^-|-$/g, '')`: the second match is looked for only after the first. */
  function TrimDashes(s: string): string
  {
    var t := if |s| > 0 && s[0] == '-' then s[1..] else s;
    if |t| > 0 && t[|t| - 1] == '-' then t[..|t| - 1] else t
  }

  function GenerateId(name: string): string
  {
    TrimDashes(Collapse(Lower(name)))
  }

  /** The source's `nameToUrlSlug` has the same body as `generateId`. */
  function NameToUrlSlug(name: string): string
  {
    GenerateId(name)
  }

  // ----- The reference: the words of a string joined by "-" -----

  /** The length of the maximal prefix of `[a-z0-9]` characters. */
  function RunLen(s: string): (n: nat)
    ensures n <= |s|
  {
    if s == [] || !IsLowerAlnum(s[0]) then 0 else 1 + RunLen(s[1..])
  }

  /** The length of the maximal prefix of other characters. */
  function SepLen(s: string): (n: nat)
    ensures n <= |s|
  {
    if s == [] || IsLowerAlnum(s[0]) then 0 else 1 + SepLen(s[1..])
  }

  /** The maximal runs of `[a-z0-9]` characters, in order. */
  function Words(s: string): seq<string>
    decreases |s|
  {
    if s == [] then []
    else if IsLowerAlnum(s[0]) then [s[..RunLen(s)]] + Words(s[RunLen(s)..])
    else Words(s[SepLen(s)..])
  }

  predicate IsWord(w: string)
  {
    |w| > 0 && forall i :: 0 <= i < |w| ==> IsLowerAlnum(w[i])
  }

  lemma {:induction false} RunLenShape(s: string)
    ensures forall i :: 0 <= i < RunLen(s) ==> IsLowerAlnum(s[i])
    ensures RunLen(s) < |s| ==> !IsLowerAlnum(s[RunLen(s)])
    ensures |s| > 0 && IsLowerAlnum(s[0]) ==> RunLen(s) > 0
  {
    if s != [] && IsLowerAlnum(s[0]) {
      RunLenShape(s[1..]);
    }
  }

  lemma {:induction false} SepLenShape(s: string)
    ensures forall i :: 0 <= i < SepLen(s) ==> !IsLowerAlnum(s[i])
    ensures SepLen(s) < |s| ==> IsLowerAlnum(s[SepLen(s)])
    ensures |s| > 0 && !IsLowerAlnum(s[0]) ==> SepLen(s) > 0
  {
    if s != [] && !IsLowerAlnum(s[0]) {
      SepLenShape(s[1..]);
    }
  }

  /** Every word is a non-empty run of `[a-z0-9]`; there are none only in a string without such characters. */
  lemma {:induction false} WordsShape(s: string)
    ensures forall k :: 0 <= k < |Words(s)| ==> IsWord(Words(s)[k])
    ensures Words(s) == [] ==> forall i :: 0 <= i < |s| ==> !IsLowerAlnum(s[i])
    decreases |s|
  {
    if s == [] {
    } else if IsLowerAlnum(s[0]) {
      RunLenShape(s);
      WordsShape(s[RunLen(s)..]);
    } else {
      SepLenShape(s);
      var rest := s[SepLen(s)..];
      WordsShape(rest);
      assert rest != [] ==> IsLowerAlnum(rest[0]);
    }
  }

  /** Collapsing copies a leading run verbatim. */
  lemma {:induction false} CollapseRun(s: string, k: nat)
    requires k <= RunLen(s)
    ensures Collapse(s) == s[..k] + Collapse(s[k..])
    decreases k
  {
    if k > 0 {
      assert s != [] && IsLowerAlnum(s[0]);
      CollapseHead(s);
      CollapseRun(s[1..], k - 1);
      assert s[1..][k - 1..] == s[k..];
      assert s[..k] == [s[0]] + s[1..][..k - 1];
    }
  }

  /** A leading word character is copied. */
  lemma CollapseHead(s: string)
    requires |s| > 0 && IsLowerAlnum(s[0])
    ensures Collapse(s) == [s[0]] + Collapse(s[1..])
  {
  }

  /** Collapsing turns a leading separator run into one "-". */
  lemma {:induction false} CollapseSep(s: string)
    requires |s| > 0 && !IsLowerAlnum(s[0])
    ensures Collapse(s) == "-" + Collapse(s[SepLen(s)..])
    decreases |s|
  {
    if |s| > 1 && !IsLowerAlnum(s[1]) {
      CollapseSep(s[1..]);
      assert s[1..][SepLen(s[1..])..] == s[SepLen(s)..];
    }
  }

  /** "-" when the string ends in a separator. */
  function Trail(s: string): string
  {
    if |s| > 0 && !IsLowerAlnum(s[|s| - 1]) then "-" else ""
  }

  /** A string that starts with a word character collapses to its words joined by "-", then `Trail`. */
  lemma {:induction false} CollapseFromWord(s: string)
    requires |s| > 0 && IsLowerAlnum(s[0])
    ensures Words(s) != [] && Collapse(s) == Text.JoinStrings(Words(s), "-") + Trail(s)
    decreases |s|, 1
  {
    var r := RunLen(s);
    var rest := s[r..];
    CollapseRun(s, r);
    WordsCons(s);
    var w := s[..r];
    if rest == [] {
      RunLenLast(s);
      assert w == s;
    } else {
      RunLenStop(s);
      CollapseFromSep(rest);
      TrailSuffix(s, r);
      if Words(rest) != [] {
        var j := Text.JoinStrings(Words(rest), "-");
        Text.JoinCons(w, Words(rest), "-");
        assert Collapse(s) == w + ("-" + (j + Trail(s)));
        assert Text.JoinStrings(Words(s), "-") == w + "-" + j;
      } else {
        NoWordsTrail(rest);
        assert Collapse(s) == w + "-";
        assert Text.JoinStrings(Words(s), "-") == w;
      }
    }
  }

  /** A string that is all one run ends in a word character. */
  lemma RunLenLast(s: string)
    requires |s| > 0 && RunLen(s) == |s|
    ensures IsLowerAlnum(s[|s| - 1])
  {
    RunLenShape(s);
  }

  /** The leading run stops at a separator. */
  lemma RunLenStop(s: string)
    requires RunLen(s) < |s|
    ensures !IsLowerAlnum(s[RunLen(s)])
  {
    RunLenShape(s);
  }

  /** A non-empty string without words ends in a separator. */
  lemma NoWordsTrail(s: string)
    requires |s| > 0 && Words(s) == []
    ensures Trail(s) == "-"
  {
    WordsShape(s);
  }

  /** The leading run is the first word. */
  lemma WordsCons(s: string)
    requires |s| > 0 && IsLowerAlnum(s[0])
    ensures Words(s) == [s[..RunLen(s)]] + Words(s[RunLen(s)..])
  {
  }

  /** A non-empty suffix ends where the string ends. */
  lemma TrailSuffix(s: string, r: nat)
    requires r < |s|
    ensures Trail(s[r..]) == Trail(s)
  {
    assert s[r..][|s| - r - 1] == s[|s| - 1];
  }

  /** A string that starts with a separator collapses to "-", then its words joined by "-" and `Trail`. */
  lemma {:induction false} CollapseFromSep(s: string)
    requires |s| > 0 && !IsLowerAlnum(s[0])
    ensures Collapse(s) == "-" + (if Words(s) == [] then "" else Text.JoinStrings(Words(s), "-") + Trail(s))
    decreases |s|, 0
  {
    var rest := s[SepLen(s)..];
    SepLenShape(s);
    CollapseSep(s);
    if rest != [] {
      CollapseFromWord(rest);
      assert rest[|rest| - 1] == s[|s| - 1];
    }
  }

  /** Joining non-empty words by "-" gives a slug that begins and ends with a word character. */
  lemma {:induction false} JoinIsSlug(ws: seq<string>)
    requires forall k :: 0 <= k < |ws| ==> IsWord(ws[k])
    ensures IsSlug(Text.JoinStrings(ws, "-"))
    ensures ws != [] ==>
      (|Text.JoinStrings(ws, "-")| > 0 && IsLowerAlnum(Text.JoinStrings(ws, "-")[0]) &&
       IsLowerAlnum(Text.JoinStrings(ws, "-")[|Text.JoinStrings(ws, "-")| - 1]))
    decreases |ws|
  {
    if |ws| > 1 {
      var init := ws[..|ws| - 1];
      var last := ws[|ws| - 1];
      JoinIsSlug(init);
      var j := Text.JoinStrings(init, "-");
      var r := Text.JoinStrings(ws, "-");
      assert r == j + "-" + last;
      forall i | 0 <= i < |r| ensures IsSlugChar(r[i]) {
        if i < |j| {
          assert r[i] == j[i];
        } else if i > |j| {
          assert r[i] == last[i - |j| - 1];
        }
      }
      forall i | 0 <= i < |r| - 1 ensures !(r[i] == '-' && r[i + 1] == '-') {
        if i + 1 < |j| {
          assert r[i] == j[i] && r[i + 1] == j[i + 1];
        } else if i + 1 == |j| {
          assert r[i] == j[|j| - 1];
        } else if i == |j| {
          assert r[i + 1] == last[0];
        } else {
          assert r[i] == last[i - |j| - 1];
        }
      }
      assert r[0] == j[0];
      assert r[|r| - 1] == last[|last| - 1];
    }
  }

  /** Trimming removes a "-" before and a "-" after a string that starts and ends with a word character. */
  lemma TrimAround(j: string, lead: string, trail: string)
    requires |j| > 0 && IsLowerAlnum(j[0]) && IsLowerAlnum(j[|j| - 1])
    requires lead == "" || lead == "-"
    requires trail == "" || trail == "-"
    ensures TrimDashes(lead + j + trail) == j
  {
    var t := j + trail;
    assert (lead + j + trail)[|lead|..] == t;
    if trail == "-" {
      assert t[..|j|] == j;
    } else {
      assert t == j;
    }
  }

  /** The generated id is the name's words, lower-cased, joined by "-". */
  lemma GenerateIdIsJoinedWords(name: string)
    ensures GenerateId(name) == Text.JoinStrings(Words(Lower(name)), "-")
  {
    var s := Lower(name);
    WordsShape(s);
    JoinIsSlug(Words(s));
    if s == [] {
    } else if IsLowerAlnum(s[0]) {
      CollapseFromWord(s);
      TrimAround(Text.JoinStrings(Words(s), "-"), "", Trail(s));
    } else {
      CollapseFromSep(s);
      if Words(s) != [] {
        TrimAround(Text.JoinStrings(Words(s), "-"), "-", Trail(s));
      }
    }
  }

  /** Every generated id is a slug. */
  lemma GenerateIdIsSlug(name: string)
    ensures IsSlug(GenerateId(name))
  {
    GenerateIdIsJoinedWords(name);
    WordsShape(Lower(name));
    JoinIsSlug(Words(Lower(name)));
  }

  /** A word followed by a separator (or nothing) is the leading run. */
  lemma {:induction false} RunLenOfWord(w: string, t: string)
    requires IsWord(w) && (t == [] || !IsLowerAlnum(t[0]))
    ensures RunLen(w + t) == |w|
    decreases |w|
  {
    if |w| > 1 {
      RunLenOfWord(w[1..], t);
      assert (w + t)[1..] == w[1..] + t;
    } else {
      assert (w + t)[1..] == t;
    }
  }

  /** Splitting words joined by "-" gives the words back. */
  lemma {:induction false} WordsOfJoin(ws: seq<string>)
    requires forall k :: 0 <= k < |ws| ==> IsWord(ws[k])
    ensures Words(Text.JoinStrings(ws, "-")) == ws
    decreases |ws|
  {
    if ws == [] {
    } else if |ws| == 1 {
      var w := ws[0];
      RunLenOfWord(w, []);
      assert w + [] == w && w[..|w|] == w && w[|w|..] == [];
    } else {
      var w, rest := ws[0], ws[1..];
      assert ws == [w] + rest;
      Text.JoinCons(w, rest, "-");
      var x := Text.JoinStrings(rest, "-");
      WordsOfJoin(rest);
      JoinIsSlug(rest);
      var s := w + "-" + x;
      RunLenOfWord(w, "-" + x);
      assert s == w + ("-" + x);
      assert s[..|w|] == w && s[|w|..] == "-" + x;
      var u := "-" + x;
      assert SepLen(u) == 1 by {
        assert u[1..] == x;
      }
      assert u[1..] == x;
    }
  }

  /** A slug is its own id: generating twice gives the same id. */
  lemma GenerateIdIdempotent(name: string)
    ensures GenerateId(GenerateId(name)) == GenerateId(name)
  {
    var r := GenerateId(name);
    GenerateIdIsJoinedWords(name);
    WordsShape(Lower(name));
    JoinIsSlug(Words(Lower(name)));
    assert Lower(r) == r;
    WordsOfJoin(Words(Lower(name)));
    GenerateIdIsJoinedWords(r);
  }

  lemma {:induction false} LowerConcat(a: string, b: string)
    ensures Lower(a + b) == Lower(a) + Lower(b)
  {
    assert forall i :: 0 <= i < |a + b| ==> (a + b)[i] == if i < |a| then a[i] else b[i - |a|];
  }

  predicate IsSeparator(sep: string)
  {
    |sep| > 0 && forall i :: 0 <= i < |sep| ==> !IsLowerAlnum(sep[i])
  }

  /** A word collapses to itself. */
  lemma CollapseWord(w: string)
    requires IsWord(w)
    ensures Collapse(w) == w
  {
    RunLenOfWord(w, []);
    assert w + [] == w;
    CollapseRun(w, |w|);
    assert w[..|w|] == w && w[|w|..] == [];
  }

  lemma FirstSectionLower()
    ensures Lower("I. Two Pointer Patterns") == "i" + ". " + "two" + " " + "pointer" + " " + "patterns"
  {
    assert "I. Two Pointer Patterns" == "I" + ". " + "Two" + " " + "Pointer" + " " + "Patterns";
    LowerConcat("I" + ". " + "Two" + " " + "Pointer" + " ", "Patterns");
    LowerConcat("I" + ". " + "Two" + " " + "Pointer", " ");
    LowerConcat("I" + ". " + "Two" + " ", "Pointer");
    LowerConcat("I" + ". " + "Two", " ");
    LowerConcat("I" + ". ", "Two");
    LowerConcat("I", ". ");
    assert Lower("I") == "i" && Lower(". ") == ". " && Lower("Two") == "two" && Lower(" ") == " ";
    assert Lower("Pointer") == "pointer" && Lower("Patterns") == "patterns";
  }

  /** Collapsing works piecewise across a boundary where a word character sits on either side. */
  lemma {:induction false} CollapseAppend(x: string, y: string)
    requires (x != [] && IsLowerAlnum(x[|x| - 1])) || (y != [] && IsLowerAlnum(y[0])) || x == [] || y == []
    ensures Collapse(x + y) == Collapse(x) + Collapse(y)
    decreases |x|
  {
    if x == [] {
      assert x + y == y;
    } else if y == [] {
      assert x + y == x;
    } else {
      var s := x + y;
      assert s[1..] == x[1..] + y;
      if |x| > 1 {
        assert x[1..][|x| - 2] == x[|x| - 1];
        CollapseAppend(x[1..], y);
        assert s[1] == x[1];
      }
    }
  }

  /** Collapsing one separator run gives one "-". */
  lemma {:induction false} CollapseSeparator(sep: string)
    requires IsSeparator(sep)
    ensures Collapse(sep) == "-"
    decreases |sep|
  {
    if |sep| > 1 {
      CollapseSeparator(sep[1..]);
    }
  }

  /** Words with separator runs between them: `ws[0] + seps[0] + ws[1] + ...`. */
  function Interleave(ws: seq<string>, seps: seq<string>): string
    requires |ws| == |seps| + 1
  {
    if |seps| == 0 then ws[0]
    else Interleave(ws[..|ws| - 1], seps[..|seps| - 1]) + seps[|seps| - 1] + ws[|ws| - 1]
  }

  /** Words separated by separator runs collapse to the words joined by "-". */
  lemma {:induction false} CollapseInterleave(ws: seq<string>, seps: seq<string>)
    requires |ws| == |seps| + 1
    requires forall k :: 0 <= k < |ws| ==> IsWord(ws[k])
    requires forall k :: 0 <= k < |seps| ==> IsSeparator(seps[k])
    ensures Collapse(Interleave(ws, seps)) == Text.JoinStrings(ws, "-")
    ensures |Interleave(ws, seps)| > 0 && IsLowerAlnum(Interleave(ws, seps)[|Interleave(ws, seps)| - 1])
    decreases |seps|
  {
    var x := Interleave(ws, seps);
    var last := ws[|ws| - 1];
    if |seps| == 0 {
      CollapseWord(ws[0]);
    } else {
      var init, sinit := ws[..|ws| - 1], seps[..|seps| - 1];
      var sep := seps[|seps| - 1];
      var p := Interleave(init, sinit);
      CollapseInterleave(init, sinit);
      CollapseSeparator(sep);
      CollapseWord(last);
      CollapseAppend(p, sep);
      CollapseAppend(p + sep, last);
      assert init + [last] == ws;
      Text.JoinStringsSnoc(init, last, "-");
      assert x[|x| - 1] == last[|last| - 1];
    }
  }

  lemma FirstSectionCollapse()
    ensures Collapse("i" + ". " + "two" + " " + "pointer" + " " + "patterns") ==
      "i" + "-" + "two" + "-" + "pointer" + "-" + "patterns"
  {
    var ws := ["i", "two", "pointer", "patterns"];
    var seps := [". ", " ", " "];
    assert IsWord(ws[0]) && IsWord(ws[1]) && IsWord(ws[2]) && IsWord(ws[3]);
    assert IsSeparator(seps[0]) && IsSeparator(seps[1]) && IsSeparator(seps[2]);
    CollapseInterleave(ws, seps);
    var w1, w2, w3 := ["i"], ["i", "two"], ["i", "two", "pointer"];
    var s0, s1, s2 := [], [". "], [". ", " "];
    assert ws[..3] == w3 && w3[..2] == w2 && w2[..1] == w1;
    assert seps[..2] == s2 && s2[..1] == s1 && s1[..0] == s0;
    assert Interleave(w1, s0) == "i";
    assert Interleave(w2, s1) == "i" + ". " + "two";
    assert Interleave(w3, s2) == "i" + ". " + "two" + " " + "pointer";
    assert Text.JoinStrings(w1, "-") == "i";
    assert Text.JoinStrings(w2, "-") == "i" + "-" + "two";
    assert Text.JoinStrings(w3, "-") == "i" + "-" + "two" + "-" + "pointer";
  }

  lemma FirstSectionText()
    ensures "i" + "-" + "two" + "-" + "pointer" + "-" + "patterns" == "i-two-pointer-patterns"
  {
  }

  /** The catalogue's first header line gives the first section id. */
  lemma FirstSectionId()
    ensures GenerateId("I. Two Pointer Patterns") == "i-two-pointer-patterns"
  {
    FirstSectionLower();
    FirstSectionCollapse();
    FirstSectionText();
    TrimAround("i-two-pointer-patterns", "", "");
    assert "" + "i-two-pointer-patterns" + "" == "i-two-pointer-patterns";
  }
}
