/**
 * Rendering of numbers and lists as JavaScript template literals show them:
 * `${n}` for an integer, `xs.join(sep)` for an array, `${m}` for a median
 * that is always a whole number or a whole number plus one half.
 */
module Text {

  predicate IsDigit(c: char) { '0' <= c <= '9' }

  function DigitChar(d: nat): (c: char)
    requires d < 10
    ensures IsDigit(c) && c as int - '0' as int == d
  {
    "0123456789"[d]
  }

  /** Decimal digits of `n`, most significant first, without leading zeros. */
  function NatToString(n: nat): (s: string)
    ensures |s| >= 1
    ensures forall i :: 0 <= i < |s| ==> IsDigit(s[i])
    ensures s[0] == '0' ==> n == 0
    decreases n
  {
    if n < 10 then [DigitChar(n)] else NatToString(n / 10) + [DigitChar(n % 10)]
  }

  /** The value of a string of decimal digits (the partner of NatToString). */
  function DigitsValue(s: string): nat
    requires forall i :: 0 <= i < |s| ==> IsDigit(s[i])
  {
    if s == [] then 0
    else
      assert IsDigit(s[|s| - 1]);
      DigitsValue(s[..|s| - 1]) * 10 + (s[|s| - 1] as int - '0' as int)
  }

  lemma {:induction false} NatToStringRoundTrip(n: nat)
    ensures DigitsValue(NatToString(n)) == n
    decreases n
  {
    if n >= 10 {
      var s := NatToString(n);
      NatToStringRoundTrip(n / 10);
      assert s[..|s| - 1] == NatToString(n / 10);
    }
  }

  /** `${i}` for an integer. */
  function IntToString(i: int): (s: string)
    ensures i < 0 <==> (|s| > 0 && s[0] == '-')
  {
    if i < 0 then "-" + NatToString(-i) else NatToString(i)
  }

  /** `xs.join(sep)` for an array of integers. */
  function JoinInts(xs: seq<int>, sep: string): string
  {
    if xs == [] then ""
    else if |xs| == 1 then IntToString(xs[0])
    else JoinInts(xs[..|xs| - 1], sep) + sep + IntToString(xs[|xs| - 1])
  }

  lemma JoinIntsSnoc(xs: seq<int>, x: int, sep: string)
    requires xs != []
    ensures JoinInts(xs + [x], sep) == JoinInts(xs, sep) + sep + IntToString(x)
  {
    assert (xs + [x])[..|xs|] == xs;
  }

  /** `xs.join(sep)` for an array of strings. */
  function JoinStrings(xs: seq<string>, sep: string): string
  {
    if xs == [] then ""
    else if |xs| == 1 then xs[0]
    else JoinStrings(xs[..|xs| - 1], sep) + sep + xs[|xs| - 1]
  }

  lemma JoinStringsSnoc(xs: seq<string>, x: string, sep: string)
    requires xs != []
    ensures JoinStrings(xs + [x], sep) == JoinStrings(xs, sep) + sep + x
  {
    assert (xs + [x])[..|xs|] == xs;
  }

  /** `[a, b, c, d].join(sep)` for integers, written out. */
  lemma JoinIntsFour(a: int, b: int, c: int, d: int, sep: string)
    ensures JoinInts([a, b, c, d], sep) ==
      IntToString(a) + sep + IntToString(b) + sep + IntToString(c) + sep + IntToString(d)
  {
    JoinIntsSnoc([a], b, sep);
    assert [a] + [b] == [a, b];
    JoinIntsSnoc([a, b], c, sep);
    assert [a, b] + [c] == [a, b, c];
    JoinIntsSnoc([a, b, c], d, sep);
    assert [a, b, c] + [d] == [a, b, c, d];
  }

  /** `[a, b, c, d].join(sep)` for strings, written out. */
  lemma JoinStringsFour(a: string, b: string, c: string, d: string, sep: string)
    ensures JoinStrings([a, b, c, d], sep) == a + sep + b + sep + c + sep + d
  {
    JoinStringsSnoc([a], b, sep);
    assert [a] + [b] == [a, b];
    JoinStringsSnoc([a, b], c, sep);
    assert [a, b] + [c] == [a, b, c];
    JoinStringsSnoc([a, b, c], d, sep);
    assert [a, b, c] + [d] == [a, b, c, d];
  }

  /** `xs.join(sep)` seen from the front. */
  lemma {:induction false} JoinCons(w: string, ws: seq<string>, sep: string)
    requires ws != []
    ensures JoinStrings([w] + ws, sep) == w + sep + JoinStrings(ws, sep)
    decreases |ws|
  {
    if |ws| > 1 {
      var init := ws[..|ws| - 1];
      JoinCons(w, init, sep);
      assert ([w] + ws)[..|ws|] == [w] + init;
      assert ws[..|ws| - 1] == init;
    }
  }

  /** The digits of t / 2 for a count t of halves: "3" for 6, "3.5" for 7. */
  function HalvesToString(t: nat): (s: string)
    ensures t % 2 == 0 ==> s == NatToString(t / 2)
  {
    NatToString(t / 2) + (if t % 2 == 0 then "" else ".5")
  }

  /**
   * `${m}` for a number that is a whole number or a whole number plus one
   * half, as JavaScript prints it ("2", "2.5", "-0.5"); other reals do not
   * arise in the model and print as "NaN".
   */
  function HalfToString(m: real): string
  {
    var t := (2.0 * m).Floor;
    if t as real != 2.0 * m then "NaN"
    else if t < 0 then "-" + HalvesToString(-t)
    else HalvesToString(t)
  }

  /** A whole number prints as the integer it is. */
  lemma WholeToString(x: int)
    ensures HalfToString(x as real) == IntToString(x)
  {
    assert 2.0 * (x as real) == (2 * x) as real;
    assert (2.0 * (x as real)).Floor == 2 * x;
    if x < 0 {
      assert (-2 * x) % 2 == 0 && (-2 * x) / 2 == -x;
    } else {
      assert (2 * x) % 2 == 0 && (2 * x) / 2 == x;
    }
  }
}
