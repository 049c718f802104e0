/**
 * String helpers that mirror the Python built-ins the webhook code relies on:
 * `str.isdigit`, `int(s)`, `str(n)`, `s.split(sep)` and `s.split()`.
 */
module Text {

  import opened Base

  // ---------------------------------------------------------------------------
  // Decimal digits and numbers
  // ---------------------------------------------------------------------------

  predicate IsDigit(c: char) {
    '0' <= c <= '9'
  }

  /** Every character is an ASCII decimal digit (the empty string qualifies). */
  predicate AllDigits(s: string) {
    forall i :: 0 <= i < |s| ==> IsDigit(s[i])
  }

  /** `s.isdigit()` for ASCII text: non-empty and made of decimal digits only. */
  predicate IsDigitString(s: string) {
    |s| > 0 && AllDigits(s)
  }

  /** A digit string without a redundant leading zero, as `str(n)` prints it. */
  predicate IsCanonicalNumeral(s: string) {
    IsDigitString(s) && (s[0] != '0' || |s| == 1)
  }

  function DigitValue(c: char): (d: nat)
    requires IsDigit(c)
    ensures d < 10
  {
    (c as int) - ('0' as int)
  }

  function DigitChar(d: nat): (c: char)
    requires d < 10
    ensures IsDigit(c) && DigitValue(c) == d
  {
    (('0' as int) + d) as char
  }

  /** `int(s)` for a string of ASCII digits, most significant digit first. */
  function DigitsValue(s: string): nat
    requires AllDigits(s)
  {
    if |s| == 0 then 0 else 10 * DigitsValue(s[..|s| - 1]) + DigitValue(s[|s| - 1])
  }

  /** `str(n)` for a natural number. */
  function NatToString(n: nat): (s: string)
    ensures IsCanonicalNumeral(s)
    ensures n < 10 <==> |s| == 1
  {
    if n < 10 then [DigitChar(n)] else NatToString(n / 10) + [DigitChar(n % 10)]
  }

  /** `str(i)` for a Python int: a minus sign in front of negative values. */
  function IntToString(i: int): (s: string)
    ensures |s| > 0
    ensures i >= 0 <==> IsCanonicalNumeral(s)
  {
    if i < 0 then "-" + NatToString(-i) else NatToString(i)
  }

  /** `int(s)` for the strings the model accepts: non-empty ASCII digit strings. */
  function ParseNat(s: string): (r: Option<nat>)
    ensures r.Some? <==> IsDigitString(s)
  {
    if IsDigitString(s) then Some(DigitsValue(s)) else None
  }

  /** Printing a number and reading it back gives the number. */
  lemma {:induction false} DigitsValueOfNatToString(n: nat)
    ensures DigitsValue(NatToString(n)) == n
  {
    if n >= 10 {
      var s := NatToString(n);
      assert s[..|s| - 1] == NatToString(n / 10);
      DigitsValueOfNatToString(n / 10);
    }
  }

  lemma {:induction false} LeadingDigitBoundsValue(s: string)
    requires IsDigitString(s) && s[0] != '0'
    ensures DigitsValue(s) > 0
  {
    if |s| > 1 {
      assert s[..|s| - 1][0] == s[0];
      LeadingDigitBoundsValue(s[..|s| - 1]);
    }
  }

  /** Reading a canonical numeral and printing the value gives the numeral back. */
  lemma {:induction false} NatToStringOfDigitsValue(s: string)
    requires IsCanonicalNumeral(s)
    ensures NatToString(DigitsValue(s)) == s
  {
    if |s| > 1 {
      var p := s[..|s| - 1];
      assert p[0] == s[0];
      LeadingDigitBoundsValue(p);
      NatToStringOfDigitsValue(p);
      assert s == p + [s[|s| - 1]];
    }
  }

  /** `str` is injective on naturals. */
  lemma NatToStringInjective(m: nat, n: nat)
    requires NatToString(m) == NatToString(n)
    ensures m == n
  {
    DigitsValueOfNatToString(m);
    DigitsValueOfNatToString(n);
  }

  /** `str` is injective on Python ints. */
  lemma IntToStringInjective(i: int, j: int)
    requires IntToString(i) == IntToString(j)
    ensures i == j
  {
    if i < 0 && j < 0 {
      var a, b := NatToString(-i), NatToString(-j);
      assert ("-" + a)[1..] == a && ("-" + b)[1..] == b;
      NatToStringInjective(-i, -j);
    } else if i >= 0 && j >= 0 {
      NatToStringInjective(i, j);
    }
  }

  /**
   * `str(int(s) + 1)` never reproduces `s`: the successor numeral of a digit
   * string differs from the string itself, leading zeros or not.
   */
  lemma {:induction false} SuccessorNumeralDiffers(s: string)
    requires IsDigitString(s)
    ensures NatToString(DigitsValue(s) + 1) != s
  {
    var n := DigitsValue(s) + 1;
    DigitsValueOfNatToString(n);
    assert DigitsValue(NatToString(n)) != DigitsValue(s);
  }

  // ---------------------------------------------------------------------------
  // str.split(sep)
  // ---------------------------------------------------------------------------

  /** `s.split(sep)` with an explicit one-character separator. */
  function Split(s: string, sep: char): (parts: seq<string>)
    ensures |parts| >= 1
    ensures forall i :: 0 <= i < |parts| ==> sep !in parts[i]
    decreases |s|
  {
    if |s| == 0 then [""]
    else
      var rest := Split(s[1..], sep);
      if s[0] == sep then [""] + rest else [[s[0]] + rest[0]] + rest[1..]
  }

  /** `sep.join(parts)`. */
  function Join(parts: seq<string>, sep: char): string
    requires |parts| >= 1
  {
    if |parts| == 1 then parts[0] else parts[0] + [sep] + Join(parts[1..], sep)
  }

  /** Joining the pieces of a split restores the original string. */
  lemma {:induction false} JoinSplit(s: string, sep: char)
    ensures Join(Split(s, sep), sep) == s
    decreases |s|
  {
    if |s| > 0 {
      var rest := Split(s[1..], sep);
      JoinSplit(s[1..], sep);
      if s[0] == sep {
        assert Split(s, sep)[1..] == rest;
      } else if |rest| == 1 {
        assert Split(s, sep) == [[s[0]] + rest[0]];
      } else {
        var parts := Split(s, sep);
        assert parts[1..] == rest[1..];
        assert Join(rest, sep) == rest[0] + [sep] + Join(rest[1..], sep);
        assert s == [s[0]] + s[1..];
      }
    }
  }

  lemma {:induction false} SplitWithoutSeparator(a: string, sep: char)
    requires sep !in a
    ensures Split(a, sep) == [a]
    decreases |a|
  {
    if |a| > 0 {
      assert sep !in a[1..];
      SplitWithoutSeparator(a[1..], sep);
      assert [a[0]] + a[1..] == a;
    }
  }

  lemma {:induction false} SplitAtSeparator(a: string, b: string, sep: char)
    requires sep !in a
    ensures Split(a + [sep] + b, sep) == [a] + Split(b, sep)
    decreases |a|
  {
    var s := a + [sep] + b;
    if |a| == 0 {
      assert s[1..] == b;
    } else {
      assert s[1..] == a[1..] + [sep] + b;
      assert sep !in a[1..];
      SplitAtSeparator(a[1..], b, sep);
      assert [a[0]] + a[1..] == a;
    }
  }

  /** Splitting a join of separator-free pieces gives the pieces back. */
  lemma {:induction false} SplitJoin(parts: seq<string>, sep: char)
    requires |parts| >= 1
    requires forall i :: 0 <= i < |parts| ==> sep !in parts[i]
    ensures Split(Join(parts, sep), sep) == parts
  {
    if |parts| == 1 {
      SplitWithoutSeparator(parts[0], sep);
    } else {
      SplitJoin(parts[1..], sep);
      SplitAtSeparator(parts[0], Join(parts[1..], sep), sep);
      assert [parts[0]] + parts[1..] == parts;
    }
  }

  /** Index of the first occurrence of `c` in `s`. */
  function IndexOf(s: string, c: char): (i: nat)
    requires c in s
    ensures i < |s| && s[i] == c
    ensures forall j :: 0 <= j < i ==> s[j] != c
  {
    if s[0] == c then 0 else 1 + IndexOf(s[1..], c)
  }

  /** `s.split(sep)[0]`: the text before the first `sep`, or all of `s`. */
  function BeforeFirst(s: string, sep: char): (r: string)
    ensures r <= s && sep !in r
    ensures sep in s ==> |r| < |s| && s[|r|] == sep
    ensures sep !in s ==> r == s
    ensures r == Split(s, sep)[0]
  {
    var parts := Split(s, sep);
    JoinSplit(s, sep);
    if |parts| == 1 then
      s
    else
      assert s == parts[0] + [sep] + Join(parts[1..], sep);
      assert s[..|parts[0]|] == parts[0];
      s[..|parts[0]|]
  }

  // ---------------------------------------------------------------------------
  // str.split() with no argument: runs of non-whitespace
  // ---------------------------------------------------------------------------

  /** The characters for which Python's `str.isspace()` holds. */
  predicate IsSpace(c: char) {
    c == ' ' || ('\t' <= c <= '\r') || ('\U{1c}' <= c <= '\U{1f}')
    || c == '\U{85}' || c == '\U{a0}' || c == '\U{1680}'
    || ('\U{2000}' <= c <= '\U{200a}')
    || c == '\U{2028}' || c == '\U{2029}' || c == '\U{202f}' || c == '\U{205f}' || c == '\U{3000}'
  }

  /** A word of `s.split()`: non-empty and free of whitespace. */
  predicate IsWord(w: string) {
    |w| > 0 && forall i :: 0 <= i < |w| ==> !IsSpace(w[i])
  }

  /** Length of the longest whitespace-free prefix of `s`. */
  function RunLength(s: string): (n: nat)
    ensures n <= |s|
    ensures forall i :: 0 <= i < n ==> !IsSpace(s[i])
    ensures n < |s| ==> IsSpace(s[n])
  {
    if |s| == 0 || IsSpace(s[0]) then 0 else 1 + RunLength(s[1..])
  }

  /** `s.split()`: the maximal whitespace-free runs of `s`, in order. */
  function Words(s: string): (ws: seq<string>)
    ensures forall i :: 0 <= i < |ws| ==> IsWord(ws[i])
    decreases |s|
  {
    if |s| == 0 then []
    else if IsSpace(s[0]) then Words(s[1..])
    else
      var n := RunLength(s);
      [s[..n]] + Words(s[n..])
  }

  /** A run of whitespace; the empty run qualifies. */
  predicate AllSpace(g: string) {
    forall i :: 0 <= i < |g| ==> IsSpace(g[i])
  }

  /** `gaps[0] + ws[0] + gaps[1] + … + ws[n-1] + gaps[n]`. */
  function Interleave(gaps: seq<string>, ws: seq<string>): string
    requires |gaps| == |ws| + 1
    decreases |ws|
  {
    if |ws| == 0 then gaps[0] else gaps[0] + ws[0] + Interleave(gaps[1..], ws[1..])
  }

  /** The whitespace around and between the words of `s`, in order. */
  function Gaps(s: string): (gs: seq<string>)
    ensures |gs| == |Words(s)| + 1
    decreases |s|
  {
    if |s| == 0 then [""]
    else if IsSpace(s[0]) then
      var rest := Gaps(s[1..]);
      [[s[0]] + rest[0]] + rest[1..]
    else
      [""] + Gaps(s[RunLength(s)..])
  }

  /**
   * `s` is the words `ws` interleaved with the whitespace gaps `gs`, and every
   * gap between two words is non-empty.
   */
  predicate Partitions(s: string, gs: seq<string>, ws: seq<string>) {
    && |gs| == |ws| + 1
    && (forall i :: 0 <= i < |gs| ==> AllSpace(gs[i]))
    && (forall i :: 0 < i < |ws| ==> gs[i] != "")
    && s == Interleave(gs, ws)
  }

  lemma PartitionsLeadingSpace(c: char, t: string, gs: seq<string>, ws: seq<string>)
    requires IsSpace(c) && Partitions(t, gs, ws)
    ensures Partitions([c] + t, [[c] + gs[0]] + gs[1..], ws)
  {
    var gs' := [[c] + gs[0]] + gs[1..];
    forall i | 0 <= i < |gs'|
      ensures AllSpace(gs'[i])
    {
      if i > 0 {
        assert gs'[i] == gs[i];
      }
    }
    forall i | 0 < i < |ws|
      ensures gs'[i] != ""
    {
      assert gs'[i] == gs[i];
    }
    if |ws| > 0 {
      assert Interleave(gs', ws) == gs'[0] + ws[0] + Interleave(gs[1..], ws[1..]);
    }
  }

  lemma PartitionsLeadingWord(w: string, t: string, gs: seq<string>, ws: seq<string>)
    requires Partitions(t, gs, ws)
    requires |ws| > 0 ==> gs[0] != ""
    ensures Partitions(w + t, [""] + gs, [w] + ws)
  {
    var gs', ws' := [""] + gs, [w] + ws;
    forall i | 0 <= i < |gs'|
      ensures AllSpace(gs'[i])
    {
      if i > 0 {
        assert gs'[i] == gs[i - 1];
      }
    }
    forall i | 0 < i < |ws'|
      ensures gs'[i] != ""
    {
      assert gs'[i] == gs[i - 1];
    }
    assert gs'[1..] == gs && ws'[1..] == ws;
  }

  /**
   * The words are exactly the maximal whitespace-free runs: `s` is the words
   * interleaved with whitespace gaps, and every gap between two words is
   * non-empty, so no word could be extended or merged with its neighbour.
   */
  lemma {:induction false} WordsPartition(s: string)
    ensures Partitions(s, Gaps(s), Words(s))
    decreases |s|
  {
    if |s| == 0 {
    } else if IsSpace(s[0]) {
      WordsPartition(s[1..]);
      PartitionsLeadingSpace(s[0], s[1..], Gaps(s[1..]), Words(s[1..]));
      assert [s[0]] + s[1..] == s;
    } else {
      var n := RunLength(s);
      var t := s[n..];
      WordsPartition(t);
      if |Words(t)| > 0 {
        assert |t| > 0 && IsSpace(t[0]);
      }
      PartitionsLeadingWord(s[..n], t, Gaps(t), Words(t));
      assert s[..n] + t == s;
    }
  }

  /** `" ".join(ws)`, the empty string for no words. */
  function Unwords(ws: seq<string>): string {
    if |ws| == 0 then "" else Join(ws, ' ')
  }

  lemma {:induction false} WordsSkipsLeadingSpace(s: string)
    requires |s| > 0 && IsSpace(s[0])
    ensures Words(s) == Words(s[1..])
  {
  }

  lemma {:induction false} RunLengthOfWord(w: string, t: string)
    requires IsWord(w)
    requires |t| == 0 || IsSpace(t[0])
    ensures RunLength(w + t) == |w|
    decreases |w|
  {
    if |w| > 1 {
      assert (w + t)[1..] == w[1..] + t;
      RunLengthOfWord(w[1..], t);
    } else {
      assert (w + t)[1..] == t;
    }
  }

  /** Splitting words joined by single spaces gives the words back. */
  lemma {:induction false} WordsUnwords(ws: seq<string>)
    requires forall i :: 0 <= i < |ws| ==> IsWord(ws[i])
    ensures Words(Unwords(ws)) == ws
  {
    if |ws| == 1 {
      RunLengthOfWord(ws[0], "");
      assert ws[0][..|ws[0]|] == ws[0];
    } else if |ws| > 1 {
      var w, rest := ws[0], Unwords(ws[1..]);
      var s := w + [' '] + rest;
      assert Unwords(ws) == s;
      RunLengthOfWord(w, [' '] + rest);
      assert s == w + ([' '] + rest);
      assert s[..|w|] == w;
      assert s[|w|..] == [' '] + rest;
      WordsSkipsLeadingSpace([' '] + rest);
      assert ([' '] + rest)[1..] == rest;
      WordsUnwords(ws[1..]);
      assert [w] + ws[1..] == ws;
    }
  }
}
