/**
 * The few pieces of Python's string handling that the mirror relies on:
 * `str.split(':')` for the version record, `str.split()` and
 * `str.startswith` for `sigtool` output, `int(...)` for version numbers and
 * `'%d'` for diff step names.
 */
module Text {
  import opened Wrappers

  /** `s.startswith(prefix)` */
  predicate StartsWith(s: string, prefix: string) {
    |prefix| <= |s| && s[..|prefix|] == prefix
  }

  // ---------------------------------------------------------------------
  // str.split(sep) with a one-character separator
  // ---------------------------------------------------------------------

  /** `s.split(sep)`: the maximal runs between separators, empty ones kept. */
  function SplitOn(s: string, sep: char): (fields: seq<string>)
    ensures |fields| >= 1
    decreases |s|
  {
    if s == [] then [""]
    else
      var rest := SplitOn(s[1..], sep);
      if s[0] == sep then [""] + rest
      else [[s[0]] + rest[0]] + rest[1..]
  }

  /** `sep.join(fields)` */
  function JoinWith(fields: seq<string>, sep: char): string
    decreases |fields|
  {
    if |fields| == 0 then ""
    else if |fields| == 1 then fields[0]
    else fields[0] + [sep] + JoinWith(fields[1..], sep)
  }

  /** Joining the fields again gives back the original text. */
  lemma {:induction false} SplitJoin(s: string, sep: char)
    ensures JoinWith(SplitOn(s, sep), sep) == s
    decreases |s|
  {
    if s != [] {
      var rest := SplitOn(s[1..], sep);
      SplitJoin(s[1..], sep);
      if s[0] != sep && |rest| > 1 {
        assert JoinWith(rest, sep) == rest[0] + [sep] + JoinWith(rest[1..], sep);
        assert [s[0]] + rest[0] + [sep] + JoinWith(rest[1..], sep) == [s[0]] + s[1..];
      }
    }
  }

  /** No field contains the separator, and there is one field more than separators. */
  lemma {:induction false} SplitFields(s: string, sep: char)
    ensures forall i :: 0 <= i < |SplitOn(s, sep)| ==> sep !in SplitOn(s, sep)[i]
    ensures |SplitOn(s, sep)| == multiset(s)[sep] + 1
    decreases |s|
  {
    if s != [] {
      SplitFields(s[1..], sep);
      assert s == [s[0]] + s[1..];
      assert multiset(s) == multiset([s[0]]) + multiset(s[1..]);
    }
  }

  lemma {:induction false} SplitOnWord(a: string, sep: char)
    requires sep !in a
    ensures SplitOn(a, sep) == [a]
    decreases |a|
  {
    if a != [] {
      SplitOnWord(a[1..], sep);
      assert [a[0]] + a[1..] == a;
    }
  }

  lemma {:induction false} SplitOnAfterWord(a: string, rest: string, sep: char)
    requires sep !in a
    ensures SplitOn(a + [sep] + rest, sep) == [a] + SplitOn(rest, sep)
    decreases |a|
  {
    if a == [] {
      assert a + [sep] + rest == [sep] + rest;
      assert ([sep] + rest)[1..] == rest;
    } else {
      var s := a + [sep] + rest;
      assert s[1..] == a[1..] + [sep] + rest;
      SplitOnAfterWord(a[1..], rest, sep);
      assert [a[0]] + a[1..] == a;
    }
  }

  /** Splitting the join of separator-free fields gives the fields back. */
  lemma {:induction false} JoinSplit(fields: seq<string>, sep: char)
    requires |fields| >= 1
    requires forall i :: 0 <= i < |fields| ==> sep !in fields[i]
    ensures SplitOn(JoinWith(fields, sep), sep) == fields
    decreases |fields|
  {
    if |fields| == 1 {
      SplitOnWord(fields[0], sep);
    } else {
      JoinSplit(fields[1..], sep);
      SplitOnAfterWord(fields[0], JoinWith(fields[1..], sep), sep);
      assert [fields[0]] + fields[1..] == fields;
    }
  }

  // ---------------------------------------------------------------------
  // str.split() with no argument
  // ---------------------------------------------------------------------

  /** `c.isspace()` for a single character, as Python defines it. */
  predicate IsSpace(c: char) {
    var k := c as int;
    k == 32 || 9 <= k <= 13 || 28 <= k <= 31 || k == 0x85 || k == 0xA0 || k == 0x1680
    || 0x2000 <= k <= 0x200A || k == 0x2028 || k == 0x2029 || k == 0x202F || k == 0x205F
    || k == 0x3000
  }

  /** Length of the longest prefix of `s` that holds no whitespace. */
  function WordLength(s: string): (n: nat)
    ensures n <= |s|
    ensures forall i :: 0 <= i < n ==> !IsSpace(s[i])
    ensures n < |s| ==> IsSpace(s[n])
    decreases |s|
  {
    if s == [] || IsSpace(s[0]) then 0 else 1 + WordLength(s[1..])
  }

  /** `s.split()`: the maximal runs of non-whitespace characters, in order. */
  function Tokens(s: string): seq<string>
    decreases |s|
  {
    if s == [] then []
    else if IsSpace(s[0]) then Tokens(s[1..])
    else
      var n := WordLength(s);
      [s[..n]] + Tokens(s[n..])
  }

  /** The characters of `s` that are not whitespace, in order. */
  function NonSpace(s: string): string
    decreases |s|
  {
    if s == [] then "" else (if IsSpace(s[0]) then "" else [s[0]]) + NonSpace(s[1..])
  }

  function Concat(words: seq<string>): string
    decreases |words|
  {
    if words == [] then "" else words[0] + Concat(words[1..])
  }

  lemma {:induction false} NonSpaceAppend(a: string, b: string)
    ensures NonSpace(a + b) == NonSpace(a) + NonSpace(b)
    decreases |a|
  {
    if a != [] {
      var head := if IsSpace(a[0]) then "" else [a[0]];
      assert (a + b)[0] == a[0];
      assert (a + b)[1..] == a[1..] + b;
      NonSpaceAppend(a[1..], b);
      calc {
        NonSpace(a + b);
        head + NonSpace(a[1..] + b);
        head + (NonSpace(a[1..]) + NonSpace(b));
        (head + NonSpace(a[1..])) + NonSpace(b);
      }
    } else {
      assert a + b == b;
    }
  }

  lemma {:induction false} NonSpaceOfWord(w: string)
    requires forall i :: 0 <= i < |w| ==> !IsSpace(w[i])
    ensures NonSpace(w) == w
    decreases |w|
  {
    if w != [] {
      NonSpaceOfWord(w[1..]);
    }
  }

  /**
   * Every token is non-empty and free of whitespace, and together the tokens
   * are exactly the non-whitespace characters of `s`.
   */
  lemma {:induction false} TokensAreWords(s: string)
    ensures forall i :: 0 <= i < |Tokens(s)| ==> |Tokens(s)[i]| > 0
    ensures forall i, j :: 0 <= i < |Tokens(s)| && 0 <= j < |Tokens(s)[i]| ==> !IsSpace(Tokens(s)[i][j])
    ensures Concat(Tokens(s)) == NonSpace(s)
    decreases |s|
  {
    if s != [] {
      if IsSpace(s[0]) {
        TokensAreWords(s[1..]);
      } else {
        var n := WordLength(s);
        TokensAreWords(s[n..]);
        assert s == s[..n] + s[n..];
        NonSpaceAppend(s[..n], s[n..]);
        NonSpaceOfWord(s[..n]);
      }
    }
  }

  /** A non-empty word followed by a space: its first token is the word, the rest is split on. */
  lemma WordThenSpace(w: string, rest: string)
    requires |w| > 0 && forall i :: 0 <= i < |w| ==> !IsSpace(w[i])
    ensures Tokens(w + [' '] + rest) == [w] + Tokens(rest)
  {
    var s := w + [' '] + rest;
    var n := WordLength(s);
    assert s[|w|] == ' ' && IsSpace(s[|w|]);
    assert n == |w|;
    assert s[..n] == w;
    assert s[n..] == [' '] + rest;
    assert ([' '] + rest)[1..] == rest;
  }

  /** A non-empty word with no whitespace is its own only token. */
  lemma SingleWord(w: string)
    requires |w| > 0 && forall i :: 0 <= i < |w| ==> !IsSpace(w[i])
    ensures Tokens(w) == [w]
  {
    var n := WordLength(w);
    assert w[..n] == w && w[n..] == [];
  }

  /**
   * Splitting the space-join of non-empty, whitespace-free words gives the
   * words back: `str.split()` breaks exactly at whitespace and nowhere else.
   */
  lemma {:induction false} TokensOfJoin(words: seq<string>)
    requires forall i :: 0 <= i < |words| ==> |words[i]| > 0
    requires forall i, j :: 0 <= i < |words| && 0 <= j < |words[i]| ==> !IsSpace(words[i][j])
    ensures Tokens(JoinWith(words, ' ')) == words
    decreases |words|
  {
    if |words| == 1 {
      SingleWord(words[0]);
    } else if |words| > 1 {
      TokensOfJoin(words[1..]);
      WordThenSpace(words[0], JoinWith(words[1..], ' '));
      assert [words[0]] + words[1..] == words;
    }
  }

  // ---------------------------------------------------------------------
  // Decimal integers: '%d' % n and int(s)
  // ---------------------------------------------------------------------

  predicate IsDigit(c: char) {
    '0' <= c <= '9'
  }

  predicate IsDigits(s: string) {
    |s| > 0 && forall i :: 0 <= i < |s| ==> IsDigit(s[i])
  }

  function DigitChar(d: nat): (c: char)
    requires d < 10
    ensures IsDigit(c) && c as int - '0' as int == d
  {
    ('0' as int + d) as char
  }

  function DigitValue(c: char): nat
    requires IsDigit(c)
  {
    c as int - '0' as int
  }

  /** Value of a run of decimal digits, most significant first. */
  function DigitsValue(s: string): nat
    requires forall i :: 0 <= i < |s| ==> IsDigit(s[i])
    decreases |s|
  {
    if s == [] then 0
    else DigitsValue(s[..|s| - 1]) * 10 + DigitValue(s[|s| - 1])
  }

  /** The shortest decimal spelling of `n`. */
  function NatToDecimal(n: nat): (s: string)
    ensures IsDigits(s)
    decreases n
  {
    if n < 10 then [DigitChar(n)] else NatToDecimal(n / 10) + [DigitChar(n % 10)]
  }

  /** `'%d' % i` */
  function IntToDecimal(i: int): string {
    if i < 0 then "-" + NatToDecimal(-i) else NatToDecimal(i)
  }

  /**
   * `int(s)`: an optional sign followed by one or more ASCII digits. Every
   * other text is `None`, standing for the `ValueError` that `int` raises.
   */
  function ParseInt(s: string): (r: Option<int>)
    ensures r.Some? <==> IsDigits(s) || (|s| > 1 && s[0] in "+-" && IsDigits(s[1..]))
  {
    if |s| > 0 && (s[0] == '+' || s[0] == '-') then
      if IsDigits(s[1..]) then
        var v: int := DigitsValue(s[1..]);
        Some(if s[0] == '-' then -v else v)
      else None
    else if IsDigits(s) then Some(DigitsValue(s))
    else None
  }

  lemma {:induction false} DigitsOfDecimal(n: nat)
    ensures DigitsValue(NatToDecimal(n)) == n
    decreases n
  {
    if n >= 10 {
      var s := NatToDecimal(n);
      assert s[..|s| - 1] == NatToDecimal(n / 10);
      DigitsOfDecimal(n / 10);
    }
  }

  /** `int('%d' % i) == i`: rendering a number and reading it back is lossless. */
  lemma ParseDecimal(i: int)
    ensures ParseInt(IntToDecimal(i)) == Some(i)
  {
    if i < 0 {
      var d := NatToDecimal(-i);
      DigitsOfDecimal(-i);
      var s := "-" + d;
      assert s[0] == '-' && s[1..] == d;
      var v: int := DigitsValue(d);
      assert ParseInt(s) == Some(-v);
    } else {
      var d := NatToDecimal(i);
      DigitsOfDecimal(i);
      assert IsDigit(d[0]);
      assert ParseInt(d) == Some(DigitsValue(d));
    }
  }

  /** Different numbers are rendered differently. */
  lemma DecimalInjective(i: int, j: int)
    requires IntToDecimal(i) == IntToDecimal(j)
    ensures i == j
  {
    ParseDecimal(i);
    ParseDecimal(j);
  }
}
