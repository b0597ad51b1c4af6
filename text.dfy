/**
 * The pieces of Python's string behaviour the token engine relies on: whitespace
 * splitting (`str.split()` and `bytes.split()` with no separator), `' '.join`,
 * substring membership (`sub in s`), `str.upper()`, `str.replace` of one
 * character and `str(int)`.
 */
module Text {

  /** Which characters separate words. `bytes.split()` splits on ASCII
      whitespace only; `str.split()` also on Python's other Unicode whitespace. */
  datatype Whitespace = BytesWhitespace | StrWhitespace

  predicate IsSpace(ws: Whitespace, c: char) {
    || c == ' '
    || ('\t' <= c <= '\r')
    || (ws == StrWhitespace &&
        (|| ('\U{1C}' <= c <= '\U{1F}')
         || c == '\U{85}' || c == '\U{A0}' || c == '\U{1680}'
         || ('\U{2000}' <= c <= '\U{200A}')
         || c == '\U{2028}' || c == '\U{2029}' || c == '\U{202F}'
         || c == '\U{205F}' || c == '\U{3000}'))
  }

  /** A word: non-empty and free of separators. */
  predicate IsWord(ws: Whitespace, w: string) {
    w != [] && forall k | 0 <= k < |w| :: !IsSpace(ws, w[k])
  }

  /** Length of the longest separator-free prefix of `s`. */
  function WordLen(ws: Whitespace, s: string): (n: nat)
    ensures n <= |s|
    ensures forall k | 0 <= k < n :: !IsSpace(ws, s[k])
    ensures n < |s| ==> IsSpace(ws, s[n])
  {
    if s == [] || IsSpace(ws, s[0]) then 0 else 1 + WordLen(ws, s[1..])
  }

  /** `s.split()`: the maximal runs of non-separators, left to right. */
  function Split(ws: Whitespace, s: string): (words: seq<string>)
    ensures forall i | 0 <= i < |words| :: IsWord(ws, words[i])
    decreases |s|
  {
    if s == [] then []
    else if IsSpace(ws, s[0]) then Split(ws, s[1..])
    else
      var n := WordLen(ws, s);
      [s[..n]] + Split(ws, s[n..])
  }

  /** `' '.join(xs)`. */
  function Join(xs: seq<string>): string {
    if xs == [] then ""
    else if |xs| == 1 then xs[0]
    else xs[0] + " " + Join(xs[1..])
  }

  /** `s[i..j]` is a whole word of `s`: separator-free and bounded by
      separators or the ends of `s`. */
  ghost predicate IsWordAt(ws: Whitespace, s: string, i: int, j: int) {
    && 0 <= i < j <= |s|
    && (i == 0 || IsSpace(ws, s[i - 1]))
    && (j == |s| || IsSpace(ws, s[j]))
    && forall k | i <= k < j :: !IsSpace(ws, s[k])
  }

  ghost predicate OccursAsWord(ws: Whitespace, w: string, s: string) {
    exists i, j :: IsWordAt(ws, s, i, j) && s[i..j] == w
  }

  /** The separator-free prefix is determined by its two defining properties. */
  lemma WordLenUnique(ws: Whitespace, s: string, n: nat)
    requires n <= |s|
    requires forall k | 0 <= k < n :: !IsSpace(ws, s[k])
    requires n < |s| ==> IsSpace(ws, s[n])
    ensures WordLen(ws, s) == n
  {
  }

  lemma WordAtStart(ws: Whitespace, s: string, j: int)
    ensures IsWordAt(ws, s, 0, j) ==> j == WordLen(ws, s)
  {
    if IsWordAt(ws, s, 0, j) {
      WordLenUnique(ws, s, j);
    }
  }

  /** A whole word of `s` lying at or after position `d` is a whole word of `s[d..]`. */
  lemma WordAtInSuffix(ws: Whitespace, s: string, d: nat, i: int, j: int)
    requires d <= i
    requires IsWordAt(ws, s, i, j)
    ensures IsWordAt(ws, s[d..], i - d, j - d) && s[d..][i - d..j - d] == s[i..j]
  {
    var t := s[d..];
    forall k | i - d <= k < j - d
      ensures !IsSpace(ws, t[k])
    {
      assert t[k] == s[k + d];
    }
    assert i - d > 0 ==> t[i - d - 1] == s[i - 1];
    assert j - d < |t| ==> t[j - d] == s[j];
  }

  /** A whole word of `s[d..]` is a whole word of `s` when it cannot be glued
      to the character in front of the suffix. */
  lemma WordAtFromSuffix(ws: Whitespace, s: string, d: nat, i: int, j: int)
    requires d <= |s|
    requires IsWordAt(ws, s[d..], i, j)
    requires i > 0 || d == 0 || IsSpace(ws, s[d - 1])
    ensures IsWordAt(ws, s, i + d, j + d) && s[i + d..j + d] == s[d..][i..j]
  {
    var t := s[d..];
    forall k | i + d <= k < j + d
      ensures !IsSpace(ws, s[k])
    {
      assert t[k - d] == s[k];
    }
    assert i > 0 ==> t[i - 1] == s[i + d - 1];
    assert j < |t| ==> t[j] == s[j + d];
  }

  /** Leading separators do not change the words of a string. */
  lemma WordsAfterSpace(ws: Whitespace, s: string, w: string)
    requires s != [] && IsSpace(ws, s[0])
    ensures OccursAsWord(ws, w, s) <==> OccursAsWord(ws, w, s[1..])
  {
    if OccursAsWord(ws, w, s) {
      var i, j :| IsWordAt(ws, s, i, j) && s[i..j] == w;
      assert !IsSpace(ws, s[i]);
      WordAtInSuffix(ws, s, 1, i, j);
    }
    if OccursAsWord(ws, w, s[1..]) {
      var i, j :| IsWordAt(ws, s[1..], i, j) && s[1..][i..j] == w;
      WordAtFromSuffix(ws, s, 1, i, j);
    }
  }

  /** The words of a string that starts with a word are that word and the
      words of the rest. */
  lemma WordsAfterWord(ws: Whitespace, s: string, w: string)
    requires s != [] && !IsSpace(ws, s[0])
    ensures var n := WordLen(ws, s);
      OccursAsWord(ws, w, s) <==> w == s[..n] || OccursAsWord(ws, w, s[n..])
  {
    var n := WordLen(ws, s);
    var t := s[n..];
    assert IsWordAt(ws, s, 0, n);
    if OccursAsWord(ws, w, s) {
      var i, j :| IsWordAt(ws, s, i, j) && s[i..j] == w;
      WordAtStart(ws, s, j);
      if i != 0 {
        assert IsSpace(ws, s[i - 1]);
        WordAtInSuffix(ws, s, n, i, j);
      }
    }
    if OccursAsWord(ws, w, t) {
      var i, j :| IsWordAt(ws, t, i, j) && t[i..j] == w;
      assert !IsSpace(ws, t[i]);
      WordAtFromSuffix(ws, s, n, i, j);
    }
  }

  /** `split()` returns exactly the whole words of the string: `w` is among
      the results iff it occurs in `s` bounded by separators or the ends. */
  lemma {:induction false} SplitFindsExactlyTheWords(ws: Whitespace, s: string, w: string)
    ensures w in Split(ws, s) <==> OccursAsWord(ws, w, s)
    decreases |s|
  {
    if s == [] {
    } else if IsSpace(ws, s[0]) {
      SplitFindsExactlyTheWords(ws, s[1..], w);
      WordsAfterSpace(ws, s, w);
    } else {
      var n := WordLen(ws, s);
      SplitFindsExactlyTheWords(ws, s[n..], w);
      WordsAfterWord(ws, s, w);
    }
  }

  /** A separator cuts a string into two independently split halves; so
      splitting ignores how many separators stand between words. */
  lemma {:induction false} SplitAtSpace(ws: Whitespace, a: string, c: char, b: string)
    requires IsSpace(ws, c)
    ensures Split(ws, a + [c] + b) == Split(ws, a) + Split(ws, b)
    decreases |a|
  {
    var s := a + [c] + b;
    if a == [] {
      assert s[1..] == b;
    } else if IsSpace(ws, a[0]) {
      assert s[1..] == a[1..] + [c] + b;
      SplitAtSpace(ws, a[1..], c, b);
    } else {
      var m := WordLen(ws, a);
      assert IsSpace(ws, s[m]);
      WordLenUnique(ws, s, m);
      assert s[..m] == a[..m];
      assert s[m..] == a[m..] + [c] + b;
      SplitAtSpace(ws, a[m..], c, b);
    }
  }

  lemma SplitOneWord(ws: Whitespace, w: string)
    requires IsWord(ws, w)
    ensures Split(ws, w) == [w]
  {
    WordLenUnique(ws, w, |w|);
    assert w[..|w|] == w;
    assert w[|w|..] == [];
  }

  /** Joining words with single spaces and splitting again gives the words back. */
  lemma {:induction false} SplitJoin(ws: Whitespace, xs: seq<string>)
    requires forall i | 0 <= i < |xs| :: IsWord(ws, xs[i])
    ensures Split(ws, Join(xs)) == xs
  {
    if xs == [] {
    } else if |xs| == 1 {
      SplitOneWord(ws, xs[0]);
    } else {
      SplitJoin(ws, xs[1..]);
      SplitAtSpace(ws, xs[0], ' ', Join(xs[1..]));
      SplitOneWord(ws, xs[0]);
      assert Join(xs) == xs[0] + [' '] + Join(xs[1..]);
      assert xs == [xs[0]] + xs[1..];
    }
  }

  ghost predicate OccursAt(s: string, sub: string, i: int) {
    0 <= i <= |s| - |sub| && s[i..i + |sub|] == sub
  }

  /** Python's `sub in s` on strings: `sub` is a contiguous piece of `s`. */
  function Contains(s: string, sub: string): (r: bool)
    ensures r <==> exists i :: OccursAt(s, sub, i)
    decreases |s|
  {
    if |sub| > |s| then false
    else if s[..|sub|] == sub then assert OccursAt(s, sub, 0); true
    else
      var r := Contains(s[1..], sub);
      assert r ==> exists i :: OccursAt(s, sub, i) by {
        if r {
          var i :| OccursAt(s[1..], sub, i);
          assert OccursAt(s, sub, i + 1);
        }
      }
      assert (exists i :: OccursAt(s, sub, i)) ==> r by {
        if exists i :: OccursAt(s, sub, i) {
          var i :| OccursAt(s, sub, i);
          assert i != 0;
          assert OccursAt(s[1..], sub, i - 1);
        }
      }
      r
  }

  /** A word that `split()` finds is in particular a substring. */
  lemma WordIsSubstring(ws: Whitespace, s: string, w: string)
    requires w in Split(ws, s)
    ensures Contains(s, w)
  {
    SplitFindsExactlyTheWords(ws, s, w);
    var i, j :| IsWordAt(ws, s, i, j) && s[i..j] == w;
    assert OccursAt(s, w, i);
  }

  /** ASCII case mapping of `str.upper()`. */
  function UpperChar(c: char): char {
    if 'a' <= c <= 'z' then (c as int - 32) as char else c
  }

  function Upper(s: string): (r: string)
    ensures |r| == |s|
  {
    seq(|s|, i requires 0 <= i < |s| => UpperChar(s[i]))
  }

  /** `s.replace(from, to)` for one-character `from` and `to`. */
  function ReplaceChar(s: string, from: char, to: char): (r: string)
    ensures |r| == |s|
  {
    seq(|s|, i requires 0 <= i < |s| => if s[i] == from then to else s[i])
  }

  function DigitChar(d: nat): (c: char)
    requires d < 10
    ensures c as int == '0' as int + d
  {
    (d + '0' as int) as char
  }

  /** The number a string of decimal digits denotes, most significant first. */
  function DigitsValue(s: string): int {
    if s == [] then 0
    else 10 * DigitsValue(s[..|s| - 1]) + (s[|s| - 1] as int - '0' as int)
  }

  /** `str(n)` for a natural number: canonical decimal digits denoting `n`. */
  function NatToString(n: nat): (s: string)
    ensures s != []
    ensures forall k | 0 <= k < |s| :: '0' <= s[k] <= '9'
    ensures s[0] == '0' <==> n == 0
    ensures DigitsValue(s) == n
  {
    if n < 10 then [DigitChar(n)]
    else
      var s := NatToString(n / 10) + [DigitChar(n % 10)];
      assert s[..|s| - 1] == NatToString(n / 10);
      s
  }

  /** `str(i)` for an integer: an optional minus sign, then the digits of the
      magnitude. */
  function IntToString(i: int): (s: string)
    ensures s != []
    ensures s[0] == '-' <==> i < 0
    ensures var start := if i < 0 then 1 else 0;
      && |s| > start
      && (forall k | start <= k < |s| :: '0' <= s[k] <= '9')
      && (s[start] == '0' <==> i == 0)
    ensures i >= 0 ==> DigitsValue(s) == i
    ensures i < 0 ==> DigitsValue(s[1..]) == -i
  {
    if i < 0 then
      var s := "-" + NatToString(-i);
      assert s[1..] == NatToString(-i);
      s
    else NatToString(i)
  }

  /** Different integers have different decimal forms. */
  lemma IntToStringInjective(a: int, b: int)
    requires IntToString(a) == IntToString(b)
    ensures a == b
  {
  }
}
