/**
 * The string primitives the script relies on: Python's notion of a
 * whitespace character, `str.split()` with no separator and `str.strip()`.
 */
module Text {

  /**
   * Python's `str.isspace` for one character, which is also what `str.split()`
   * and `str.strip()` without arguments treat as whitespace: the code points of
   * bidirectional class WS, B or S, or of category Zs.
   */
  predicate IsSpace(c: char)
    ensures c == ' ' || c == '\t' || c == '\n' || c == '\r' ==> IsSpace(c)
    ensures '0' <= c <= '9' ==> !IsSpace(c)
  {
    var n := c as int;
    || 0x09 <= n <= 0x0D
    || 0x1C <= n <= 0x20
    || n == 0x85
    || n == 0xA0
    || n == 0x1680
    || 0x2000 <= n <= 0x200A
    || n == 0x2028
    || n == 0x2029
    || n == 0x202F
    || n == 0x205F
    || n == 0x3000
  }

  /** A token `str.split()` can produce: non-empty and free of whitespace. */
  predicate IsWord(t: string)
  {
    |t| > 0 && forall k :: 0 <= k < |t| ==> !IsSpace(t[k])
  }

  /** The number of leading characters of `s` before its first whitespace. */
  function TokenLength(s: string): (n: nat)
    ensures n <= |s|
    ensures forall k :: 0 <= k < n ==> !IsSpace(s[k])
    ensures n < |s| ==> IsSpace(s[n])
  {
    if s == [] || IsSpace(s[0]) then 0 else 1 + TokenLength(s[1..])
  }

  /** `s.split()`: the maximal runs of non-whitespace characters, in order. */
  function Split(s: string): (tokens: seq<string>)
    ensures |s| > 0 && !IsSpace(s[0]) ==> tokens != [] && tokens[0] == s[..TokenLength(s)]
    decreases |s|
  {
    if s == [] then []
    else if IsSpace(s[0]) then Split(s[1..])
    else
      var n := TokenLength(s);
      [s[..n]] + Split(s[n..])
  }

  /** `Split` yields no empty token and no token holding whitespace. */
  lemma {:induction false} SplitWords(s: string)
    ensures forall t :: t in Split(s) ==> IsWord(t)
    decreases |s|
  {
    if s == [] {
    } else if IsSpace(s[0]) {
      SplitWords(s[1..]);
    } else {
      SplitWords(s[TokenLength(s)..]);
    }
  }

  /**
   * `s[i..j]` is a whitespace-delimited token of `s`: it is non-empty, holds
   * no whitespace, and is bounded on each side by whitespace or an end of `s`.
   */
  ghost predicate TokenAt(s: string, i: int, j: int)
  {
    && 0 <= i < j <= |s|
    && (forall k :: i <= k < j ==> !IsSpace(s[k]))
    && (i == 0 || IsSpace(s[i - 1]))
    && (j == |s| || IsSpace(s[j]))
  }

  /** A token of a suffix of `s` is a token of `s` when it does not start the suffix right after a non-space. */
  lemma TokenAtShift(s: string, d: nat, i: int, j: int)
    requires d <= |s| && TokenAt(s[d..], i, j)
    requires i > 0 || d == 0 || IsSpace(s[d - 1])
    ensures TokenAt(s, i + d, j + d) && s[i + d..j + d] == s[d..][i..j]
  {
    assert forall k :: i + d <= k < j + d ==> s[k] == s[d..][k - d];
    assert i > 0 ==> s[i + d - 1] == s[d..][i - 1];
    assert j + d < |s| ==> s[j + d] == s[d..][j];
  }

  /** A token of `s` that starts at or after `d` is a token of the suffix `s[d..]`. */
  lemma TokenAtSuffix(s: string, d: nat, i: int, j: int)
    requires TokenAt(s, i, j) && d <= i
    ensures TokenAt(s[d..], i - d, j - d) && s[d..][i - d..j - d] == s[i..j]
  {
    var t := s[d..];
    forall k | i - d <= k < j - d ensures !IsSpace(t[k]) {
      assert t[k] == s[k + d];
    }
    if i > d {
      assert t[i - d - 1] == s[i - 1];
    }
    if j < |s| {
      assert t[j - d] == s[j];
    }
  }

  /** A run of non-space characters from `start` ends at one place only. */
  lemma RunEndUnique(s: string, start: int, p: int, q: int)
    requires 0 <= start <= p <= |s| && start <= q <= |s|
    requires forall k :: start <= k < p ==> !IsSpace(s[k])
    requires forall k :: start <= k < q ==> !IsSpace(s[k])
    requires p == |s| || IsSpace(s[p])
    requires q == |s| || IsSpace(s[q])
    ensures p == q
  {
  }

  /** Every token `Split` returns is a whitespace-delimited token of `s`. */
  lemma {:induction false} SplitSound(s: string, w: string)
    requires w in Split(s)
    ensures exists i, j :: TokenAt(s, i, j) && s[i..j] == w
    decreases |s|
  {
    if IsSpace(s[0]) {
      SplitSound(s[1..], w);
      var i, j :| TokenAt(s[1..], i, j) && s[1..][i..j] == w;
      TokenAtShift(s, 1, i, j);
    } else {
      var n := TokenLength(s);
      if w == s[..n] {
        assert TokenAt(s, 0, n) && s[0..n] == w;
      } else {
        assert w in Split(s[n..]);
        SplitSound(s[n..], w);
        var i, j :| TokenAt(s[n..], i, j) && s[n..][i..j] == w;
        assert n < |s| && IsSpace(s[n..][0]);
        TokenAtShift(s, n, i, j);
      }
    }
  }

  /** Every whitespace-delimited token of `s` is returned by `Split`. */
  lemma {:induction false} SplitComplete(s: string, i: int, j: int)
    requires TokenAt(s, i, j)
    ensures s[i..j] in Split(s)
    decreases |s|, 1
  {
    if IsSpace(s[0]) {
      SplitCompleteAfterSpace(s, i, j);
    } else if i == 0 {
      SplitCompleteFirst(s, j);
    } else {
      SplitCompleteLater(s, i, j);
    }
  }

  /** `SplitComplete` when `s` starts with whitespace. */
  lemma {:induction false} SplitCompleteAfterSpace(s: string, i: int, j: int)
    requires TokenAt(s, i, j) && IsSpace(s[0])
    ensures s[i..j] in Split(s)
    decreases |s|, 0
  {
    assert i != 0 by {
      assert !IsSpace(s[i]);
    }
    TokenAtSuffix(s, 1, i, j);
    SplitComplete(s[1..], i - 1, j - 1);
  }

  /** `SplitComplete` for the token that starts `s`. */
  lemma SplitCompleteFirst(s: string, j: int)
    requires TokenAt(s, 0, j)
    ensures s[0..j] in Split(s)
  {
    var n := TokenLength(s);
    RunEndUnique(s, 0, j, n);
    assert Split(s) == [s[..n]] + Split(s[n..]);
  }

  /** `SplitComplete` for a later token of `s` when `s` starts with a token. */
  lemma {:induction false} SplitCompleteLater(s: string, i: int, j: int)
    requires TokenAt(s, i, j) && !IsSpace(s[0]) && i > 0
    ensures s[i..j] in Split(s)
    decreases |s|, 0
  {
    var n := TokenLength(s);
    assert n < i by {
      assert IsSpace(s[i - 1]);
    }
    TokenAtSuffix(s, n, i, j);
    SplitComplete(s[n..], i - n, j - n);
    assert Split(s) == [s[..n]] + Split(s[n..]);
  }

  /** `Split` returns exactly the whitespace-delimited tokens of `s`. */
  lemma SplitTokens(s: string)
    ensures forall w :: w in Split(s) <==> exists i, j :: TokenAt(s, i, j) && s[i..j] == w
  {
    forall w ensures w in Split(s) <==> exists i, j :: TokenAt(s, i, j) && s[i..j] == w {
      if w in Split(s) {
        SplitSound(s, w);
      }
      if exists i, j :: TokenAt(s, i, j) && s[i..j] == w {
        var i, j :| TokenAt(s, i, j) && s[i..j] == w;
        SplitComplete(s, i, j);
      }
    }
  }

  /** A string splits into no tokens exactly when it is all whitespace. */
  lemma {:induction false} SplitEmpty(s: string)
    ensures Split(s) == [] <==> forall k :: 0 <= k < |s| ==> IsSpace(s[k])
    decreases |s|
  {
    if s != [] && IsSpace(s[0]) {
      SplitEmpty(s[1..]);
      assert forall k :: 1 <= k < |s| ==> s[k] == s[1..][k - 1];
    }
  }

  /** Whitespace after `a` does not lengthen its first token. */
  lemma TokenLengthAppend(a: string, b: string)
    requires b == [] || IsSpace(b[0])
    ensures TokenLength(a + b) == TokenLength(a)
  {
    var n, m := TokenLength(a), TokenLength(a + b);
    forall k | 0 <= k < n ensures !IsSpace((a + b)[k]) {
      assert (a + b)[k] == a[k];
    }
    if n < |a| {
      assert (a + b)[n] == a[n];
    } else if n < |a + b| {
      assert (a + b)[n] == b[0];
    }
    RunEndUnique(a + b, 0, n, m);
  }

  /** Text ending where whitespace begins splits independently of what follows. */
  lemma {:induction false} SplitAppend(a: string, b: string)
    requires b == [] || IsSpace(b[0])
    ensures Split(a + b) == Split(a) + Split(b)
    decreases |a|
  {
    if a == [] {
      assert a + b == b;
    } else if IsSpace(a[0]) {
      assert (a + b)[1..] == a[1..] + b;
      SplitAppend(a[1..], b);
    } else {
      var n := TokenLength(a);
      TokenLengthAppend(a, b);
      assert (a + b)[..n] == a[..n];
      assert (a + b)[n..] == a[n..] + b;
      SplitAppend(a[n..], b);
    }
  }

  /** A single word splits into itself. */
  lemma SplitWord(w: string)
    requires IsWord(w)
    ensures Split(w) == [w]
  {
    var n := TokenLength(w);
    assert n == |w|;
    assert w[..n] == w;
    assert Split(w[n..]) == [];
  }

  /** Words written one per line, as the script expects its input file. */
  function Lines(words: seq<string>): string
  {
    if words == [] then []
    else if |words| == 1 then words[0]
    else words[0] + "\n" + Lines(words[1..])
  }

  /** Splitting a one-word-per-line text gives back the words, in order. */
  lemma {:induction false} SplitLines(words: seq<string>)
    requires forall w :: w in words ==> IsWord(w)
    ensures Split(Lines(words)) == words
  {
    if words == [] {
    } else if |words| == 1 {
      SplitWord(words[0]);
    } else {
      var rest := "\n" + Lines(words[1..]);
      assert Lines(words) == words[0] + rest;
      SplitAppend(words[0], rest);
      SplitWord(words[0]);
      assert rest[0] == '\n' && rest[1..] == Lines(words[1..]);
      assert Split(rest) == Split(rest[1..]);
      SplitLines(words[1..]);
      assert words == [words[0]] + words[1..];
    }
  }

  /** Where the leading whitespace of `s` ends: the start of what `s.lstrip()` keeps. */
  function LeadingEnd(s: string): (i: nat)
    ensures i <= |s|
    ensures forall k :: 0 <= k < i ==> IsSpace(s[k])
    ensures i < |s| ==> !IsSpace(s[i])
    decreases |s|
  {
    if s != [] && IsSpace(s[0]) then 1 + LeadingEnd(s[1..]) else 0
  }

  /** Where the trailing whitespace of `s` starts: the end of what `s.rstrip()` keeps. */
  function TrailingStart(s: string): (j: nat)
    ensures j <= |s|
    ensures forall k :: j <= k < |s| ==> IsSpace(s[k])
    ensures 0 < j ==> !IsSpace(s[j - 1])
    decreases |s|
  {
    if s != [] && IsSpace(s[|s| - 1]) then TrailingStart(s[..|s| - 1]) else |s|
  }

  /**
   * `s.strip()`: the part of `s` between its leading and trailing whitespace,
   * empty when `s` is whitespace only.
   */
  function Strip(s: string): (r: string)
    ensures exists i, j ::
      && 0 <= i <= j <= |s| && r == s[i..j]
      && (forall k :: 0 <= k < i ==> IsSpace(s[k]))
      && (forall k :: j <= k < |s| ==> IsSpace(s[k]))
    ensures r != [] ==> !IsSpace(r[0]) && !IsSpace(r[|r| - 1])
  {
    var i := LeadingEnd(s);
    var j := TrailingStart(s);
    if i < j then
      s[i..j]
    else
      assert i == |s|;
      assert s[i..i] == [];
      []
  }

  /** A run of whitespace from the start of `s` ends at one place only. */
  lemma LeadingRunUnique(s: string, p: int, q: int)
    requires 0 <= p <= |s| && 0 <= q <= |s|
    requires forall k :: 0 <= k < p ==> IsSpace(s[k])
    requires forall k :: 0 <= k < q ==> IsSpace(s[k])
    requires p == |s| || !IsSpace(s[p])
    requires q == |s| || !IsSpace(s[q])
    ensures p == q
  {
  }

  /** A run of whitespace up to the end of `s` starts at one place only. */
  lemma TrailingRunUnique(s: string, p: int, q: int)
    requires 0 <= p <= |s| && 0 <= q <= |s|
    requires forall k :: p <= k < |s| ==> IsSpace(s[k])
    requires forall k :: q <= k < |s| ==> IsSpace(s[k])
    requires p == 0 || !IsSpace(s[p - 1])
    requires q == 0 || !IsSpace(s[q - 1])
    ensures p == q
  {
  }

  /** Text bounded by non-space characters, with only whitespace around it, is what `strip` keeps. */
  lemma StripBetween(s: string, i: int, j: int)
    requires 0 <= i < j <= |s|
    requires forall k :: 0 <= k < i ==> IsSpace(s[k])
    requires forall k :: j <= k < |s| ==> IsSpace(s[k])
    requires !IsSpace(s[i]) && !IsSpace(s[j - 1])
    ensures Strip(s) == s[i..j]
  {
    LeadingRunUnique(s, LeadingEnd(s), i);
    TrailingRunUnique(s, TrailingStart(s), j);
  }
}
