/** Python strings as sequences of code points: their order, and the text functions used. */
module Text {
  import opened Bags

  /** The order of Python's `<=` on strings: lexicographic by code point. */
  predicate Le(a: string, b: string) {
    a == "" || (b != "" && (a[0] < b[0] || (a[0] == b[0] && Le(a[1..], b[1..]))))
  }

  lemma {:induction false} LeReflexive(a: string)
    ensures Le(a, a)
  {
    if a != "" {
      LeReflexive(a[1..]);
    }
  }

  lemma {:induction false} LeTotal(a: string, b: string)
    ensures Le(a, b) || Le(b, a)
  {
    if a != "" && b != "" {
      LeTotal(a[1..], b[1..]);
    }
  }

  lemma {:induction false} LeAntisymmetric(a: string, b: string)
    requires Le(a, b) && Le(b, a)
    ensures a == b
  {
    if a != "" && b != "" {
      LeAntisymmetric(a[1..], b[1..]);
      assert a == [a[0]] + a[1..] && b == [b[0]] + b[1..];
    }
  }

  lemma {:induction false} LeTransitive(a: string, b: string, c: string)
    requires Le(a, b) && Le(b, c)
    ensures Le(a, c)
  {
    if a != "" && b != "" && c != "" && a[0] == b[0] == c[0] {
      LeTransitive(a[1..], b[1..], c[1..]);
    }
  }

  /** A separator that occurs in neither left part marks the same place in equal texts. */
  lemma SplitUnique(a: string, s: string, b: string, t: string, mark: char)
    requires mark !in a && mark !in b
    requires a + [mark] + s == b + [mark] + t
    ensures a == b && s == t
  {
    var x, y := a + [mark] + s, b + [mark] + t;
    assert x[|a|] == mark && y[|b|] == mark;
    assert |a| == |b|;
    assert a == x[..|a|] && b == y[..|b|];
    assert s == x[|a| + 1..] && t == y[|b| + 1..];
  }

  // ----- white space and words -----------------------------------------------------------

  /** The characters at which Python's `splitlines` ends a line. */
  predicate IsLineBreak(c: char) {
    || '\n' <= c <= '\r'
    || '\U{1c}' <= c <= '\U{1e}'
    || c == '\U{85}' || c == '\U{2028}' || c == '\U{2029}'
  }

  /** The characters Python's `strip` and `split` treat as white space. */
  predicate IsSpace(c: char) {
    || IsLineBreak(c)
    || c == ' ' || c == '\t' || c == '\U{1f}' || c == '\U{a0}' || c == '\U{1680}'
    || c == '\U{202f}' || c == '\U{205f}' || c == '\U{3000}'
    || '\U{2000}' <= c <= '\U{200a}'
  }

  /** Python's `s.strip()`. */
  function Strip(s: string): string { StripRight(StripLeft(s)) }

  function StripLeft(s: string): string {
    if s != "" && IsSpace(s[0]) then StripLeft(s[1..]) else s
  }

  function StripRight(s: string): string {
    if s != "" && IsSpace(s[|s| - 1]) then StripRight(s[..|s| - 1]) else s
  }

  /** Lower case for the letters A to Z; other characters are left alone. */
  function Lower(c: char): char {
    if 'A' <= c <= 'Z' then c - 'A' + 'a' else c
  }

  function LowerAll(s: string): string {
    seq(|s|, i requires 0 <= i < |s| => Lower(s[i]))
  }

  /** Number of characters before the first white space. */
  function RunLength(s: string): (n: nat)
    ensures n <= |s|
    ensures forall i :: 0 <= i < n ==> !IsSpace(s[i])
    ensures n < |s| ==> IsSpace(s[n])
  {
    if s == "" || IsSpace(s[0]) then 0 else 1 + RunLength(s[1..])
  }

  /** Python's `s.split()`. */
  function Words(s: string): seq<string>
    decreases |s|
  {
    if s == "" then []
    else if IsSpace(s[0]) then Words(s[1..])
    else [s[..RunLength(s)]] + Words(s[RunLength(s)..])
  }

  /** `s[i..j]` is a stretch without white space that cannot be made longer. */
  ghost predicate MaximalRun(s: string, i: nat, j: nat) {
    && i < j <= |s|
    && (forall k :: i <= k < j ==> !IsSpace(s[k]))
    && (i == 0 || IsSpace(s[i - 1]))
    && (j == |s| || IsSpace(s[j]))
  }

  ghost predicate IsWord(s: string, w: string) {
    exists i: nat, j: nat :: MaximalRun(s, i, j) && s[i..j] == w
  }

  lemma ShiftWord(s: string, n: nat, w: string)
    requires n <= |s| && (n == 0 || n == |s| || IsSpace(s[n - 1]) || IsSpace(s[n]))
    requires IsWord(s[n..], w)
    ensures IsWord(s, w)
  {
    var t := s[n..];
    var i: nat, j: nat :| MaximalRun(t, i, j) && t[i..j] == w;
    assert t[i] == s[n + i];
    assert i > 0 ==> t[i - 1] == s[n + i - 1];
    assert j < |t| ==> t[j] == s[n + j];
    forall k | n + i <= k < n + j ensures !IsSpace(s[k]) {
      assert s[k] == t[k - n];
    }
    forall k | 0 <= k < j - i ensures s[n + i..n + j][k] == t[i..j][k] {}
    assert s[n + i..n + j] == t[i..j];
    assert MaximalRun(s, n + i, n + j) && s[n + i..n + j] == w;
  }

  /** Splitting finds exactly the maximal stretches without white space. */
  lemma {:induction false} WordsAreMaximalRuns(s: string, w: string)
    ensures w in Words(s) <==> IsWord(s, w)
    decreases |s|
  {
    if s != "" {
      var first := !IsSpace(s[0]);
      var n := if first then RunLength(s) else 1;
      WordsAreMaximalRuns(s[n..], w);
      if first {
        assert MaximalRun(s, 0, n);
      }
      if w in Words(s[n..]) {
        ShiftWord(s, n, w);
      }
      if IsWord(s, w) {
        var i: nat, j: nat :| MaximalRun(s, i, j) && s[i..j] == w;
        if i >= n {
          UnshiftWord(s, n, i, j);
        } else {
          assert i == 0 && first && j == n;
        }
      }
    }
  }

  lemma UnshiftWord(s: string, n: nat, i: nat, j: nat)
    requires n <= i && MaximalRun(s, i, j)
    ensures IsWord(s[n..], s[i..j])
  {
    var t := s[n..];
    assert t[i - n] == s[i];
    assert i > n ==> t[i - n - 1] == s[i - 1];
    assert j < |s| ==> t[j - n] == s[j];
    forall k | i - n <= k < j - n ensures !IsSpace(t[k]) {
      assert t[k] == s[n + k];
    }
    assert t[i - n..j - n] == s[i..j];
    assert MaximalRun(t, i - n, j - n) && t[i - n..j - n] == s[i..j];
  }

  predicate IsLong(w: string) { |w| > 1 }

  function LongWords(s: string): nat { Count(Words(s), IsLong) }

  /** Words of two or more characters take at least three with what separates them. */
  lemma {:induction false} LongWordsFew(s: string)
    ensures 3 * LongWords(s) <= |s| + 1
    decreases |s|
  {
    if s != "" {
      if IsSpace(s[0]) {
        LongWordsFew(s[1..]);
      } else {
        var n := RunLength(s);
        var rest := s[n..];
        WordsOfRest(s);
        if rest != "" {
          LongWordsFew(rest[1..]);
        }
      }
    }
  }

  lemma WordsOfRest(s: string)
    requires s != "" && !IsSpace(s[0])
    ensures var n := RunLength(s);
            && n > 0
            && LongWords(s) == (if n > 1 then 1 else 0) + if n == |s| then 0 else LongWords(s[n..][1..])
  {
    var n := RunLength(s);
    var first, more := [s[..n]], Words(s[n..]);
    assert Words(s) == first + more;
    KeepSplit(first, more, IsLong);
    assert first[1..] == [];
    if n < |s| {
      assert IsSpace(s[n..][0]);
    }
  }
}
