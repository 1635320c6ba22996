/** Semantic versions (backend/app/cicd/gates.py:15-27): the parser against the grammar it stands
    for. */
module SemVer {
  import opened Options
  import opened Text

  /** The named groups of a version; pre-release and build may be missing. */
  datatype Groups = Groups(major: string, minor: string, patch: string, pre: Option<string>, build: Option<string>)

  /** What counts as a digit after the first one.  It is a parameter, because the pattern's class
      has every decimal digit of Unicode and not only those from 0 to 9. */
  ghost predicate IsDigitClass(digit: char -> bool) {
    && (forall c :: '0' <= c <= '9' ==> digit(c))
    && !digit('.') && !digit('-') && !digit('+')
    && forall c :: digit(c) ==> !IsSpace(c)
  }

  /** No leading zeros. */
  predicate IsNumber(digit: char -> bool, s: string) {
    s == "0" || (s != "" && '1' <= s[0] <= '9' && forall i :: 0 < i < |s| ==> digit(s[i]))
  }

  predicate IsTagChar(c: char) {
    '0' <= c <= '9' || 'A' <= c <= 'Z' || 'a' <= c <= 'z' || c == '.' || c == '-'
  }

  /** One or more letters, digits, dots and hyphens; empty identifiers between dots are accepted. */
  predicate IsTag(s: string) { s != "" && forall i :: 0 <= i < |s| ==> IsTagChar(s[i]) }

  predicate WellFormed(digit: char -> bool, g: Groups) {
    && IsNumber(digit, g.major) && IsNumber(digit, g.minor) && IsNumber(digit, g.patch)
    && (g.pre.Some? ==> IsTag(g.pre.value))
    && (g.build.Some? ==> IsTag(g.build.value))
  }

  function Tagged(mark: char, tag: Option<string>): string {
    if tag.None? then "" else [mark] + tag.value
  }

  function Tail(g: Groups): string { Tagged('-', g.pre) + Tagged('+', g.build) }

  function Print(g: Groups): string { g.major + ['.'] + (g.minor + ['.'] + (g.patch + Tail(g))) }

  // ----- the parser ----------------------------------------------------------------------

  /** Characters before the first that satisfies `p`. */
  function UpTo(s: string, p: char -> bool): (n: nat)
    ensures n <= |s| && (forall i :: 0 <= i < n ==> !p(s[i])) && (n < |s| ==> p(s[n]))
  {
    if s == "" || p(s[0]) then 0 else 1 + UpTo(s[1..], p)
  }

  predicate IsDot(c: char) { c == '.' }
  predicate IsPlus(c: char) { c == '+' }
  predicate IsMark(c: char) { c == '-' || c == '+' }

  /** Pre-release and build of what follows the patch number. */
  function ParseTail(tail: string): (Option<string>, Option<string>) {
    var hyphen := tail != "" && tail[0] == '-';
    var n := if hyphen then UpTo(tail, IsPlus) else 0;
    var pre := if hyphen then Some(tail[1..n]) else None;
    var build := if n < |tail| then Some(tail[n + 1..]) else None;
    (pre, build)
  }

  /** The parts of a text as it is cut, right or wrong. */
  function CutUp(t: string): Option<Groups> {
    var i := UpTo(t, IsDot);
    if i == |t| then None
    else
      var r := t[i + 1..];
      var j := UpTo(r, IsDot);
      if j == |r| then None
      else
        var u := r[j + 1..];
        var k := UpTo(u, IsMark);
        var (pre, build) := ParseTail(u[k..]);
        Some(Groups(t[..i], r[..j], u[..k], pre, build))
  }

  /** Parsing; nothing when the version is invalid. */
  function Parse(digit: char -> bool, version: string): Option<Groups> {
    var g := CutUp(Strip(version));
    if g.Some? && WellFormed(digit, g.value) then g else None
  }

  // ----- parsing and printing ------------------------------------------------------------

  lemma {:induction false} UpToIs(s: string, p: char -> bool, n: nat)
    requires n <= |s| && (forall i :: 0 <= i < n ==> !p(s[i])) && (n < |s| ==> p(s[n]))
    ensures UpTo(s, p) == n
  {
    if n > 0 {
      UpToIs(s[1..], p, n - 1);
    }
  }

  lemma TailPrinted(tail: string)
    requires tail == "" || IsMark(tail[0])
    ensures var (pre, build) := ParseTail(tail); Tagged('-', pre) + Tagged('+', build) == tail
  {
    if tail != "" && tail[0] == '-' {
      var n := UpTo(tail, IsPlus);
      assert tail == [tail[0]] + tail[1..n] + tail[n..];
      assert n < |tail| ==> tail[n..] == ['+'] + tail[n + 1..];
    } else if tail != "" {
      assert tail == ['+'] + tail[1..];
    }
  }

  lemma CutBack(s: string, n: nat)
    requires n < |s|
    ensures s == s[..n] + [s[n]] + s[n + 1..]
  {}

  lemma CutPatch(u: string)
    ensures var k := UpTo(u, IsMark); var (pre, build) := ParseTail(u[k..]);
            u == u[..k] + (Tagged('-', pre) + Tagged('+', build))
  {
    var k := UpTo(u, IsMark);
    TailPrinted(u[k..]);
    assert u == u[..k] + u[k..];
  }

  /** Cutting a text into parts loses nothing. */
  lemma CutUpPrints(t: string)
    requires CutUp(t).Some?
    ensures Print(CutUp(t).value) == t
  {
    var i := UpTo(t, IsDot);
    var r := t[i + 1..];
    var j := UpTo(r, IsDot);
    CutBack(t, i);
    CutBack(r, j);
    CutPatch(r[j + 1..]);
  }

  lemma PreParsed(pre: string, rest: string)
    requires (forall i :: 0 <= i < |pre| ==> !IsPlus(pre[i])) && (rest == "" || IsPlus(rest[0]))
    ensures ParseTail(['-'] + pre + rest) == (Some(pre), if rest == "" then None else Some(rest[1..]))
  {
    var tail, n := ['-'] + pre + rest, 1 + |pre|;
    assert forall i :: 1 <= i < n ==> tail[i] == pre[i - 1];
    assert rest != "" ==> tail[n] == rest[0];
    UpToIs(tail, IsPlus, n);
    assert tail[1..n] == pre;
    assert rest != "" ==> tail[n + 1..] == rest[1..];
  }

  lemma BuildParsed(build: Option<string>)
    ensures ParseTail(Tagged('+', build)) == (None, build)
    ensures var rest := Tagged('+', build);
            (rest == "" || IsPlus(rest[0])) && build == if rest == "" then None else Some(rest[1..])
  {}

  lemma TailParsed(pre: Option<string>, build: Option<string>)
    requires pre.Some? ==> IsTag(pre.value)
    ensures ParseTail(Tagged('-', pre) + Tagged('+', build)) == (pre, build)
  {
    BuildParsed(build);
    if pre.Some? {
      PreParsed(pre.value, Tagged('+', build));
    } else {
      assert "" + Tagged('+', build) == Tagged('+', build);
    }
  }

  lemma NumberChars(digit: char -> bool, s: string)
    requires IsDigitClass(digit) && IsNumber(digit, s)
    ensures s != "" && forall i :: 0 <= i < |s| ==> !IsDot(s[i]) && !IsMark(s[i]) && !IsSpace(s[i])
  {
    forall i | 0 <= i < |s| ensures digit(s[i]) {}
  }

  lemma CutAt(head: string, mark: char, rest: string, p: char -> bool)
    requires p(mark) && forall i :: 0 <= i < |head| ==> !p(head[i])
    ensures var s := head + [mark] + rest; UpTo(s, p) == |head| && s[..|head|] == head && s[|head| + 1..] == rest
  {
    UpToIs(head + [mark] + rest, p, |head|);
  }

  lemma PatchCut(patch: string, tail: string)
    requires forall i :: 0 <= i < |patch| ==> !IsMark(patch[i])
    requires tail == "" || IsMark(tail[0])
    ensures var u := patch + tail; UpTo(u, IsMark) == |patch| && u[..|patch|] == patch && u[|patch|..] == tail
  {
    UpToIs(patch + tail, IsMark, |patch|);
  }

  lemma PrintIsCut(digit: char -> bool, g: Groups)
    requires IsDigitClass(digit) && WellFormed(digit, g)
    ensures CutUp(Print(g)) == Some(g)
  {
    NumberChars(digit, g.major);
    NumberChars(digit, g.minor);
    NumberChars(digit, g.patch);
    CutAt(g.major, '.', g.minor + ['.'] + (g.patch + Tail(g)), IsDot);
    CutAt(g.minor, '.', g.patch + Tail(g), IsDot);
    PatchCut(g.patch, Tail(g));
    TailParsed(g.pre, g.build);
  }

  /** The parser accepts exactly the texts of well-formed versions, with white space around them
      ignored, and returns the one version whose text it is. */
  lemma ParseCharacterized(digit: char -> bool, version: string, g: Groups)
    requires IsDigitClass(digit)
    ensures Parse(digit, version) == Some(g) <==> WellFormed(digit, g) && Print(g) == Strip(version)
  {
    if Parse(digit, version) == Some(g) {
      CutUpPrints(Strip(version));
    }
    if WellFormed(digit, g) && Print(g) == Strip(version) {
      PrintIsCut(digit, g);
    }
  }

  /** So no text is the text of two versions: where core, pre-release and build end is settled. */
  lemma PrintInjective(digit: char -> bool, g: Groups, h: Groups)
    requires IsDigitClass(digit) && WellFormed(digit, g) && WellFormed(digit, h) && Print(g) == Print(h)
    ensures g == h
  {
    PrintIsCut(digit, g);
    PrintIsCut(digit, h);
  }

  lemma LastChar(digit: char -> bool, g: Groups)
    requires IsDigitClass(digit) && WellFormed(digit, g)
    ensures var s := Print(g); s != "" && !IsSpace(s[0]) && !IsSpace(s[|s| - 1])
  {
    NumberChars(digit, g.major);
    NumberChars(digit, g.patch);
    var s, tail := Print(g), Tail(g);
    assert s[0] == g.major[0];
    if g.build.Some? {
      assert s[|s| - 1] == g.build.value[|g.build.value| - 1];
    } else if g.pre.Some? {
      assert s[|s| - 1] == g.pre.value[|g.pre.value| - 1];
    } else {
      assert s[|s| - 1] == g.patch[|g.patch| - 1];
    }
  }

  /** Printing a well-formed version and parsing the text gives that version back. */
  lemma ParsePrinted(digit: char -> bool, g: Groups)
    requires IsDigitClass(digit) && WellFormed(digit, g)
    ensures Parse(digit, Print(g)) == Some(g)
  {
    LastChar(digit, g);
    assert Strip(Print(g)) == Print(g);
    PrintIsCut(digit, g);
  }

  // ----- the standard --------------------------------------------------------------------

  /** The dot-separated identifiers of a tag. */
  function Identifiers(tag: string): seq<string> {
    var n := UpTo(tag, IsDot);
    if n == |tag| then [tag] else [tag[..n]] + Identifiers(tag[n + 1..])
  }

  predicate IsAscii(c: char) { '0' <= c <= '9' }

  predicate IsNumeric(s: string) { s != "" && forall i :: 0 <= i < |s| ==> IsAscii(s[i]) }

  /** A number with a leading zero. */
  predicate IsPadded(s: string) { IsNumeric(s) && |s| > 1 && s[0] == '0' }

  /** One or more letters, digits and hyphens. */
  predicate IsIdentifier(s: string) {
    s != "" && forall i :: 0 <= i < |s| ==> 'A' <= s[i] <= 'Z' || 'a' <= s[i] <= 'z' || '0' <= s[i] <= '9' || s[i] == '-'
  }

  /** The versions of Semantic Versioning 2.0.0: numbers without leading zeros (section 2), and
      identifiers that are never empty, in a pre-release without leading zeros in numbers
      (sections 9 and 10). */
  ghost predicate IsStandard(g: Groups) {
    && (forall s :: s in [g.major, g.minor, g.patch] ==> IsNumeric(s) && !IsPadded(s))
    && (g.pre.Some? ==> forall s :: s in Identifiers(g.pre.value) ==> IsIdentifier(s) && !IsPadded(s))
    && (g.build.Some? ==> forall s :: s in Identifiers(g.build.value) ==> IsIdentifier(s))
  }

  /** An identifier lies from `i` to `j`. */
  ghost predicate Lies(tag: string, i: int, j: int) {
    && 0 <= i <= j <= |tag|
    && (i == 0 || IsDot(tag[i - 1])) && (j == |tag| || IsDot(tag[j]))
    && forall k :: i <= k < j ==> !IsDot(tag[k])
  }

  ghost predicate LiesSomewhere(tag: string, s: string) { exists i, j :: Lies(tag, i, j) && tag[i..j] == s }

  lemma LiesLater(tag: string, n: nat, i: int, j: int)
    requires n < |tag| && IsDot(tag[n]) && i >= 0
    ensures Lies(tag[n + 1..], i, j) <==> Lies(tag, n + 1 + i, n + 1 + j)
    ensures Lies(tag[n + 1..], i, j) ==> tag[n + 1..][i..j] == tag[n + 1 + i..n + 1 + j]
  {
    var rest := tag[n + 1..];
    if Lies(tag, n + 1 + i, n + 1 + j) {
      assert forall k :: i <= k < j ==> rest[k] == tag[n + 1 + k];
    }
  }

  lemma LiesFirst(tag: string, i: int, j: int)
    requires Lies(tag, i, j)
    ensures var n := UpTo(tag, IsDot); if i <= n then i == 0 && j == n else n < |tag|
  {
    assert i > 0 ==> IsDot(tag[i - 1]);
  }

  lemma RestLies(tag: string, n: nat, s: string)
    requires n < |tag| && IsDot(tag[n]) && LiesSomewhere(tag[n + 1..], s)
    ensures LiesSomewhere(tag, s)
  {
    var i, j :| Lies(tag[n + 1..], i, j) && tag[n + 1..][i..j] == s;
    LiesLater(tag, n, i, j);
  }

  lemma LaterInRest(tag: string, n: nat, a: nat, b: nat)
    requires n < |tag| && IsDot(tag[n]) && Lies(tag, n + 1 + a, n + 1 + b)
    ensures LiesSomewhere(tag[n + 1..], tag[n + 1 + a..n + 1 + b])
  {
    LiesLater(tag, n, a, b);
  }

  lemma FirstOrRest(tag: string, i: int, j: int)
    requires Lies(tag, i, j)
    ensures var n := UpTo(tag, IsDot); tag[i..j] == tag[..n] || (n < |tag| && LiesSomewhere(tag[n + 1..], tag[i..j]))
  {
    var n := UpTo(tag, IsDot);
    LiesFirst(tag, i, j);
    if i > n {
      var a, b := i - n - 1, j - n - 1;
      LaterInRest(tag, n, a, b);
    }
  }

  lemma AfterFirst(tag: string, s: string)
    ensures var n := UpTo(tag, IsDot);
            LiesSomewhere(tag, s) <==> s == tag[..n] || (n < |tag| && LiesSomewhere(tag[n + 1..], s))
  {
    var n := UpTo(tag, IsDot);
    assert Lies(tag, 0, n) && tag[0..n] == tag[..n];
    if n < |tag| && LiesSomewhere(tag[n + 1..], s) {
      RestLies(tag, n, s);
    }
    if LiesSomewhere(tag, s) {
      var i, j :| Lies(tag, i, j) && tag[i..j] == s;
      FirstOrRest(tag, i, j);
    }
  }

  /** The identifiers are the stretches between dots. */
  lemma {:induction false} IdentifiersAreStretches(tag: string, s: string)
    ensures s in Identifiers(tag) <==> LiesSomewhere(tag, s)
  {
    var n := UpTo(tag, IsDot);
    AfterFirst(tag, s);
    if n < |tag| {
      IdentifiersAreStretches(tag[n + 1..], s);
      assert Identifiers(tag) == [tag[..n]] + Identifiers(tag[n + 1..]);
    } else {
      assert Identifiers(tag) == [tag] && tag[..n] == tag;
    }
  }

  /** A dot at the beginning or the end, or two in a row. */
  predicate HasStrayDot(tag: string) {
    (tag != "" && (IsDot(tag[0]) || IsDot(tag[|tag| - 1]))) || exists i :: 0 < i < |tag| && IsDot(tag[i - 1]) && IsDot(tag[i])
  }

  lemma EmptyLies(tag: string, i: int)
    requires 0 <= i <= |tag| && (i == 0 || IsDot(tag[i - 1])) && (i == |tag| || IsDot(tag[i]))
    ensures LiesSomewhere(tag, "")
  {
    assert Lies(tag, i, i) && tag[i..i] == "";
  }

  lemma NoEmptyIdentifier(tag: string)
    requires tag != ""
    ensures "" in Identifiers(tag) <==> HasStrayDot(tag)
  {
    IdentifiersAreStretches(tag, "");
    if IsDot(tag[0]) {
      EmptyLies(tag, 0);
    } else if IsDot(tag[|tag| - 1]) {
      EmptyLies(tag, |tag|);
    } else if i :| 0 < i < |tag| && IsDot(tag[i - 1]) && IsDot(tag[i]) {
      EmptyLies(tag, i);
    }
    if LiesSomewhere(tag, "") {
      var i, j :| Lies(tag, i, j) && tag[i..j] == "";
      assert i == j;
    }
  }

  /** A number with a leading zero lies from `i` to `j`. */
  ghost predicate PaddedAt(tag: string, i: int, j: int) { Lies(tag, i, j) && IsPadded(tag[i..j]) }

  ghost predicate HasPaddedNumber(tag: string) { exists i, j :: PaddedAt(tag, i, j) }

  lemma NoPaddedIdentifier(tag: string)
    ensures (exists s :: s in Identifiers(tag) && IsPadded(s)) <==> HasPaddedNumber(tag)
  {
    if s :| s in Identifiers(tag) && IsPadded(s) {
      IdentifiersAreStretches(tag, s);
      var i, j :| Lies(tag, i, j) && tag[i..j] == s;
      assert PaddedAt(tag, i, j);
    }
    if i, j :| PaddedAt(tag, i, j) {
      IdentifiersAreStretches(tag, tag[i..j]);
      assert LiesSomewhere(tag, tag[i..j]);
    }
  }

  /** Of a tag the pattern accepts, only empty identifiers are wrong. */
  lemma TagIdentifiers(tag: string)
    requires IsTag(tag)
    ensures (forall s :: s in Identifiers(tag) ==> IsIdentifier(s)) <==> !HasStrayDot(tag)
  {
    NoEmptyIdentifier(tag);
    forall s | s in Identifiers(tag) && s != "" ensures IsIdentifier(s) {
      IdentifiersAreStretches(tag, s);
      var i, j :| Lies(tag, i, j) && tag[i..j] == s;
      forall k | 0 <= k < |s| ensures s[k] != '.' && IsTagChar(s[k]) {
        assert s[k] == tag[i + k];
      }
    }
  }

  /** Identifiers make a tag. */
  lemma {:induction false} IdentifiersMakeTag(tag: string)
    requires forall s :: s in Identifiers(tag) ==> IsIdentifier(s)
    ensures IsTag(tag)
  {
    var n := UpTo(tag, IsDot);
    if n == |tag| {
      assert tag in Identifiers(tag);
    } else {
      assert tag[..n] in Identifiers(tag);
      IdentifiersMakeTag(tag[n + 1..]);
      forall i | 0 <= i < |tag| ensures IsTagChar(tag[i]) {
        assert i < n ==> tag[i] == tag[..n][i];
        assert i > n ==> tag[i] == tag[n + 1..][i - n - 1];
      }
    }
  }

  lemma CoreNumber(digit: char -> bool, s: string)
    requires IsDigitClass(digit)
    ensures IsNumeric(s) && !IsPadded(s) ==> IsNumber(digit, s)
    ensures IsNumber(digit, s) ==> (IsNumeric(s) && !IsPadded(s) <==> forall i :: 0 <= i < |s| ==> IsAscii(s[i]))
  {}

  lemma StandardWellFormed(digit: char -> bool, g: Groups)
    requires IsDigitClass(digit) && IsStandard(g)
    ensures WellFormed(digit, g)
  {
    assert g.major in [g.major, g.minor, g.patch] && g.minor in [g.major, g.minor, g.patch] && g.patch in [g.major, g.minor, g.patch];
    CoreNumber(digit, g.major);
    CoreNumber(digit, g.minor);
    CoreNumber(digit, g.patch);
    if g.pre.Some? {
      IdentifiersMakeTag(g.pre.value);
    }
    if g.build.Some? {
      IdentifiersMakeTag(g.build.value);
    }
  }

  /** Every version of the standard is accepted and returned. */
  lemma StandardAccepted(digit: char -> bool, version: string, g: Groups)
    requires IsDigitClass(digit) && IsStandard(g) && Print(g) == Strip(version)
    ensures Parse(digit, version) == Some(g)
  {
    StandardWellFormed(digit, g);
    ParseCharacterized(digit, version, g);
  }

  ghost predicate AsciiCore(g: Groups) {
    forall i :: 0 <= i < |g.major + g.minor + g.patch| ==> IsAscii((g.major + g.minor + g.patch)[i])
  }

  lemma CoreIs(digit: char -> bool, g: Groups)
    requires IsDigitClass(digit) && WellFormed(digit, g)
    ensures (forall s :: s in [g.major, g.minor, g.patch] ==> IsNumeric(s) && !IsPadded(s)) <==> AsciiCore(g)
  {
    var core := [g.major, g.minor, g.patch];
    var whole := g.major + g.minor + g.patch;
    assert core[0] in core && core[1] in core && core[2] in core;
    CoreNumber(digit, g.major);
    CoreNumber(digit, g.minor);
    CoreNumber(digit, g.patch);
    if AsciiCore(g) {
      assert forall i :: 0 <= i < |g.major| ==> g.major[i] == whole[i];
      assert forall i :: 0 <= i < |g.minor| ==> g.minor[i] == whole[|g.major| + i];
      assert forall i :: 0 <= i < |g.patch| ==> g.patch[i] == whole[|g.major| + |g.minor| + i];
    }
  }

  /** What is accepted beyond the standard: an accepted version is one of the standard exactly when
      no tag has a stray dot, no number of the pre-release is padded, and all digits of the core are
      those from 0 to 9. */
  lemma StandardExactly(digit: char -> bool, version: string, g: Groups)
    requires IsDigitClass(digit) && Parse(digit, version) == Some(g)
    ensures IsStandard(g) <==>
              && (g.pre.Some? ==> !HasStrayDot(g.pre.value) && !HasPaddedNumber(g.pre.value))
              && (g.build.Some? ==> !HasStrayDot(g.build.value))
              && AsciiCore(g)
  {
    CoreIs(digit, g);
    if g.pre.Some? {
      TagIdentifiers(g.pre.value);
      NoPaddedIdentifier(g.pre.value);
    }
    if g.build.Some? {
      TagIdentifiers(g.build.value);
    }
  }

  /** A version with such a pre-release is accepted, although it is none of the standard. */
  lemma TagBeyond(digit: char -> bool, tag: string)
    requires IsDigitClass(digit) && IsTag(tag) && (HasStrayDot(tag) || HasPaddedNumber(tag))
    ensures var g := Groups("1", "0", "0", Some(tag), None); Parse(digit, Print(g)) == Some(g) && !IsStandard(g)
  {
    var g := Groups("1", "0", "0", Some(tag), None);
    ParsePrinted(digit, g);
    StandardExactly(digit, Print(g), g);
  }

  lemma OtherDigit(digit: char -> bool, other: char)
    requires IsDigitClass(digit) && digit(other) && !IsAscii(other)
    ensures var g := Groups(['1', other], "0", "0", None, None); Parse(digit, Print(g)) == Some(g) && !IsStandard(g)
  {
    var g := Groups(['1', other], "0", "0", None, None);
    ParsePrinted(digit, g);
    StandardExactly(digit, Print(g), g);
    assert (g.major + g.minor + g.patch)[1] == other;
  }

  /** So it is with an empty identifier, with a padded number, and with any further digit. */
  lemma BeyondStandard(digit: char -> bool)
    requires IsDigitClass(digit)
    ensures var g := Groups("1", "0", "0", Some("."), None); Parse(digit, Print(g)) == Some(g) && !IsStandard(g)
    ensures var g := Groups("1", "0", "0", Some("01"), None); Parse(digit, Print(g)) == Some(g) && !IsStandard(g)
    ensures forall other :: digit(other) && !IsAscii(other) ==>
              var g := Groups(['1', other], "0", "0", None, None); Parse(digit, Print(g)) == Some(g) && !IsStandard(g)
  {
    assert IsDot("."[0]);
    TagBeyond(digit, ".");
    assert Lies("01", 0, 2) && "01"[0..2] == "01" && PaddedAt("01", 0, 2);
    TagBeyond(digit, "01");
    forall other | digit(other) && !IsAscii(other)
      ensures var g := Groups(['1', other], "0", "0", None, None); Parse(digit, Print(g)) == Some(g) && !IsStandard(g)
    {
      OtherDigit(digit, other);
    }
  }
}
