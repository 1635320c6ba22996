/** Changelog sections (backend/app/cicd/release_notes.py and gates.py:203-221): printing a release,
    putting it on top of the file, and finding it again. */
module Changelog {
  import opened Bags
  import opened Text

  // ----- lines ---------------------------------------------------------------------------

  predicate Plain(s: string) { forall i :: 0 <= i < |s| ==> !IsLineBreak(s[i]) }

  /** Characters before the first line break. */
  function LineLength(s: string): (n: nat)
    ensures n <= |s| && Plain(s[..n]) && (n < |s| ==> IsLineBreak(s[n]))
  {
    if s == "" || IsLineBreak(s[0]) then 0
    else
      var n := 1 + LineLength(s[1..]);
      assert forall i :: 0 < i < n ==> s[i] == s[1..][i - 1];
      n
  }

  /** Python's `splitlines`: a carriage return and the line feed after it are one break, and a
      break at the end starts no line. */
  function SplitLines(s: string): seq<string>
    decreases |s|
  {
    var n := LineLength(s);
    if s == "" then []
    else if n == |s| then [s]
    else if s[n] == '\r' && n + 1 < |s| && s[n + 1] == '\n' then [s[..n]] + SplitLines(s[n + 2..])
    else [s[..n]] + SplitLines(s[n + 1..])
  }

  /** `"\n".join(...)`. */
  function Join(lines: seq<string>): string {
    if lines == [] then "" else if |lines| == 1 then lines[0] else lines[0] + "\n" + Join(lines[1..])
  }

  /** Every line with a line feed after it. */
  function Unlines(lines: seq<string>): string {
    if lines == [] then "" else lines[0] + "\n" + Unlines(lines[1..])
  }

  lemma {:induction false} StopsAt(s: string, n: nat)
    requires n < |s| && IsLineBreak(s[n]) && forall i :: 0 <= i < n ==> !IsLineBreak(s[i])
    ensures LineLength(s) == n
  {
    if n > 0 {
      StopsAt(s[1..], n - 1);
    }
  }

  lemma LengthOfPlain(line: string, rest: string)
    requires Plain(line)
    ensures LineLength(line + "\n" + rest) == |line|
  {
    var s := line + "\n" + rest;
    assert s[|line|] == '\n' && forall i :: 0 <= i < |line| ==> s[i] == line[i];
    StopsAt(s, |line|);
  }

  lemma SplitPlain(line: string, rest: string)
    requires Plain(line)
    ensures SplitLines(line + "\n" + rest) == [line] + SplitLines(rest)
  {
    var s := line + "\n" + rest;
    LengthOfPlain(line, rest);
    assert s[|line|] == '\n';
    assert s[..|line|] == line && s[|line| + 1..] == rest;
  }

  ghost predicate AllPlain(lines: seq<string>) { forall i :: 0 <= i < |lines| ==> Plain(lines[i]) }

  lemma UnlinesFirst(lines: seq<string>, rest: string)
    requires lines != []
    ensures Unlines(lines) + rest == lines[0] + "\n" + (Unlines(lines[1..]) + rest)
  {}

  lemma FirstAgain<T>(xs: seq<T>, ys: seq<T>)
    requires xs != []
    ensures [xs[0]] + (xs[1..] + ys) == xs + ys
  {}

  lemma {:induction false} SplitUnlines(lines: seq<string>, rest: string)
    requires AllPlain(lines)
    ensures SplitLines(Unlines(lines) + rest) == lines + SplitLines(rest)
  {
    if lines == [] {
      assert Unlines(lines) + rest == rest;
    } else {
      SplitUnlines(lines[1..], rest);
      SplitPlain(lines[0], Unlines(lines[1..]) + rest);
      UnlinesFirst(lines, rest);
      FirstAgain(lines, SplitLines(rest));
    }
  }

  lemma {:induction false} UnlinesSplit(xs: seq<string>, ys: seq<string>)
    ensures Unlines(xs + ys) == Unlines(xs) + Unlines(ys)
  {
    if xs == [] {
      assert xs + ys == ys;
    } else {
      UnlinesSplit(xs[1..], ys);
      assert (xs + ys)[1..] == xs[1..] + ys;
      assert Unlines(xs + ys) == xs[0] + "\n" + (Unlines(xs[1..]) + Unlines(ys));
    }
  }

  lemma {:induction false} JoinIsUnlines(lines: seq<string>)
    requires lines != []
    ensures Join(lines) + "\n" == Unlines(lines)
  {
    if |lines| == 1 {
      assert lines[1..] == [];
    } else {
      JoinIsUnlines(lines[1..]);
      assert Join(lines) + "\n" == lines[0] + "\n" + (Join(lines[1..]) + "\n");
    }
  }

  lemma {:induction false} JoinSplit(xs: seq<string>, ys: seq<string>)
    requires xs != [] && ys != []
    ensures Join(xs + ys) == Join(xs) + "\n" + Join(ys)
  {
    assert (xs + ys)[1..] == xs[1..] + ys;
    if |xs| > 1 {
      JoinSplit(xs[1..], ys);
      assert Join(xs + ys) == xs[0] + "\n" + (Join(xs[1..]) + "\n" + Join(ys));
    } else {
      assert xs[1..] + ys == ys;
    }
  }

  // ----- solid text ----------------------------------------------------------------------

  predicate StartsSolid(s: string) { s != "" && !IsSpace(s[0]) }
  predicate EndsSolid(s: string) { s != "" && !IsSpace(s[|s| - 1]) }
  predicate Blank(s: string) { forall i :: 0 <= i < |s| ==> IsSpace(s[i]) }

  lemma {:induction false} StripTrailing(s: string, blank: string)
    requires EndsSolid(s) && Blank(blank)
    ensures StripRight(s + blank) == s
  {
    var t := s + blank;
    if blank == "" {
      assert t == s;
    } else {
      assert t[..|t| - 1] == s + blank[..|blank| - 1];
      StripTrailing(s, blank[..|blank| - 1]);
    }
  }

  lemma {:induction false} StripLeftShape(s: string)
    ensures StripLeft(s) == "" || StartsSolid(StripLeft(s))
    ensures |StripLeft(s)| <= |s| && (forall i :: 0 <= i < |StripLeft(s)| ==> StripLeft(s)[i] in s)
    ensures EndsSolid(s) ==> EndsSolid(StripLeft(s))
  {
    if s != "" && IsSpace(s[0]) {
      StripLeftShape(s[1..]);
    }
  }

  lemma {:induction false} StripRightShape(s: string)
    ensures StripRight(s) == "" || EndsSolid(StripRight(s))
    ensures StripRight(s) <= s
  {
    if s != "" && IsSpace(s[|s| - 1]) {
      StripRightShape(s[..|s| - 1]);
    }
  }

  /** What `strip` leaves is empty or begins and ends with something that is not white space, and
      has no character the text had not. */
  lemma StripShape(s: string)
    ensures Strip(s) == "" || (StartsSolid(Strip(s)) && EndsSolid(Strip(s)))
    ensures Plain(s) ==> Plain(Strip(s))
  {
    StripLeftShape(s);
    StripRightShape(StripLeft(s));
  }

  lemma StripSolid(s: string, blank: string)
    requires StartsSolid(s) && EndsSolid(s) && Blank(blank)
    ensures Strip(s + blank) == s
  {
    assert (s + blank)[0] == s[0];
    StripTrailing(s, blank);
  }

  // ----- one release ---------------------------------------------------------------------

  /** A release as it is given: its version, its date in ISO form, and commit subjects. */
  datatype Release = Release(version: string, stamp: string, commits: seq<string>)

  datatype Category = Feature | Fix | Other

  function CategoryOf(subject: string): Category {
    var lowered := LowerAll(subject);
    if "feat" <= lowered then Feature else if "fix" <= lowered then Fix else Other
  }

  predicate NonEmpty(s: string) { s != "" }
  function Bullet(subject: string): string { "- " + subject }

  /** The commit subjects that count. */
  function Subjects(commits: seq<string>): seq<string> { Keep(Each(commits, (raw: string) => Strip(raw)), NonEmpty) }

  function InCategory(category: Category): string -> bool { (subject: string) => CategoryOf(subject) == category }

  function BulletsOf(commits: seq<string>, category: Category): seq<string> {
    Each(Keep(Subjects(commits), InCategory(category)), Bullet)
  }

  const DASH := " \U{2014} "
  const MAINTENANCE := "- Maintenance release."

  function TitleOf(category: Category): string {
    match category
    case Feature => "Features"
    case Fix => "Fixes"
    case Other => "Other"
  }

  /** What follows the two hashes of a release's heading. */
  function Label(r: Release): string { r.version + DASH + r.stamp }

  function Heading(r: Release): string { "## " + Label(r) }

  function Block(title: string, bullets: seq<string>): seq<string> {
    if bullets == [] then [] else ["### " + title] + bullets + [""]
  }

  function Assembled(features: seq<string>, fixes: seq<string>, other: seq<string>): seq<string> {
    if features == [] && fixes == [] && other == [] then [MAINTENANCE, ""]
    else Block(TitleOf(Feature), features) + Block(TitleOf(Fix), fixes) + Block(TitleOf(Other), other)
  }

  function Blocks(commits: seq<string>): seq<string> {
    Assembled(BulletsOf(commits, Feature), BulletsOf(commits, Fix), BulletsOf(commits, Other))
  }

  function SectionLines(r: Release): seq<string> { [Heading(r), ""] + Blocks(r.commits) }

  /** The text of a release's section. */
  function Section(r: Release): string { StripRight(Join(SectionLines(r))) + "\n" }

  lemma NextSubject(commits: seq<string>, i: int)
    requires 0 <= i < |commits|
    ensures Subjects(commits[..i + 1]) == Subjects(commits[..i]) + if Strip(commits[i]) == "" then [] else [Strip(commits[i])]
  {
    var stripped := Each(commits, (raw: string) => Strip(raw));
    assert Each(commits[..i + 1], (raw: string) => Strip(raw)) == stripped[..i + 1];
    assert Each(commits[..i], (raw: string) => Strip(raw)) == stripped[..i];
    KeepNext(stripped, i, NonEmpty);
  }

  lemma NextBullet(commits: seq<string>, i: int, p: string -> bool)
    requires 0 <= i < |commits|
    ensures Each(Keep(Subjects(commits[..i + 1]), p), Bullet) ==
            Each(Keep(Subjects(commits[..i]), p), Bullet)
            + if Strip(commits[i]) != "" && p(Strip(commits[i])) then [Bullet(Strip(commits[i]))] else []
  {
    var before, s := Subjects(commits[..i]), Strip(commits[i]);
    NextSubject(commits, i);
    if s != "" {
      KeepSplit(before, [s], p);
      assert [s][1..] == [];
    } else {
      assert before + [] == before;
    }
  }

  /** Commits sorted into features, fixes and the rest. */
  method SortCommits(commits: seq<string>) returns (features: seq<string>, fixes: seq<string>, other: seq<string>)
    ensures features == BulletsOf(commits, Feature) && fixes == BulletsOf(commits, Fix) && other == BulletsOf(commits, Other)
  {
    features, fixes, other := [], [], [];
    for i := 0 to |commits|
      invariant features == BulletsOf(commits[..i], Feature)
      invariant fixes == BulletsOf(commits[..i], Fix)
      invariant other == BulletsOf(commits[..i], Other)
    {
      NextBullet(commits, i, InCategory(Feature));
      NextBullet(commits, i, InCategory(Fix));
      NextBullet(commits, i, InCategory(Other));
      var subject := Strip(commits[i]);
      if subject == "" {
        continue;
      }
      match CategoryOf(subject) {
        case Feature => features := features + [Bullet(subject)];
        case Fix => fixes := fixes + [Bullet(subject)];
        case Other => other := other + [Bullet(subject)];
      }
    }
    assert commits[..|commits|] == commits;
  }

  method AddBlock(lines: seq<string>, title: string, bullets: seq<string>) returns (longer: seq<string>)
    ensures longer == lines + Block(title, bullets)
  {
    longer := lines;
    if bullets != [] {
      longer := longer + (["### " + title] + bullets + [""]);
    }
  }

  lemma ThreeMore(first: seq<string>, x: seq<string>, y: seq<string>, z: seq<string>)
    ensures first + x + y + z == first + (x + y + z)
  {}

  method AddBlocks(first: seq<string>, features: seq<string>, fixes: seq<string>, other: seq<string>) returns (lines: seq<string>)
    ensures lines == first + Assembled(features, fixes, other)
  {
    lines := AddBlock(first, TitleOf(Feature), features);
    lines := AddBlock(lines, TitleOf(Fix), fixes);
    lines := AddBlock(lines, TitleOf(Other), other);
    ThreeMore(first, Block(TitleOf(Feature), features), Block(TitleOf(Fix), fixes), Block(TitleOf(Other), other));
    if features == [] && fixes == [] && other == [] {
      lines := lines + [MAINTENANCE];
      lines := lines + [""];
    }
  }

  method GenerateChangelogSection(version: string, commits: seq<string>, stamp: string) returns (text: string)
    ensures text == Section(Release(version, stamp, commits))
  {
    var lines := [Heading(Release(version, stamp, commits)), ""];
    var features, fixes, other := SortCommits(commits);
    lines := AddBlocks(lines, features, fixes, other);
    text := StripRight(Join(lines)) + "\n";
  }
}
