/** What a changelog section contains, and what surrounds it in a file written by hand. */
module ChangelogContent {
  import opened Bags
  import opened Changelog
  import opened ChangelogHistory
  import opened ChangelogTheorems
  import opened Text

  // ----- every commit once ---------------------------------------------------------------

  predicate IsBulletLine(line: string) { "- " <= line }

  lemma {:induction false} PartsOfWhole(xs: seq<string>, f: string -> string, p: string -> bool, q: string -> bool, s: string -> bool)
    requires forall x :: (p(x) && !q(x) && !s(x)) || (!p(x) && q(x) && !s(x)) || (!p(x) && !q(x) && s(x))
    ensures multiset(Each(Keep(xs, p), f)) + multiset(Each(Keep(xs, q), f)) + multiset(Each(Keep(xs, s), f)) == multiset(Each(xs, f))
  {
    if xs != [] {
      var x, rest := xs[0], xs[1..];
      PartsOfWhole(rest, f, p, q, s);
      EachMore(x, rest, f);
      assert [x] + rest == xs;
      KeptFirst(xs, f, p);
      KeptFirst(xs, f, q);
      KeptFirst(xs, f, s);
      OneOfThree(multiset(Each(Keep(rest, p), f)), multiset(Each(Keep(rest, q), f)), multiset(Each(Keep(rest, s), f)), f(x));
    }
  }

  lemma OneOfThree(a: multiset<string>, b: multiset<string>, c: multiset<string>, x: string)
    ensures multiset{x} + a + b + c == multiset{x} + (a + b + c)
    ensures a + (multiset{x} + b) + c == multiset{x} + (a + b + c)
    ensures a + b + (multiset{x} + c) == multiset{x} + (a + b + c)
  {}

  lemma EachMore(x: string, xs: seq<string>, f: string -> string)
    ensures multiset(Each([x] + xs, f)) == multiset{f(x)} + multiset(Each(xs, f))
  {
    assert Each([x] + xs, f) == [f(x)] + Each(xs, f);
  }

  lemma KeptFirst(xs: seq<string>, f: string -> string, p: string -> bool)
    requires xs != []
    ensures multiset(Each(Keep(xs, p), f)) ==
            if p(xs[0]) then multiset{f(xs[0])} + multiset(Each(Keep(xs[1..], p), f)) else multiset(Each(Keep(xs[1..], p), f))
  {
    if p(xs[0]) {
      EachMore(xs[0], Keep(xs[1..], p), f);
    } else {
      assert [] + Keep(xs[1..], p) == Keep(xs[1..], p);
    }
  }

  lemma KeepOne(x: string, p: string -> bool)
    ensures Keep([x], p) == if p(x) then [x] else []
  {
    assert [x][1..] == [];
  }

  lemma BulletsInBlock(title: string, bullets: seq<string>, p: string -> bool)
    requires !p("### " + title) && !p("") && forall i :: 0 <= i < |bullets| ==> p(bullets[i])
    ensures Keep(Block(title, bullets), p) == bullets
  {
    if bullets != [] {
      KeepSplit(["### " + title] + bullets, [""], p);
      KeepSplit(["### " + title], bullets, p);
      KeepOne("### " + title, p);
      KeepOne("", p);
      KeepAll(bullets, p);
    }
  }

  /** The bullet lines of a section's blocks: features, then fixes, then the rest. */
  lemma BulletsInBlocks(features: seq<string>, fixes: seq<string>, other: seq<string>, p: string -> bool)
    requires p(MAINTENANCE) && !p("") && forall title :: !p("### " + title)
    requires forall i :: 0 <= i < |features| ==> p(features[i])
    requires forall i :: 0 <= i < |fixes| ==> p(fixes[i])
    requires forall i :: 0 <= i < |other| ==> p(other[i])
    ensures Keep(Assembled(features, fixes, other), p) ==
            if features + fixes + other == [] then [MAINTENANCE] else features + fixes + other
  {
    if features == [] && fixes == [] && other == [] {
      KeepSplit([MAINTENANCE], [""], p);
      KeepOne(MAINTENANCE, p);
      KeepOne("", p);
      assert [MAINTENANCE] + [""] == [MAINTENANCE, ""];
    } else {
      var f, x, o := Block(TitleOf(Feature), features), Block(TitleOf(Fix), fixes), Block(TitleOf(Other), other);
      KeepSplit(f + x, o, p);
      KeepSplit(f, x, p);
      BulletsInBlock(TitleOf(Feature), features, p);
      BulletsInBlock(TitleOf(Fix), fixes, p);
      BulletsInBlock(TitleOf(Other), other, p);
    }
  }

  lemma SectionSplits(r: Release)
    requires WellFormed(r)
    ensures SplitLines(Section(r)) == Core(r) && SectionLines(r) == Core(r) + [""]
  {
    CoreShape(r);
    SectionShape(r);
    SplitUnlines(Core(r), "");
    assert Unlines(Core(r)) + "" == Unlines(Core(r)) && Core(r) + [] == Core(r);
  }

  lemma BulletKeptLines(heading: string, blocks: seq<string>, core: seq<string>, p: string -> bool)
    requires [heading, ""] + blocks == core + [""] && !p(heading) && !p("")
    ensures Keep(core, p) == Keep(blocks, p)
  {
    KeepSplit([heading, ""], blocks, p);
    KeepSplit([heading], [""], p);
    KeepSplit(core, [""], p);
    KeepOne(heading, p);
    KeepOne("", p);
    assert [heading] + [""] == [heading, ""];
    assert Keep([heading, ""], p) == [] && [] + Keep(blocks, p) == Keep(blocks, p);
    assert Keep(core, p) + [] == Keep(core, p);
  }

  lemma BulletsMarked(subjects: seq<string>)
    ensures forall i :: 0 <= i < |subjects| ==> IsBulletLine(Each(subjects, Bullet)[i])
  {
    forall i | 0 <= i < |subjects| ensures IsBulletLine(Each(subjects, Bullet)[i]) {
      assert Each(subjects, Bullet)[i] == Bullet(subjects[i]);
      assert "- " <= "- " + subjects[i];
    }
  }

  lemma BulletsFound(r: Release, features: seq<string>, fixes: seq<string>, other: seq<string>)
    requires WellFormed(r) && Blocks(r.commits) == Assembled(features, fixes, other)
    requires forall i :: 0 <= i < |features| ==> IsBulletLine(features[i])
    requires forall i :: 0 <= i < |fixes| ==> IsBulletLine(fixes[i])
    requires forall i :: 0 <= i < |other| ==> IsBulletLine(other[i])
    ensures Keep(Core(r), IsBulletLine) == if features + fixes + other == [] then [MAINTENANCE] else features + fixes + other
  {
    SectionSplits(r);
    assert Heading(r)[0] == '#';
    BulletKeptLines(Heading(r), Blocks(r.commits), Core(r), IsBulletLine);
    forall title: string ensures !IsBulletLine("### " + title) {
      assert ("### " + title)[0] == '#';
    }
    BulletsInBlocks(features, fixes, other, IsBulletLine);
  }

  /** Read back from its text, a section has one bullet for every commit subject that is not
      blank: the features, the fixes and the rest, each in the order of the commits; and one
      bullet of its own when there is none. */
  lemma EveryCommitOnce(r: Release)
    requires WellFormed(r)
    ensures var found := Keep(SplitLines(Section(r)), IsBulletLine);
            var printed := BulletsOf(r.commits, Feature) + BulletsOf(r.commits, Fix) + BulletsOf(r.commits, Other);
            && found == (if printed == [] then [MAINTENANCE] else printed)
            && multiset(printed) == multiset(Each(Subjects(r.commits), Bullet))
  {
    SectionSplits(r);
    BulletsMarked(Keep(Subjects(r.commits), InCategory(Feature)));
    BulletsMarked(Keep(Subjects(r.commits), InCategory(Fix)));
    BulletsMarked(Keep(Subjects(r.commits), InCategory(Other)));
    BulletsFound(r, BulletsOf(r.commits, Feature), BulletsOf(r.commits, Fix), BulletsOf(r.commits, Other));
    PartsOfWhole(Subjects(r.commits), Bullet, InCategory(Feature), InCategory(Fix), InCategory(Other));
  }

  // ----- files written by hand -----------------------------------------------------------

  lemma {:induction false} StripRightKeeps(s: string, i: nat)
    requires i < |s| && !IsSpace(s[i])
    ensures |StripRight(s)| > i
  {
    if IsSpace(s[|s| - 1]) {
      StripRightKeeps(s[..|s| - 1], i);
    }
  }

  lemma {:induction false} JoinBlank(lines: seq<string>)
    ensures Blank(Join(lines)) <==> forall i :: 0 <= i < |lines| ==> Blank(lines[i])
  {
    if |lines| > 1 {
      var first, rest := lines[0], Join(lines[1..]);
      JoinBlank(lines[1..]);
      assert Join(lines) == first + "\n" + rest;
      if Blank(Join(lines)) {
        forall i | 0 <= i < |first| ensures IsSpace(first[i]) {
          assert first[i] == Join(lines)[i];
        }
        forall i | 0 <= i < |rest| ensures IsSpace(rest[i]) {
          assert rest[i] == Join(lines)[|first| + 1 + i];
        }
        forall i | 0 <= i < |lines| ensures Blank(lines[i]) {
          assert i > 0 ==> lines[i] == lines[1..][i - 1];
        }
      }
    }
  }

  /** Text that begins solid keeps exactly what it is when only white space follows. */
  lemma TailMatters(s: string, tail: string)
    requires StartsSolid(s) && EndsSolid(s)
    ensures Strip(s + "\n" + tail) == s <==> Blank(tail)
  {
    var t := s + "\n" + tail;
    assert t[0] == s[0] && StripLeft(t) == t;
    if Blank(tail) {
      assert t == s + ("\n" + tail);
      StripSolid(s, "\n" + tail);
    } else {
      var i :| 0 <= i < |tail| && !IsSpace(tail[i]);
      assert t[|s| + 1 + i] == tail[i];
      StripRightKeeps(t, |s| + 1 + i);
    }
  }

  lemma SolidJoin(core: seq<string>, more: seq<string>)
    requires core != [] && StartsSolid(Join(core)) && EndsSolid(Join(core))
    ensures Strip(Join(core + more)) == Join(core) <==> forall i :: 0 <= i < |more| ==> Blank(more[i])
  {
    if more == [] {
      assert core + more == core;
      StripSolid(Join(core), "");
      assert Join(core) + "" == Join(core);
    } else {
      JoinSplit(core, more);
      TailMatters(Join(core), Join(more));
      JoinBlank(more);
    }
  }

  /** The lines of an existing file that come to stand between a new section and the next heading. */
  function Between(existing: string): seq<string> {
    Until(SplitLines(DropNewlines(BodyOf(existing))), IsHeading)
  }

  lemma LocatedOnTop(existing: string, core: seq<string>, version: string)
    requires IsSection(core) && Marks(version)(core[0])
    ensures Extract(Prepend(existing, Join(core) + "\n"), version) == Finished(Join(core + Between(existing)))
  {
    var below := DropNewlines(BodyOf(existing));
    Stacked(existing, core);
    TopSplits(Unlines(core) + below);
    SplitUnlines(core, below);
    TopUnmarked(version);
    SkipLines([TITLE, ""], core + SplitLines(below), Marks(version), IsHeading);
    TakeSection(core, SplitLines(below), Marks(version), IsHeading);
  }

  lemma FinishedIs(text: string, core: string)
    requires core != ""
    ensures Finished(text) == core + "\n" <==> Strip(text) == core
  {
    if Finished(text) == core + "\n" {
      assert |core + "\n"| > 0;
      assert Strip(text) == (Strip(text) + "\n")[..|Strip(text)|];
      assert core == (core + "\n")[..|core|];
    }
  }

  lemma AbsorbedAt(existing: string, core: seq<string>, version: string)
    requires IsSection(core) && Marks(version)(core[0]) && StartsSolid(Join(core)) && EndsSolid(Join(core))
    ensures Extract(Prepend(existing, Join(core) + "\n"), version) == Join(core) + "\n" <==>
            forall i :: 0 <= i < |Between(existing)| ==> Blank(Between(existing)[i])
  {
    LocatedOnTop(existing, core, version);
    SolidJoin(core, Between(existing));
    FinishedIs(Join(core + Between(existing)), Join(core));
  }

  lemma PrintedSection(r: Release)
    requires WellFormed(r)
    ensures IsSection(Core(r)) && Marks(r.version)(Core(r)[0]) && Section(r) == Join(Core(r)) + "\n"
    ensures StartsSolid(Join(Core(r))) && EndsSolid(Join(Core(r)))
  {
    ReleaseIsSection(r);
    SectionShape(r);
    OwnHeading(r);
  }

  lemma OwnHeading(r: Release)
    requires WellFormed(r)
    ensures Marks(r.version)(Heading(r))
  {
    HeadingShape(r);
    assert Label(r) == r.version + (DASH + r.stamp);
  }

  /** Put on top of any existing file, a release is found again as it was printed exactly when the
      file has nothing but blank lines between its title and its first section: an introduction
      there becomes part of the new section. */
  lemma IntroductionIsAbsorbed(existing: string, r: Release)
    requires WellFormed(r)
    ensures Extract(Prepend(existing, Section(r)), r.version) == Section(r) <==>
            forall i :: 0 <= i < |Between(existing)| ==> Blank(Between(existing)[i])
  {
    PrintedSection(r);
    AbsorbedAt(existing, Core(r), r.version);
  }

  lemma LineBetween(line: string, rest: string)
    requires Plain(line) && line != "" && !IsHeading(line)
    ensures var existing := TITLE + "\n" + ("\n" + (line + "\n" + rest)); Between(existing) != [] && Between(existing)[0] == line
  {
    var below := line + "\n" + rest;
    TitleDropped("\n" + below);
    assert ("\n" + below)[1..] == below;
    assert below[0] == line[0] && line[0] != '\n';
    assert DropNewlines("\n" + below) == below;
    SplitPlain(line, rest);
  }

  /** So it is lost below any line of text under the title. */
  lemma IntroductionLost(line: string, rest: string, r: Release)
    requires WellFormed(r) && Plain(line) && !IsHeading(line) && !Blank(line)
    ensures Extract(Prepend(TITLE + "\n" + ("\n" + (line + "\n" + rest)), Section(r)), r.version) != Section(r)
  {
    LineBetween(line, rest);
    IntroductionIsAbsorbed(TITLE + "\n" + ("\n" + (line + "\n" + rest)), r);
  }

  /** For example, below a single word. */
  lemma IntroductionExample(r: Release)
    requires WellFormed(r)
    ensures Extract(Prepend("# Changelog" + "\n" + ("\n" + ("Introduction" + "\n" + "")), Section(r)), r.version) != Section(r)
  {
    assert "Introduction"[0] == 'I';
    IntroductionLost("Introduction", "", r);
  }

  /** For every version the new heading does not begin with, the file answers as its body did. */
  lemma OthersUndisturbed(existing: string, r: Release, version: string)
    requires WellFormed(r) && !(version <= Label(r))
    ensures Extract(Prepend(existing, Section(r)), version) == Extract(DropNewlines(BodyOf(existing)), version)
  {
    ReleaseIsSection(r);
    HeadingShape(r);
    UnmarkedOnTop(existing, Core(r), version);
  }

  lemma UnmarkedOnTop(existing: string, core: seq<string>, version: string)
    requires IsSection(core) && !Marks(version)(core[0])
    ensures Extract(Prepend(existing, Join(core) + "\n"), version) == Extract(DropNewlines(BodyOf(existing)), version)
  {
    var below := DropNewlines(BodyOf(existing));
    Stacked(existing, core);
    TopSplits(Unlines(core) + below);
    SplitUnlines(core, below);
    TopUnmarked(version);
    MarkedIsHeading(version);
    SkipLines([TITLE, ""], core + SplitLines(below), Marks(version), IsHeading);
    SkipLines(core, SplitLines(below), Marks(version), IsHeading);
  }

  lemma {:induction false} NewlinesSkipped(s: string, version: string)
    ensures Extract(DropNewlines(s), version) == Extract(s, version)
  {
    if s != "" && s[0] == '\n' {
      NewlinesSkipped(s[1..], version);
      EmptyLine(s[1..]);
      assert s == "\n" + s[1..];
      NoMark(version);
      SkipLines([""], SplitLines(s[1..]), Marks(version), IsHeading);
    }
  }

  lemma NoMark(version: string)
    ensures !Marks(version)("") && !Marks(version)(TITLE)
  {
    TopUnmarked(version);
    assert [TITLE, ""][0] == TITLE && [TITLE, ""][1] == "";
  }

  lemma TitleDropped(rest: string)
    ensures BodyOf(TITLE + "\n" + rest) == rest
  {
    var s := TITLE + "\n" + rest;
    assert s[0] == '#' && StripLeft(s) == s;
    FirstLineEnds(TITLE, rest);
  }

  // ----- sections further down -----------------------------------------------------------

  /** Up to and with the first line feed. */
  function FirstLine(s: string): string {
    if s == "" then "" else if s[0] == '\n' then "\n" else [s[0]] + FirstLine(s[1..])
  }

  /** What a release replaces: the line of the title, as far as the first line feed. */
  function TopOf(existing: string): string {
    if TITLE <= StripLeft(existing) then FirstLine(existing) else ""
  }

  /** Whether text before `rest` ends a line. */
  predicate Closes(s: string, rest: string) { s == "" || rest == "" || s[|s| - 1] == '\n' }

  lemma {:induction false} FirstLineCloses(s: string)
    ensures FirstLine(s) + AfterFirstLine(s) == s && Closes(FirstLine(s), AfterFirstLine(s))
  {
    if s != "" && s[0] != '\n' {
      FirstLineCloses(s[1..]);
    }
  }

  lemma TopAndBody(existing: string)
    ensures TopOf(existing) + BodyOf(existing) == existing && Closes(TopOf(existing), BodyOf(existing))
  {
    FirstLineCloses(existing);
    assert "" + existing == existing;
  }

  /** Where the first line break ends. */
  function BreakEnd(s: string): (m: nat)
    requires LineLength(s) < |s|
    ensures LineLength(s) < m <= |s|
  {
    var n := LineLength(s);
    if s[n] == '\r' && n + 1 < |s| && s[n + 1] == '\n' then n + 2 else n + 1
  }

  lemma FirstOff(s: string)
    requires LineLength(s) < |s|
    ensures SplitLines(s) == [s[..LineLength(s)]] + SplitLines(s[BreakEnd(s)..])
  {}

  lemma SameBreak(s: string, rest: string)
    requires s != "" && s[|s| - 1] == '\n'
    ensures LineLength(s) == LineLength(s + rest) < |s| && BreakEnd(s + rest) == BreakEnd(s)
  {
    var n := LineLength(s);
    assert IsLineBreak(s[|s| - 1]) && s[..|s|] == s;
    assert forall i :: 0 <= i < |s| ==> (s + rest)[i] == s[i];
    assert forall i :: 0 <= i < n ==> s[i] == s[..n][i];
    StopsAt(s + rest, n);
  }

  lemma FirstOffBoth(s: string, rest: string)
    requires s != "" && s[|s| - 1] == '\n'
    ensures LineLength(s) < |s| && SplitLines(s + rest) == [s[..LineLength(s)]] + SplitLines(s[BreakEnd(s)..] + rest)
  {
    var n, m := LineLength(s), BreakEnd(s);
    SameBreak(s, rest);
    FirstOff(s + rest);
    assert (s + rest)[..n] == s[..n] && (s + rest)[m..] == s[m..] + rest;
  }

  lemma Regroup(xs: seq<string>, ys: seq<string>, zs: seq<string>)
    ensures xs + (ys + zs) == (xs + ys) + zs
  {}

  lemma OneLineApart(s: string, rest: string)
    requires s != "" && s[|s| - 1] == '\n' && LineLength(s) < |s|
    requires SplitLines(s[BreakEnd(s)..] + rest) == SplitLines(s[BreakEnd(s)..]) + SplitLines(rest)
    ensures SplitLines(s + rest) == SplitLines(s) + SplitLines(rest)
  {
    FirstOff(s);
    FirstOffBoth(s, rest);
    Regroup([s[..LineLength(s)]], SplitLines(s[BreakEnd(s)..]), SplitLines(rest));
  }

  /** Where a line feed ends a line, the lines can be read apart. */
  lemma {:induction false} LinesApart(s: string, rest: string)
    requires Closes(s, rest)
    ensures SplitLines(s + rest) == SplitLines(s) + SplitLines(rest)
    decreases |s|
  {
    if s == "" {
      assert s + rest == rest;
    } else if rest == "" {
      assert s + rest == s;
    } else {
      SameBreak(s, rest);
      LinesApart(s[BreakEnd(s)..], rest);
      OneLineApart(s, rest);
    }
  }

  ghost predicate NoneMarked(text: string, version: string) {
    forall i :: 0 <= i < |SplitLines(text)| ==> !Marks(version)(SplitLines(text)[i])
  }

  lemma {:induction false} LocatedStarts(lines: seq<string>, marks: string -> bool, ends: string -> bool)
    ensures if exists i :: 0 <= i < |lines| && marks(lines[i])
            then Located(lines, marks, ends) != [] && marks(Located(lines, marks, ends)[0])
            else Located(lines, marks, ends) == []
  {
    if lines != [] && !marks(lines[0]) {
      LocatedStarts(lines[1..], marks, ends);
      assert forall i :: 0 < i < |lines| ==> lines[i] == lines[1..][i - 1];
      if i :| 0 <= i < |lines| && marks(lines[i]) {
        assert marks(lines[1..][i - 1]);
      }
    }
  }

  /** A file has an answer exactly when some line is marked. */
  lemma AnswersWhenMarked(text: string, version: string)
    ensures Extract(text, version) == "" <==> NoneMarked(text, version)
  {
    var lines := SplitLines(text);
    var found := Located(lines, Marks(version), IsHeading);
    LocatedStarts(lines, Marks(version), IsHeading);
    if found != [] {
      MarkedIsHeading(version);
      HeadingSolid(found[0]);
      JoinStarts(found);
      StripRightKeeps(Join(found), 0);
      assert StripLeft(Join(found)) == Join(found);
    }
  }

  lemma NoTitleMarked(existing: string)
    requires TITLE <= StripLeft(existing)
    ensures !(MARK <= existing)
  {
    assert existing != "" && !IsSpace(existing[0]) ==> StripLeft(existing) == existing;
    assert TITLE[1] != MARK[1];
  }

  /** The first line of what a release replaces is marked for no version. */
  lemma TitleUnmarked(existing: string, version: string)
    ensures |SplitLines(TopOf(existing))| <= 1 ==> NoneMarked(TopOf(existing), version)
  {
    var top := TopOf(existing);
    TopAndBody(existing);
    MarkedIsHeading(version);
    if top != "" {
      NoTitleMarked(existing);
      assert SplitLines(top)[0] == top[..LineLength(top)] <= existing;
    }
  }

  lemma BodyRead(existing: string, version: string)
    requires NoneMarked(TopOf(existing), version)
    ensures Extract(BodyOf(existing), version) == Extract(existing, version)
  {
    TopAndBody(existing);
    LinesApart(TopOf(existing), BodyOf(existing));
    SkipLines(SplitLines(TopOf(existing)), SplitLines(BodyOf(existing)), Marks(version), IsHeading);
  }

  lemma TopMarked(existing: string, version: string)
    requires !NoneMarked(TopOf(existing), version)
    ensures Extract(existing, version) != ""
  {
    TopAndBody(existing);
    LinesApart(TopOf(existing), BodyOf(existing));
    var i :| 0 <= i < |SplitLines(TopOf(existing))| && Marks(version)(SplitLines(TopOf(existing))[i]);
    assert SplitLines(existing)[i] == SplitLines(TopOf(existing))[i];
    AnswersWhenMarked(existing, version);
  }

  /** In any file, adding a release keeps the answer for every version its heading does not begin
      with, unless the replaced part holds a heading of that version; and if the rest of the file
      holds none, then exactly so.  Where the title ends in a line feed, it never does. */
  lemma OlderSectionsKept(existing: string, r: Release, version: string)
    requires WellFormed(r) && !(version <= Label(r))
    ensures var kept := Extract(Prepend(existing, Section(r)), version) == Extract(existing, version);
            && (NoneMarked(TopOf(existing), version) ==> kept)
            && (NoneMarked(BodyOf(existing), version) ==> (kept <==> NoneMarked(TopOf(existing), version)))
    ensures |SplitLines(TopOf(existing))| <= 1 ==> NoneMarked(TopOf(existing), version)
  {
    OthersUndisturbed(existing, r, version);
    NewlinesSkipped(BodyOf(existing), version);
    TitleUnmarked(existing, version);
    if NoneMarked(TopOf(existing), version) {
      BodyRead(existing, version);
    } else {
      TopMarked(existing, version);
      AnswersWhenMarked(BodyOf(existing), version);
    }
  }

  /** It does where the title ends in a carriage return alone: the section below is lost. */
  lemma CarriageReturnLoses(r: Release, version: string)
    requires WellFormed(r) && Plain(version) && !(version <= Label(r))
    ensures var existing := "# Changelog" + "\r" + (MARK + version);
            Extract(existing, version) != "" && Extract(Prepend(existing, Section(r)), version) == ""
  {
    var heading := MARK + version;
    var existing := TITLE + "\r" + heading;
    assert forall i :: 0 <= i < |heading| ==> heading[i] != '\n' by {
      forall i | 0 <= i < |heading| ensures !IsLineBreak(heading[i]) {
        assert i >= |MARK| ==> heading[i] == version[i - |MARK|];
      }
    }
    OneLine(existing);
    assert existing[0] == '#' && StripLeft(existing) == existing;
    assert BodyOf(existing) == "";
    CarriageReturn(heading);
    OthersUndisturbed(existing, r, version);
    assert SplitLines(existing)[1] == heading && Marks(version)(heading);
    AnswersWhenMarked(existing, version);
    AnswersWhenMarked("", version);
  }

  lemma {:induction false} OneLine(s: string)
    requires '\n' !in s
    ensures AfterFirstLine(s) == ""
  {
    if s != "" {
      OneLine(s[1..]);
    }
  }

  lemma CarriageReturn(heading: string)
    requires heading != "" && Plain(heading)
    ensures SplitLines(TITLE + "\r" + heading) == [TITLE, heading]
  {
    var s := TITLE + "\r" + heading;
    assert s[|TITLE|] == '\r' && forall i :: 0 <= i < |TITLE| ==> s[i] == TITLE[i];
    assert Plain(TITLE);
    StopsAt(s, |TITLE|);
    assert s[|TITLE| + 1] == heading[0] && !IsLineBreak(heading[0]);
    assert s[..|TITLE|] == TITLE && s[|TITLE| + 1..] == heading;
    assert LineLength(heading) == |heading|;
  }
}
