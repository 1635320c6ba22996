/** The changelog file over a history of releases: what is put on top of it can be found again, and
    exactly when. */
module ChangelogHistory {
  import opened Bags
  import opened Changelog
  import opened Text

  const TITLE := "# Changelog"
  const MARK := "## "

  // ----- prepending ----------------------------------------------------------------------

  /** `lstrip("\n")`. */
  function DropNewlines(s: string): string {
    if s != "" && s[0] == '\n' then DropNewlines(s[1..]) else s
  }

  /** What comes after the first line feed, if there is one. */
  function AfterFirstLine(s: string): string {
    if s == "" then "" else if s[0] == '\n' then s[1..] else AfterFirstLine(s[1..])
  }

  /** The file without its title line. */
  function BodyOf(existing: string): string {
    if TITLE <= StripLeft(existing) then AfterFirstLine(existing) else existing
  }

  function Prepend(existing: string, section: string): string {
    TITLE + "\n" + "\n" + StripRight(section) + "\n" + DropNewlines(BodyOf(existing))
  }

  // ----- extracting ----------------------------------------------------------------------

  predicate IsHeading(line: string) { MARK <= line }

  function Marks(version: string): string -> bool { (line: string) => MARK + version <= line }

  /** The lines before the first that satisfies `ends`. */
  function Until(lines: seq<string>, ends: string -> bool): seq<string> {
    if lines == [] || ends(lines[0]) then [] else [lines[0]] + Until(lines[1..], ends)
  }

  /** From the first line that satisfies `marks` up to the next one that satisfies `ends`; nothing
      when there is none. */
  function Located(lines: seq<string>, marks: string -> bool, ends: string -> bool): seq<string> {
    if lines == [] then []
    else if marks(lines[0]) then [lines[0]] + Until(lines[1..], ends)
    else Located(lines[1..], marks, ends)
  }

  function Finished(text: string): string {
    if Strip(text) == "" then "" else Strip(text) + "\n"
  }

  function ExtractLines(lines: seq<string>, version: string): string {
    Finished(Join(Located(lines, Marks(version), IsHeading)))
  }

  function Extract(changelog: string, version: string): string { ExtractLines(SplitLines(changelog), version) }

  method FindFirst(lines: seq<string>, from: nat, p: string -> bool) returns (n: nat)
    requires from <= |lines|
    ensures from <= n <= |lines| && (forall k :: from <= k < n ==> !p(lines[k])) && (n < |lines| ==> p(lines[n]))
  {
    for index := from to |lines|
      invariant forall k :: from <= k < index ==> !p(lines[k])
    {
      if p(lines[index]) {
        return index;
      }
    }
    return |lines|;
  }

  method ExtractChangelogSection(changelog: string, version: string) returns (section: string)
    ensures section == Extract(changelog, version)
  {
    var lines := SplitLines(changelog);
    var start := FindFirst(lines, 0, Marks(version));
    LocatedAt(lines, Marks(version), IsHeading, start);
    if start == |lines| {
      return "";
    }
    var end := FindFirst(lines, start + 1, IsHeading);
    UntilAt(lines[start + 1..], IsHeading, end - start - 1);
    assert lines[start + 1..][..end - start - 1] == lines[start + 1..end];
    assert [lines[start]] + lines[start + 1..end] == lines[start..end];
    var text := Strip(Join(lines[start..end]));
    return if text != "" then text + "\n" else "";
  }

  lemma {:induction false} UntilAt(lines: seq<string>, ends: string -> bool, n: nat)
    requires n <= |lines| && (forall k :: 0 <= k < n ==> !ends(lines[k])) && (n < |lines| ==> ends(lines[n]))
    ensures Until(lines, ends) == lines[..n]
  {
    if n > 0 {
      UntilAt(lines[1..], ends, n - 1);
      assert [lines[0]] + lines[1..][..n - 1] == lines[..n];
    }
  }

  lemma {:induction false} LocatedAt(lines: seq<string>, marks: string -> bool, ends: string -> bool, n: nat)
    requires n <= |lines| && (forall k :: 0 <= k < n ==> !marks(lines[k])) && (n < |lines| ==> marks(lines[n]))
    ensures Located(lines, marks, ends) == if n == |lines| then [] else [lines[n]] + Until(lines[n + 1..], ends)
  {
    if n > 0 {
      LocatedAt(lines[1..], marks, ends, n - 1);
      assert n < |lines| ==> lines[1..][n..] == lines[n + 1..];
    }
  }

  /** Lines before the section do not matter. */
  lemma {:induction false} SkipLines(before: seq<string>, lines: seq<string>, marks: string -> bool, ends: string -> bool)
    requires forall i :: 0 <= i < |before| ==> !marks(before[i])
    ensures Located(before + lines, marks, ends) == Located(lines, marks, ends)
  {
    if before == [] {
      assert before + lines == lines;
    } else {
      assert (before + lines)[1..] == before[1..] + lines;
      SkipLines(before[1..], lines, marks, ends);
    }
  }

  lemma {:induction false} UntilBeyond(before: seq<string>, lines: seq<string>, ends: string -> bool)
    requires forall i :: 0 <= i < |before| ==> !ends(before[i])
    ensures Until(before + lines, ends) == before + Until(lines, ends)
  {
    if before == [] {
      assert before + lines == lines;
    } else {
      assert (before + lines)[1..] == before[1..] + lines;
      UntilBeyond(before[1..], lines, ends);
      FirstAgain(before, Until(lines, ends));
    }
  }

  /** A section ends where the next one begins. */
  lemma TakeSection(section: seq<string>, lines: seq<string>, marks: string -> bool, ends: string -> bool)
    requires section != [] && marks(section[0])
    requires forall i :: 0 < i < |section| ==> !ends(section[i])
    ensures Located(section + lines, marks, ends) == section + Until(lines, ends)
  {
    assert (section + lines)[1..] == section[1..] + lines;
    UntilBeyond(section[1..], lines, ends);
    FirstAgain(section, Until(lines, ends));
  }

  // ----- the lines of one release --------------------------------------------------------

  /** A release without line breaks in its version, its date and its trimmed subjects. */
  ghost predicate WellFormed(r: Release) {
    && Plain(r.version) && Plain(r.stamp)
    && forall i :: 0 <= i < |r.commits| ==> Plain(Strip(r.commits[i]))
  }

  /** A line of a section below its heading. */
  ghost predicate IsBody(line: string) { Plain(line) && !IsHeading(line) }

  ghost predicate AllBody(lines: seq<string>) { forall i :: 0 <= i < |lines| ==> IsBody(lines[i]) }

  ghost predicate AllSolid(lines: seq<string>) {
    forall i :: 0 <= i < |lines| ==> IsBody(lines[i]) && EndsSolid(lines[i])
  }

  /** The last line is empty and the one before it is not. */
  ghost predicate Closed(lines: seq<string>) {
    |lines| >= 2 && lines[|lines| - 1] == "" && EndsSolid(lines[|lines| - 2])
  }

  lemma BulletShape(subject: string)
    requires Plain(subject) && EndsSolid(subject)
    ensures IsBody(Bullet(subject)) && EndsSolid(Bullet(subject))
  {
    assert Bullet(subject)[0] == '-';
  }

  lemma BulletsShape(r: Release, p: string -> bool)
    requires WellFormed(r)
    ensures AllSolid(Each(Keep(Subjects(r.commits), p), Bullet))
  {
    var stripped := Each(r.commits, (raw: string) => Strip(raw));
    KeepMembers(stripped, NonEmpty);
    KeepMembers(Subjects(r.commits), p);
    var kept := Keep(Subjects(r.commits), p);
    forall i | 0 <= i < |kept| ensures IsBody(Bullet(kept[i])) && EndsSolid(Bullet(kept[i])) {
      assert kept[i] in kept;
      var j :| 0 <= j < |stripped| && stripped[j] == kept[i];
      StripShape(r.commits[j]);
      BulletShape(kept[i]);
    }
  }

  lemma BlockShape(title: string, bullets: seq<string>)
    requires Plain(title) && AllSolid(bullets)
    ensures AllBody(Block(title, bullets))
    ensures bullets == [] ==> Block(title, bullets) == []
    ensures bullets != [] ==> Closed(Block(title, bullets))
  {
    if bullets != [] {
      var block := Block(title, bullets);
      assert block[0] == "### " + title && block[0][2] == '#';
      assert block[|block| - 2] == bullets[|bullets| - 1];
      forall i | 0 <= i < |block| ensures IsBody(block[i]) {
        assert 0 < i < |block| - 1 ==> block[i] == bullets[i - 1];
      }
    }
  }

  lemma JoinBlocks(xs: seq<string>, ys: seq<string>)
    requires AllBody(xs) && AllBody(ys)
    ensures AllBody(xs + ys) && (Closed(ys) ==> Closed(xs + ys)) && (ys == [] && Closed(xs) ==> Closed(xs + ys))
  {
    if Closed(ys) {
      var all := xs + ys;
      assert all[|all| - 1] == ys[|ys| - 1] && all[|all| - 2] == ys[|ys| - 2];
    }
    if ys == [] {
      assert xs + ys == xs;
    }
  }

  lemma MaintenanceShape()
    ensures AllBody([MAINTENANCE, ""]) && Closed([MAINTENANCE, ""])
  {
    assert MAINTENANCE[0] == '-';
  }

  lemma BlocksShape(r: Release)
    requires WellFormed(r)
    ensures AllBody(Blocks(r.commits)) && Closed(Blocks(r.commits))
  {
    BulletsAssembled(r, InCategory(Feature), InCategory(Fix), InCategory(Other));
  }

  lemma BulletsAssembled(r: Release, p: string -> bool, q: string -> bool, s: string -> bool)
    requires WellFormed(r)
    ensures var lines := Assembled(Each(Keep(Subjects(r.commits), p), Bullet), Each(Keep(Subjects(r.commits), q), Bullet),
                                   Each(Keep(Subjects(r.commits), s), Bullet));
            AllBody(lines) && Closed(lines)
  {
    BulletsShape(r, p);
    BulletsShape(r, q);
    BulletsShape(r, s);
    AssembledShape(Each(Keep(Subjects(r.commits), p), Bullet), Each(Keep(Subjects(r.commits), q), Bullet),
                   Each(Keep(Subjects(r.commits), s), Bullet));
  }

  lemma AssembledShape(features: seq<string>, fixes: seq<string>, other: seq<string>)
    requires AllSolid(features) && AllSolid(fixes) && AllSolid(other)
    ensures AllBody(Assembled(features, fixes, other)) && Closed(Assembled(features, fixes, other))
  {
    MaintenanceShape();
    BlockShape(TitleOf(Feature), features);
    BlockShape(TitleOf(Fix), fixes);
    BlockShape(TitleOf(Other), other);
    JoinBlocks(Block(TitleOf(Feature), features), Block(TitleOf(Fix), fixes));
    JoinBlocks(Block(TitleOf(Feature), features) + Block(TitleOf(Fix), fixes), Block(TitleOf(Other), other));
  }

  /** The lines of a section without the empty one at the end. */
  function Core(r: Release): seq<string>
  {
    var lines := SectionLines(r);
    lines[..|lines| - 1]
  }

  lemma HeadingShape(r: Release)
    requires Plain(r.version) && Plain(r.stamp)
    ensures Plain(Heading(r)) && IsHeading(Heading(r)) && StartsSolid(Heading(r))
    ensures forall version :: Marks(version)(Heading(r)) <==> version <= Label(r)
  {
    assert Heading(r)[0] == '#';
    forall version ensures Marks(version)(Heading(r)) <==> version <= Label(r) {
      Behind(MARK, version, Label(r));
    }
  }

  lemma Behind(mark: string, a: string, b: string)
    ensures mark + a <= mark + b <==> a <= b
  {
    if mark + a <= mark + b {
      forall i | 0 <= i < |a| ensures a[i] == b[i] {
        assert a[i] == (mark + a)[|mark| + i] && b[i] == (mark + b)[|mark| + i];
      }
    }
    if a <= b {
      assert mark + b == (mark + a) + b[|a|..];
    }
  }

  ghost predicate IsCore(core: seq<string>, heading: string) {
    && |core| >= 2 && core[0] == heading && AllPlain(core)
    && (forall i :: 0 < i < |core| ==> !IsHeading(core[i]))
    && EndsSolid(core[|core| - 1])
  }

  lemma CoreOf(heading: string, blocks: seq<string>)
    requires Plain(heading) && AllBody(blocks) && Closed(blocks)
    ensures var lines := [heading, ""] + blocks;
            IsCore(lines[..|lines| - 1], heading) && lines == lines[..|lines| - 1] + [""]
  {
    var lines := [heading, ""] + blocks;
    forall i | 2 <= i < |lines| ensures lines[i] == blocks[i - 2] {}
    forall i | 0 <= i < |lines| ensures Plain(lines[i]) && (i > 0 ==> !IsHeading(lines[i])) {
      assert i >= 2 ==> IsBody(blocks[i - 2]);
    }
    assert lines[..|lines| - 1] + [lines[|lines| - 1]] == lines;
  }

  lemma CoreShape(r: Release)
    requires WellFormed(r)
    ensures IsCore(Core(r), Heading(r)) && SectionLines(r) == Core(r) + [""]
  {
    BlocksShape(r);
    HeadingShape(r);
    CoreOf(Heading(r), Blocks(r.commits));
  }

  lemma {:induction false} JoinEnds(lines: seq<string>)
    requires lines != [] && EndsSolid(lines[|lines| - 1])
    ensures EndsSolid(Join(lines))
  {
    if |lines| > 1 {
      JoinEnds(lines[1..]);
    }
  }

  lemma JoinStarts(lines: seq<string>)
    requires lines != [] && StartsSolid(lines[0])
    ensures StartsSolid(Join(lines))
  {}

  lemma SolidSection(core: seq<string>)
    requires core != [] && StartsSolid(core[0]) && EndsSolid(core[|core| - 1])
    ensures StartsSolid(Join(core)) && EndsSolid(Join(core))
    ensures StripRight(Join(core + [""])) == Join(core) && Unlines(core) == Join(core) + "\n"
    ensures StripRight(Join(core) + "\n") == Join(core) && Finished(Join(core)) == Join(core) + "\n"
  {
    JoinEnds(core);
    JoinStarts(core);
    JoinSplit(core, [""]);
    assert Join(core) + "\n" + Join([""]) == Join(core) + "\n";
    StripTrailing(Join(core), "\n");
    JoinIsUnlines(core);
    StripSolid(Join(core), "");
    assert Join(core) + "" == Join(core);
  }

  /** A section is its lines, each with a line feed; trimming it only takes the last one away. */
  lemma SectionShape(r: Release)
    requires WellFormed(r)
    ensures Section(r) == Unlines(Core(r)) == Join(Core(r)) + "\n"
    ensures StartsSolid(Join(Core(r))) && EndsSolid(Join(Core(r)))
    ensures StripRight(Section(r)) == Join(Core(r)) && Finished(Join(Core(r))) == Section(r)
  {
    CoreShape(r);
    HeadingShape(r);
    SolidSection(Core(r));
  }

  // ----- sections on top of each other ---------------------------------------------------

  /** The lines of some section: a heading, and lines that are none. */
  ghost predicate IsSection(core: seq<string>) {
    && |core| >= 2 && IsHeading(core[0]) && AllPlain(core)
    && (forall i :: 0 < i < |core| ==> !IsHeading(core[i]))
    && EndsSolid(core[|core| - 1])
  }

  ghost predicate AllSections(sections: seq<seq<string>>) {
    forall i :: 0 <= i < |sections| ==> IsSection(sections[i])
  }

  /** The file after putting sections on top of it, starting from the empty file. */
  function Stack(sections: seq<seq<string>>): string {
    if sections == [] then ""
    else Prepend(Stack(sections[..|sections| - 1]), Join(sections[|sections| - 1]) + "\n")
  }

  /** The lines of all sections, newest first. */
  function StackLines(sections: seq<seq<string>>): seq<string> {
    if sections == [] then [] else sections[|sections| - 1] + StackLines(sections[..|sections| - 1])
  }

  /** The text before the first section. */
  const TOP := TITLE + "\n" + "\n"

  lemma HeadingSolid(line: string)
    requires IsHeading(line)
    ensures StartsSolid(line) && line[0] == '#'
  {}

  lemma Stacked(existing: string, core: seq<string>)
    requires IsSection(core)
    ensures Prepend(existing, Join(core) + "\n") == TOP + (Unlines(core) + DropNewlines(BodyOf(existing)))
  {
    HeadingSolid(core[0]);
    SolidSection(core);
  }

  lemma {:induction false} FirstLineEnds(line: string, rest: string)
    requires '\n' !in line
    ensures AfterFirstLine(line + "\n" + rest) == rest
  {
    var s := line + "\n" + rest;
    if line == "" {
      assert s[1..] == rest;
    } else {
      FirstLineEnds(line[1..], rest);
      assert s[0] == line[0] && s[1..] == line[1..] + "\n" + rest;
    }
  }

  lemma BelowTop(s: string)
    requires s == "" || s[0] == '#'
    ensures DropNewlines(BodyOf(TOP + s)) == s
  {
    assert TOP + s == TITLE + "\n" + ("\n" + s);
    assert (TOP + s)[0] == '#';
    assert StripLeft(TOP + s) == TOP + s;
    FirstLineEnds(TITLE, "\n" + s);
    assert ("\n" + s)[1..] == s;
  }

  lemma StackStarts(sections: seq<seq<string>>)
    requires AllSections(sections) && sections != []
    ensures StackLines(sections) != [] && StackLines(sections)[0] == sections[|sections| - 1][0]
  {
    assert IsSection(sections[|sections| - 1]);
  }

  lemma UnlinesStart(lines: seq<string>)
    requires lines != [] && IsHeading(lines[0])
    ensures Unlines(lines) != "" && Unlines(lines)[0] == '#'
  {
    HeadingSolid(lines[0]);
  }

  /** The file is the title, an empty line, and all sections, newest first. */
  lemma {:induction false} StackShape(sections: seq<seq<string>>)
    requires AllSections(sections)
    ensures sections != [] ==> Stack(sections) == TOP + Unlines(StackLines(sections))
    ensures DropNewlines(BodyOf(Stack(sections))) == Unlines(StackLines(sections))
  {
    if sections != [] {
      var n := |sections| - 1;
      var before := sections[..n];
      assert IsSection(sections[n]);
      StackShape(before);
      Stacked(Stack(before), sections[n]);
      UnlinesSplit(sections[n], StackLines(before));
      StackStarts(sections);
      UnlinesStart(StackLines(sections));
      BelowTop(Unlines(StackLines(sections)));
    }
  }

  lemma {:induction false} StackPlain(sections: seq<seq<string>>)
    requires AllSections(sections)
    ensures AllPlain(StackLines(sections))
  {
    if sections != [] {
      assert IsSection(sections[|sections| - 1]);
      StackPlain(sections[..|sections| - 1]);
    }
  }

  /** The newest section whose heading satisfies `marks`. */
  function Newest(sections: seq<seq<string>>, marks: string -> bool): seq<string>
    requires forall i :: 0 <= i < |sections| ==> sections[i] != []
  {
    if sections == [] then []
    else if marks(sections[|sections| - 1][0]) then sections[|sections| - 1]
    else Newest(sections[..|sections| - 1], marks)
  }

  lemma StackGap(sections: seq<seq<string>>)
    requires AllSections(sections)
    ensures Until(StackLines(sections), IsHeading) == []
  {
    if sections != [] {
      assert IsSection(sections[|sections| - 1]);
      StackStarts(sections);
    }
  }

  lemma {:induction false} LocatedInStack(sections: seq<seq<string>>, marks: string -> bool)
    requires AllSections(sections) && forall line :: marks(line) ==> IsHeading(line)
    ensures Located(StackLines(sections), marks, IsHeading) == Newest(sections, marks)
  {
    if sections != [] {
      var n := |sections| - 1;
      var before, core := sections[..n], sections[n];
      assert IsSection(core);
      if marks(core[0]) {
        TakeSection(core, StackLines(before), marks, IsHeading);
        StackGap(before);
      } else {
        SkipLines(core, StackLines(before), marks, IsHeading);
        LocatedInStack(before, marks);
      }
    }
  }

  lemma MarkedIsHeading(version: string)
    ensures forall line :: Marks(version)(line) ==> IsHeading(line)
  {
    forall line | Marks(version)(line) ensures IsHeading(line) {
      assert MARK <= MARK + version <= line;
    }
  }

  lemma EmptyLine(rest: string)
    ensures SplitLines("\n" + rest) == [""] + SplitLines(rest)
  {
    SplitPlain("", rest);
    assert "" + "\n" + rest == "\n" + rest;
  }

  lemma TitleSplits(title: string, rest: string)
    requires Plain(title)
    ensures SplitLines(title + "\n" + ("\n" + rest)) == [title] + ([""] + SplitLines(rest))
  {
    SplitPlain(title, "\n" + rest);
    EmptyLine(rest);
  }

  lemma TopLines(title: string, rest: string)
    requires Plain(title)
    ensures SplitLines((title + "\n" + "\n") + rest) == [title, ""] + SplitLines(rest)
  {
    TitleSplits(title, rest);
    TopText(title, rest);
    TwoFirst(title, SplitLines(rest));
  }

  lemma TopText(title: string, rest: string)
    ensures (title + "\n" + "\n") + rest == title + "\n" + ("\n" + rest)
  {}

  lemma TwoFirst(title: string, lines: seq<string>)
    ensures [title] + ([""] + lines) == [title, ""] + lines
  {}

  lemma TopSplits(rest: string)
    ensures SplitLines(TOP + rest) == [TITLE, ""] + SplitLines(rest)
  {
    TopLines(TITLE, rest);
  }

  lemma TopUnmarked(version: string)
    ensures forall i :: 0 <= i < |[TITLE, ""]| ==> !Marks(version)([TITLE, ""][i])
  {
    MarkedIsHeading(version);
    assert TITLE[1] == ' ' && MARK[1] == '#';
  }

  /** What is found in the file is the newest section that is marked. */
  lemma ExtractFromStack(sections: seq<seq<string>>, version: string)
    requires AllSections(sections)
    ensures Extract(Stack(sections), version) == Finished(Join(Newest(sections, Marks(version))))
  {
    var lines := StackLines(sections);
    StackShape(sections);
    StackPlain(sections);
    MarkedIsHeading(version);
    LocatedInStack(sections, Marks(version));
    if sections != [] {
      TopSplits(Unlines(lines));
      SplitUnlines(lines, "");
      assert Unlines(lines) + "" == Unlines(lines) && lines + [] == lines;
      TopUnmarked(version);
      SkipLines([TITLE, ""], lines, Marks(version), IsHeading);
    }
  }
}
