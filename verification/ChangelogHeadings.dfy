/** Where in the printed text of a release each commit stands
    (backend/app/cicd/release_notes.py:20-42). */
module ChangelogHeadings {
  import opened Bags
  import opened Changelog
  import opened ChangelogContent
  import opened ChangelogHistory
  import opened Text

  function Same(line: string): string -> bool { (other: string) => other == line }

  predicate NoBullet(line: string) { !IsBulletLine(line) }

  /** The bullets that stand right under a heading, reading from the top. */
  function Under(lines: seq<string>, heading: string): seq<string> {
    var found := Located(lines, Same(heading), NoBullet);
    if found == [] then [] else found[1..]
  }

  lemma {:induction false} Absent(lines: seq<string>, heading: string)
    requires heading !in lines
    ensures Located(lines, Same(heading), NoBullet) == []
  {
    if lines != [] {
      Absent(lines[1..], heading);
    }
  }

  /** The bullets of a block stand under its title. */
  lemma UnderBlock(before: seq<string>, title: string, bullets: seq<string>, rest: seq<string>)
    requires "### " + title !in before && (forall i :: 0 <= i < |bullets| ==> IsBulletLine(bullets[i]))
    requires bullets == [] ==> "### " + title !in rest
    ensures Under(before + (Block(title, bullets) + rest), "### " + title) == bullets
  {
    var heading := "### " + title;
    SkipLines(before, Block(title, bullets) + rest, Same(heading), NoBullet);
    if bullets == [] {
      assert [] + rest == rest;
      Absent(rest, heading);
    } else {
      var section := [heading] + bullets;
      assert Block(title, bullets) + rest == section + ([""] + rest);
      TakeSection(section, [""] + rest, Same(heading), NoBullet);
      assert ([""] + rest)[0] == "" && Until([""] + rest, NoBullet) == [];
      assert section + [] == section && section[1..] == bullets;
    }
  }

  lemma {:induction false} UntilEmptyLine(lines: seq<string>)
    ensures Until(lines + [""], NoBullet) == Until(lines, NoBullet)
  {
    if lines != [] {
      UntilEmptyLine(lines[1..]);
      assert (lines + [""])[1..] == lines[1..] + [""];
    }
  }

  /** An empty line at the end changes nothing. */
  lemma {:induction false} LocatedEmptyLine(lines: seq<string>, heading: string)
    requires heading != ""
    ensures Located(lines + [""], Same(heading), NoBullet) == Located(lines, Same(heading), NoBullet)
  {
    if lines != [] {
      LocatedEmptyLine(lines[1..], heading);
      UntilEmptyLine(lines[1..]);
      assert (lines + [""])[1..] == lines[1..] + [""];
    } else {
      assert lines + [""] == [""] && [""][1..] == [];
    }
  }

  lemma NotInBlock(title: string, other: string, bullets: seq<string>)
    requires title != other && forall i :: 0 <= i < |bullets| ==> IsBulletLine(bullets[i])
    ensures "### " + title !in Block(other, bullets)
  {
    var heading := "### " + title;
    assert heading[0] == '#' && title == heading[4..] && other == ("### " + other)[4..];
    forall i | 0 <= i < |bullets| ensures bullets[i] != heading {
      assert bullets[i][0] == '-';
    }
  }

  ghost predicate AllBullets(lines: seq<string>) { forall i :: 0 <= i < |lines| ==> IsBulletLine(lines[i]) }

  lemma Titles()
    ensures TitleOf(Feature) == "Features" && TitleOf(Fix) == "Fixes" && TitleOf(Other) == "Other"
    ensures "Features"[2] != "Fixes"[2] && "Features"[0] != "Other"[0] && "Fixes"[0] != "Other"[0]
  {}

  lemma Grouped(t: seq<string>, a: seq<string>, b: seq<string>, c: seq<string>)
    ensures t + (a + b + c) == t + (a + (b + c)) && t + (a + b + c) == (t + a) + (b + c)
    ensures t + (a + b + c) == (t + a + b) + (c + [])
  {}

  lemma NotInEither(line: string, xs: seq<string>, ys: seq<string>)
    requires line !in xs && line !in ys
    ensures line !in xs + ys
  {}

  lemma ThreeBlocks(top: seq<string>, x: string, xs: seq<string>, y: string, ys: seq<string>, z: string, zs: seq<string>)
    requires AllBullets(xs) && AllBullets(ys) && AllBullets(zs) && x != y && x != z && y != z
    requires "### " + x !in top && "### " + y !in top && "### " + z !in top
    ensures var lines := top + (Block(x, xs) + Block(y, ys) + Block(z, zs));
            Under(lines, "### " + x) == xs && Under(lines, "### " + y) == ys && Under(lines, "### " + z) == zs
  {
    FirstBlock(top, x, xs, y, ys, z, zs);
    SecondBlock(top, x, xs, y, ys, z, zs);
    ThirdBlock(top, x, xs, y, ys, z, zs);
  }

  lemma FirstBlock(top: seq<string>, x: string, xs: seq<string>, y: string, ys: seq<string>, z: string, zs: seq<string>)
    requires AllBullets(xs) && AllBullets(ys) && AllBullets(zs) && x != y && x != z && "### " + x !in top
    ensures Under(top + (Block(x, xs) + Block(y, ys) + Block(z, zs)), "### " + x) == xs
  {
    NotInBlock(x, y, ys);
    NotInBlock(x, z, zs);
    NotInEither("### " + x, Block(y, ys), Block(z, zs));
    UnderBlock(top, x, xs, Block(y, ys) + Block(z, zs));
    Grouped(top, Block(x, xs), Block(y, ys), Block(z, zs));
  }

  lemma SecondBlock(top: seq<string>, x: string, xs: seq<string>, y: string, ys: seq<string>, z: string, zs: seq<string>)
    requires AllBullets(xs) && AllBullets(ys) && AllBullets(zs) && x != y && y != z && "### " + y !in top
    ensures Under(top + (Block(x, xs) + Block(y, ys) + Block(z, zs)), "### " + y) == ys
  {
    NotInBlock(y, x, xs);
    NotInBlock(y, z, zs);
    NotInEither("### " + y, top, Block(x, xs));
    UnderBlock(top + Block(x, xs), y, ys, Block(z, zs));
    Grouped(top, Block(x, xs), Block(y, ys), Block(z, zs));
  }

  lemma ThirdBlock(top: seq<string>, x: string, xs: seq<string>, y: string, ys: seq<string>, z: string, zs: seq<string>)
    requires AllBullets(xs) && AllBullets(ys) && AllBullets(zs) && x != z && y != z && "### " + z !in top
    ensures Under(top + (Block(x, xs) + Block(y, ys) + Block(z, zs)), "### " + z) == zs
  {
    NotInBlock(z, x, xs);
    NotInBlock(z, y, ys);
    NotInEither("### " + z, top, Block(x, xs));
    NotInEither("### " + z, top + Block(x, xs), Block(y, ys));
    UnderBlock(top + Block(x, xs) + Block(y, ys), z, zs, []);
    Grouped(top, Block(x, xs), Block(y, ys), Block(z, zs));
  }

  predicate IsFeature(subject: string) { "feat" <= LowerAll(subject) }
  predicate IsFix(subject: string) { "fix" <= LowerAll(subject) }
  predicate IsNeither(subject: string) { !IsFeature(subject) && !IsFix(subject) }

  lemma {:induction false} KeepSame(xs: seq<string>, p: string -> bool, q: string -> bool)
    requires forall x :: p(x) <==> q(x)
    ensures Keep(xs, p) == Keep(xs, q)
  {
    if xs != [] {
      KeepSame(xs[1..], p, q);
    }
  }

  lemma CategoriesAre(subject: string)
    ensures InCategory(Feature)(subject) <==> IsFeature(subject)
    ensures InCategory(Fix)(subject) <==> IsFix(subject)
    ensures InCategory(Other)(subject) <==> IsNeither(subject)
  {
    var lowered := LowerAll(subject);
    assert "feat" <= lowered ==> lowered[1] == 'e';
    assert "fix" <= lowered ==> lowered[1] == 'i';
  }

  function Line(subject: string): string { "- " + subject }

  lemma BulletsAre(commits: seq<string>)
    ensures BulletsOf(commits, Feature) == Each(Keep(Subjects(commits), IsFeature), Line)
    ensures BulletsOf(commits, Fix) == Each(Keep(Subjects(commits), IsFix), Line)
    ensures BulletsOf(commits, Other) == Each(Keep(Subjects(commits), IsNeither), Line)
  {
    forall subject: string
      ensures InCategory(Feature)(subject) <==> IsFeature(subject)
      ensures InCategory(Fix)(subject) <==> IsFix(subject)
      ensures InCategory(Other)(subject) <==> IsNeither(subject)
    {
      CategoriesAre(subject);
    }
    KeepSame(Subjects(commits), InCategory(Feature), IsFeature);
    KeepSame(Subjects(commits), InCategory(Fix), IsFix);
    KeepSame(Subjects(commits), InCategory(Other), IsNeither);
    SameLines(Keep(Subjects(commits), IsFeature));
    SameLines(Keep(Subjects(commits), IsFix));
    SameLines(Keep(Subjects(commits), IsNeither));
  }

  lemma SameLines(subjects: seq<string>)
    ensures Each(subjects, Bullet) == Each(subjects, Line)
  {
    forall i | 0 <= i < |subjects| ensures Each(subjects, Bullet)[i] == Each(subjects, Line)[i] {
      assert Each(subjects, Bullet)[i] == Bullet(subjects[i]) && Each(subjects, Line)[i] == Line(subjects[i]);
    }
  }

  lemma TopLacks(r: Release, title: string)
    ensures "### " + title !in [Heading(r), ""]
  {
    assert Heading(r)[2] == ' ' && ("### " + title)[2] == '#';
  }

  lemma MaintenanceOnly(top: seq<string>, x: string)
    requires "### " + x !in top
    ensures Under(top + [MAINTENANCE, ""], "### " + x) == []
  {
    assert ("### " + x)[0] == '#' && MAINTENANCE[0] == '-';
    Absent(top + [MAINTENANCE, ""], "### " + x);
  }

  /** Read back from the printed text: under "### Features" stand the commits whose subjects begin with
      `feat`, under "### Fixes" those that begin with `fix`, under "### Other" all others that are not
      blank; each group in the order of the commits, and in whatever case they are written. */
  lemma EachUnderItsHeading(r: Release)
    requires WellFormed(r)
    ensures var lines, subjects := SplitLines(Section(r)), Subjects(r.commits);
            && Under(lines, "### " + "Features") == Each(Keep(subjects, IsFeature), Line)
            && Under(lines, "### " + "Fixes") == Each(Keep(subjects, IsFix), Line)
            && Under(lines, "### " + "Other") == Each(Keep(subjects, IsNeither), Line)
  {
    var f, x, o := BulletsOf(r.commits, Feature), BulletsOf(r.commits, Fix), BulletsOf(r.commits, Other);
    BulletsAre(r.commits);
    BulletsMarked(Keep(Subjects(r.commits), InCategory(Feature)));
    BulletsMarked(Keep(Subjects(r.commits), InCategory(Fix)));
    BulletsMarked(Keep(Subjects(r.commits), InCategory(Other)));
    SectionSplits(r);
    LocatedEmptyLine(Core(r), "### " + "Features");
    LocatedEmptyLine(Core(r), "### " + "Fixes");
    LocatedEmptyLine(Core(r), "### " + "Other");
    UnderTitles(r, f, x, o);
  }

  lemma UnderTitles(r: Release, f: seq<string>, x: seq<string>, o: seq<string>)
    requires AllBullets(f) && AllBullets(x) && AllBullets(o)
    ensures var lines := [Heading(r), ""] + Assembled(f, x, o);
            && Under(lines, "### " + "Features") == f && Under(lines, "### " + "Fixes") == x && Under(lines, "### " + "Other") == o
  {
    Titles();
    TopLacks(r, "Features");
    TopLacks(r, "Fixes");
    TopLacks(r, "Other");
    if f == [] && x == [] && o == [] {
      MaintenanceOnly([Heading(r), ""], "Features");
      MaintenanceOnly([Heading(r), ""], "Fixes");
      MaintenanceOnly([Heading(r), ""], "Other");
    } else {
      ThreeBlocks([Heading(r), ""], "Features", f, "Fixes", x, "Other", o);
    }
  }

  /** The first line of a section is its version and its date. */
  lemma FirstLineOf(r: Release)
    requires WellFormed(r)
    ensures var lines := SplitLines(Section(r)); lines != [] && lines[0] == "## " + (r.version + " \U{2014} " + r.stamp)
  {
    SectionSplits(r);
    CoreShape(r);
  }
}
