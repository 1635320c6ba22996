/** What the changelog printer, the file and the extractor promise together. */
module ChangelogTheorems {
  import opened Bags
  import opened Changelog
  import opened ChangelogHistory
  import opened Text

  ghost predicate AllWellFormed(history: seq<Release>) {
    forall i :: 0 <= i < |history| ==> WellFormed(history[i])
  }

  /** The file after putting sections on top of it one by one, starting from the empty file. */
  function PrependAll(sections: seq<string>): string {
    if sections == [] then ""
    else Prepend(PrependAll(sections[..|sections| - 1]), sections[|sections| - 1])
  }

  /** The file after releases in the order in which they were made. */
  function File(history: seq<Release>): string { PrependAll(Each(history, Section)) }

  lemma ReleaseIsSection(r: Release)
    requires WellFormed(r)
    ensures IsSection(Core(r)) && Core(r)[0] == Heading(r) && Section(r) == Join(Core(r)) + "\n"
  {
    CoreShape(r);
    HeadingShape(r);
    SectionShape(r);
  }

  lemma EachSection(history: seq<Release>)
    requires AllWellFormed(history)
    ensures AllSections(Each(history, Core))
    ensures forall i :: 0 <= i < |history| ==> Each(history, Core)[i][0] == Heading(history[i])
  {
    forall i | 0 <= i < |history| ensures IsSection(Each(history, Core)[i]) && Each(history, Core)[i][0] == Heading(history[i]) {
      ReleaseIsSection(history[i]);
    }
  }

  function TextOf(core: seq<string>): string { Join(core) + "\n" }

  lemma {:induction false} PrependAllIsStack(sections: seq<seq<string>>)
    ensures PrependAll(Each(sections, TextOf)) == Stack(sections)
  {
    if sections != [] {
      var n := |sections| - 1;
      PrependAllIsStack(sections[..n]);
      assert Each(sections, TextOf)[..n] == Each(sections[..n], TextOf);
    }
  }

  lemma EachAgain(history: seq<Release>, section: Release -> string, core: Release -> seq<string>)
    requires forall i :: 0 <= i < |history| ==> section(history[i]) == TextOf(core(history[i]))
    ensures Each(history, section) == Each(Each(history, core), TextOf)
  {
    forall i | 0 <= i < |history| ensures Each(history, section)[i] == Each(Each(history, core), TextOf)[i] {
      assert Each(history, core)[i] == core(history[i]);
    }
  }

  lemma FileIsStack(history: seq<Release>)
    requires AllWellFormed(history)
    ensures File(history) == Stack(Each(history, Core))
  {
    forall i | 0 <= i < |history| ensures Section(history[i]) == TextOf(Core(history[i])) {
      ReleaseIsSection(history[i]);
    }
    EachAgain(history, Section, Core);
    PrependAllIsStack(Each(history, Core));
  }

  lemma {:induction false} NewestAt(sections: seq<seq<string>>, marks: string -> bool, k: nat)
    requires forall i :: 0 <= i < |sections| ==> sections[i] != []
    requires k < |sections| && marks(sections[k][0]) && forall j :: k < j < |sections| ==> !marks(sections[j][0])
    ensures Newest(sections, marks) == sections[k]
  {
    if k < |sections| - 1 {
      NewestAt(sections[..|sections| - 1], marks, k);
    }
  }

  lemma {:induction false} NewestNone(sections: seq<seq<string>>, marks: string -> bool)
    requires forall i :: 0 <= i < |sections| ==> sections[i] != [] && !marks(sections[i][0])
    ensures Newest(sections, marks) == []
  {
    if sections != [] {
      NewestNone(sections[..|sections| - 1], marks);
    }
  }

  lemma ExtractAt(sections: seq<seq<string>>, version: string, k: nat)
    requires AllSections(sections) && k < |sections| && Marks(version)(sections[k][0])
    requires forall j :: k < j < |sections| ==> !Marks(version)(sections[j][0])
    ensures Extract(Stack(sections), version) == Finished(Join(sections[k]))
  {
    ExtractFromStack(sections, version);
    NewestAt(sections, Marks(version), k);
  }

  lemma ExtractNone(sections: seq<seq<string>>, version: string)
    requires AllSections(sections) && forall j :: 0 <= j < |sections| ==> !Marks(version)(sections[j][0])
    ensures Extract(Stack(sections), version) == ""
  {
    ExtractFromStack(sections, version);
    NewestNone(sections, Marks(version));
    assert Strip("") == "";
  }

  lemma HeadingsMarked(history: seq<Release>, version: string)
    requires AllWellFormed(history)
    ensures AllSections(Each(history, Core))
    ensures forall j :: 0 <= j < |history| ==> (Marks(version)(Each(history, Core)[j][0]) <==> version <= Label(history[j]))
  {
    EachSection(history);
    forall j | 0 <= j < |history| ensures Marks(version)(Each(history, Core)[j][0]) <==> version <= Label(history[j]) {
      HeadingShape(history[j]);
    }
  }

  /** Asking the file for any text finds exactly the section of the newest release whose heading
      begins with it. */
  lemma FindsNewest(history: seq<Release>, version: string, k: nat)
    requires AllWellFormed(history) && k < |history|
    requires version <= Label(history[k]) && forall j :: k < j < |history| ==> !(version <= Label(history[j]))
    ensures Extract(File(history), version) == Section(history[k])
  {
    FileIsStack(history);
    HeadingsMarked(history, version);
    ExtractAt(Each(history, Core), version, k);
    SectionShape(history[k]);
  }

  /** And nothing when there is no such release. */
  lemma FindsNothing(history: seq<Release>, version: string)
    requires AllWellFormed(history) && forall j :: 0 <= j < |history| ==> !(version <= Label(history[j]))
    ensures Extract(File(history), version) == ""
  {
    FileIsStack(history);
    HeadingsMarked(history, version);
    ExtractNone(Each(history, Core), version);
  }

  // ----- the round trip ------------------------------------------------------------------

  /** No later version begins with the one of release `k`. */
  ghost predicate Unhidden(history: seq<Release>, k: nat)
    requires k < |history|
  {
    forall j :: k < j < |history| ==> !(history[k].version <= history[j].version)
  }

  ghost predicate Spaceless(history: seq<Release>) {
    forall j :: 0 <= j < |history| ==> ' ' !in history[j].version
  }

  /** A version without spaces begins a heading exactly when it begins that heading's version. */
  lemma VersionBegins(version: string, r: Release)
    requires ' ' !in version
    ensures version <= Label(r) <==> version <= r.version
  {
    var text := Label(r);
    assert text == r.version + (DASH + r.stamp);
    assert text[|r.version|] == ' ';
    if version <= text && |version| <= |r.version| {
      assert version == text[..|version|] && r.version == text[..|r.version|];
    }
  }

  /** Every release added on top of the empty file is found again under its version, in exactly
      the text it was printed with, if no later version begins with its own. */
  lemma RoundTrip(history: seq<Release>, k: nat)
    requires AllWellFormed(history) && Spaceless(history) && k < |history| && Unhidden(history, k)
    ensures Extract(File(history), history[k].version) == Section(history[k])
  {
    VersionBegins(history[k].version, history[k]);
    forall j | k < j < |history| ensures !(history[k].version <= Label(history[j])) {
      VersionBegins(history[k].version, history[j]);
    }
    FindsNewest(history, history[k].version, k);
  }

  /** With different versions that condition is also necessary. */
  lemma RoundTripExactly(history: seq<Release>, k: nat)
    requires AllWellFormed(history) && Spaceless(history) && k < |history|
    requires forall i, j :: 0 <= i < j < |history| ==> history[i].version != history[j].version
    ensures Extract(File(history), history[k].version) == Section(history[k]) <==> Unhidden(history, k)
  {
    if Unhidden(history, k) {
      RoundTrip(history, k);
    } else {
      var m := LastHider(history, k);
      VersionBegins(history[k].version, history[m]);
      forall j | m < j < |history| ensures !(history[k].version <= Label(history[j])) {
        VersionBegins(history[k].version, history[j]);
      }
      FindsNewest(history, history[k].version, m);
      SectionsDiffer(history[k], history[m]);
    }
  }

  lemma {:induction false} LastHider(history: seq<Release>, k: nat) returns (m: nat)
    requires k < |history| && !Unhidden(history, k)
    ensures k < m < |history| && history[k].version <= history[m].version
    ensures forall j :: m < j < |history| ==> !(history[k].version <= history[j].version)
    decreases |history|
  {
    var n := |history| - 1;
    if history[k].version <= history[n].version && k < n {
      m := n;
    } else {
      var j :| k < j < |history| && history[k].version <= history[j].version;
      var before := history[..n];
      assert before[k] == history[k] && before[j] == history[j];
      m := LastHider(before, k);
      assert forall i :: m < i < n ==> before[i] == history[i];
    }
  }

  /** Sections of different versions are different texts. */
  lemma SectionsDiffer(r: Release, s: Release)
    requires WellFormed(r) && WellFormed(s) && ' ' !in r.version && ' ' !in s.version && r.version != s.version
    ensures Section(r) != Section(s)
  {
    ReleaseIsSection(r);
    ReleaseIsSection(s);
    SectionShape(r);
    SectionShape(s);
    if Section(r) == Section(s) {
      SplitUnlines(Core(r), "");
      SplitUnlines(Core(s), "");
      assert Section(r) + "" == Section(r) && Section(s) + "" == Section(s);
      assert Core(r) + [] == Core(r) && Core(s) + [] == Core(s);
      assert Core(r)[0] == Core(s)[0];
      SameHeading(r, s);
    }
  }

  lemma SameHeading(r: Release, s: Release)
    requires Heading(r) == Heading(s) && ' ' !in r.version && ' ' !in s.version
    ensures r.version == s.version
  {
    Behind(MARK, Label(r), Label(s));
    Behind(MARK, Label(s), Label(r));
    assert Label(r) == Label(s);
    assert Label(r) == r.version + [' '] + (DASH[1..] + r.stamp);
    assert Label(s) == s.version + [' '] + (DASH[1..] + s.stamp);
    SplitUnique(r.version, DASH[1..] + r.stamp, s.version, DASH[1..] + s.stamp, ' ');
  }

  /** So a tenth patch hides the first one: after 1.0.10 has been added, the file answers a
      request for 1.0.1 with the section of 1.0.10. */
  lemma TenthPatchHidesFirst(first: Release, tenth: Release)
    requires WellFormed(first) && WellFormed(tenth) && first.version == "1.0.1" && tenth.version == "1.0.10"
    ensures Extract(File([first, tenth]), "1.0.1") == Section(tenth) != Section(first)
  {
    assert "1.0.1" <= "1.0.10";
    VersionBegins("1.0.1", tenth);
    FindsNewest([first, tenth], "1.0.1", 1);
    SectionsDiffer(first, tenth);
  }
}
