/** The documented examples of the entry parser: one changelog section, indented
    the way it sits in a template literal, under each kind of header line. */
module Scenarios {
  import opened Options
  import opened Chars
  import opened Scan
  import opened Lines
  import V = Versions
  import opened Dates
  import opened Classification
  import opened EntryParser
  import opened Headers
  import opened ExampleText

  /** The lines after the header: the indentation that precedes the embedded
      description, the description, and the blank closing lines. */
  function BodyLines(): seq<string> {
    ["    "] + Description + ["", "  "]
  }

  /** The example input for a header line: an empty first line, the indented
      header, then the body. */
  function Input(header: string): string {
    Join([""] + ["    " + header] + BodyLines())
  }

  /** What every example expects of the text. */
  predicate HasExampleText(text: string) {
    && IsInfix("### Added", text)
    && IsInfix(ThemeSentence, text)
    && IsInfix(SecuritySentence, text)
  }

  /** What follows a prefix on one line occurs in the joined text. */
  lemma LineTailInJoin(ls: seq<string>, k: nat, prefix: string, rest: string)
    requires k < |ls| && ls[k] == prefix + rest
    ensures IsInfix(rest, Join(ls))
  {
    JoinHasLine(ls, k);
    InfixOfConcat(prefix, rest);
    InfixTransitive(rest, ls[k], Join(ls));
  }

  lemma AddedInDescription()
    ensures IsInfix("### Added", Join(Description))
  {
    FirstLine();
    JoinHasLine(Description, 0);
  }

  lemma ThemeInDescription()
    ensures IsInfix(ThemeSentence, Join(Description))
  {
    ThemeLine();
    LineTailInJoin(Description, 13, "- ", ThemeSentence);
  }

  lemma SecurityInDescription()
    ensures IsInfix(SecuritySentence, Join(Description))
  {
    SecurityLine();
    LineTailInJoin(Description, 20, "- ", SecuritySentence);
  }

  lemma DescriptionText()
    ensures HasExampleText(Join(Description))
  {
    AddedInDescription();
    ThemeInDescription();
    SecurityInDescription();
  }

  /** A line that starts with a non-blank character is not blank. */
  lemma NotBlank(l: string)
    requires |l| > 0 && !IsSpace(l[0])
    ensures !IsBlankLine(l)
  {
  }

  /** Lines between the indentation line and the two closing lines are kept
      whole when their first and last lines are not blank. */
  lemma TrimFramed(d: seq<string>)
    requires |d| > 0 && !IsBlankLine(d[0]) && !IsBlankLine(d[|d| - 1])
    ensures TrimBlankLines(["    "] + d + ["", "  "]) == d
  {
    TrimSurrounded(["    "], d, ["", "  "]);
  }

  lemma FirstLineNotBlank()
    ensures |Description| == 21 && !IsBlankLine(Description[0])
  {
    FirstLine();
    NotBlank("### Added");
  }

  lemma LastLineNotBlank()
    ensures |Description| == 21 && !IsBlankLine(Description[20])
  {
    SecurityLine();
    NotBlank("- " + SecuritySentence);
  }


  lemma BodyTrimmed()
    ensures TrimBlankLines(BodyLines()) == Description
  {
    FirstLineNotBlank();
    LastLineNotBlank();
    TrimFramed(Description);
  }

  /** Framing lines without line feeds around the indentation and closing lines. */
  lemma FramedNoNewline(d: seq<string>)
    requires forall k :: 0 <= k < |d| ==> '\n' !in d[k]
    ensures forall k :: 0 <= k < |["    "] + d + ["", "  "]| ==> NoNewline((["    "] + d + ["", "  "])[k])
  {
    var ls := ["    "] + d + ["", "  "];
    assert forall k :: 1 <= k <= |d| ==> ls[k] == d[k - 1];
  }

  lemma BodyHasNoNewline()
    ensures forall k :: 0 <= k < |BodyLines()| ==> NoNewline(BodyLines()[k])
  {
    NoLineFeed();
    FramedNoNewline(Description);
  }


  /** The pieces the example headers are written with are well formed: leads, */
  lemma ExampleLeads()
    ensures IsLead("    ## ") && IsLead("    ")
  {
  }

  /** separators, */
  lemma ExampleSeparators()
    ensures IsSeparator(" - ") && IsSeparator("") && IsSeparator(" |+. - \\\\  ")
  {
  }

  /** the date and the prose, */
  lemma ExampleDateAndProse()
    ensures IsDateShape("2019-02-10")
    ensures IsProse("") && IsProse(FakeDate)
  {
  }

  /** the plain version tokens, */
  lemma ExampleVersions()
    ensures V.Numbered(true, "0.0.26", None, None).WellFormed()
    ensures V.Numbered(false, "0.0.26", None, None).WellFormed()
    ensures V.Numbered(false, "1.0.0", None, None).WellFormed()
    ensures V.Numbered(false, "2.0.0", None, None).WellFormed()
  {
  }

  lemma PreSegmentRun()
    ensures V.IsIdentRun(PreSegment)
  {
  }

  lemma BuildSegmentRun()
    ensures V.IsIdentRun(BuildSegment)
  {
  }

  /** and the tokens with pre-release or build segments. */
  lemma ExampleTaggedVersions()
    ensures PrereleaseVersion.WellFormed()
    ensures V.Numbered(false, "2.0.0", None, Some("build.1848")).WellFormed()
  {
    PreSegmentRun();
    BuildSegmentRun();
  }

  /** A version with both segments is written core, hyphen, pre-release, plus, build. */
  lemma TaggedText(core: string, pre: string, build: string)
    ensures V.Numbered(false, core, Some(pre), Some(build)).Text() == core + "-" + pre + "+" + build
  {
  }

  lemma PrereleaseText()
    ensures PrereleaseVersion.Text() == PrereleaseId
  {
    TaggedText("1.0.0", PreSegment, BuildSegment);
  }

  /** The empty line that opens every example is neither a header nor split. */
  lemma OpeningLine()
    ensures forall k :: 0 <= k < |[""]| ==> NoNewline([""][k]) && !IsHeader([""][k])
  {
    assert !IsHeader("") by {
      assert VersionStart("") == "";
    }
  }

  /** A well-formed header after one empty line, followed by any lines without
      line feeds, parses to what the header means and the trimmed lines. */
  lemma FramedParse(h: Header, header: string, body: seq<string>)
    requires h.WellFormed() && h.Render() == "    " + header
    requires forall k :: 0 <= k < |body| ==> NoNewline(body[k])
    ensures Parse(Join([""] + ["    " + header] + body))
            == Entry(h.version.Text(), h.Meaning().date, Classify(h.version.Text(), h.yanked),
                     Join(TrimBlankLines(body)))
  {
    OpeningLine();
    ParseRendered([""], h, body);
  }

  /** Any well-formed header in the example frame yields its own token, its
      date, its status and the description as text. */
  lemma ExampleParse(h: Header, header: string)
    requires h.WellFormed() && h.Render() == "    " + header
    ensures var e := Parse(Input(header));
            && e.id == h.version.Text()
            && e.date == h.Meaning().date
            && e.status == Classify(h.version.Text(), h.yanked)
            && HasExampleText(e.text)
  {
    BodyHasNoNewline();
    FramedParse(h, header, BodyLines());
    BodyTrimmed();
    DescriptionText();
  }


  /** The outcome of an example, given what its header means. */
  lemma ExampleOutcome(h: Header, header: string, id: string, date: Option<string>, status: Status)
    requires h.WellFormed() && h.Render() == "    " + header
    requires h.version.Text() == id && h.Meaning().date == date
    requires Classify(id, h.yanked) == status
    ensures var e := Parse(Input(header));
            && e.id == id
            && e.date == date
            && e.status == status
            && HasExampleText(e.text)
  {
    ExampleParse(h, header);
  }

  const PreSegment: string := "alpha-a.b-c-somethinglong"
  const BuildSegment: string := "build.1-aef.1-its-okay"
  /** The id `1.0.0-alpha-a.b-c-somethinglong+build.1-aef.1-its-okay`. */
  const PrereleaseId: string := "1.0.0" + "-" + PreSegment + "+" + BuildSegment
  const PrereleaseVersion: V.Version := V.Numbered(false, "1.0.0", Some(PreSegment), Some(BuildSegment))

  /** The release id with build metadata only. */
  const BuildId: string := "2.0.0" + "+build.1848"
  /** Prose standing where a date is expected. */
  const FakeDate: string := "SomeWords instead of a Date"

  const HeadingHeader: Header :=
    Header("    ## ", true, V.Numbered(true, "0.0.26", None, None), " - ", Some("2019-02-10"), "", false)

  const BracketedHeader: Header :=
    Header("    ", true, V.Numbered(true, "0.0.26", None, None), " - ", Some("2019-02-10"), "", false)

  const UnprefixedHeader: Header :=
    Header("    ", true, V.Numbered(false, "0.0.26", None, None), " - ", Some("2019-02-10"), "", false)

  const BareHeader: Header :=
    Header("    ", false, V.Numbered(true, "0.0.26", None, None), " - ", Some("2019-02-10"), "", false)

  const UnreleasedHeader: Header :=
    Header("    ## ", true, V.Unreleased, "", None, "", false)

  const PrereleaseHeader: Header :=
    Header("    ## ", true, PrereleaseVersion, " - ", Some("2019-02-10"), "", false)

  const NoisyHeader: Header :=
    Header("    ## ", true, PrereleaseVersion, " |+. - \\\\  ", Some("2019-02-10"), "", false)

  const ProseHeader: Header :=
    Header("    ## ", true, V.Numbered(false, "1.0.0", None, None), " - ", None, FakeDate, false)

  const BuildHeader: Header :=
    Header("    ## ", true, V.Numbered(false, "2.0.0", None, Some("build.1848")), " - ", None, FakeDate, false)

  const YankedHeader: Header :=
    Header("    ## ", true, V.Numbered(false, "2.0.0", None, None), " - ", Some("2019-02-10"), "", true)

  const UndatedYankedHeader: Header :=
    Header("    ## ", true, V.Numbered(false, "2.0.0", None, None), "", None, "", true)

  /** A bracketed header indented by four blanks, written out piece by piece. */
  lemma BracketedRender(h: Header, marks: string, id: string, tail: string)
    requires h.lead == "    " + marks && h.bracketed
    requires h.version.Text() == id && h.Tail() == tail
    ensures h.Render() == "    " + (marks + "[" + id + "]" + tail)
  {
  }

  lemma HeadingHeaderWellFormed()
    ensures HeadingHeader.WellFormed()
  {
    ExampleLeads();
    ExampleSeparators();
    ExampleDateAndProse();
    ExampleVersions();
  }

  lemma HeadingHeaderWritten()
    ensures HeadingHeader.Render() == "    " + ("## " + "[v0.0.26]" + " - " + "2019-02-10")
  {
  }

  lemma HeadingHeaderMeans()
    ensures HeadingHeader.version.Text() == "v0.0.26"
    ensures HeadingHeader.Meaning().date == Some("2019-02-10")
    ensures Classify("v0.0.26", HeadingHeader.yanked) == Released
  {
    StatusOfVersion(HeadingHeader.version, HeadingHeader.yanked);
  }

  lemma BracketedHeaderWellFormed()
    ensures BracketedHeader.WellFormed()
  {
    ExampleLeads();
    ExampleSeparators();
    ExampleDateAndProse();
    ExampleVersions();
  }

  lemma BracketedHeaderWritten()
    ensures BracketedHeader.Render() == "    " + ("[v0.0.26]" + " - " + "2019-02-10")
  {
  }

  lemma BracketedHeaderMeans()
    ensures BracketedHeader.version.Text() == "v0.0.26"
    ensures BracketedHeader.Meaning().date == Some("2019-02-10")
    ensures Classify("v0.0.26", BracketedHeader.yanked) == Released
  {
    StatusOfVersion(BracketedHeader.version, BracketedHeader.yanked);
  }

  lemma UnprefixedHeaderWellFormed()
    ensures UnprefixedHeader.WellFormed()
  {
    ExampleLeads();
    ExampleSeparators();
    ExampleDateAndProse();
    ExampleVersions();
  }

  lemma UnprefixedHeaderWritten()
    ensures UnprefixedHeader.Render() == "    " + ("[0.0.26]" + " - " + "2019-02-10")
  {
  }

  lemma UnprefixedHeaderMeans()
    ensures UnprefixedHeader.version.Text() == "0.0.26"
    ensures UnprefixedHeader.Meaning().date == Some("2019-02-10")
    ensures Classify("0.0.26", UnprefixedHeader.yanked) == Released
  {
    StatusOfVersion(UnprefixedHeader.version, UnprefixedHeader.yanked);
  }

  lemma BareHeaderWellFormed()
    ensures BareHeader.WellFormed()
  {
    ExampleLeads();
    ExampleSeparators();
    ExampleDateAndProse();
    ExampleVersions();
  }

  lemma BareHeaderWritten()
    ensures BareHeader.Render() == "    " + ("v0.0.26" + " - " + "2019-02-10")
  {
  }

  lemma BareHeaderMeans()
    ensures BareHeader.version.Text() == "v0.0.26"
    ensures BareHeader.Meaning().date == Some("2019-02-10")
    ensures Classify("v0.0.26", BareHeader.yanked) == Released
  {
    StatusOfVersion(BareHeader.version, BareHeader.yanked);
  }

  lemma UnreleasedHeaderWellFormed()
    ensures UnreleasedHeader.WellFormed()
  {
    ExampleLeads();
    ExampleSeparators();
    ExampleDateAndProse();
    ExampleVersions();
  }

  lemma UnreleasedHeaderWritten()
    ensures UnreleasedHeader.Render() == "    " + ("## " + "[Unreleased]")
  {
  }

  lemma UnreleasedHeaderMeans()
    ensures UnreleasedHeader.version.Text() == "Unreleased"
    ensures UnreleasedHeader.Meaning().date == None
    ensures Classify("Unreleased", UnreleasedHeader.yanked) == Unreleased
  {
    StatusOfVersion(UnreleasedHeader.version, UnreleasedHeader.yanked);
  }

  lemma PrereleaseHeaderWellFormed()
    ensures PrereleaseHeader.WellFormed()
  {
    ExampleLeads();
    ExampleSeparators();
    ExampleDateAndProse();
    ExampleTaggedVersions();
  }

  lemma PrereleaseHeaderWritten()
    ensures PrereleaseHeader.Render() == "    " + ("## " + "[" + PrereleaseId + "]" + (" - " + "2019-02-10"))
  {
    PrereleaseText();
    BracketedRender(PrereleaseHeader, "## ", PrereleaseId, " - " + "2019-02-10");
  }

  lemma PrereleaseHeaderMeans()
    ensures PrereleaseHeader.version.Text() == PrereleaseId
    ensures PrereleaseHeader.Meaning().date == Some("2019-02-10")
    ensures Classify(PrereleaseId, PrereleaseHeader.yanked) == Prereleased
  {
    PrereleaseHeaderWellFormed();
    PrereleaseText();
    StatusOfVersion(PrereleaseHeader.version, PrereleaseHeader.yanked);
  }

  lemma NoisyHeaderWellFormed()
    ensures NoisyHeader.WellFormed()
  {
    ExampleLeads();
    ExampleSeparators();
    ExampleDateAndProse();
    ExampleTaggedVersions();
  }

  lemma NoisyHeaderWritten()
    ensures NoisyHeader.Render() == "    " + ("## " + "[" + PrereleaseId + "]" + (" |+. - \\\\  " + "2019-02-10"))
  {
    PrereleaseText();
    BracketedRender(NoisyHeader, "## ", PrereleaseId, " |+. - \\\\  " + "2019-02-10");
  }

  lemma NoisyHeaderMeans()
    ensures NoisyHeader.version.Text() == PrereleaseId
    ensures NoisyHeader.Meaning().date == Some("2019-02-10")
    ensures Classify(PrereleaseId, NoisyHeader.yanked) == Prereleased
  {
    NoisyHeaderWellFormed();
    PrereleaseText();
    StatusOfVersion(NoisyHeader.version, NoisyHeader.yanked);
  }

  lemma ProseHeaderWellFormed()
    ensures ProseHeader.WellFormed()
  {
    ExampleLeads();
    ExampleSeparators();
    ExampleDateAndProse();
    ExampleVersions();
  }

  lemma ProseHeaderWritten()
    ensures ProseHeader.Render() == "    " + ("## " + "[1.0.0]" + " - " + FakeDate)
  {
  }

  lemma ProseHeaderMeans()
    ensures ProseHeader.version.Text() == "1.0.0"
    ensures ProseHeader.Meaning().date == None
    ensures Classify("1.0.0", ProseHeader.yanked) == Released
  {
    StatusOfVersion(ProseHeader.version, ProseHeader.yanked);
  }

  lemma BuildHeaderWellFormed()
    ensures BuildHeader.WellFormed()
  {
    ExampleLeads();
    ExampleSeparators();
    ExampleDateAndProse();
    ExampleTaggedVersions();
  }

  lemma BuildHeaderWritten()
    ensures BuildHeader.Render() == "    " + ("## " + "[" + BuildId + "]" + (" - " + FakeDate))
  {
    assert BuildHeader.version.Text() == BuildId;
    BracketedRender(BuildHeader, "## ", BuildId, " - " + FakeDate);
  }

  lemma BuildHeaderMeans()
    ensures BuildHeader.version.Text() == BuildId
    ensures BuildHeader.Meaning().date == None
    ensures Classify(BuildId, BuildHeader.yanked) == Released
  {
    StatusOfVersion(BuildHeader.version, BuildHeader.yanked);
  }

  lemma YankedHeaderWellFormed()
    ensures YankedHeader.WellFormed()
  {
    ExampleLeads();
    ExampleSeparators();
    ExampleDateAndProse();
    ExampleVersions();
  }

  lemma YankedHeaderWritten()
    ensures YankedHeader.Render() == "    " + ("## " + "[2.0.0]" + " - " + "2019-02-10" + " [YANKED]")
  {
  }

  lemma YankedHeaderMeans()
    ensures YankedHeader.version.Text() == "2.0.0"
    ensures YankedHeader.Meaning().date == Some("2019-02-10")
    ensures Classify("2.0.0", YankedHeader.yanked) == Yanked
  {
    StatusOfVersion(YankedHeader.version, YankedHeader.yanked);
  }

  lemma UndatedYankedHeaderWellFormed()
    ensures UndatedYankedHeader.WellFormed()
  {
    ExampleLeads();
    ExampleSeparators();
    ExampleDateAndProse();
    ExampleVersions();
  }

  lemma UndatedYankedHeaderWritten()
    ensures UndatedYankedHeader.Render() == "    " + ("## " + "[2.0.0]" + " [YANKED]")
  {
  }

  lemma UndatedYankedHeaderMeans()
    ensures UndatedYankedHeader.version.Text() == "2.0.0"
    ensures UndatedYankedHeader.Meaning().date == None
    ensures Classify("2.0.0", UndatedYankedHeader.yanked) == Yanked
  {
    StatusOfVersion(UndatedYankedHeader.version, UndatedYankedHeader.yanked);
  }

  /** A Markdown heading with a bracketed, `v`-prefixed version and a date. */
  lemma ReadsHeadingHeader()
    ensures var e := Parse(Input("## " + "[v0.0.26]" + " - " + "2019-02-10"));
            && e.id == "v0.0.26"
            && e.date == Some("2019-02-10")
            && e.status == Released
            && HasExampleText(e.text)
  {
    HeadingHeaderWellFormed();
    HeadingHeaderWritten();
    HeadingHeaderMeans();
    ExampleOutcome(HeadingHeader, "## " + "[v0.0.26]" + " - " + "2019-02-10", "v0.0.26", Some("2019-02-10"), Released);
  }

  /** A bracketed version without heading markers. */
  lemma ReadsBracketedHeader()
    ensures var e := Parse(Input("[v0.0.26]" + " - " + "2019-02-10"));
            && e.id == "v0.0.26"
            && e.date == Some("2019-02-10")
            && e.status == Released
            && HasExampleText(e.text)
  {
    BracketedHeaderWellFormed();
    BracketedHeaderWritten();
    BracketedHeaderMeans();
    ExampleOutcome(BracketedHeader, "[v0.0.26]" + " - " + "2019-02-10", "v0.0.26", Some("2019-02-10"), Released);
  }

  /** A version written without the `v` prefix. */
  lemma ReadsUnprefixedVersion()
    ensures var e := Parse(Input("[0.0.26]" + " - " + "2019-02-10"));
            && e.id == "0.0.26"
            && e.date == Some("2019-02-10")
            && e.status == Released
            && HasExampleText(e.text)
  {
    UnprefixedHeaderWellFormed();
    UnprefixedHeaderWritten();
    UnprefixedHeaderMeans();
    ExampleOutcome(UnprefixedHeader, "[0.0.26]" + " - " + "2019-02-10", "0.0.26", Some("2019-02-10"), Released);
  }

  /** A version with neither heading markers nor brackets. */
  lemma ReadsBareVersion()
    ensures var e := Parse(Input("v0.0.26" + " - " + "2019-02-10"));
            && e.id == "v0.0.26"
            && e.date == Some("2019-02-10")
            && e.status == Released
            && HasExampleText(e.text)
  {
    BareHeaderWellFormed();
    BareHeaderWritten();
    BareHeaderMeans();
    ExampleOutcome(BareHeader, "v0.0.26" + " - " + "2019-02-10", "v0.0.26", Some("2019-02-10"), Released);
  }

  /** The `Unreleased` section, which has no date. */
  lemma ReadsUnreleased()
    ensures var e := Parse(Input("## " + "[Unreleased]"));
            && e.id == "Unreleased"
            && e.date == None
            && e.status == Unreleased
            && HasExampleText(e.text)
  {
    UnreleasedHeaderWellFormed();
    UnreleasedHeaderWritten();
    UnreleasedHeaderMeans();
    ExampleOutcome(UnreleasedHeader, "## " + "[Unreleased]", "Unreleased", None, Unreleased);
  }

  /** A pre-release segment with hyphens, followed by build metadata. */
  lemma ReadsPrerelease()
    ensures var e := Parse(Input("## " + "[" + PrereleaseId + "]" + (" - " + "2019-02-10")));
            && e.id == PrereleaseId
            && e.date == Some("2019-02-10")
            && e.status == Prereleased
            && HasExampleText(e.text)
  {
    PrereleaseHeaderWellFormed();
    PrereleaseHeaderWritten();
    PrereleaseHeaderMeans();
    ExampleOutcome(PrereleaseHeader, "## " + "[" + PrereleaseId + "]" + (" - " + "2019-02-10"), PrereleaseId, Some("2019-02-10"), Prereleased);
  }

  /** Punctuation and backslashes between the version and the date. */
  lemma ReadsNoiseBeforeDate()
    ensures var e := Parse(Input("## " + "[" + PrereleaseId + "]" + (" |+. - \\\\  " + "2019-02-10")));
            && e.id == PrereleaseId
            && e.date == Some("2019-02-10")
            && e.status == Prereleased
            && HasExampleText(e.text)
  {
    NoisyHeaderWellFormed();
    NoisyHeaderWritten();
    NoisyHeaderMeans();
    ExampleOutcome(NoisyHeader, "## " + "[" + PrereleaseId + "]" + (" |+. - \\\\  " + "2019-02-10"), PrereleaseId, Some("2019-02-10"), Prereleased);
  }

  /** Words where the date would be: there is no date. */
  lemma IgnoresProseForDate()
    ensures var e := Parse(Input("## " + "[1.0.0]" + " - " + FakeDate));
            && e.id == "1.0.0"
            && e.date == None
            && e.status == Released
            && HasExampleText(e.text)
  {
    ProseHeaderWellFormed();
    ProseHeaderWritten();
    ProseHeaderMeans();
    ExampleOutcome(ProseHeader, "## " + "[1.0.0]" + " - " + FakeDate, "1.0.0", None, Released);
  }

  /** Build metadata without a pre-release segment is still a release. */
  lemma ReadsBuildMetadata()
    ensures var e := Parse(Input("## " + "[" + BuildId + "]" + (" - " + FakeDate)));
            && e.id == BuildId
            && e.date == None
            && e.status == Released
            && HasExampleText(e.text)
  {
    BuildHeaderWellFormed();
    BuildHeaderWritten();
    BuildHeaderMeans();
    ExampleOutcome(BuildHeader, "## " + "[" + BuildId + "]" + (" - " + FakeDate), BuildId, None, Released);
  }

  /** A yanked release with its date. */
  lemma ReadsYanked()
    ensures var e := Parse(Input("## " + "[2.0.0]" + " - " + "2019-02-10" + " [YANKED]"));
            && e.id == "2.0.0"
            && e.date == Some("2019-02-10")
            && e.status == Yanked
            && HasExampleText(e.text)
  {
    YankedHeaderWellFormed();
    YankedHeaderWritten();
    YankedHeaderMeans();
    ExampleOutcome(YankedHeader, "## " + "[2.0.0]" + " - " + "2019-02-10" + " [YANKED]", "2.0.0", Some("2019-02-10"), Yanked);
  }

  /** A yanked release without a date. */
  lemma ReadsYankedWithoutDate()
    ensures var e := Parse(Input("## " + "[2.0.0]" + " [YANKED]"));
            && e.id == "2.0.0"
            && e.date == None
            && e.status == Yanked
            && HasExampleText(e.text)
  {
    UndatedYankedHeaderWellFormed();
    UndatedYankedHeaderWritten();
    UndatedYankedHeaderMeans();
    ExampleOutcome(UndatedYankedHeader, "## " + "[2.0.0]" + " [YANKED]", "2.0.0", None, Yanked);
  }
}
