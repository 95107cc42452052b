/** The changelog entry parser: from the raw text of one changelog section to
    its version id, optional release date, release status and body text. */
module EntryParser {
  import opened Options
  import opened Chars
  import opened Scan
  import opened Lines
  import V = Versions
  import opened Dates
  import opened Classification

  const YankedMarker: string := "[YANKED]"

  /** What a header line announces: its version token, its date, and whether it carries the yanked marker. */
  datatype HeaderInfo = HeaderInfo(version: V.Version, date: Option<string>, yanked: bool)

  /** The parser's result. `date` is absent when the header has none; `text` is the body. */
  datatype Entry = Entry(id: string, date: Option<string>, status: Status, text: string)

  /** The part of a line from where a version token may start: indentation,
      Markdown heading markers and one opening bracket are skipped. */
  function VersionStart(line: string): (start: string)
    ensures |start| <= |line| && start == line[|line| - |start|..]
  {
    var afterLead := line[Span(line, IsLeadChar)..];
    if |afterLead| > 0 && afterLead[0] == '[' then afterLead[1..] else afterLead
  }

  /** A line is a header line when a version token starts where `VersionStart` leaves off. */
  predicate IsHeader(line: string) {
    V.StartsVersion(VersionStart(line))
  }

  /** Reads one header line: the version token, then the date after it (never
      for `Unreleased`), and whether the yanked marker appears after it. */
  function ParseHeaderLine(line: string): (r: Option<HeaderInfo>)
    ensures r.Some? <==> IsHeader(line)
  {
    var start := VersionStart(line);
    match V.ScanVersion(start)
    case None => None
    case Some(v) =>
      var rest := start[|v.Text()|..];
      Some(HeaderInfo(v, if v.Unreleased? then None else ScanDate(rest), Contains(rest, YankedMarker)))
  }

  /** What a header line yields: exactly header lines are read; the token is
      well formed and written in the line; a date is date-shaped, written in the
      line and never given to `Unreleased`; the yanked flag says whether the
      marker appears after the token. */
  lemma ParseHeaderLineFacts(line: string)
    ensures ParseHeaderLine(line).Some? <==> IsHeader(line)
    ensures ParseHeaderLine(line).Some? ==>
              var h := ParseHeaderLine(line).value;
              && h.version.WellFormed()
              && IsInfix(h.version.Text(), line)
              && (h.date.Some? ==> h.version.Numbered? && IsDateShape(h.date.value) && IsInfix(h.date.value, line))
              && (h.yanked <==> IsInfix(YankedMarker, VersionStart(line)[|h.version.Text()|..]))
  {
    var start := VersionStart(line);
    var r := V.ScanVersion(start);
    if r.Some? {
      var v := r.value;
      var rest := start[|v.Text()|..];
      var date := if v.Unreleased? then None else ScanDate(rest);
      ContainsIsInfix(rest, YankedMarker);
      HeaderPiecesInLine(line, start, v.Text(), date);
    }
  }

  /** The token and the date a header line yields are pieces of that line. */
  lemma HeaderPiecesInLine(line: string, start: string, id: string, date: Option<string>)
    requires |start| <= |line| && start == line[|line| - |start|..]
    requires id <= start
    requires date.Some? ==> exists k :: DateAt(start[|id|..], k) && date.value == start[|id|..][k..k + 10]
    ensures IsInfix(id, line)
    ensures date.Some? ==> IsInfix(date.value, line)
  {
    var off := |line| - |start|;
    assert line[off..off + |id|] == id;
    assert OccursAt(line, id, off);
    if date.Some? {
      var rest := start[|id|..];
      var k :| DateAt(rest, k) && date.value == rest[k..k + 10];
      assert line[off + |id| + k..off + |id| + k + 10] == rest[k..k + 10];
      assert OccursAt(line, date.value, off + |id| + k);
    }
  }

  predicate NotHeader(line: string) {
    !IsHeader(line)
  }

  /** Index of the first header line, if there is one. */
  function FindHeader(lines: seq<string>): (r: Option<nat>)
    ensures r.Some? ==> r.value < |lines| && IsHeader(lines[r.value])
    ensures r.Some? ==> forall j :: 0 <= j < r.value ==> !IsHeader(lines[j])
    ensures r.None? ==> forall j :: 0 <= j < |lines| ==> !IsHeader(lines[j])
  {
    var n := Span(lines, NotHeader);
    if n == |lines| then None else Some(n)
  }

  /** Parses the text of one changelog section. The first header line gives the
      id, the date and the status; the lines after it, without leading and
      trailing blank lines, are the body text. Without any header line the
      result has an empty id, no date, the `Released` status and the whole
      input as its text. */
  function Parse(s: string): Entry {
    ParseLines(Split(s))
  }

  /** What any parse result satisfies: the text, the id and the date are all
      written in the input, the date is date-shaped, `Unreleased` is the status
      of exactly the `Unreleased` id and never has a date, and a pre-release id
      has a hyphen before any plus sign. */
  lemma ParseFacts(s: string)
    ensures var e := Parse(s);
            && IsInfix(e.text, s)
            && (e.id != "" ==> IsInfix(e.id, s))
            && (e.date.Some? ==> IsDateShape(e.date.value) && IsInfix(e.date.value, s))
            && (e.status == Unreleased <==> e.id == V.UnreleasedToken)
            && (e.status == Unreleased ==> e.date.None?)
            && (e.status == Prereleased ==> V.HyphenBeforePlus(e.id))
  {
    JoinSplit(s);
    ParseLinesFacts(Split(s));
  }

  /** `Parse` on the input cut into lines. */
  function ParseLines(lines: seq<string>): Entry {
    match FindHeader(lines)
    case None => Entry("", None, Released, Join(TrimBlankLines(lines)))
    case Some(i) => HeaderEntry(ParseHeaderLine(lines[i]).value, lines[i + 1..])
  }

  /** The entry announced by header `h`, whose body is the lines after the header. */
  function HeaderEntry(h: HeaderInfo, body: seq<string>): Entry {
    Entry(h.version.Text(), h.date, Classify(h.version.Text(), h.yanked), Join(TrimBlankLines(body)))
  }

  /** Everything the entry holds is written in the input, and its status agrees
      with its id and date. */
  lemma ParseLinesFacts(lines: seq<string>)
    ensures var e := ParseLines(lines);
            && IsInfix(e.text, Join(lines))
            && (e.id != "" ==> IsInfix(e.id, Join(lines)))
            && (e.date.Some? ==> IsDateShape(e.date.value) && IsInfix(e.date.value, Join(lines)))
            && (e.status == Unreleased <==> e.id == V.UnreleasedToken)
            && (e.status == Unreleased ==> e.date.None?)
            && (e.status == Prereleased ==> V.HyphenBeforePlus(e.id))
  {
    match FindHeader(lines)
    case None =>
      TrimIsInfix(lines);
    case Some(i) =>
      var h := ParseHeaderLine(lines[i]).value;
      HeaderEntryFacts(lines, i, h);
      assert ParseLines(lines) == HeaderEntry(h, lines[i + 1..]);
  }

  lemma HeaderEntryFacts(lines: seq<string>, i: nat, h: HeaderInfo)
    requires i < |lines| && ParseHeaderLine(lines[i]) == Some(h)
    ensures var e := HeaderEntry(h, lines[i + 1..]);
            && IsInfix(e.text, Join(lines))
            && (e.id != "" ==> IsInfix(e.id, Join(lines)))
            && (e.date.Some? ==> IsDateShape(e.date.value) && IsInfix(e.date.value, Join(lines)))
            && (e.status == Unreleased <==> e.id == V.UnreleasedToken)
            && (e.status == Unreleased ==> e.date.None?)
            && (e.status == Prereleased ==> V.HyphenBeforePlus(e.id))
  {
    ParseHeaderLineFacts(lines[i]);
    HeaderFactsInInput(Join(lines), lines, i, h);
  }

  lemma HeaderFactsInInput(s: string, lines: seq<string>, i: nat, h: HeaderInfo)
    requires Join(lines) == s && i < |lines|
    requires ParseHeaderLine(lines[i]) == Some(h)
    ensures IsInfix(h.version.Text(), s)
    ensures h.date.Some? ==> IsInfix(h.date.value, s)
    ensures h.version.Numbered? ==> h.version.Text() != V.UnreleasedToken
    ensures IsInfix(Join(TrimBlankLines(lines[i + 1..])), s)
  {
    HeaderPiecesInInput(s, lines, i, h);
    BodyInInput(s, lines, i);
    if h.version.Numbered? {
      V.NumberedIsNotUnreleased(h.version);
    }
  }

  lemma HeaderPiecesInInput(s: string, lines: seq<string>, i: nat, h: HeaderInfo)
    requires Join(lines) == s && i < |lines|
    requires ParseHeaderLine(lines[i]) == Some(h)
    ensures IsInfix(h.version.Text(), s)
    ensures h.date.Some? ==> IsInfix(h.date.value, s)
  {
    ParseHeaderLineFacts(lines[i]);
    JoinHasLine(lines, i);
    InfixTransitive(h.version.Text(), lines[i], s);
    if h.date.Some? {
      InfixTransitive(h.date.value, lines[i], s);
    }
  }

  lemma BodyInInput(s: string, lines: seq<string>, i: nat)
    requires Join(lines) == s && i < |lines|
    ensures IsInfix(Join(TrimBlankLines(lines[i + 1..])), s)
  {
    var body := lines[i + 1..];
    JoinSliceInfix(lines, i + 1, |lines|);
    assert lines[i + 1..|lines|] == body;
    TrimIsInfix(body);
    InfixTransitive(Join(TrimBlankLines(body)), Join(body), s);
  }

  /** Every non-blank line after the header line reaches the entry text verbatim. */
  lemma ParseKeepsBodyLines(s: string, i: nat, k: nat)
    requires FindHeader(Split(s)) == Some(i)
    requires i < k < |Split(s)| && !IsBlankLine(Split(s)[k])
    ensures IsInfix(Split(s)[k], Parse(s).text)
  {
    ParseAt(s, i, ParseHeaderLine(Split(s)[i]).value);
    LaterLineKept(Split(s), i, k);
  }

  /** `Parse` once the first header line is known. */
  lemma ParseAt(s: string, i: nat, h: HeaderInfo)
    requires FindHeader(Split(s)) == Some(i)
    requires ParseHeaderLine(Split(s)[i]) == Some(h)
    ensures Parse(s) == HeaderEntry(h, Split(s)[i + 1..])
  {
    ParseLinesAt(Split(s), i, h);
    assert Parse(s) == ParseLines(Split(s));
  }

  lemma ParseLinesAt(lines: seq<string>, i: nat, h: HeaderInfo)
    requires FindHeader(lines) == Some(i)
    requires ParseHeaderLine(lines[i]) == Some(h)
    ensures ParseLines(lines) == HeaderEntry(h, lines[i + 1..])
  {
  }

  lemma LaterLineKept(lines: seq<string>, i: nat, k: nat)
    requires i < k < |lines| && !IsBlankLine(lines[k])
    ensures IsInfix(lines[k], Join(TrimBlankLines(lines[i + 1..])))
  {
    var body := lines[i + 1..];
    assert body[k - i - 1] == lines[k];
    TrimKeepsLine(body, k - i - 1);
  }
}
