/** Header lines as changelog authors write them, and the guarantee that the
    parser reads every such line back as what it announces. */
module Headers {
  import opened Options
  import opened Chars
  import opened Scan
  import opened Lines
  import V = Versions
  import opened Dates
  import opened Classification
  import opened EntryParser

  /** Indentation and Markdown heading markers before the version token. */
  predicate IsLead(s: string) {
    forall i :: 0 <= i < |s| ==> IsLeadChar(s[i])
  }

  /** Separator noise between the version token and the date. */
  predicate IsSeparator(s: string) {
    forall i :: 0 <= i < |s| ==> IsNoise(s[i]) && s[i] != '['
  }

  /** Free text after the date: one line, and no opening bracket that could start a marker. */
  predicate IsProse(s: string) {
    '\n' !in s && '[' !in s
  }

  /** One way of writing a header line: indentation and `#` heading markers,
      optional brackets around the version token, separator noise, an optional
      date, trailing prose and an optional yanked marker. */
  datatype Header = Header(
    lead: string,
    bracketed: bool,
    version: V.Version,
    sep: string,
    date: Option<string>,
    prose: string,
    yanked: bool)
  {
    function DateText(): string {
      if date.Some? then date.value else ""
    }

    function MarkerText(): string {
      if yanked then " " + YankedMarker else ""
    }

    /** Everything after the closing bracket (or after the token when there are no brackets). */
    function Tail(): string {
      sep + DateText() + prose + MarkerText()
    }

    function AfterVersion(): string {
      (if bracketed then "]" else "") + Tail()
    }

    function Render(): string {
      lead + (if bracketed then "[" else "") + version.Text() + AfterVersion()
    }

    /** The header is written the way the parser expects: the lead is only
        blanks and `#`, the separator is noise without an opening bracket, a
        date has the `YYYY-MM-DD` shape, prose without a date starts with a
        letter, and a bare numbered token is not glued to what follows it. */
    predicate WellFormed() {
      && IsLead(lead)
      && version.WellFormed()
      && IsSeparator(sep)
      && (date.Some? ==> IsDateShape(date.value))
      && (date.None? ==> |prose| == 0 || IsLetter(prose[0]))
      && IsProse(prose)
      && (version.Numbered? && !bracketed ==> V.CanEndToken(Tail()))
    }

    /** What the header announces; `Unreleased` never carries a date. */
    function Meaning(): HeaderInfo {
      HeaderInfo(version, if version.Unreleased? then None else date, yanked)
    }
  }

  /** Skipping indentation, heading markers and an optional opening bracket. */
  lemma SkipLead(lead: string, bracketed: bool, body: string)
    requires forall i :: 0 <= i < |lead| ==> IsLeadChar(lead[i])
    requires |body| > 0 && !IsLeadChar(body[0]) && body[0] != '['
    ensures VersionStart(lead + ((if bracketed then "[" else "") + body)) == body
  {
    var afterLead := (if bracketed then "[" else "") + body;
    SpanOfPrefix(lead, afterLead, IsLeadChar);
    assert (lead + afterLead)[|lead|..] == afterLead;
    if bracketed {
      assert afterLead[1..] == body;
    }
  }

  /** The first character of a version token is a letter or a digit. */
  lemma TextStartsAlnum(v: V.Version)
    requires v.WellFormed()
    ensures |v.Text()| > 0 && IsAlnum(v.Text()[0])
  {
    if v.Numbered? {
      V.NumberedTextStart(v);
    }
  }

  /** Leading indentation, heading markers and the opening bracket are skipped. */
  lemma VersionStartOfRender(h: Header)
    requires h.WellFormed()
    ensures VersionStart(h.Render()) == h.version.Text() + h.AfterVersion()
  {
    var open := if h.bracketed then "[" else "";
    var t := h.version.Text();
    var body := t + h.AfterVersion();
    assert h.Render() == h.lead + (open + body) by {
      ConcatAssoc(h.lead, open, t, h.AfterVersion());
    }
    TextStartsAlnum(h.version);
    assert body[0] == t[0];
    SkipLead(h.lead, h.bracketed, body);
  }

  /** No digit, and no noise at the stopping point: there is no date to find. */
  lemma NoDateBefore(rest: string, m: nat)
    requires m <= |rest|
    requires forall j :: 0 <= j < m ==> !IsDigit(rest[j])
    requires m == |rest| || (!IsNoise(rest[m]) && !IsDigit(rest[m]))
    ensures ScanDate(rest) == None
  {
    forall k | 0 <= k && k + 10 <= |rest|
      ensures !DateAt(rest, k)
    {
      assert rest[k..k + 10][0] == rest[k];
    }
  }

  predicate AllNoise(noise: string) {
    forall j :: 0 <= j < |noise| ==> IsNoise(noise[j]) && !IsDigit(noise[j])
  }

  /** After separator noise, a date-shaped token is the date. */
  lemma DateAfterNoise(noise: string, date: string, tail: string)
    requires AllNoise(noise) && IsDateShape(date)
    ensures ScanDate(noise + (date + tail)) == Some(date)
  {
    var rest := noise + (date + tail);
    assert rest[|noise|..|noise| + 10] == date;
    assert forall j :: 0 <= j < |noise| ==> rest[j] == noise[j];
    assert DateAt(rest, |noise|);
  }

  /** After separator noise, a character that is neither noise nor a digit, with
      no digit before it, means there is no date. */
  lemma StopAfterNoise(noise: string, tail: string, m: nat)
    requires AllNoise(noise)
    requires m <= |tail| && forall j :: 0 <= j < m ==> !IsDigit(tail[j])
    requires m == |tail| || (!IsNoise(tail[m]) && !IsDigit(tail[m]))
    ensures ScanDate(noise + tail) == None
  {
    var rest := noise + tail;
    assert forall j :: 0 <= j < |noise| ==> rest[j] == noise[j];
    assert forall j :: 0 <= j < m ==> rest[|noise| + j] == tail[j];
    NoDateBefore(rest, |noise| + m);
  }

  /** What follows the version token, cut at the end of the separator noise. */
  lemma AfterVersionPieces(h: Header)
    ensures h.AfterVersion() == ((if h.bracketed then "]" else "") + h.sep) + (h.DateText() + (h.prose + h.MarkerText()))
  {
    var x := h.DateText() + (h.prose + h.MarkerText());
    assert h.Tail() == h.sep + x;
    ConcatAssoc3(if h.bracketed then "]" else "", h.sep, x);
  }

  /** The date scanner finds exactly the date the header was written with. */
  lemma DateOfRender(h: Header)
    requires h.WellFormed() && h.version.Numbered?
    ensures ScanDate(h.AfterVersion()) == h.date
  {
    var noise := (if h.bracketed then "]" else "") + h.sep;
    var tail := h.prose + h.MarkerText();
    assert AllNoise(noise);
    AfterVersionPieces(h);
    if h.date.Some? {
      DateAfterNoise(noise, h.date.value, tail);
    } else if |h.prose| > 0 {
      assert h.DateText() + tail == tail;
      assert tail[0] == h.prose[0];
      StopAfterNoise(noise, tail, 0);
    } else if h.yanked {
      assert h.DateText() + tail == tail == " [YANKED]";
      StopAfterNoise(noise, tail, 2);
    } else {
      assert h.DateText() + tail == tail == "";
      StopAfterNoise(noise, tail, 0);
    }
  }

  /** Nothing after the token but the marker itself holds an opening bracket. */
  lemma NoBracketBeforeMarker(h: Header)
    requires h.WellFormed()
    ensures '[' !in (if h.bracketed then "]" else "") + h.sep + h.DateText() + h.prose
  {
    assert '[' !in h.sep;
    assert '[' !in h.DateText() by {
      if h.date.Some? {
        assert forall i :: 0 <= i < 10 ==> h.date.value[i] != '[';
      }
    }
  }

  /** A line that ends in the marker contains it. */
  lemma MarkerAtEnd(before: string)
    ensures Contains(before + (" " + YankedMarker), YankedMarker)
  {
    var rest := before + (" " + YankedMarker);
    assert rest[|before| + 1..] == YankedMarker;
    assert OccursAt(rest, YankedMarker, |before| + 1);
    ContainsIsInfix(rest, YankedMarker);
  }

  /** Without an opening bracket there is no marker. */
  lemma NoMarkerWithoutBracket(rest: string)
    requires '[' !in rest
    ensures !Contains(rest, YankedMarker)
  {
    NotInfixWithoutHead(rest, YankedMarker);
    ContainsIsInfix(rest, YankedMarker);
  }

  /** The yanked marker is found after the token exactly when it was written. */
  lemma YankedOfRender(h: Header)
    requires h.WellFormed()
    ensures Contains(h.AfterVersion(), YankedMarker) == h.yanked
  {
    var before := (if h.bracketed then "]" else "") + h.sep + h.DateText() + h.prose;
    assert h.AfterVersion() == before + h.MarkerText();
    if h.yanked {
      MarkerAtEnd(before);
    } else {
      NoBracketBeforeMarker(h);
      assert h.AfterVersion() == before;
      NoMarkerWithoutBracket(before);
    }
  }

  /** Round trip for one line: a well-formed header is read back as exactly
      what it announces, whatever its indentation, markers, brackets or noise. */
  lemma HeaderRoundTrip(h: Header)
    requires h.WellFormed()
    ensures ParseHeaderLine(h.Render()) == Some(h.Meaning())
  {
    var start := VersionStart(h.Render());
    VersionStartOfRender(h);
    assert V.ScanVersion(start) == Some(h.version) by {
      V.ScanVersionOfText(h.version, h.AfterVersion());
    }
    assert start[|h.version.Text()|..] == h.AfterVersion();
    if h.version.Numbered? {
      DateOfRender(h);
    }
    YankedOfRender(h);
  }

  lemma RenderHasNoNewline(h: Header)
    requires h.WellFormed()
    ensures NoNewline(h.Render())
  {
    V.TextIsTokenChars(h.version);
    assert '\n' !in h.lead;
    assert '\n' !in h.version.Text();
    assert '\n' !in h.sep;
    assert '\n' !in h.DateText() by {
      if h.date.Some? {
        assert forall i :: 0 <= i < 10 ==> h.date.value[i] != '\n';
      }
    }
    assert '\n' !in h.MarkerText();
  }

  /** The whole parser on a section whose first header line is `h`: lines before
      it that are not headers are ignored, the header yields id, date and
      status, and the body lines after it become the text. */
  lemma ParseRendered(pre: seq<string>, h: Header, body: seq<string>)
    requires forall k :: 0 <= k < |pre| ==> NoNewline(pre[k]) && !IsHeader(pre[k])
    requires forall k :: 0 <= k < |body| ==> NoNewline(body[k])
    requires h.WellFormed()
    ensures Parse(Join(pre + [h.Render()] + body))
            == Entry(h.version.Text(), h.Meaning().date, Classify(h.version.Text(), h.yanked),
                     Join(TrimBlankLines(body)))
  {
    var ls := pre + [h.Render()] + body;
    RenderedLines(pre, h, body);
    HeaderRoundTrip(h);
    ParseAt(Join(ls), |pre|, h.Meaning());
  }

  /** The lines of such a section are the lines it was joined from, and its first header is `h`. */
  lemma RenderedLines(pre: seq<string>, h: Header, body: seq<string>)
    requires forall k :: 0 <= k < |pre| ==> NoNewline(pre[k]) && !IsHeader(pre[k])
    requires forall k :: 0 <= k < |body| ==> NoNewline(body[k])
    requires h.WellFormed()
    ensures Split(Join(pre + [h.Render()] + body)) == pre + [h.Render()] + body
    ensures FindHeader(pre + [h.Render()] + body) == Some(|pre|)
    ensures (pre + [h.Render()] + body)[|pre|] == h.Render()
    ensures (pre + [h.Render()] + body)[|pre| + 1..] == body
  {
    RenderHasNoNewline(h);
    assert IsHeader(h.Render()) by {
      HeaderRoundTrip(h);
      ParseHeaderLineFacts(h.Render());
    }
    LinesAroundHeader(pre, h.Render(), body);
  }

  lemma LinesAroundHeader(pre: seq<string>, line: string, body: seq<string>)
    requires forall k :: 0 <= k < |pre| ==> NoNewline(pre[k]) && !IsHeader(pre[k])
    requires forall k :: 0 <= k < |body| ==> NoNewline(body[k])
    requires NoNewline(line) && IsHeader(line)
    ensures Split(Join(pre + [line] + body)) == pre + [line] + body
    ensures FindHeader(pre + [line] + body) == Some(|pre|)
    ensures (pre + [line] + body)[|pre|] == line
    ensures (pre + [line] + body)[|pre| + 1..] == body
  {
    SplitAround(pre, line, body);
    FirstHeaderAfter(pre, line, body);
    assert (pre + [line] + body)[|pre|] == line;
    assert (pre + [line] + body)[|pre| + 1..] == body;
  }

  lemma SplitAround(pre: seq<string>, line: string, body: seq<string>)
    requires forall k :: 0 <= k < |pre| ==> NoNewline(pre[k])
    requires forall k :: 0 <= k < |body| ==> NoNewline(body[k])
    requires NoNewline(line)
    ensures Split(Join(pre + [line] + body)) == pre + [line] + body
  {
    LinesHaveNoNewline(pre + [line] + body, pre, line, body);
    SplitJoin(pre + [line] + body);
  }

  lemma LinesHaveNoNewline(ls: seq<string>, pre: seq<string>, line: string, body: seq<string>)
    requires forall k :: 0 <= k < |pre| ==> NoNewline(pre[k])
    requires forall k :: 0 <= k < |body| ==> NoNewline(body[k])
    requires NoNewline(line) && ls == pre + [line] + body
    ensures forall k :: 0 <= k < |ls| ==> NoNewline(ls[k])
  {
    assert forall k :: 0 <= k < |pre| ==> ls[k] == pre[k];
    assert forall k :: |pre| < k < |ls| ==> ls[k] == body[k - |pre| - 1];
  }

  lemma FirstHeaderAfter(pre: seq<string>, line: string, body: seq<string>)
    requires forall k :: 0 <= k < |pre| ==> !IsHeader(pre[k])
    requires IsHeader(line)
    ensures FindHeader(pre + [line] + body) == Some(|pre|)
  {
    var after := [line] + body;
    assert pre + [line] + body == pre + after;
    assert after[0] == line;
    SpanOfPrefix(pre, after, NotHeader);
  }
}
