# Changelog entry parser

A Dafny model of `parseEntry` from changelog-reader-action. The function takes
the text of one changelog section and returns a record with four fields:

- `id`: the version token exactly as written in the header;
- `date`: an optional `YYYY-MM-DD` release date;
- `status`: one of `unreleased`, `yanked`, `prereleased` or `released`;
- `text`: the body of the section.

The implementation file `src/parse-entry.js` is not part of this model. The
behaviour modelled here is the behaviour fixed by the assertions in
`src/parse-entry.test.js`. Each recognition step is an explicit scanner over
`string`.

Modules:

- `Chars`: the character classes (digits, letters, identifier characters,
  lead characters, separator noise, blanks).
- `Scan`: generic scanning over sequences: `Span`, `SpanBack`, the infix
  relation and the substring search `Contains`.
- `Lines`: cutting the input at line feeds (`Split`, which keeps an empty last
  line the way JavaScript's `split('\n')` does), `Join`, and trimming leading
  and trailing blank lines.
- `Versions`: the version token. It is either the Keep a Changelog
  `Unreleased` token or a Semantic Versioning 2.0.0 style number. A number has
  an optional `v` prefix, a dotted numeric core, a `-` pre-release segment
  (section 9 of SemVer 2.0.0) and a `+` build segment (section 10).
- `Dates`: the `YYYY-MM-DD` date scanner. It skips separator noise after the
  token and stops at prose.
- `Classification`: the status. It is decided first by the `Unreleased` token,
  then by the `[YANKED]` marker, then by a hyphen before any plus sign in the
  id. It looks only at the id, never at the rest of the line.
- `EntryParser`: finding the first header line, reading it, and the whole
  `Parse`.
- `Headers`: a description of every way a header line may be written. This
  covers indentation, `#` markers, brackets, the `v` prefix, separator noise,
  a date, trailing prose and the yanked marker. It includes the round trip
  proving that the parser reads every such line back as what it announces.
- `ExampleText` and `Scenarios`: the eleven documented examples. Each input
  has the lines the test's template literal produces:
  - an empty line;
  - the header, indented by four blanks;
  - a line of four blanks, where the interpolated description starts;
  - the 21 description lines;
  - an empty line and a line of two blanks, which close the literal.

The statuses are the constructors of `Classification.Status`; the source uses
the strings `'unreleased'`, `'yanked'`, `'prereleased'` and `'released'`. An
absent date is `None`, where the source has `undefined`.

## Model

| member | source | states |
|---|---|---|
| Scenarios.ReadsHeadingHeader | src/parse-entry.test.js:27-44 | Under `## [v0.0.26] - 2019-02-10` the id keeps its `v` (`v0.0.26`), the date is `2019-02-10`, the status is released, and the text holds `### Added` and both quoted description sentences |
| Scenarios.ReadsBracketedHeader | src/parse-entry.test.js:46-63 | Without the heading marker, `[v0.0.26] - 2019-02-10` gives the same id, date, status and text |
| Scenarios.ReadsUnprefixedVersion | src/parse-entry.test.js:65-82 | `[0.0.26] - 2019-02-10` gives the id `0.0.26` without a `v`, the date, the released status and the text |
| Scenarios.ReadsBareVersion | src/parse-entry.test.js:84-101 | `v0.0.26 - 2019-02-10`, with neither marker nor brackets, gives id `v0.0.26`, the date, released and the text |
| Scenarios.ReadsUnreleased | src/parse-entry.test.js:104-121 | `## [Unreleased]` gives id `Unreleased`, no date and the unreleased status, and the text |
| Scenarios.ReadsPrerelease | src/parse-entry.test.js:124-141 | The id `1.0.0-alpha-a.b-c-somethinglong+build.1-aef.1-its-okay` is kept whole, hyphens in the build metadata included; the date is read after it and the status is prereleased |
| Scenarios.ReadsNoiseBeforeDate | src/parse-entry.test.js:143-160 | With a bar, a plus sign, a dot, a hyphen, backslashes and blanks between the closing bracket and the date, the date is still `2019-02-10`, and neither the id nor the prereleased status changes |
| Scenarios.IgnoresProseForDate | src/parse-entry.test.js:163-180 | `## [1.0.0] - SomeWords instead of a Date` gives id `1.0.0`, no date, released |
| Scenarios.ReadsBuildMetadata | src/parse-entry.test.js:182-199 | `2.0.0+build.1848` with only build metadata is a release; prose after it gives no date |
| Scenarios.ReadsYanked | src/parse-entry.test.js:201-218 | A trailing `[YANKED]` makes the status yanked while the id `2.0.0` and the date `2019-02-10` are still read |
| Scenarios.ReadsYankedWithoutDate | src/parse-entry.test.js:220-237 | `## [2.0.0] [YANKED]` is yanked and has no date |
| Scenarios.ExampleParse | src/parse-entry.test.js:29-33 | For any well-formed header placed in the example section, the parse gives the header's own token, its date, the status of that token, and a text holding the expected description pieces |
| Scenarios.DescriptionText | src/parse-entry.test.js:3-25 | The joined description holds `### Added`, the ThemeProvider sentence and the `**SECURITY**` sentence, each unchanged |
| Scenarios.BodyTrimmed | src/parse-entry.test.js:3-25 | Dropping the blank indentation line before the description and the blank closing lines after it leaves exactly the description lines |
| EntryParser.Parse | src/parse-entry.test.js:1-237 | The model of `parseEntry` itself. It has no ensures of its own; `EntryParser.ParseFacts`, `EntryParser.ParseKeepsBodyLines` and `Headers.ParseRendered` carry its contract, and the eleven scenarios pin it on the tested inputs |
| EntryParser.ParseLines | src/parse-entry.test.js:28-43 | `Parse` on the input cut into lines: the first header line gives id, date and status, and the trimmed lines after it give the text. It has no ensures; `EntryParser.ParseLinesFacts` states its properties |
| EntryParser.ParseHeaderLine | src/parse-entry.test.js:28-36 | A line yields a reading exactly when it is a header line; `EntryParser.ParseHeaderLineFacts` and `Headers.HeaderRoundTrip` state what the reading holds |
| EntryParser.VersionStart | src/parse-entry.test.js:46-101 | What is left after indentation, `#` markers and one `[` is a suffix of the line; `Headers.VersionStartOfRender` states that exactly those are skipped |
| Versions.HasPrerelease | src/parse-entry.test.js:124-199 | The scanning pre-release test on an id. It has no ensures; `Versions.HasPrereleaseIff` relates it to a hyphen before any plus sign |
| Lines.TrimBlankLines | src/parse-entry.test.js:37-43 | The body without its leading and trailing blank lines. It has no ensures; `Lines.TrimBounds`, `Lines.TrimKeepsLine` and `Lines.TrimSurrounded` state its contract |
| EntryParser.ParseFacts | src/parse-entry.test.js:27-237 | For every input: the text, a non-empty id and the date are all substrings of the input; the date is `YYYY-MM-DD` shaped; the status is unreleased exactly when the id is `Unreleased`, and then there is no date; a prereleased id has a hyphen before any plus sign |
| EntryParser.ParseKeepsBodyLines | src/parse-entry.test.js:37-43 | Every non-blank line after the header line appears verbatim in the text |
| EntryParser.ParseHeaderLineFacts | src/parse-entry.test.js:28-36 | A line is read as a header exactly when a version token starts after its indentation, markers and bracket. The token is well formed and written in the line. A date is date-shaped, written in the line, and never given to `Unreleased`. The yanked flag holds exactly when `[YANKED]` occurs after the token |
| EntryParser.FindHeader | src/parse-entry.test.js:28-36 | The header is the first line that is a header line: no earlier line is one, and there is none when no line is |
| Headers.HeaderRoundTrip | src/parse-entry.test.js:27-237 | Every well-formed header line, whatever its indentation, heading markers, brackets, `v` prefix, separator noise, date, prose or yanked marker, is read back as exactly the version, date and yanked flag it announces |
| Headers.ParseRendered | src/parse-entry.test.js:27-44 | A section made of non-header lines, a well-formed header line and body lines parses to the header's id, date (none for `Unreleased`) and status, with the trimmed body as text |
| Headers.DateOfRender | src/parse-entry.test.js:143-180 | After a numbered token, the date scanner finds the header's date across any separator noise, and finds none when prose, the marker or nothing follows |
| Headers.YankedOfRender | src/parse-entry.test.js:201-237 | The marker is found after the token exactly when the header is yanked, with or without a date |
| Headers.VersionStartOfRender | src/parse-entry.test.js:46-101 | Indentation, `#` markers and the opening bracket are skipped, and the token follows |
| Classification.Classify | src/parse-entry.test.js:104-237 | Unreleased exactly for the `Unreleased` id; otherwise yanked exactly when the marker is present; otherwise prereleased exactly when the id has a hyphen before any plus sign; released in every other case |
| Classification.StatusOfVersion | src/parse-entry.test.js:124-199 | For a well-formed token, the status is prereleased exactly when the token has a pre-release segment and is not yanked. Build metadata alone never makes it prereleased |
| Classification.PrefixKeepsStatus | src/parse-entry.test.js:65-101 | Writing `v` before a numbered token never changes its status |
| Versions.ScanVersion | src/parse-entry.test.js:65-101 | The token read is well formed and is a prefix of the text. A token is read exactly when the text starts with `Unreleased`, a digit, or `v` and a digit. `Unreleased` wins |
| Versions.ScanVersionOfText | src/parse-entry.test.js:124-141 | Round trip: a well-formed token followed by text that cannot extend it is read back as itself, segments and all |
| Versions.ScanNumbered | src/parse-entry.test.js:124-141 | A numbered token is read exactly when the text starts with a digit, and it is written at the start of the text |
| Versions.ReadSegment | src/parse-entry.test.js:124-141 | The marker and the segment read, followed by the rest, give back the input; the segment is the longest run of identifier characters after the marker |
| Versions.ReadSegmentOf | src/parse-entry.test.js:124-141 | A segment followed by a character that cannot extend it is split off exactly |
| Versions.CoreLen | src/parse-entry.test.js:65-82 | The numeric core read is the longest dotted digit run at the start, and it is empty exactly when no digit starts the text |
| Versions.CoreLenOfCore | src/parse-entry.test.js:65-82 | A core followed by text that cannot continue it is read back whole |
| Versions.HasPrereleaseIff | src/parse-entry.test.js:182-199 | The scanning pre-release test agrees with the definition: a hyphen occurs before any plus sign |
| Versions.PrereleaseOfVersion | src/parse-entry.test.js:124-199 | A well-formed numbered token has a hyphen before any plus sign exactly when it has a pre-release segment, whatever its build metadata holds |
| Dates.ScanDate | src/parse-entry.test.js:143-180 | A date found is `YYYY-MM-DD` shaped and sits after nothing but separator noise. Whenever such a date exists, it is the one found |
| Lines.JoinSplit | src/parse-entry.test.js:28-31 | Cutting the input into lines and joining them again gives back the input |
| Lines.SplitJoin | src/parse-entry.test.js:28-31 | Lines without line feeds, joined and cut again, are the same lines |
| Lines.TrimBounds | src/parse-entry.test.js:37-43 | Only blank lines lie before and after the kept range, and the kept range starts and ends with non-blank lines |
| Lines.TrimKeepsLine | src/parse-entry.test.js:37-43 | Trimming keeps every non-blank line, verbatim, in the joined text |
| Lines.TrimIsInfix | src/parse-entry.test.js:37-43 | The trimmed text is a contiguous piece of the untrimmed text |
| Lines.TrimSurrounded | src/parse-entry.test.js:37-43 | Blank lines around a block that starts and ends with non-blank lines are dropped, and the block is kept whole |
| Scan.ContainsIsInfix | src/parse-entry.test.js:201-218 | The marker search answers yes exactly when the marker occurs as a contiguous piece |

## Left out

- `src/parse-entry.js` is not part of this model. The model is built from the test's assertions, so where the implementation makes a choice those assertions do not fix, the model makes its own choice, as listed below.
- Regular expressions: the id, date and marker patterns are explicit scanners, not a regular-expression engine. A header line is the first line on which a version token starts after indentation, `#` markers and one optional `[`. A bullet such as `- bump to 1.2.3` is therefore not a header.
- Dates.ScanDate: only non-alphanumeric characters count as separator noise before the date. A letter, or a digit that does not start a `YYYY-MM-DD` token, ends the search with no date, so `] - Released 2019-02-10` and `](https://x.org) - 2019-02-10` give no date. The assertions only fix punctuation noise (line 145) and leading prose (line 165). Likewise `Unreleased` is matched as a prefix of whatever follows it, so `Unreleased-notes` reads as `Unreleased`.
- Calendar validity: `IsDateShape` checks the `YYYY-MM-DD` shape only. Month and day ranges are not checked, and the assertions do not fix them.
- A section without any header line becomes an entry with an empty id, no date, the released status and the whole input, trimmed, as its text. No assertion covers this case, so this is a documented fallback and not observed behaviour.
- `Parse` text: leading and trailing blank lines of the body are dropped, and every other line is kept exactly. How the implementation trims whitespace inside the first and last lines is not fixed by the assertions, which check containment only. The scenarios state containment, as the assertions do.
- The Jest calls (`test`, `expect`) and template-literal interpolation are left out. Each input is written as the joined list of its lines, which is what the template literal produces.
- Splitting a changelog file into sections, file I/O and the GitHub Action's inputs and outputs are outside the parser and are left out.
- Purity: `Parse` is a Dafny function, so two calls on the same input give equal results by construction. No separate statement is made about this.
