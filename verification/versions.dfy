/** The version token of an entry header: the Keep a Changelog `Unreleased`
    token, or a Semantic Versioning 2.0.0 style number with an optional `v`
    prefix, pre-release segment (section 9) and build metadata (section 10). */
module Versions {
  import opened Options
  import opened Chars
  import opened Scan

  const UnreleasedToken: string := "Unreleased"

  /** A numeric core: digit groups separated by single dots (`0.0.26`, `1`, `1.2.3.4`). */
  predicate IsCore(t: string) {
    && |t| > 0
    && IsDigit(t[0])
    && IsDigit(t[|t| - 1])
    && (forall i :: 0 <= i < |t| ==> IsDigit(t[i]) || t[i] == '.')
    && (forall i :: 0 <= i < |t| - 1 && t[i] == '.' ==> IsDigit(t[i + 1]))
  }

  /** A non-empty run of dot- or hyphen-separated alphanumeric identifiers. */
  predicate IsIdentRun(t: string) {
    |t| > 0 && forall i :: 0 <= i < |t| ==> IsIdentChar(t[i])
  }

  datatype Version =
    | Unreleased
    | Numbered(vPrefix: bool, core: string, pre: Option<string>, build: Option<string>)
  {
    /** The token exactly as it is written in a header. */
    function Text(): string {
      match this
      case Unreleased => UnreleasedToken
      case Numbered(vPrefix, _, _, _) => (if vPrefix then "v" else "") + Unprefixed()
    }

    /** A numbered token without its `v` prefix: core, pre-release and build segments. */
    function Unprefixed(): string
      requires Numbered?
    {
      core + SegmentText('-', pre) + SegmentText('+', build)
    }

    predicate WellFormed() {
      Numbered? ==>
        && IsCore(core)
        && (pre.Some? ==> IsIdentRun(pre.value))
        && (build.Some? ==> IsIdentRun(build.value))
    }
  }

  /** Length of the numeric core at the start of `s`, or 0 when `s` does not start with a digit. */
  function CoreLen(s: string): (n: nat)
    ensures n <= |s|
    ensures n == 0 <==> |s| == 0 || !IsDigit(s[0])
    ensures n > 0 ==> IsCore(s[..n])
    ensures 0 < n < |s| ==> !IsDigit(s[n]) && !(s[n] == '.' && n + 1 < |s| && IsDigit(s[n + 1]))
    decreases |s|
  {
    if |s| == 0 || !IsDigit(s[0]) then 0
    else
      var d := Span(s, IsDigit);
      if d + 1 < |s| && s[d] == '.' && IsDigit(s[d + 1]) then
        var m := CoreLen(s[d + 1..]);
        CoreOfParts(s, d, m);
        d + 1 + m
      else d
  }

  /** Digits, a dot, and a core after it make a core. */
  lemma CoreOfParts(s: string, d: nat, m: nat)
    requires 0 < d && d + 1 + m <= |s|
    requires forall i :: 0 <= i < d ==> IsDigit(s[i])
    requires s[d] == '.'
    requires m > 0 && IsCore(s[d + 1..][..m])
    ensures IsCore(s[..d + 1 + m])
    ensures d + 1 + m < |s| ==> s[d + 1 + m] == s[d + 1..][m]
    ensures d + 2 + m < |s| ==> s[d + 2 + m] == s[d + 1..][m + 1]
  {
    var t := s[..d + 1 + m];
    var tail := s[d + 1..][..m];
    assert forall i :: d + 1 <= i < |t| ==> t[i] == tail[i - d - 1];
  }

  /** A segment as written: its marker followed by its identifiers, or nothing. */
  function SegmentText(marker: char, seg: Option<string>): string {
    if seg.Some? then [marker] + seg.value else ""
  }

  /** Splits the longest `marker`-introduced identifier segment (`-alpha.1` for
      `-`, `+build.5` for `+`) off the start of `s`: the identifiers without their
      marker, if there are any, and the text that follows. */
  function ReadSegment(s: string, marker: char): (r: (Option<string>, string))
    ensures SegmentText(marker, r.0) + r.1 == s
    ensures r.0.Some? ==> IsIdentRun(r.0.value)
    ensures r.0.Some? ==> |r.1| == 0 || !IsIdentChar(r.1[0])
    ensures r.0.None? <==> |s| < 2 || s[0] != marker || !IsIdentChar(s[1])
  {
    if |s| == 0 || s[0] != marker then (None, s)
    else
      var k := Span(s[1..], IsIdentChar);
      if k == 0 then (None, s)
      else
        assert s == [marker] + s[1..1 + k] + s[1 + k..];
        (Some(s[1..1 + k]), s[1 + k..])
  }

  /** Round trip: a segment followed by a character that neither extends it nor
      starts another one is split off exactly. */
  lemma ReadSegmentOf(marker: char, seg: Option<string>, rest: string)
    requires seg.Some? ==> IsIdentRun(seg.value)
    requires |rest| == 0 || (!IsIdentChar(rest[0]) && rest[0] != marker)
    ensures ReadSegment(SegmentText(marker, seg) + rest, marker) == (seg, rest)
  {
    var s := SegmentText(marker, seg) + rest;
    if seg.Some? {
      assert s[1..] == seg.value + rest;
      SpanOfPrefix(seg.value, rest, IsIdentChar);
      assert s[1..1 + |seg.value|] == seg.value;
      assert s[1 + |seg.value|..] == rest;
    } else {
      assert s == rest;
    }
  }

  /** `s` begins with something the version scanner accepts. */
  predicate StartsVersion(s: string) {
    || UnreleasedToken <= s
    || (|s| > 0 && IsDigit(s[0]))
    || (|s| > 1 && s[0] == 'v' && IsDigit(s[1]))
  }

  /** Reads an unprefixed numbered token at the start of `t`: a numeric core,
      then the longest pre-release segment, then the longest build segment. */
  function ScanNumbered(vPrefix: bool, t: string): (r: Option<Version>)
    ensures r.Some? ==> r.value.Numbered? && r.value.vPrefix == vPrefix && r.value.WellFormed()
    ensures r.Some? ==> r.value.Unprefixed() <= t
    ensures r.None? <==> |t| == 0 || !IsDigit(t[0])
  {
    var c := CoreLen(t);
    if c == 0 then None
    else
      var (pre, afterPre) := ReadSegment(t[c..], '-');
      var (build, rest) := ReadSegment(afterPre, '+');
      var v := Numbered(vPrefix, t[..c], pre, build);
      UnprefixedIsPrefix(t, c, v, afterPre, rest);
      Some(v)
  }

  /** The core and the two segments read off `t`, put back together, start `t`. */
  lemma UnprefixedIsPrefix(t: string, c: nat, v: Version, afterPre: string, rest: string)
    requires v.Numbered? && c <= |t| && v.core == t[..c]
    requires SegmentText('-', v.pre) + afterPre == t[c..]
    requires SegmentText('+', v.build) + rest == afterPre
    ensures v.Unprefixed() <= t
  {
    assert t == t[..c] + t[c..];
    ConcatAssoc(t[..c], SegmentText('-', v.pre), SegmentText('+', v.build), rest);
    assert t == v.Unprefixed() + rest;
    assert t[..|v.Unprefixed()|] == v.Unprefixed();
  }

  /** Reads the version token at the start of `s`. `Unreleased` takes priority;
      otherwise an optional `v` followed by a numbered token. */
  function ScanVersion(s: string): (r: Option<Version>)
    ensures r.Some? ==> r.value.WellFormed() && r.value.Text() <= s
    ensures r.None? <==> !StartsVersion(s)
    ensures UnreleasedToken <= s ==> r == Some(Unreleased)
  {
    if UnreleasedToken <= s then Some(Unreleased)
    else if |s| > 0 && s[0] == 'v' then
      assert s == "v" + s[1..];
      ScanNumbered(true, s[1..])
    else ScanNumbered(false, s)
  }

  /** `rest` cannot continue a numbered token that it directly follows. */
  predicate CanEndToken(rest: string) {
    |rest| == 0 || !IsTokenChar(rest[0])
  }

  /** A well-formed core followed by something that cannot extend it is read back exactly. */
  lemma {:induction false} CoreLenOfCore(t: string, rest: string)
    requires IsCore(t)
    requires |rest| == 0 || (!IsDigit(rest[0]) && rest[0] != '.')
    ensures CoreLen(t + rest) == |t|
    decreases |t|
  {
    var s := t + rest;
    var d := Span(s, IsDigit);
    assert d <= |t| by {
      if |rest| > 0 {
        assert s[|t|] == rest[0];
      }
    }
    if d == |t| {
      if |rest| > 0 {
        assert s[d] == rest[0];
      }
    } else {
      assert s[d] == t[d];
      assert d + 1 < |t|;
      assert s[d + 1] == t[d + 1];
      var tail := t[d + 1..];
      CoreAfterDot(t, d);
      DropOfConcat(t, rest, d + 1);
      CoreLenOfCore(tail, rest);
    }
  }

  /** What follows a dot inside a core is a core. */
  lemma CoreAfterDot(t: string, d: nat)
    requires IsCore(t) && d + 1 < |t| && t[d] == '.'
    ensures IsCore(t[d + 1..])
  {
    var tail := t[d + 1..];
    assert forall i :: 0 <= i < |tail| ==> tail[i] == t[d + 1 + i];
  }

  lemma ScanNumberedOfText(v: Version, rest: string)
    requires v.Numbered? && v.WellFormed()
    requires CanEndToken(rest)
    ensures ScanNumbered(v.vPrefix, v.Unprefixed() + rest) == Some(v)
  {
    var t := v.Unprefixed() + rest;
    var afterPre := SegmentText('+', v.build) + rest;
    var afterCore := SegmentText('-', v.pre) + afterPre;
    var c := |v.core|;
    assert t == v.core + afterCore by {
      ConcatAssoc(v.core, SegmentText('-', v.pre), SegmentText('+', v.build), rest);
    }
    assert CoreLen(t) == c by {
      assert |afterCore| == 0 || (!IsDigit(afterCore[0]) && afterCore[0] != '.') by {
        if v.pre.None? && v.build.None? {
          assert afterCore == rest;
        }
      }
      CoreLenOfCore(v.core, afterCore);
    }
    assert t[..c] == v.core && t[c..] == afterCore;
    assert ReadSegment(afterCore, '-') == (v.pre, afterPre) by {
      assert |afterPre| == 0 || (!IsIdentChar(afterPre[0]) && afterPre[0] != '-') by {
        if v.build.None? {
          assert afterPre == rest;
        }
      }
      ReadSegmentOf('-', v.pre, afterPre);
    }
    assert ReadSegment(afterPre, '+') == (v.build, rest) by {
      ReadSegmentOf('+', v.build, rest);
    }
  }

  /** Round trip: a well-formed token, followed by text that cannot extend it,
      is read back as exactly that token. */
  lemma ScanVersionOfText(v: Version, rest: string)
    requires v.WellFormed()
    requires v.Numbered? ==> CanEndToken(rest)
    ensures ScanVersion(v.Text() + rest) == Some(v)
  {
    if v.Unreleased? {
      assert UnreleasedToken <= v.Text() + rest;
    } else if v.vPrefix {
      ScanPrefixedOfText(v, rest);
    } else {
      ScanUnprefixedOfText(v, rest);
    }
  }

  lemma ScanPrefixedOfText(v: Version, rest: string)
    requires v.Numbered? && v.WellFormed() && v.vPrefix
    requires CanEndToken(rest)
    ensures ScanVersion(v.Text() + rest) == Some(v)
  {
    var s := v.Text() + rest;
    var u := v.Unprefixed() + rest;
    assert s == "v" + u by {
      ConcatAssoc3("v", v.Unprefixed(), rest);
    }
    assert s[0] == 'v' && s[1..] == u;
    ScanNumberedOfText(v, rest);
  }

  lemma ScanUnprefixedOfText(v: Version, rest: string)
    requires v.Numbered? && v.WellFormed() && !v.vPrefix
    requires CanEndToken(rest)
    ensures ScanVersion(v.Text() + rest) == Some(v)
  {
    var s := v.Text() + rest;
    NumberedTextStart(v);
    assert IsDigit(s[0]);
    NotUnreleasedPrefix(s);
    assert ScanVersion(s) == ScanNumbered(false, s);
    assert v.Text() == v.Unprefixed() by {
      assert "" + v.Unprefixed() == v.Unprefixed();
    }
    ScanNumberedOfText(v, rest);
  }

  lemma NotUnreleasedPrefix(s: string)
    requires |s| > 0 && s[0] != 'U'
    ensures !(UnreleasedToken <= s)
  {
  }

  /** A numbered token starts with its `v` prefix or with a digit. */
  lemma NumberedTextStart(v: Version)
    requires v.Numbered? && v.WellFormed()
    ensures |v.Text()| > 0
    ensures v.vPrefix ==> v.Text()[0] == 'v'
    ensures !v.vPrefix ==> IsDigit(v.Text()[0])
    ensures v.Text() == (if v.vPrefix then "v" else "") + v.Unprefixed()
  {
    if !v.vPrefix {
      assert "" + v.Unprefixed() == v.Unprefixed();
      assert v.Text() == v.core + (SegmentText('-', v.pre) + SegmentText('+', v.build));
    }
  }

  /** A numbered token is never taken for the `Unreleased` token. */
  lemma NumberedIsNotUnreleased(v: Version)
    requires v.Numbered? && v.WellFormed()
    ensures v.Text() != UnreleasedToken
  {
    NumberedTextStart(v);
  }

  /** Whether `id` carries a pre-release segment: a `-` that comes before any `+`. */
  function HasPrerelease(id: string): bool {
    if |id| == 0 || id[0] == '+' then false
    else id[0] == '-' || HasPrerelease(id[1..])
  }

  /** The declarative reading of a pre-release marker: some hyphen has no plus sign before it. */
  predicate HyphenBeforePlus(id: string) {
    exists i :: 0 <= i < |id| && id[i] == '-' && '+' !in id[..i]
  }

  lemma {:induction false} HasPrereleaseIff(id: string)
    ensures HasPrerelease(id) <==> HyphenBeforePlus(id)
    decreases |id|
  {
    if |id| == 0 {
    } else if id[0] == '+' {
    } else if id[0] == '-' {
      assert id[..0] == [];
    } else {
      HasPrereleaseIff(id[1..]);
      if HyphenBeforePlus(id[1..]) {
        var i :| 0 <= i < |id[1..]| && id[1..][i] == '-' && '+' !in id[1..][..i];
        assert id[..i + 1] == [id[0]] + id[1..][..i];
        assert id[i + 1] == '-';
      }
      if HyphenBeforePlus(id) {
        var i :| 0 <= i < |id| && id[i] == '-' && '+' !in id[..i];
        assert i > 0;
        assert id[..i] == [id[0]] + id[1..][..i - 1];
        assert id[1..][i - 1] == '-';
      }
    }
  }

  /** Characters that cannot hide a pre-release marker do not change the answer. */
  lemma {:induction false} HasPrereleaseSkip(a: string, b: string)
    requires forall i :: 0 <= i < |a| ==> a[i] != '-' && a[i] != '+'
    ensures HasPrerelease(a + b) == HasPrerelease(b)
    decreases |a|
  {
    if |a| > 0 {
      assert (a + b)[0] == a[0];
      assert (a + b)[1..] == a[1..] + b;
      HasPrereleaseSkip(a[1..], b);
    } else {
      assert a + b == b;
    }
  }

  /** The check on the id text agrees with the token's structure: a numbered
      token reads as pre-release exactly when it has a pre-release segment,
      whatever its build metadata. */
  lemma PrereleaseOfVersion(v: Version)
    requires v.Numbered? && v.WellFormed()
    ensures HasPrerelease(v.Text()) <==> v.pre.Some?
  {
    var head := (if v.vPrefix then "v" else "") + v.core;
    var preText := SegmentText('-', v.pre);
    var buildText := SegmentText('+', v.build);
    assert v.Text() == head + (preText + buildText);
    assert forall i :: 0 <= i < |head| ==> head[i] == 'v' || IsDigit(head[i]) || head[i] == '.';
    HasPrereleaseSkip(head, preText + buildText);
  }

  predicate AllTokenChars(t: string) {
    forall i :: 0 <= i < |t| ==> IsTokenChar(t[i])
  }

  lemma AllTokenCharsConcat(a: string, b: string)
    requires AllTokenChars(a) && AllTokenChars(b)
    ensures AllTokenChars(a + b)
  {
    assert forall i :: |a| <= i < |a + b| ==> (a + b)[i] == b[i - |a|];
  }

  /** A well-formed token is written with token characters only; in particular
      it holds no line feed, no bracket and no blank. */
  lemma TextIsTokenChars(v: Version)
    requires v.WellFormed()
    ensures AllTokenChars(v.Text())
  {
    if v.Numbered? {
      var pre := SegmentText('-', v.pre);
      var build := SegmentText('+', v.build);
      assert AllTokenChars(v.core);
      assert AllTokenChars(pre) by {
        if v.pre.Some? {
          assert forall i :: 1 <= i < |pre| ==> pre[i] == v.pre.value[i - 1];
        }
      }
      assert AllTokenChars(build) by {
        if v.build.Some? {
          assert forall i :: 1 <= i < |build| ==> build[i] == v.build.value[i - 1];
        }
      }
      AllTokenCharsConcat(v.core, pre);
      AllTokenCharsConcat(v.core + pre, build);
      assert AllTokenChars(if v.vPrefix then "v" else "");
      AllTokenCharsConcat(if v.vPrefix then "v" else "", v.Unprefixed());
      NumberedTextStart(v);
    }
  }
}
