/** An entry's text as a sequence of lines: splitting on line feeds, joining back,
    and trimming blank lines off both ends of the body. */
module Lines {
  import opened Chars
  import opened Scan

  predicate NoNewline(l: string) {
    '\n' !in l
  }

  /** Splits `s` at every line feed; like JavaScript's `split('\n')`, the empty text is one empty line. */
  function Split(s: string): (ls: seq<string>)
    ensures |ls| >= 1
    ensures forall k :: 0 <= k < |ls| ==> NoNewline(ls[k])
  {
    if |s| == 0 then [""]
    else if s[0] == '\n' then [""] + Split(s[1..])
    else
      var r := Split(s[1..]);
      [[s[0]] + r[0]] + r[1..]
  }

  /** Joins lines with a line feed between consecutive ones. */
  function Join(ls: seq<string>): string {
    if |ls| == 0 then ""
    else if |ls| == 1 then ls[0]
    else ls[0] + "\n" + Join(ls[1..])
  }

  /** Splitting loses nothing: joining the lines gives back the text. */
  lemma {:induction false} JoinSplit(s: string)
    ensures Join(Split(s)) == s
    decreases |s|
  {
    if |s| == 0 {
    } else if s[0] == '\n' {
      JoinSplit(s[1..]);
      assert s == "" + "\n" + s[1..];
    } else {
      JoinSplit(s[1..]);
      var r := Split(s[1..]);
      assert Split(s)[1..] == r[1..];
      if |r| == 1 {
        assert s == [s[0]] + r[0];
      } else {
        assert Join(r) == r[0] + "\n" + Join(r[1..]);
        assert s == [s[0]] + r[0] + "\n" + Join(r[1..]);
      }
    }
  }

  /** A line-feed-free text followed by a line feed splits off as the first line. */
  lemma {:induction false} SplitFirstLine(a: string, rest: string)
    requires NoNewline(a)
    ensures Split(a + "\n" + rest) == [a] + Split(rest)
    decreases |a|
  {
    if |a| == 0 {
      assert a + "\n" + rest == "\n" + rest;
      assert ("\n" + rest)[1..] == rest;
    } else {
      assert (a + "\n" + rest)[1..] == a[1..] + "\n" + rest;
      SplitFirstLine(a[1..], rest);
      assert [a[0]] + a[1..] == a;
    }
  }

  /** A line-feed-free text is a single line. */
  lemma {:induction false} SplitSingleLine(a: string)
    requires NoNewline(a)
    ensures Split(a) == [a]
    decreases |a|
  {
    if |a| > 0 {
      SplitSingleLine(a[1..]);
      assert [a[0]] + a[1..] == a;
    }
  }

  /** Joining is undone by splitting, provided no line holds a line feed. */
  lemma {:induction false} SplitJoin(ls: seq<string>)
    requires |ls| >= 1
    requires forall k :: 0 <= k < |ls| ==> NoNewline(ls[k])
    ensures Split(Join(ls)) == ls
    decreases |ls|
  {
    if |ls| == 1 {
      SplitSingleLine(ls[0]);
    } else {
      SplitFirstLine(ls[0], Join(ls[1..]));
      SplitJoin(ls[1..]);
      assert [ls[0]] + ls[1..] == ls;
    }
  }

  /** Joining two non-empty runs of lines puts one line feed between them. */
  lemma {:induction false} JoinAppend(xs: seq<string>, ys: seq<string>)
    requires |xs| >= 1 && |ys| >= 1
    ensures Join(xs + ys) == Join(xs) + "\n" + Join(ys)
    decreases |xs|
  {
    if |xs| == 1 {
      assert (xs + ys)[1..] == ys;
    } else {
      assert (xs + ys)[1..] == xs[1..] + ys;
      JoinAppend(xs[1..], ys);
    }
  }

  /** The first `b` lines, joined, are a piece of the joined whole. */
  lemma JoinPrefixInfix(ls: seq<string>, b: nat)
    requires 1 <= b <= |ls|
    ensures IsInfix(Join(ls[..b]), Join(ls))
  {
    if b == |ls| {
      assert ls[..b] == ls;
      InfixOfSelf(Join(ls));
    } else {
      JoinPrefixInfixStrict(ls, b);
    }
  }

  lemma JoinPrefixInfixStrict(ls: seq<string>, b: nat)
    requires 1 <= b < |ls|
    ensures IsInfix(Join(ls[..b]), Join(ls))
  {
    JoinLeftInfix(ls[..b], ls[b..]);
    assert ls[..b] + ls[b..] == ls;
  }

  lemma JoinLeftInfix(xs: seq<string>, ys: seq<string>)
    requires |xs| >= 1 && |ys| >= 1
    ensures IsInfix(Join(xs), Join(xs + ys))
  {
    var j := Join(xs + ys);
    JoinAppend(xs, ys);
    assert j[0..|Join(xs)|] == Join(xs);
    assert OccursAt(j, Join(xs), 0);
  }

  /** The lines from `a` on, joined, are a piece of the joined whole. */
  lemma JoinSuffixInfix(ls: seq<string>, a: nat)
    requires a < |ls|
    ensures IsInfix(Join(ls[a..]), Join(ls))
  {
    if a > 0 {
      assert ls[..a] + ls[a..] == ls;
      JoinAppend(ls[..a], ls[a..]);
      InfixOfConcat(Join(ls[..a]) + "\n", Join(ls[a..]));
    } else {
      assert ls[a..] == ls;
      InfixOfSelf(Join(ls));
    }
  }

  /** A contiguous run of lines is, once joined, a piece of the joined whole. */
  lemma JoinSliceInfix(ls: seq<string>, a: nat, b: nat)
    requires a <= b <= |ls|
    ensures IsInfix(Join(ls[a..b]), Join(ls))
  {
    if a == b {
      assert ls[a..b] == [];
      EmptyInfix(Join(ls));
    } else {
      JoinNonEmptySliceInfix(ls, a, b);
    }
  }

  lemma JoinNonEmptySliceInfix(ls: seq<string>, a: nat, b: nat)
    requires a < b <= |ls|
    ensures IsInfix(Join(ls[a..b]), Join(ls))
  {
    var right := ls[a..];
    var mid := ls[a..b];
    JoinSuffixInfix(ls, a);
    assert right[..b - a] == mid;
    JoinPrefixInfix(right, b - a);
    InfixTransitive(Join(mid), Join(right), Join(ls));
  }

  lemma EmptyInfix(s: string)
    ensures IsInfix("", s)
  {
    assert OccursAt(s, "", 0);
  }

  /** Every single line is a piece of the joined text. */
  lemma JoinHasLine(ls: seq<string>, k: nat)
    requires k < |ls|
    ensures IsInfix(ls[k], Join(ls))
  {
    assert ls[k..k + 1] == [ls[k]];
    JoinSliceInfix(ls, k, k + 1);
  }

  predicate IsBlankLine(l: string) {
    forall i :: 0 <= i < |l| ==> IsSpace(l[i])
  }

  /** The bounds of `ls` once leading and trailing blank lines are dropped. */
  function TrimBounds(ls: seq<string>): (b: (nat, nat))
    ensures b.0 <= b.1 <= |ls|
    ensures forall i :: 0 <= i < b.0 ==> IsBlankLine(ls[i])
    ensures forall i :: b.1 <= i < |ls| ==> IsBlankLine(ls[i])
    ensures b.0 < b.1 ==> !IsBlankLine(ls[b.0]) && !IsBlankLine(ls[b.1 - 1])
  {
    var a := Span(ls, IsBlankLine);
    var e := SpanBack(ls[a..], IsBlankLine);
    SpanBackOfTail(ls, a, IsBlankLine);
    (a, |ls| - e)
  }

  /** `ls` without its leading and trailing blank lines. */
  function TrimBlankLines(ls: seq<string>): seq<string> {
    ls[TrimBounds(ls).0..TrimBounds(ls).1]
  }

  /** Trimming only ever drops blank lines: every other line survives, verbatim, in the joined text. */
  lemma TrimKeepsLine(ls: seq<string>, k: nat)
    requires k < |ls| && !IsBlankLine(ls[k])
    ensures IsInfix(ls[k], Join(TrimBlankLines(ls)))
  {
    var b := TrimBounds(ls);
    var t := TrimBlankLines(ls);
    assert b.0 <= k < b.1;
    assert t[k - b.0] == ls[k];
    JoinHasLine(t, k - b.0);
  }

  /** The trimmed text is a contiguous piece of the untrimmed one. */
  lemma TrimIsInfix(ls: seq<string>)
    ensures IsInfix(Join(TrimBlankLines(ls)), Join(ls))
  {
    JoinSliceInfix(ls, TrimBounds(ls).0, TrimBounds(ls).1);
  }

  /** Trimming drops exactly the blank lines around the first and last non-blank line. */
  lemma TrimSurrounded(lead: seq<string>, mid: seq<string>, trail: seq<string>)
    requires forall i :: 0 <= i < |lead| ==> IsBlankLine(lead[i])
    requires forall i :: 0 <= i < |trail| ==> IsBlankLine(trail[i])
    requires |mid| > 0 && !IsBlankLine(mid[0]) && !IsBlankLine(mid[|mid| - 1])
    ensures TrimBlankLines(lead + mid + trail) == mid
  {
    var ls := lead + mid + trail;
    var b := TrimBounds(ls);
    var stop := |lead| + |mid|;
    assert ls[|lead|] == mid[0];
    assert ls[stop - 1] == mid[|mid| - 1];
    assert forall i :: 0 <= i < |lead| ==> ls[i] == lead[i];
    assert forall i :: stop <= i < |ls| ==> ls[i] == trail[i - stop];
    assert b.0 == |lead|;
    assert b.1 == stop;
    assert ls[b.0..b.1] == mid;
  }
}
