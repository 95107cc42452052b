/** The section body shared by the documented examples of the entry parser.
    Each line is written as a list of short literal pieces; `Cat` joins them. */
module ExampleText {
  /** The pieces of a line, concatenated. */
  function Cat(ps: seq<string>): string {
    if |ps| == 0 then "" else ps[0] + Cat(ps[1..])
  }

  /** Concatenating the pieces of two lists is concatenating the two lines. */
  lemma {:induction false} CatAppend(xs: seq<string>, ys: seq<string>)
    ensures Cat(xs + ys) == Cat(xs) + Cat(ys)
  {
    if |xs| > 0 {
      assert (xs + ys)[1..] == xs[1..] + ys;
      CatAppend(xs[1..], ys);
    } else {
      assert xs + ys == ys;
    }
  }

  /** Pieces without line feeds make a line without line feeds. */
  lemma {:induction false} CatNoLineFeed(ps: seq<string>)
    requires forall i :: 0 <= i < |ps| ==> '\n' !in ps[i]
    ensures '\n' !in Cat(ps)
  {
    if |ps| > 0 {
      CatNoLineFeed(ps[1..]);
    }
  }

  const ThemePieces: seq<string> :=
    ["ThemeProvider ", "doesn't ", "loads the ", "font ", "anymore. We ",
     "created a ", "more ", "generic ", "component ", "(UIKitInitializer) ",
     "that'll do ", "it."]

  const SecurityPieces: seq<string> :=
    ["**SECURITY** ", "The list ", "components ", "don't use ", "the ",
     "nth-child ", "CSS ", "attributes ", "in favor of ", "nth-of-type."]

  const ThemeSentence: string := Cat(ThemePieces)

  const SecuritySentence: string := Cat(SecurityPieces)

  /** The lines of the description, each as its pieces. */
  const DescriptionPieces: seq<seq<string>> := [
    ["### Added"],
    ["- New ", "attribute ", "isOrdered ", "on ", "TextFieldList. ",
     "Basicaly, ", "<ol> ", "becomes ", "<ul> when ", "not ordered."],
    ["- It is ", "possible to ", "change the ", "row count ", "of the ",
     "TextField ", "in ", "TextFieldList."],
    ["- New ", "attribute ", "maxFieldCount ", "on ", "TextFieldList. ",
     "It hides ", "the add ", "button when ", "the value ", "of ",
     "maxFieldCount ", "is reached."],
    ["- New ", "DatePickerField ", "component ", "to display ", "a date ",
     "input."],
    ["- New ", "attribute ", "isSmall on ", "TextField ", "to display ",
     "a smaller ", "version of ", "he ", "TextField."],
    [""],
    ["### Changed"],
    ["- All form ", "components ", "can be ", "updated ", "using the ",
     "value ", "attribute."],
    ["- ", "**BREACKING ", "CHANGES** ", "The default ", "behavior of ",
     "TextFieldList ", "is to be ", "\"not ", "ordered\"."],
    ["  You'll ", "have to add ", "the new ", "isOrdered ", "attribute ",
     "on your ", "existing ", "components."],
    ["- ", "FormErrors ", "become ", "FormErrorMessages."],
    ["- ", "FormErrorMessages ", "try to ", "translate ", "the error ",
     "key ", "automatically."],
    ["- "] + ThemePieces,
    ["- ", "FormErrorMessages ", "filter ", "error that ", "are equal ",
     "to false"],
    ["- If an ", "error is ", "equal to en ", "object ", "instead of ",
     "true, the ", "object is ", "passed to ", "the ", "translator ", "as ",
     "variables ", "by ", "FormErrorMessages."],
    ["- ", "RadioButton ", "and ", "CheckboxButton ", "support ",
     "other type ", "than string ", "for their ", "children ", "attribute."],
    [""],
    ["### Fixed"],
    ["- Update ", "types to ", "allow no ", "theme data ", "into ",
     "ThemeProvider."],
    ["- "] + SecurityPieces
  ]

  const Description: seq<string> := CatEach(DescriptionPieces)

  /** Every list of pieces, concatenated. */
  function CatEach(pss: seq<seq<string>>): (r: seq<string>)
    ensures |r| == |pss|
    ensures forall k :: 0 <= k < |pss| ==> r[k] == Cat(pss[k])
  {
    if |pss| == 0 then [] else [Cat(pss[0])] + CatEach(pss[1..])
  }

  /* One lemma per description line keeps each proof obligation small; the
     dispatcher `PiecesOfLine` below gathers them. */
  lemma PiecesOfLine0()
    ensures forall i :: 0 <= i < |DescriptionPieces[0]| ==> '\n' !in DescriptionPieces[0][i]
  {
  }

  lemma PiecesOfLine1()
    ensures forall i :: 0 <= i < |DescriptionPieces[1]| ==> '\n' !in DescriptionPieces[1][i]
  {
  }

  lemma PiecesOfLine2()
    ensures forall i :: 0 <= i < |DescriptionPieces[2]| ==> '\n' !in DescriptionPieces[2][i]
  {
  }

  lemma PiecesOfLine3()
    ensures forall i :: 0 <= i < |DescriptionPieces[3]| ==> '\n' !in DescriptionPieces[3][i]
  {
  }

  lemma PiecesOfLine4()
    ensures forall i :: 0 <= i < |DescriptionPieces[4]| ==> '\n' !in DescriptionPieces[4][i]
  {
  }

  lemma PiecesOfLine5()
    ensures forall i :: 0 <= i < |DescriptionPieces[5]| ==> '\n' !in DescriptionPieces[5][i]
  {
  }

  lemma PiecesOfLine6()
    ensures forall i :: 0 <= i < |DescriptionPieces[6]| ==> '\n' !in DescriptionPieces[6][i]
  {
  }

  lemma PiecesOfLine7()
    ensures forall i :: 0 <= i < |DescriptionPieces[7]| ==> '\n' !in DescriptionPieces[7][i]
  {
  }

  lemma PiecesOfLine8()
    ensures forall i :: 0 <= i < |DescriptionPieces[8]| ==> '\n' !in DescriptionPieces[8][i]
  {
  }

  lemma PiecesOfLine9()
    ensures forall i :: 0 <= i < |DescriptionPieces[9]| ==> '\n' !in DescriptionPieces[9][i]
  {
  }

  lemma PiecesOfLine10()
    ensures forall i :: 0 <= i < |DescriptionPieces[10]| ==> '\n' !in DescriptionPieces[10][i]
  {
  }

  lemma PiecesOfLine11()
    ensures forall i :: 0 <= i < |DescriptionPieces[11]| ==> '\n' !in DescriptionPieces[11][i]
  {
  }

  lemma PiecesOfLine12()
    ensures forall i :: 0 <= i < |DescriptionPieces[12]| ==> '\n' !in DescriptionPieces[12][i]
  {
  }

  lemma PiecesOfLine14()
    ensures forall i :: 0 <= i < |DescriptionPieces[14]| ==> '\n' !in DescriptionPieces[14][i]
  {
  }

  lemma PiecesOfLine15()
    ensures forall i :: 0 <= i < |DescriptionPieces[15]| ==> '\n' !in DescriptionPieces[15][i]
  {
  }

  lemma PiecesOfLine16()
    ensures forall i :: 0 <= i < |DescriptionPieces[16]| ==> '\n' !in DescriptionPieces[16][i]
  {
  }

  lemma PiecesOfLine17()
    ensures forall i :: 0 <= i < |DescriptionPieces[17]| ==> '\n' !in DescriptionPieces[17][i]
  {
  }

  lemma PiecesOfLine18()
    ensures forall i :: 0 <= i < |DescriptionPieces[18]| ==> '\n' !in DescriptionPieces[18][i]
  {
  }

  lemma PiecesOfLine19()
    ensures forall i :: 0 <= i < |DescriptionPieces[19]| ==> '\n' !in DescriptionPieces[19][i]
  {
  }

  lemma ThemeNoLineFeed()
    ensures forall i :: 0 <= i < |ThemePieces| ==> '\n' !in ThemePieces[i]
  {
  }

  lemma SecurityNoLineFeed()
    ensures forall i :: 0 <= i < |SecurityPieces| ==> '\n' !in SecurityPieces[i]
  {
  }

  lemma PiecesOfLine13()
    ensures forall i :: 0 <= i < |DescriptionPieces[13]| ==> '\n' !in DescriptionPieces[13][i]
  {
    ThemeNoLineFeed();
    assert forall i :: 1 <= i < |DescriptionPieces[13]| ==> DescriptionPieces[13][i] == ThemePieces[i - 1];
  }

  lemma PiecesOfLine20()
    ensures forall i :: 0 <= i < |DescriptionPieces[20]| ==> '\n' !in DescriptionPieces[20][i]
  {
    SecurityNoLineFeed();
    assert forall i :: 1 <= i < |DescriptionPieces[20]| ==> DescriptionPieces[20][i] == SecurityPieces[i - 1];
  }

  /** No piece of line `k` holds a line feed. */
  lemma PiecesOfLine(k: nat)
    requires k < |DescriptionPieces|
    ensures forall i :: 0 <= i < |DescriptionPieces[k]| ==> '\n' !in DescriptionPieces[k][i]
  {
    if k == 0 {
      PiecesOfLine0();
    } else if k == 1 {
      PiecesOfLine1();
    } else if k == 2 {
      PiecesOfLine2();
    } else if k == 3 {
      PiecesOfLine3();
    } else if k == 4 {
      PiecesOfLine4();
    } else if k == 5 {
      PiecesOfLine5();
    } else if k == 6 {
      PiecesOfLine6();
    } else if k == 7 {
      PiecesOfLine7();
    } else if k == 8 {
      PiecesOfLine8();
    } else if k == 9 {
      PiecesOfLine9();
    } else if k == 10 {
      PiecesOfLine10();
    } else if k == 11 {
      PiecesOfLine11();
    } else if k == 12 {
      PiecesOfLine12();
    } else if k == 13 {
      PiecesOfLine13();
    } else if k == 14 {
      PiecesOfLine14();
    } else if k == 15 {
      PiecesOfLine15();
    } else if k == 16 {
      PiecesOfLine16();
    } else if k == 17 {
      PiecesOfLine17();
    } else if k == 18 {
      PiecesOfLine18();
    } else if k == 19 {
      PiecesOfLine19();
    } else {
      PiecesOfLine20();
    }
  }

  /** No line of the description holds a line feed. */
  lemma NoLineFeed()
    ensures forall k :: 0 <= k < |Description| ==> '\n' !in Description[k]
  {
    forall k | 0 <= k < |Description|
      ensures '\n' !in Description[k]
    {
      PiecesOfLine(k);
      CatNoLineFeed(DescriptionPieces[k]);
    }
  }

  lemma FirstLine()
    ensures |Description| == 21
    ensures Description[0] == "### Added"
  {
    assert Cat(["### Added"]) == "### Added";
  }

  lemma ThemeLine()
    ensures |Description| == 21
    ensures Description[13] == "- " + ThemeSentence
  {
    assert Cat(["- "]) == "- ";
    CatAppend(["- "], ThemePieces);
  }

  lemma SecurityLine()
    ensures |Description| == 21
    ensures Description[20] == "- " + SecuritySentence
  {
    assert Cat(["- "]) == "- ";
    CatAppend(["- "], SecurityPieces);
  }
}
