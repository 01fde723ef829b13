/** What the address parser accepts, stated without it: the grammar of range texts, the
    rectangle each one denotes, and what trimming removes. */
module A1Grammar {
  import opened Wrappers
  import opened A1Notation

  predicate AllSpaces(s: string) { forall i :: 0 <= i < |s| ==> IsSpace(s[i]) }

  /** Trimming cuts spaces off both ends, and as many as there are. */
  lemma {:induction false} TrimLeftCuts(s: string) returns (i: nat)
    ensures i <= |s| && TrimLeft(s) == s[i..] && AllSpaces(s[..i]) && (i < |s| ==> !IsSpace(s[i]))
  {
    if s != "" && IsSpace(s[0]) {
      i := TrimLeftCuts(s[1..]);
      assert s[1..][i..] == s[i + 1..] && s[..i + 1] == [s[0]] + s[1..][..i];
      i := i + 1;
    } else {
      i := 0;
    }
  }

  lemma {:induction false} TrimRightCuts(s: string) returns (j: nat)
    ensures j <= |s| && TrimRight(s) == s[..j] && AllSpaces(s[j..]) && (j > 0 ==> !IsSpace(s[j - 1]))
  {
    var n := |s| - 1;
    if s != "" && IsSpace(s[n]) {
      j := TrimRightCuts(s[..n]);
      assert s[..n][..j] == s[..j] && s[j..] == s[..n][j..] + [s[n]];
    } else {
      j := |s|;
    }
  }

  lemma StripCuts(s: string) returns (i: nat, j: nat)
    ensures i <= j <= |s| && Strip(s) == s[i..j] && AllSpaces(s[..i]) && AllSpaces(s[j..])
    ensures i < j ==> !IsSpace(s[i]) && !IsSpace(s[j - 1])
  {
    i := TrimLeftCuts(s);
    var k := TrimRightCuts(s[i..]);
    j := i + k;
    assert s[i..][..k] == s[i..j] && s[i..][k..] == s[j..];
    assert k > 0 ==> s[i..][k - 1] == s[j - 1];
  }

  /** A text trims to nothing exactly when it is all spaces, and to itself exactly when it has
      none at its ends. */
  lemma StripExactly(s: string)
    ensures Strip(s) == "" <==> AllSpaces(s)
    ensures Strip(s) == s <==> s == "" || (!IsSpace(s[0]) && !IsSpace(s[|s| - 1]))
  {
    var i, j := StripCuts(s);
    hide Strip, IsSpace;
    if i == j {
      SpacesMeet(s, i);
      if s != "" { assert IsSpace(s[0]); }
    } else {
      assert !IsSpace(s[i]);
      if Strip(s) == s { assert |s| == j - i; }
      if i > 0 { assert s[..i][0] == s[0]; }
      if j < |s| { assert s[j..][|s| - 1 - j] == s[|s| - 1]; }
      assert i == 0 && j == |s| ==> s[i..j] == s;
    }
  }

  lemma SpacesMeet(s: string, i: nat)
    requires i <= |s| && AllSpaces(s[..i]) && AllSpaces(s[i..])
    ensures AllSpaces(s)
  {
    hide IsSpace;
    forall k | 0 <= k < |s| ensures IsSpace(s[k]) {
      if k < i { assert s[..i][k] == s[k]; } else { assert s[i..][k - i] == s[k]; }
    }
  }

  // ------------------------------------------------------------------- one cell

  predicate Mark(m: string) { m == "" || m == "$" }

  predicate CellParts(text: string, m: string, letters: string, n: string, digits: string) {
    Mark(m) && Mark(n) && text == m + letters + n + digits
  }

  /** One cell reference: letters and digits, each optionally marked absolute. */
  ghost predicate CellText(text: string, letters: string, digits: string) {
    && letters != "" && digits != "" && AllLetters(letters) && AllDigits(digits)
    && exists m, n :: CellParts(text, m, letters, n, digits)
  }

  lemma FrontAndBack(s: string, i: nat, first: string, second: string)
    requires i + |first| + |second| <= |s| && s[i..i + |first| + |second|] == first + second
    ensures s[i..i + |first|] == first && s[i + |first|..i + |first| + |second|] == second
  {
    var e := i + |first| + |second|;
    assert s[i..e][..|first|] == first && s[i..e][|first|..] == second;
    assert s[i..e][..|first|] == s[i..i + |first|] && s[i..e][|first|..] == s[i + |first|..e];
  }

  lemma PartsOfCell(s: string, i: nat, m: string, letters: string, n: string, digits: string)
    requires var text := m + letters + n + digits; i + |text| <= |s| && s[i..i + |text|] == text
    ensures var a, b, c := i + |m|, i + |m| + |letters|, i + |m| + |letters| + |n|;
            s[i..a] == m && s[a..b] == letters && s[b..c] == n && s[c..c + |digits|] == digits
  {
    FrontAndBack(s, i, m + letters + n, digits);
    FrontAndBack(s, i, m + letters, n);
    FrontAndBack(s, i, m, letters);
  }

  lemma PartsAreParsed(s: string, i: nat, m: string, letters: string, n: string, digits: string)
    requires Mark(m) && Mark(n) && letters != "" && digits != "" && AllLetters(letters) && AllDigits(digits)
    requires var e := i + |m + letters + n + digits|;
             e <= |s| && s[i..e] == m + letters + n + digits && (e < |s| ==> !IsDigit(s[e]))
    ensures ParseCell(s, i) == Some(CellRef(letters, DecimalValue(digits), i + |m + letters + n + digits|))
  {
    hide *;
    PartsOfCell(s, i, m, letters, n, digits);
    var a, b, c := i + |m|, i + |m| + |letters|, i + |m| + |letters| + |n|;
    MarkedCell(s, i, a, b, c, c + |digits|);
  }

  /** A cell reference in a text is parsed as such. */
  lemma CellIsParsed(s: string, i: nat, text: string, letters: string, digits: string)
    requires CellText(text, letters, digits) && i + |text| <= |s| && s[i..i + |text|] == text
    requires i + |text| < |s| ==> !IsDigit(s[i + |text|])
    ensures ParseCell(s, i) == Some(CellRef(letters, DecimalValue(digits), i + |text|))
  {
    hide ParseCell, DecimalValue, Mark, IsDigit;
    var m, n :| CellParts(text, m, letters, n, digits);
    PartsAreParsed(s, i, m, letters, n, digits);
  }

  lemma MarkedCell(s: string, i: nat, a: nat, b: nat, c: nat, d: nat)
    requires i <= a < b <= c < d <= |s| && Mark(s[i..a]) && Mark(s[b..c])
    requires AllLetters(s[a..b]) && AllDigits(s[c..d]) && (d < |s| ==> !IsDigit(s[d]))
    ensures ParseCell(s, i) == Some(CellRef(s[a..b], DecimalValue(s[c..d]), d))
  {
    assert s[a] == s[a..b][0] && s[c] == s[c..d][0];
    MarkSkipped(s, i, a);
    MarkSkipped(s, b, c);
    assert b < c ==> s[b] == s[b..c][0];
    LettersEndOfRun(s, a, b);
    DigitsEndOfRun(s, c, d);
  }

  lemma MarkSkipped(s: string, i: nat, a: nat)
    requires i <= a < |s| && Mark(s[i..a]) && s[a] != '$'
    ensures SkipDollar(s, i) == a
  {
    assert i < a ==> s[i] == s[i..a][0];
  }

  lemma CutTwice(s: string, i: nat, j: nat, k: nat)
    requires i <= j <= k <= |s|
    ensures s[i..k] == s[i..j] + s[j..k]
  {
  }

  /** And nothing else is. */
  lemma ParsedIsCell(s: string, i: nat) returns (digits: string)
    requires i <= |s| && ParseCell(s, i).Some?
    ensures var cell := ParseCell(s, i).value;
            i <= cell.next && CellText(s[i..cell.next], cell.letters, digits) && AllDigits(digits) && cell.row == DecimalValue(digits)
  {
    var a := SkipDollar(s, i);
    var b := LettersEnd(s, a);
    var c := SkipDollar(s, b);
    var d := DigitsEnd(s, c);
    digits := s[c..d];
    assert Mark(s[i..a]) && Mark(s[b..c]);
    CutTwice(s, i, a, b);
    CutTwice(s, i, b, c);
    CutTwice(s, i, c, d);
    assert CellParts(s[i..d], s[i..a], s[a..b], s[b..c], s[c..d]);
  }

  // ------------------------------------------------------------------- one range

  /** A range text: one cell reference, which is both corners, or two joined by a colon. */
  ghost predicate RangeText(text: string, l: string, n: string, l': string, n': string) {
    || (CellText(text, l, n) && l' == l && n' == n)
    || exists first, second :: CellText(first, l, n) && CellText(second, l', n') && text == first + ":" + second
  }

  lemma CellEnds(text: string, letters: string, digits: string)
    requires CellText(text, letters, digits)
    ensures text != "" && IsDigit(text[|text| - 1]) && (text[0] == '$' || IsLetter(text[0]))
    ensures !IsSpace(text[0]) && !IsSpace(text[|text| - 1]) && AllLetters(letters) && AllDigits(digits)
  {
    var m, n :| CellParts(text, m, letters, n, digits);
    assert text[|text| - 1] == digits[|digits| - 1];
    assert text[0] == if m == "" then letters[0] else '$';
  }

  lemma RangeTextParses(address: string, l: string, n: string, l': string, n': string)
    requires RangeText(Strip(address), l, n, l', n')
    ensures AllLetters(l) && AllDigits(n) && AllLetters(l') && AllDigits(n')
    ensures ParseCells(address).Some?
            && var (first, second) := ParseCells(address).value;
               first.letters == l && first.row == DecimalValue(n) && second.letters == l' && second.row == DecimalValue(n')
  {
    hide Strip, ParseCell, CellText, DecimalValue;
    var s := Strip(address);
    if CellText(s, l, n) && l' == l && n' == n {
      CellEnds(s, l, n);
      assert s[0..|s|] == s;
      CellIsParsed(s, 0, s, l, n);
    } else {
      var first, second :| CellText(first, l, n) && CellText(second, l', n') && s == first + ":" + second;
      CellEnds(first, l, n);
      CellEnds(second, l', n');
      assert s[0..|first|] == first && s[|first|] == ':' && s[|first| + 1..|s|] == second;
      CellIsParsed(s, 0, first, l, n);
      CellIsParsed(s, |first| + 1, second, l', n');
    }
  }

  lemma ParsedIsRangeText(address: string) returns (n: string, n': string)
    requires ParseCells(address).Some?
    ensures var (first, second) := ParseCells(address).value;
            RangeText(Strip(address), first.letters, n, second.letters, n')
            && AllDigits(n) && AllDigits(n') && first.row == DecimalValue(n) && second.row == DecimalValue(n')
  {
    hide Strip, ParseCell;
    var s := Strip(address);
    var (first, second) := ParseCells(address).value;
    n := ParsedIsCell(s, 0);
    if ParseCell(s, 0).value.next == |s| {
      n' := n;
      assert s[0..|s|] == s;
    } else {
      var j := first.next;
      n' := ParsedIsCell(s, j + 1);
      assert s == s[0..j] + ":" + s[j + 1..|s|];
    }
  }

  /** The parser is the grammar: a text has a rectangle exactly when, trimmed, it is a range
      text whose corners are in order, and then it is the rectangle of those corners; a range
      text with its corners out of order is reversed, and any other text does not parse. */
  lemma ParsesExactly(address: string)
    ensures forall l, n, l', n' :: RangeText(Strip(address), l, n, l', n') ==>
              AllLetters(l) && AllDigits(n) && AllLetters(l') && AllDigits(n')
              && ParseBox(address)
                 == if DecimalValue(n) <= DecimalValue(n') && ColumnValue(l) <= ColumnValue(l')
                    then Parsed(Box(DecimalValue(n), ColumnValue(l), DecimalValue(n'), ColumnValue(l')))
                    else Reversed
    ensures (forall l, n, l', n' :: !RangeText(Strip(address), l, n, l', n')) <==> ParseBox(address) == Unparsable
  {
    hide ParseCells, Strip, RangeText;
    forall l, n, l', n' | RangeText(Strip(address), l, n, l', n')
      ensures AllLetters(l) && AllDigits(n) && AllLetters(l') && AllDigits(n')
              && ParseBox(address)
                 == if DecimalValue(n) <= DecimalValue(n') && ColumnValue(l) <= ColumnValue(l')
                    then Parsed(Box(DecimalValue(n), ColumnValue(l), DecimalValue(n'), ColumnValue(l')))
                    else Reversed
    {
      RangeTextParses(address, l, n, l', n');
    }
    if ParseCells(address).Some? {
      var n, n' := ParsedIsRangeText(address);
    }
  }

  /** The block text starts at the start cell and spans the requested rows and columns. */
  lemma MatrixRangeIsTheBlock(startCell: string, letters: string, digits: string, rows: nat, columns: nat)
    requires CellText(Strip(startCell), letters, digits) && rows >= 1 && columns >= 1
    ensures var (left, top) := (ColumnValue(letters), DecimalValue(digits));
            MatrixRange(startCell, rows, columns).Some?
            && ParseBox(MatrixRange(startCell, rows, columns).value) == Parsed(Box(top, left, top + rows - 1, left + columns - 1))
  {
    hide ParseBox, ParseCell, ColumnText, ColumnValue, Decimal, DecimalValue, Strip;
    var s := Strip(startCell);
    CellIsParsed(s, 0, s, letters, digits);
    LettersCount(letters);
    ColumnTextOfValue(letters);
    var (left, top) := (ColumnValue(letters), DecimalValue(digits));
    assert MatrixRange(startCell, rows, columns).value == CornersText(left, top, left + columns - 1, top + rows - 1);
    BoxTextRoundTrip(left, top, left + columns - 1, top + rows - 1);
  }

  /** And it is printed for every cell reference and for nothing else. */
  lemma MatrixRangeNeedsACell(startCell: string, rows: nat, columns: nat)
    ensures MatrixRange(startCell, rows, columns).Some? <==> exists letters, digits :: CellText(Strip(startCell), letters, digits)
  {
    hide ParseCell, Strip, CellText, ColumnText, Decimal;
    var s := Strip(startCell);
    if letters, digits :| CellText(s, letters, digits) {
      CellEnds(s, letters, digits);
      assert s[0..|s|] == s;
      CellIsParsed(s, 0, s, letters, digits);
    }
    if ParseCell(s, 0).Some? && ParseCell(s, 0).value.next == |s| {
      var digits := ParsedIsCell(s, 0);
      assert s[0..|s|] == s;
    }
  }

  lemma LettersCount(letters: string)
    requires AllLetters(letters) && letters != ""
    ensures ColumnValue(letters) >= 1
  {
  }

  /** Leading zeros do not change a row. */
  lemma {:induction false} LeadingZero(digits: string)
    requires AllDigits(digits)
    ensures AllDigits("0" + digits) && DecimalValue("0" + digits) == DecimalValue(digits)
  {
    var s := "0" + digits;
    if digits == "" {
      assert s[..|s| - 1] == "";
    } else {
      LeadingZero(digits[..|digits| - 1]);
      assert s[..|s| - 1] == "0" + digits[..|digits| - 1];
    }
  }
}
