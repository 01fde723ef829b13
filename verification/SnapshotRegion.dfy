/** Reading a region of a captured sheet: the lenient reader fills gaps with empties, the
    strict one refuses to. */
module SnapshotRegion {
  import opened Wrappers
  import opened A1Notation
  import opened A1Grammar

  /** A captured value; `Nothing` is a stored or supplied empty. */
  datatype Value = Nothing | Data(text: string)

  /** A captured sheet: its header row and data rows, the declared width, and the address of
      the used range whose first cell the header row starts at. */
  datatype Sheet = Sheet(headers: seq<Value>, dataRows: seq<seq<Value>>, columnCount: int, usedRange: Option<string>)

  datatype Refusal = BadRange | Backwards | TooLarge | AboveCapture | BelowCapture | LeftOfCapture | RightOfCapture

  datatype Limits = Limits(maxRows: nat, maxColumns: nat)

  function RowsOf(sheet: Sheet): seq<seq<Value>> { [sheet.headers] + sheet.dataRows }

  /** What follows the last `!`. */
  function AfterBang(s: string): string {
    if s == "" then "" else if s[|s| - 1] == '!' then "" else AfterBang(s[..|s| - 1]) + [s[|s| - 1]]
  }

  function BeforeColon(s: string): string {
    if s == "" || s[0] == ':' then "" else [s[0]] + BeforeColon(s[1..])
  }

  /** Column and row of the used range's first cell; (1, 1) when there is none to read. */
  function Origin(usedRange: Option<string>): (r: (nat, nat))
  {
    if usedRange.None? || usedRange.value == "" then (1, 1)
    else
      var cell := BeforeColon(AfterBang(usedRange.value));
      match ParseCell(cell, 0)
      case None => (1, 1)
      case Some(c) => if c.next == |cell| then (ColumnValue(c.letters), c.row) else (1, 1)
  }

  /** The rectangle both readers accept: at most three column letters, in order, within limits. */
  function Request(address: string, limits: Limits): (r: Result<Region, Refusal>)
  {
    match ParseCells(address)
    case None => Err(BadRange)
    case Some((first, second)) =>
      if |first.letters| > 3 || |second.letters| > 3 then Err(BadRange)
      else
        var box := Box(first.row, ColumnValue(first.letters), second.row, ColumnValue(second.letters));
        if box.right < box.left || box.bottom < box.top then Err(Backwards)
        else if box.Rows() > limits.maxRows || box.Columns() > limits.maxColumns then Err(TooLarge)
        else
          LettersArePositive(first.letters);
          Ok(box)
  }

  lemma LettersArePositive(letters: string)
    requires AllLetters(letters) && letters != ""
    ensures ColumnValue(letters) >= 1
  {
  }

  /** The captured value at a sheet position, or nothing outside the capture. */
  function Captured(sheet: Sheet, row: int, column: int): Value {
    var (originColumn, originRow) := Origin(sheet.usedRange);
    var rows := RowsOf(sheet);
    var i, j := row - originRow, column - originColumn;
    if 0 <= i < |rows| && 0 <= j < |rows[i]| then rows[i][j] else Nothing
  }

  function MatrixRow(sheet: Sheet, box: Region, row: int): (r: seq<Value>)
    ensures |r| == box.Columns() && forall j :: 0 <= j < |r| ==> r[j] == Captured(sheet, row, box.left + j)
  {
    seq(box.Columns(), j requires 0 <= j < box.Columns() => Captured(sheet, row, box.left + j))
  }

  /** The matrix of a rectangle as the lenient reader sees it. */
  function Matrix(sheet: Sheet, box: Region): (m: seq<seq<Value>>)
    ensures |m| == box.Rows() && forall i :: 0 <= i < |m| ==> m[i] == MatrixRow(sheet, box, box.top + i)
  {
    seq(box.Rows(), i requires 0 <= i < box.Rows() => MatrixRow(sheet, box, box.top + i))
  }

  method ReadRow(sheet: Sheet, box: Region, row: int) returns (output: seq<Value>)
    ensures output == MatrixRow(sheet, box, row)
  {
    var (originColumn, originRow) := Origin(sheet.usedRange);
    var values := RowsOf(sheet);
    output := [];
    for column := box.left to box.right + 1
      invariant |output| == column - box.left
      invariant forall j :: 0 <= j < |output| ==> output[j] == Captured(sheet, row, box.left + j)
    {
      var rowIndex, columnIndex := row - originRow, column - originColumn;
      var value := Nothing;
      if 0 <= rowIndex < |values| && 0 <= columnIndex < |values[rowIndex]| {
        value := values[rowIndex][columnIndex];
      }
      output := output + [value];
    }
  }

  /** Reads a range, giving nothing for every position outside the capture. */
  method ReadRange(sheet: Sheet, address: string, limits: Limits) returns (r: Result<seq<seq<Value>>, Refusal>)
    ensures Request(address, limits).Err? ==> r == Err(Request(address, limits).error)
    ensures Request(address, limits).Ok? ==> r == Ok(Matrix(sheet, Request(address, limits).value))
  {
    hide Request, Captured;
    var request := Request(address, limits);
    if request.Err? { return Err(request.error); }
    var box := request.value;
    var result: seq<seq<Value>> := [];
    for row := box.top to box.bottom + 1
      invariant |result| == row - box.top
      invariant forall i :: 0 <= i < |result| ==> result[i] == MatrixRow(sheet, box, box.top + i)
    {
      var output := ReadRow(sheet, box, row);
      result := result + [output];
    }
    assert result == Matrix(sheet, box);
    r := Ok(result);
  }

  /** One row of the strict reader: a captured row, with nothing past its end. */
  function StrictRow(source: seq<Value>, originColumn: nat, box: Region): seq<Value> {
    seq(box.Columns(), j requires 0 <= j < box.Columns() =>
      if 0 <= box.left + j - originColumn < |source| then source[box.left + j - originColumn] else Nothing)
  }

  lemma StrictRowAgrees(sheet: Sheet, box: Region, row: int)
    requires var (originColumn, originRow) := Origin(sheet.usedRange); 0 <= row - originRow < |RowsOf(sheet)|
    ensures var (originColumn, originRow) := Origin(sheet.usedRange);
            StrictRow(RowsOf(sheet)[row - originRow], originColumn, box) == MatrixRow(sheet, box, row)
  {
    hide Origin, RowsOf;
  }

  /** The declared width, at least one column. */
  function Width(sheet: Sheet): int { if sheet.columnCount > 1 then sheet.columnCount else 1 }

  /** The rows and columns that were captured, as far as the sheet declares them. */
  predicate InsideCapture(sheet: Sheet, box: Box) {
    var (originColumn, originRow) := Origin(sheet.usedRange);
    && originRow <= box.top && box.bottom <= originRow + |RowsOf(sheet)| - 1
    && originColumn <= box.left && box.right <= originColumn + Width(sheet) - 1
  }

  /** Reads a range for writing: any row or column outside the capture is a refusal. */
  method ReadRegion(sheet: Sheet, address: string, limits: Limits) returns (r: Result<seq<seq<Value>>, Refusal>)
    ensures Request(address, limits).Err? ==> r == Err(Request(address, limits).error)
    ensures Request(address, limits).Ok? ==> (r.Ok? <==> InsideCapture(sheet, Request(address, limits).value))
    ensures r.Ok? ==> r.value == Matrix(sheet, Request(address, limits).value)
    ensures Request(address, limits).Ok? && r.Err? ==>
              var box := Request(address, limits).value;
              var (originColumn, originRow) := Origin(sheet.usedRange);
              var rowsInside := originRow <= box.top && box.bottom <= originRow + |RowsOf(sheet)| - 1;
              match r.error
              case AboveCapture => box.top < originRow
              case BelowCapture => originRow <= box.top && !rowsInside
              case LeftOfCapture => rowsInside && box.left < originColumn
              case RightOfCapture => rowsInside && originColumn <= box.left && box.right > originColumn + Width(sheet) - 1
              case _ => false
  {
    hide Request, Captured, Origin, StrictRow;
    var request := Request(address, limits);
    if request.Err? { return Err(request.error); }
    var box := request.value;
    var (originColumn, originRow) := Origin(sheet.usedRange);
    var rows := RowsOf(sheet);
    if box.top < originRow { return Err(AboveCapture); }
    if box.bottom > originRow + |rows| - 1 { return Err(BelowCapture); }
    if box.left < originColumn { return Err(LeftOfCapture); }
    if box.right > originColumn + Width(sheet) - 1 { return Err(RightOfCapture); }
    var values: seq<seq<Value>> := [];
    for row := box.top to box.bottom + 1
      invariant |values| == row - box.top
      invariant forall i :: 0 <= i < |values| ==> values[i] == MatrixRow(sheet, box, box.top + i)
    {
      StrictRowAgrees(sheet, box, row);
      values := values + [StrictRow(rows[row - originRow], originColumn, box)];
    }
    assert values == Matrix(sheet, box);
    r := Ok(values);
  }

  /** In an accepted region an empty stands only for a stored empty or for a position past the
      end of a captured row that is shorter than the declared width. */
  lemma EmptyMeansStoredOrTrimmed(sheet: Sheet, box: Region, i: nat, j: nat)
    requires InsideCapture(sheet, box) && i < box.Rows() && j < box.Columns()
    ensures var (originColumn, originRow) := Origin(sheet.usedRange);
            var rows := RowsOf(sheet);
            var (r, c) := (box.top + i - originRow, box.left + j - originColumn);
            && 0 <= r < |rows| && 0 <= c < Width(sheet)
            && (Matrix(sheet, box)[i][j] == Nothing <==> c >= |rows[r]| || rows[r][c] == Nothing)
            && (c < |rows[r]| ==> Matrix(sheet, box)[i][j] == rows[r][c])
  {
    assert Matrix(sheet, box)[i] == MatrixRow(sheet, box, box.top + i);
    assert Matrix(sheet, box)[i][j] == Captured(sheet, box.top + i, box.left + j);
  }

  // ------------------------------------- where the capture lies, read off its address

  /** `cell` is the first cell reference of a used-range text: what stands between the last
      `!`, if there is one, and the next colon, if there is one. */
  ghost predicate FirstCell(used: string, cell: string) {
    exists prefix, rest :: UsedParts(used, prefix, cell, rest)
  }

  predicate UsedParts(used: string, prefix: string, cell: string, rest: string) {
    && used == prefix + cell + rest && (prefix == "" || prefix[|prefix| - 1] == '!')
    && '!' !in cell && '!' !in rest && ':' !in cell && (rest == "" || rest[0] == ':')
  }

  lemma {:induction false} AfterBangIsSuffix(prefix: string, t: string)
    requires '!' !in t && (prefix == "" || prefix[|prefix| - 1] == '!')
    ensures AfterBang(prefix + t) == t
  {
    var s := prefix + t;
    if t == "" {
      assert s == prefix;
    } else {
      var n := |t| - 1;
      assert s[..|s| - 1] == prefix + t[..n] && s[|s| - 1] == t[n] && t[n] in t;
      AfterBangIsSuffix(prefix, t[..n]);
    }
  }

  lemma {:induction false} AfterBangSplits(s: string) returns (prefix: string)
    ensures s == prefix + AfterBang(s) && '!' !in AfterBang(s) && (prefix == "" || prefix[|prefix| - 1] == '!')
  {
    if s == "" || s[|s| - 1] == '!' {
      prefix := s;
    } else {
      prefix := AfterBangSplits(s[..|s| - 1]);
    }
  }

  lemma {:induction false} BeforeColonIsPrefix(cell: string, rest: string)
    requires ':' !in cell && (rest == "" || rest[0] == ':')
    ensures BeforeColon(cell + rest) == cell
  {
    var s := cell + rest;
    if cell == "" {
      assert s == rest;
    } else {
      assert s[0] == cell[0] && cell[0] in cell && s[1..] == cell[1..] + rest;
      BeforeColonIsPrefix(cell[1..], rest);
    }
  }

  lemma {:induction false} BeforeColonSplits(s: string) returns (rest: string)
    ensures s == BeforeColon(s) + rest && ':' !in BeforeColon(s) && (rest == "" || rest[0] == ':')
  {
    if s == "" || s[0] == ':' {
      rest := s;
    } else {
      rest := BeforeColonSplits(s[1..]);
    }
  }

  lemma FirstCellIsRead(used: string, cell: string)
    ensures FirstCell(used, cell) <==> cell == BeforeColon(AfterBang(used))
  {
    hide AfterBang, BeforeColon;
    if FirstCell(used, cell) {
      var prefix, rest :| UsedParts(used, prefix, cell, rest);
      assert '!' !in cell + rest;
      assert used == prefix + (cell + rest);
      AfterBangIsSuffix(prefix, cell + rest);
      BeforeColonIsPrefix(cell, rest);
    }
    if cell == BeforeColon(AfterBang(used)) {
      var prefix := AfterBangSplits(used);
      var rest := BeforeColonSplits(AfterBang(used));
      assert AfterBang(used) == cell + rest && used == prefix + cell + rest;
      assert '!' !in cell && '!' !in rest by {
        assert forall c :: c in cell || c in rest ==> c in AfterBang(used);
      }
      assert UsedParts(used, prefix, cell, rest);
    }
  }

  /** The capture starts at the column and row of the used range's first cell, in that order,
      and at A1 when there is no used range or its first cell cannot be read. */
  lemma OriginIsTheFirstCell(used: string)
    ensures Origin(None) == (1, 1) && Origin(Some("")) == (1, 1)
    ensures forall cell, letters, digits :: FirstCell(used, cell) && CellText(cell, letters, digits) ==>
              AllLetters(letters) && AllDigits(digits) && Origin(Some(used)) == (ColumnValue(letters), DecimalValue(digits))
    ensures (forall cell, letters, digits :: FirstCell(used, cell) ==> !CellText(cell, letters, digits)) ==> Origin(Some(used)) == (1, 1)
  {
    hide ParseCell, AfterBang, BeforeColon, FirstCell;
    var first := BeforeColon(AfterBang(used));
    FirstCellIsRead(used, first);
    forall cell, letters, digits | FirstCell(used, cell) && CellText(cell, letters, digits)
      ensures AllLetters(letters) && AllDigits(digits) && Origin(Some(used)) == (ColumnValue(letters), DecimalValue(digits))
    {
      FirstCellIsRead(used, cell);
      assert cell[0..|cell|] == cell;
      CellIsParsed(cell, 0, cell, letters, digits);
      CellEnds(cell, letters, digits);
      assert used != "" by { NothingInNothing(used); }
    }
    if ParseCell(first, 0).Some? && ParseCell(first, 0).value.next == |first| {
      var digits := ParsedIsCell(first, 0);
      assert first[0..|first|] == first;
    }
  }

  lemma NothingInNothing(used: string)
    ensures used == "" ==> BeforeColon(AfterBang(used)) == ""
  {
  }

  lemma OriginOfParts(prefix: string, letters: string, digits: string, rest: string)
    requires letters != "" && digits != "" && AllLetters(letters) && AllDigits(digits)
    requires (prefix == "" || prefix[|prefix| - 1] == '!') && '!' !in rest && (rest == "" || rest[0] == ':')
    ensures Origin(Some(prefix + (letters + digits) + rest)) == (ColumnValue(letters), DecimalValue(digits))
  {
    hide Origin;
    var cell := letters + digits;
    PlainText(cell, letters, digits);
    assert CellParts(cell, "", letters, "", digits);
    var used := prefix + cell + rest;
    assert UsedParts(used, prefix, cell, rest);
    OriginIsTheFirstCell(used);
    assert FirstCell(used, cell) && CellText(cell, letters, digits);
  }

  /** For instance, the used range printed for two corners, with or without a sheet prefix. */
  lemma OriginOfCorners(prefix: string, left: nat, top: nat, right: nat, bottom: nat)
    requires left >= 1 && right >= 1
    ensures Origin(Some(prefix + "!" + CornersText(left, top, right, bottom))) == (left, top)
    ensures Origin(Some(CornersText(left, top, right, bottom))) == (left, top)
  {
    hide Origin, ColumnText, Decimal, ColumnValue, DecimalValue;
    var l, t, r, b := ColumnText(left), Decimal(top), ColumnText(right), Decimal(bottom);
    var rest := ":" + (r + b);
    PlainText(r + b, r, b);
    ColumnValueOfText(left);
    DecimalValueOfDecimal(top);
    OriginOfParts("", l, t, rest);
    OriginOfParts(prefix + "!", l, t, rest);
    assert CornersText(left, top, right, bottom) == l + t + ":" + r + b == "" + (l + t) + rest;
    assert prefix + "!" + (l + t + ":" + r + b) == (prefix + "!") + (l + t) + rest;
  }

  lemma PlainText(cell: string, letters: string, digits: string)
    requires AllLetters(letters) && AllDigits(digits) && cell == letters + digits
    ensures '!' !in cell && ':' !in cell
  {
  }

  /** The requested rectangle, read off the address: it must be a range text with at most three
      letters a column, its corners in order, and within the limits. */
  lemma RequestExactly(address: string, limits: Limits)
    ensures forall l, n, l', n' :: RangeText(Strip(address), l, n, l', n') ==>
              AllLetters(l) && AllDigits(n) && AllLetters(l') && AllDigits(n')
              && var (top, left, bottom, right) := (DecimalValue(n), ColumnValue(l), DecimalValue(n'), ColumnValue(l'));
                 Request(address, limits)
                 == if |l| > 3 || |l'| > 3 then Err(BadRange)
                    else if right < left || bottom < top then Err(Backwards)
                    else if bottom - top >= limits.maxRows || right - left >= limits.maxColumns then Err(TooLarge)
                    else Ok(Box(top, left, bottom, right))
    ensures (forall l, n, l', n' :: !RangeText(Strip(address), l, n, l', n')) ==> Request(address, limits) == Err(BadRange)
  {
    hide ParseCells, Strip, RangeText;
    forall l, n, l', n' | RangeText(Strip(address), l, n, l', n')
      ensures AllLetters(l) && AllDigits(n) && AllLetters(l') && AllDigits(n')
              && var (top, left, bottom, right) := (DecimalValue(n), ColumnValue(l), DecimalValue(n'), ColumnValue(l'));
                 Request(address, limits)
                 == if |l| > 3 || |l'| > 3 then Err(BadRange)
                    else if right < left || bottom < top then Err(Backwards)
                    else if bottom - top >= limits.maxRows || right - left >= limits.maxColumns then Err(TooLarge)
                    else Ok(Box(top, left, bottom, right))
    {
      RangeTextParses(address, l, n, l', n');
    }
    if ParseCells(address).Some? {
      var n, n' := ParsedIsRangeText(address);
    }
  }

  /** What both readers return for a capture whose first cell is in column `c` and row `r`: the
      header row lies in row `r` and the data rows below it, and position (row, column) holds
      its value, counted from there. */
  lemma MatrixHoldsTheCapture(sheet: Sheet, used: string, cell: string, letters: string, digits: string, box: Region, i: nat, j: nat)
    requires sheet.usedRange == Some(used) && FirstCell(used, cell) && CellText(cell, letters, digits)
    requires i < box.Rows() && j < box.Columns()
    ensures var (c, r) := (ColumnValue(letters), DecimalValue(digits));
            var (row, column) := (box.top + i - r, box.left + j - c);
            Matrix(sheet, box)[i][j]
            == if row == 0 && 0 <= column < |sheet.headers| then sheet.headers[column]
               else if 1 <= row <= |sheet.dataRows| && 0 <= column < |sheet.dataRows[row - 1]| then sheet.dataRows[row - 1][column]
               else Nothing
  {
    OriginIsTheFirstCell(used);
    hide Origin, FirstCell, CellText;
    assert Matrix(sheet, box)[i] == MatrixRow(sheet, box, box.top + i);
    assert Matrix(sheet, box)[i][j] == Captured(sheet, box.top + i, box.left + j);
  }

  /** And the strict reader accepts exactly the rectangles inside the captured rows and the
      declared columns, counted from there. */
  lemma CaptureBounds(sheet: Sheet, used: string, cell: string, letters: string, digits: string, box: Region)
    requires sheet.usedRange == Some(used) && FirstCell(used, cell) && CellText(cell, letters, digits)
    ensures var (c, r) := (ColumnValue(letters), DecimalValue(digits));
            InsideCapture(sheet, box)
            <==> r <= box.top && box.bottom <= r + |sheet.dataRows|
                 && c <= box.left && (box.right < c + sheet.columnCount || box.right == c)
  {
    OriginIsTheFirstCell(used);
    hide Origin, FirstCell, CellText;
  }
}
