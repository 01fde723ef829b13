/** Spreadsheet addresses: column letters, decimal rows and A1 range text.
    Every printer and parser of the program is stated here against one reading,
    `ColumnValue` for letters and `DecimalValue` for digits. */
module A1Notation {
  import opened Wrappers

  /** A 1-based closed rectangle. */
  datatype Box = Box(top: int, left: int, bottom: int, right: int) {
    predicate Contains(row: int, column: int) {
      top <= row <= bottom && left <= column <= right
    }

    function Rows(): int { bottom - top + 1 }

    function Columns(): int { right - left + 1 }

    predicate Proper() { 0 <= top <= bottom && 1 <= left <= right }
  }

  /** A rectangle that a range text can denote. */
  type Region = box: Box | box.Proper() witness Box(1, 1, 1, 1)

  datatype BoxResult = Parsed(box: Box) | Unparsable | Reversed

  // ---------------------------------------------------------------- characters

  predicate IsLetter(c: char) { 'A' <= c <= 'Z' || 'a' <= c <= 'z' }

  predicate IsDigit(c: char) { '0' <= c <= '9' }

  /** The characters Python's `str.strip` removes. */
  predicate IsSpace(c: char) {
    || 9 as char <= c <= 13 as char
    || 28 as char <= c <= 32 as char
    || c == 0x85 as char || c == 0xA0 as char || c == 0x1680 as char
    || 0x2000 as char <= c <= 0x200A as char
    || c == 0x2028 as char || c == 0x2029 as char || c == 0x202F as char
    || c == 0x205F as char || c == 0x3000 as char
  }

  predicate AllLetters(s: string) { forall i :: 0 <= i < |s| ==> IsLetter(s[i]) }

  predicate AllDigits(s: string) { forall i :: 0 <= i < |s| ==> IsDigit(s[i]) }

  predicate AllUpper(s: string) { forall i :: 0 <= i < |s| ==> 'A' <= s[i] <= 'Z' }

  function UpperChar(c: char): (u: char)
    ensures IsLetter(c) ==> 'A' <= u <= 'Z'
  {
    if 'a' <= c <= 'z' then (c as int - 32) as char else c
  }

  function Upper(s: string): (u: string)
    ensures |u| == |s| && forall i :: 0 <= i < |s| ==> u[i] == UpperChar(s[i])
  {
    seq(|s|, i requires 0 <= i < |s| => UpperChar(s[i]))
  }

  function TrimLeft(s: string): string {
    if s != "" && IsSpace(s[0]) then TrimLeft(s[1..]) else s
  }

  function TrimRight(s: string): string {
    if s != "" && IsSpace(s[|s| - 1]) then TrimRight(s[..|s| - 1]) else s
  }

  function Strip(s: string): string { TrimRight(TrimLeft(s)) }

  // ------------------------------------------------------------ column letters

  /** The value of one letter, `A` and `a` being 1. */
  function LetterValue(c: char): (v: int)
    requires IsLetter(c)
    ensures 1 <= v <= 26
  {
    UpperChar(c) as int - 'A' as int + 1
  }

  /** The number a run of letters denotes: bijective base 26, last letter lowest. */
  function ColumnValue(s: string): (n: nat)
    requires AllLetters(s)
  {
    if s == "" then 0 else ColumnValue(s[..|s| - 1]) * 26 + LetterValue(s[|s| - 1])
  }

  /** The letters that denote `n`. */
  function ColumnText(n: nat): (s: string)
    ensures AllUpper(s) && (s == "" <==> n == 0)
    decreases n
  {
    if n == 0 then "" else ColumnText((n - 1) / 26) + [(65 + (n - 1) % 26) as char]
  }

  lemma {:induction false} ColumnValueOfText(n: nat)
    ensures ColumnValue(ColumnText(n)) == n
    decreases n
  {
    if n > 0 {
      ColumnValueOfText((n - 1) / 26);
      var s := ColumnText(n);
      assert s[..|s| - 1] == ColumnText((n - 1) / 26);
    }
  }

  lemma LastDigit(q: nat, r: nat)
    requires r < 26
    ensures (q * 26 + r) / 26 == q && (q * 26 + r) % 26 == r
  {
  }

  lemma {:induction false} ColumnTextOfValue(s: string)
    requires AllLetters(s)
    ensures ColumnText(ColumnValue(s)) == Upper(s)
  {
    if s != "" {
      var init := s[..|s| - 1];
      ColumnTextOfValue(init);
      var v := LetterValue(s[|s| - 1]);
      var n := ColumnValue(s);
      assert n - 1 == ColumnValue(init) * 26 + (v - 1);
      LastDigit(ColumnValue(init), v - 1);
      assert Upper(s) == Upper(init) + [UpperChar(s[|s| - 1])];
    }
  }

  /** Reads letters from left to right with an accumulator. */
  method ColumnNumber(name: string) returns (result: nat)
    requires AllLetters(name)
    ensures result == ColumnValue(name)
  {
    result := 0;
    for i := 0 to |name|
      invariant result == ColumnValue(name[..i])
    {
      assert name[..i + 1][..i] == name[..i];
      result := result * 26 + (UpperChar(name[i]) as int - 'A' as int + 1);
    }
    assert name[..|name|] == name;
  }

  /** The zero-based printer: steps `n := n / 26 - 1` until negative. An index
      below 1 still yields one letter, so the round trip needs `index >= 1`. */
  method ColumnLetter(index: int) returns (letters: string)
    ensures index >= 1 ==> letters == ColumnText(index)
    ensures index < 1 ==> letters == [(65 + (index - 1) % 26) as char]
  {
    letters := "";
    var n := index - 1;
    while true
      invariant n >= 0 || (n == index - 1 && letters == "")
      invariant index >= 1 ==> n >= 0 && ColumnText(n + 1) + letters == ColumnText(index)
      invariant index < 1 ==> n == index - 1 && letters == ""
      decreases n
    {
      ghost var before := letters;
      letters := [(65 + n % 26) as char] + letters;
      assert index >= 1 ==> ColumnText(n / 26) + letters == ColumnText(n + 1) + before;
      n := n / 26 - 1;
      if n < 0 { return; }
    }
  }

  /** The one-based printer: `divmod(number - 1, 26)` until zero. */
  method ColumnName(number: nat) returns (result: string)
    ensures result == ColumnText(number)
  {
    result := "";
    var n := number;
    while n != 0
      invariant ColumnText(n) + result == ColumnText(number)
    {
      ghost var before := result;
      result := [(65 + (n - 1) % 26) as char] + result;
      assert ColumnText((n - 1) / 26) + result == ColumnText(n) + before;
      n := (n - 1) / 26;
    }
  }

  // ------------------------------------------------------------- decimal rows

  function DigitChar(d: int): char
    requires 0 <= d < 10
  {
    ('0' as int + d) as char
  }

  function Decimal(n: nat): (s: string)
    ensures AllDigits(s) && s != ""
    decreases n
  {
    if n < 10 then [DigitChar(n)] else Decimal(n / 10) + [DigitChar(n % 10)]
  }

  /** Python renders a negative integer with a leading minus sign. */
  function Signed(n: int): string {
    if n < 0 then "-" + Decimal(-n) else Decimal(n)
  }

  function DecimalValue(s: string): nat
    requires AllDigits(s)
  {
    if s == "" then 0 else DecimalValue(s[..|s| - 1]) * 10 + (s[|s| - 1] as int - '0' as int)
  }

  lemma {:induction false} DecimalValueOfDecimal(n: nat)
    ensures DecimalValue(Decimal(n)) == n
    decreases n
  {
    var s := Decimal(n);
    if n < 10 {
      assert s[..|s| - 1] == "";
    } else {
      DecimalValueOfDecimal(n / 10);
      assert s[..|s| - 1] == Decimal(n / 10);
    }
  }

  // --------------------------------------------------------------- A1 parsing

  function LettersEnd(s: string, i: nat): (e: nat)
    requires i <= |s|
    ensures i <= e <= |s| && AllLetters(s[i..e])
    ensures e < |s| ==> !IsLetter(s[e])
    decreases |s| - i
  {
    if i < |s| && IsLetter(s[i]) then
      var e := LettersEnd(s, i + 1);
      assert s[i..e] == [s[i]] + s[i + 1..e];
      e
    else i
  }

  function DigitsEnd(s: string, i: nat): (e: nat)
    requires i <= |s|
    ensures i <= e <= |s| && AllDigits(s[i..e])
    ensures e < |s| ==> !IsDigit(s[e])
    decreases |s| - i
  {
    if i < |s| && IsDigit(s[i]) then
      var e := DigitsEnd(s, i + 1);
      assert s[i..e] == [s[i]] + s[i + 1..e];
      e
    else i
  }

  function SkipDollar(s: string, i: nat): (j: nat)
    requires i <= |s|
    ensures i <= j <= |s|
  {
    if i < |s| && s[i] == '$' then i + 1 else i
  }

  datatype CellRef = CellRef(letters: string, row: nat, next: nat)

  /** One cell reference at position `i`: an optional `$`, letters, an optional `$`, digits. */
  function ParseCell(s: string, i: nat): (r: Option<CellRef>)
    requires i <= |s|
    ensures r.Some? ==> AllLetters(r.value.letters) && r.value.letters != "" && r.value.next <= |s|
  {
    var a := SkipDollar(s, i);
    var b := LettersEnd(s, a);
    var c := SkipDollar(s, b);
    var d := DigitsEnd(s, c);
    if a == b || c == d then None else Some(CellRef(s[a..b], DecimalValue(s[c..d]), d))
  }

  /** The two cells of a range text, the second defaulting to the first. */
  function ParseCells(address: string): (r: Option<(CellRef, CellRef)>)
    ensures r.Some? ==> AllLetters(r.value.0.letters) && AllLetters(r.value.1.letters)
                        && r.value.0.letters != "" && r.value.1.letters != ""
  {
    var s := Strip(address);
    match ParseCell(s, 0)
    case None => None
    case Some(first) =>
      if first.next == |s| then Some((first, first))
      else if s[first.next] != ':' then None
      else
        match ParseCell(s, first.next + 1)
        case None => None
        case Some(second) => if second.next == |s| then Some((first, second)) else None
  }

  /** The rectangle a range text denotes, with the two ways it can fail told apart. */
  function ParseBox(address: string): (r: BoxResult)
    ensures r.Parsed? ==> r.box.Proper()
  {
    match ParseCells(address)
    case None => Unparsable
    case Some((first, second)) =>
      var box := Box(first.row, ColumnValue(first.letters), second.row, ColumnValue(second.letters));
      if box.bottom < box.top || box.right < box.left then Reversed else Parsed(box)
  }

  /** Row and column counts of a range text. */
  function RangeDimensions(address: string): Option<(int, int)> {
    match ParseBox(address)
    case Parsed(box) => Some((box.Rows(), box.Columns()))
    case _ => None
  }

  /** The text of the `rows` by `columns` block that starts at a single cell. */
  function MatrixRange(startCell: string, rows: nat, columns: nat): Option<string> {
    var s := Strip(startCell);
    match ParseCell(s, 0)
    case None => None
    case Some(cell) =>
      if cell.next != |s| then None
      else
        Some(Upper(cell.letters) + Signed(cell.row) + ":"
             + ColumnText(ColumnValue(cell.letters) + columns - 1) + Signed(cell.row + rows - 1))
  }

  // ------------------------------------------------------------- round trips

  lemma {:induction false} LettersEndOfRun(s: string, i: nat, e: nat)
    requires i <= e <= |s| && AllLetters(s[i..e]) && (e < |s| ==> !IsLetter(s[e]))
    ensures LettersEnd(s, i) == e
    decreases e - i
  {
    if i < e {
      assert s[i] == s[i..e][0];
      assert s[i + 1..e] == s[i..e][1..];
      LettersEndOfRun(s, i + 1, e);
    }
  }

  lemma {:induction false} DigitsEndOfRun(s: string, i: nat, e: nat)
    requires i <= e <= |s| && AllDigits(s[i..e]) && (e < |s| ==> !IsDigit(s[e]))
    ensures DigitsEnd(s, i) == e
    decreases e - i
  {
    if i < e {
      assert s[i] == s[i..e][0];
      assert s[i + 1..e] == s[i..e][1..];
      DigitsEndOfRun(s, i + 1, e);
    }
  }

  /** Letters followed by digits parse to exactly those letters and that row. */
  lemma ParseCellAt(s: string, i: nat, b: nat, d: nat)
    requires i < b < d <= |s|
    requires AllLetters(s[i..b]) && AllDigits(s[b..d]) && (d < |s| ==> !IsDigit(s[d]))
    ensures ParseCell(s, i) == Some(CellRef(s[i..b], DecimalValue(s[b..d]), d))
  {
    assert s[i] == s[i..b][0];
    assert s[b] == s[b..d][0];
    LettersEndOfRun(s, i, b);
    DigitsEndOfRun(s, b, d);
  }

  lemma StripIsIdentity(s: string)
    requires s != "" && !IsSpace(s[0]) && !IsSpace(s[|s| - 1])
    ensures Strip(s) == s
  {
  }

  /** The text printed for two corners. */
  function CornersText(left: nat, top: int, right: nat, bottom: int): string {
    ColumnText(left) + Signed(top) + ":" + ColumnText(right) + Signed(bottom)
  }

  lemma CornersLayout(l: string, t: string, r: string, b: string)
    requires l != "" && t != "" && b != ""
    ensures var s := l + t + ":" + r + b;
            var (i, j, k) := (|l|, |l| + |t|, |l| + |t| + 1 + |r|);
            s[..i] == l && s[i..j] == t && s[j] == ':' && s[j + 1..k] == r && s[k..] == b
            && s[k] == b[0] && s[0] == l[0] && s[|s| - 1] == b[|b| - 1]
  {
  }

  lemma ParseTwoCells(s: string, i: nat, j: nat, k: nat)
    requires 0 < i < j < j + 1 < k < |s|
    requires AllLetters(s[0..i]) && AllDigits(s[i..j]) && s[j] == ':'
    requires AllLetters(s[j + 1..k]) && AllDigits(s[k..|s|])
    ensures ParseCells(s) == Some((CellRef(s[0..i], DecimalValue(s[i..j]), j),
                                   CellRef(s[j + 1..k], DecimalValue(s[k..|s|]), |s|)))
  {
    hide Strip, ParseCell;
    assert s[0] == s[0..i][0] && s[|s| - 1] == s[k..|s|][|s| - 1 - k];
    StripIsIdentity(s);
    ParseCellAt(s, 0, i, j);
    ParseCellAt(s, j + 1, k, |s|);
  }

  lemma ParsePieces(l: string, t: string, r: string, b: string)
    requires l != "" && t != "" && r != "" && b != ""
    requires AllLetters(l) && AllDigits(t) && AllLetters(r) && AllDigits(b)
    ensures var cells := ParseCells(l + t + ":" + r + b);
            cells.Some?
            && cells.value.0.letters == l && cells.value.0.row == DecimalValue(t)
            && cells.value.1.letters == r && cells.value.1.row == DecimalValue(b)
  {
    var s := l + t + ":" + r + b;
    hide ParseCells;
    CornersLayout(l, t, r, b);
    assert s[0..|l|] == l && s[|l| + |t| + 1 + |r|..|s|] == b;
    ParseTwoCells(s, |l|, |l| + |t|, |l| + |t| + 1 + |r|);
  }

  /** Printing a rectangle and parsing the text returns the rectangle, and the
      parser calls a text reversed exactly when its corners are. */
  lemma BoxTextRoundTrip(left: nat, top: nat, right: nat, bottom: nat)
    requires left >= 1 && right >= 1
    ensures ParseBox(CornersText(left, top, right, bottom))
            == if top <= bottom && left <= right then Parsed(Box(top, left, bottom, right)) else Reversed
  {
    ParsePieces(ColumnText(left), Decimal(top), ColumnText(right), Decimal(bottom));
    DecimalValueOfDecimal(top);
    DecimalValueOfDecimal(bottom);
    ColumnValueOfText(left);
    ColumnValueOfText(right);
  }

  lemma ParseStopsAfterColon(s: string, i: nat, j: nat, k: nat)
    requires 0 < i < j < j + 1 <= k < |s|
    requires AllLetters(s[0..i]) && AllDigits(s[i..j]) && s[j] == ':' && AllLetters(s[j + 1..k])
    requires !IsLetter(s[k]) && s[k] != '$' && (k == j + 1 || !IsDigit(s[k])) && !IsSpace(s[|s| - 1])
    ensures ParseCells(s) == None
  {
    hide Strip;
    assert s[0] == s[0..i][0];
    StripIsIdentity(s);
    ParseCellAt(s, 0, i, j);
    assert j + 1 < k ==> s[j + 1] == s[j + 1..k][0];
    LettersEndOfRun(s, j + 1, k);
  }

  /** A second corner without letters, or whose row is negative, does not parse. */
  lemma BrokenSecondCorner(l: string, t: string, r: string, b: string)
    requires AllLetters(l) && l != "" && AllDigits(t) && t != "" && AllLetters(r)
    requires b != "" && !IsSpace(b[|b| - 1]) && !IsLetter(b[0]) && b[0] != '$'
    requires r == "" || !IsDigit(b[0])
    ensures ParseBox(l + t + ":" + r + b) == Unparsable
  {
    hide ParseCells;
    var s := l + t + ":" + r + b;
    CornersLayout(l, t, r, b);
    assert s[0..|l|] == l;
    ParseStopsAfterColon(s, |l|, |l| + |t|, |l| + |t| + 1 + |r|);
  }

  /** The block text has exactly the requested dimensions, and only when both are positive. */
  lemma MatrixRangeDimensions(startCell: string, rows: nat, columns: nat)
    requires MatrixRange(startCell, rows, columns).Some?
    ensures RangeDimensions(MatrixRange(startCell, rows, columns).value)
            == if rows >= 1 && columns >= 1 then Some((rows as int, columns as int)) else None
  {
    hide ParseBox, ParseCell, ColumnText, ColumnValue, Decimal, Strip;
    var cell := ParseCell(Strip(startCell), 0).value;
    var left, top := ColumnValue(cell.letters), cell.row;
    var right, bottom := left + columns - 1, top + rows - 1;
    ColumnTextOfValue(cell.letters);
    var text := MatrixRange(startCell, rows, columns).value;
    assert text == CornersText(left, top, right, bottom);
    if right >= 1 && bottom >= 0 {
      BoxTextRoundTrip(left, top, right, bottom);
    } else {
      BrokenSecondCorner(ColumnText(left), Decimal(top), ColumnText(right), Signed(bottom));
    }
  }
}
