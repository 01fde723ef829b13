/** When two formatting actions have the same target, what a derived criterion claims and what
    the verifier lets pass, stated character by character. */
module FormatLaws {
  import opened Wrappers
  import opened A1Notation
  import opened A1Grammar
  import opened FormatCriteria

  // ------------------------------------------------------------------- range texts

  lemma {:induction false} DollarsJoin(a: string, b: string)
    ensures DropDollars(a + b) == DropDollars(a) + DropDollars(b)
  {
    if a == "" {
      assert a + b == b;
    } else {
      assert (a + b)[1..] == a[1..] + b;
      DollarsJoin(a[1..], b);
    }
  }

  lemma {:induction false} NoDollars(s: string)
    requires '$' !in s
    ensures DropDollars(s) == s
  {
    if s != "" { NoDollars(s[1..]); }
  }

  /** Dollar signs do not matter to a range's target, wherever they stand. */
  lemma DollarsDoNotMatter(a: string, b: string)
    ensures Normalize(a + "$" + b) == Normalize(a + b)
  {
    DollarsJoin(a + "$", b);
    DollarsJoin(a, "$");
    DollarsJoin(a, b);
    assert DropDollars("$") == "";
    assert DropDollars(a) + "" == DropDollars(a);
  }

  lemma {:induction false} TrimLeftSkips(space: char, s: string)
    requires IsSpace(space)
    ensures TrimLeft([space] + s) == TrimLeft(s)
  {
    assert ([space] + s)[1..] == s;
  }

  lemma TrimRightSkips(s: string, space: char)
    requires IsSpace(space)
    ensures TrimRight(s + [space]) == TrimRight(s)
  {
    assert (s + [space])[..|s|] == s;
  }

  lemma {:induction false} TrimLeftBefore(s: string, space: char)
    requires IsSpace(space)
    ensures TrimLeft(s + [space]) == if TrimLeft(s) == "" then "" else TrimLeft(s) + [space]
  {
    if s == "" {
      assert s + [space] == [space] && [space][1..] == "";
    } else if IsSpace(s[0]) {
      assert (s + [space])[1..] == s[1..] + [space];
      TrimLeftBefore(s[1..], space);
    }
  }

  /** Spaces at the ends do not matter either. */
  lemma SpacesDoNotMatter(space: char, s: string)
    requires IsSpace(space) && space != '$'
    ensures Normalize([space] + s) == Normalize(s) && Normalize(s + [space]) == Normalize(s)
  {
    DollarsJoin([space], s);
    DollarsJoin(s, [space]);
    NoDollars([space]);
    var t := DropDollars(s);
    TrimLeftSkips(space, t);
    TrimLeftBefore(t, space);
    TrimRightSkips(TrimLeft(t), space);
  }

  lemma UpperChars(c: char)
    ensures IsSpace(UpperChar(c)) <==> IsSpace(c)
    ensures UpperChar(UpperChar(c)) == UpperChar(c) && (UpperChar(c) == '$' <==> c == '$')
  {
  }

  lemma {:induction false} DollarsUpper(s: string)
    ensures DropDollars(Upper(s)) == Upper(DropDollars(s))
  {
    if s != "" {
      UpperChars(s[0]);
      assert Upper(s)[1..] == Upper(s[1..]);
      DollarsUpper(s[1..]);
      assert Upper([s[0]] + DropDollars(s[1..])) == [UpperChar(s[0])] + Upper(DropDollars(s[1..]));
    }
  }

  lemma {:induction false} TrimLeftUpper(s: string)
    ensures TrimLeft(Upper(s)) == Upper(TrimLeft(s))
  {
    if s != "" {
      UpperChars(s[0]);
      assert Upper(s)[1..] == Upper(s[1..]);
      TrimLeftUpper(s[1..]);
    }
  }

  lemma {:induction false} TrimRightUpper(s: string)
    ensures TrimRight(Upper(s)) == Upper(TrimRight(s))
  {
    if s != "" {
      var n := |s| - 1;
      UpperChars(s[n]);
      assert Upper(s)[..n] == Upper(s[..n]);
      TrimRightUpper(s[..n]);
    }
  }

  /** Nor does the case of the letters. */
  lemma CaseDoesNotMatter(s: string)
    ensures Normalize(Upper(s)) == Normalize(s)
  {
    var t := DropDollars(s);
    DollarsUpper(s);
    TrimLeftUpper(t);
    TrimRightUpper(TrimLeft(t));
    var stripped := Strip(t);
    forall i | 0 <= i < |stripped| ensures Upper(Upper(stripped))[i] == Upper(stripped)[i] { UpperChars(stripped[i]); }
    assert Upper(Upper(stripped)) == Upper(stripped);
  }

  /** And everything else does: a text in capitals, without dollar signs and spaces at its ends,
      is its own target. */
  lemma TheRestMatters(s: string)
    requires '$' !in s && (s == "" || (!IsSpace(s[0]) && !IsSpace(s[|s| - 1]))) && forall i :: 0 <= i < |s| ==> !('a' <= s[i] <= 'z')
    ensures Normalize(s) == s
  {
    NoDollars(s);
    StripExactly(s);
    assert Upper(s) == s;
  }

  // -------------------------------------------------------------------- sheet names

  predicate SameLetter(a: char, b: char) {
    a == b || ('A' <= a <= 'Z' && b as int == a as int + 32) || ('A' <= b <= 'Z' && a as int == b as int + 32)
  }

  /** Sheet names are the same target when they differ in the case of letters only. */
  lemma SheetsExactly(a: string, b: string)
    ensures Fold(a) == Fold(b) <==> |a| == |b| && forall i :: 0 <= i < |a| ==> SameLetter(a[i], b[i])
  {
    if |a| == |b| {
      forall i | 0 <= i < |a| ensures Fold(a)[i] == Fold(b)[i] <==> SameLetter(a[i], b[i]) {}
      assert Fold(a) == Fold(b) <==> forall i :: 0 <= i < |a| ==> Fold(a)[i] == Fold(b)[i];
    } else {
      assert |Fold(a)| != |Fold(b)|;
    }
  }

  // ------------------------------------------------------------------------- claims

  /** A property an action sets is claimed by its criterion, with the value set, unless a later
      action on the same sheet and range sets it again; and nothing else is claimed. */
  lemma ClaimsExactly(actions: seq<Action>, i: nat, p: Property)
    requires i < |actions|
    ensures Claim(actions, i, p)
            == if exists j :: i < j < |actions| && Fold(actions[j].sheet) == Fold(actions[i].sheet)
                              && Normalize(actions[j].range) == Normalize(actions[i].range) && Sets(actions[j], p).Some?
                              && Sets(actions[i], p).Some?
               then None else Sets(actions[i], p)
  {
    ClaimIsLastWriter(actions, i, p);
    if Sets(actions[i], p).Some? {
      SetsOwnKind(actions[i], p);
      forall j | i < j < |actions| && Sets(actions[j], p).Some? ensures KindOf(actions[j]) == KindOf(actions[i]) {
        SetsOwnKind(actions[j], p);
      }
    }
    hide Claim, Sets, Fold, Normalize;
  }

  /** An action derives a criterion exactly when it claims something, and then one about its own
      sheet and range. */
  lemma DerivesExactly(actions: seq<Action>, i: nat)
    requires i < |actions|
    ensures Derive(actions, i).Some? <==> exists p :: Claim(actions, i, p).Some?
    ensures Derive(actions, i).Some? ==>
              Derive(actions, i).value.sheet == actions[i].sheet && Derive(actions, i).value.range == actions[i].range
  {
    hide Superseded, OpenSides;
    if Derive(actions, i).Some? {
      DerivedTarget(actions, i);
      match Derive(actions, i).value
      case BordersMatch(_, _, sides, _, _, _) => assert Claim(actions, i, Border(sides[0])).Some?;
      case FormatMatches(_, _, fill, bold, italic, name, size, color, code, horizontal, vertical, wrap, height, width) =>
        assert fill.Some? ==> Claim(actions, i, FillColor).Some?;
        assert bold.Some? ==> Claim(actions, i, Bold).Some?;
        assert italic.Some? ==> Claim(actions, i, Italic).Some?;
        assert name.Some? ==> Claim(actions, i, FontName).Some?;
        assert size.Some? ==> Claim(actions, i, FontSize).Some?;
        assert color.Some? ==> Claim(actions, i, FontColor).Some?;
        assert code.Some? ==> Claim(actions, i, NumberFormat).Some?;
        assert horizontal.Some? ==> Claim(actions, i, Horizontal).Some?;
        assert vertical.Some? ==> Claim(actions, i, Vertical).Some?;
        assert wrap.Some? ==> Claim(actions, i, WrapText).Some?;
        assert height.Some? ==> Claim(actions, i, RowHeight).Some?;
        assert width.Some? ==> Claim(actions, i, ColumnWidth).Some?;
    }
  }

  /** Running an action writes what it sets: into every cell of its range, or into every row or
      column its range spans, on its own sheet, and nowhere else. */
  lemma WritesExactly(a: Action, sheet: string, row: int, column: int, p: Property)
    requires RangeBox(a.range).Parsed?
    ensures var box := RangeBox(a.range).box;
            var (rows, columns) := (box.top <= row <= box.bottom, box.left <= column <= box.right);
            && Writes(a, sheet, CellSlot(row, column, p))
               == (if a.sheet == sheet && rows && columns && p != RowHeight && p != ColumnWidth then Sets(a, p) else None)
            && Writes(a, sheet, RowSlot(row)) == (if a.sheet == sheet && rows then Sets(a, RowHeight) else None)
            && Writes(a, sheet, ColumnSlot(column)) == (if a.sheet == sheet && columns then Sets(a, ColumnWidth) else None)
  {
    hide RangeBox, Sets;
  }

  lemma NothingWrittenOutside(a: Action, sheet: string, slot: Slot)
    requires !RangeBox(a.range).Parsed?
    ensures Writes(a, sheet, slot) == None
  {
  }

  /** What each action sets, field by field. */
  lemma SetsExactly(sheet: string, range: string, color: string, bold: Option<bool>, italic: Option<bool>, name: Option<string>,
                    size: Option<real>, fontColor: Option<string>, horizontal: Option<string>, vertical: Option<string>,
                    wrap: Option<bool>, height: Option<real>, width: Option<real>)
    ensures Sets(SetFill(sheet, range, color), FillColor) == Some(Text(color))
    ensures Sets(SetNumberFormat(sheet, range, color), NumberFormat) == Some(Text(color))
    ensures var a := SetFont(sheet, range, bold, italic, name, size, fontColor);
            && (bold.Some? ==> Sets(a, Bold) == Some(Flag(bold.value))) && (italic.Some? ==> Sets(a, Italic) == Some(Flag(italic.value)))
            && (name.Some? ==> Sets(a, FontName) == Some(Text(name.value))) && (size.Some? ==> Sets(a, FontSize) == Some(Size(size.value)))
            && (fontColor.Some? ==> Sets(a, FontColor) == Some(Text(fontColor.value)))
    ensures var a := SetAlignment(sheet, range, horizontal, vertical, wrap);
            && (horizontal.Some? ==> Sets(a, Horizontal) == Some(Text(horizontal.value)))
            && (vertical.Some? ==> Sets(a, Vertical) == Some(Text(vertical.value))) && (wrap.Some? ==> Sets(a, WrapText) == Some(Flag(wrap.value)))
    ensures var a := ResizeRange(sheet, range, height, width);
            && (height.Some? ==> Sets(a, RowHeight) == Some(Size(height.value))) && (width.Some? ==> Sets(a, ColumnWidth) == Some(Size(width.value)))
  {
  }

  // ------------------------------------------------------------------- the verifier

  const STYLES := ["continuous", "dash", "dashDot", "dot", "double", "none"]
  const WEIGHTS := ["hairline", "thin", "medium", "thick"]

  predicate Heavy(weight: string) { weight == "medium" || weight == "thick" }

  /** Which lines the verifier takes for the same: of one style, and of one weight if continuous,
      or both heavy or both light if dashed. */
  lemma LinesExactly(style: string, weight: string, style': string, weight': string)
    requires style in STYLES && style' in STYLES && weight in WEIGHTS && weight' in WEIGHTS
    ensures LineStyle(style, weight) == LineStyle(style', weight')
            <==> style == style'
                 && (style == "continuous" ==> weight == weight')
                 && (style == "dash" || style == "dashDot" ==> (Heavy(weight) <==> Heavy(weight')))
    ensures LineStyle(style, weight) == None <==> style == "none"
  {
    NamesDiffer();
  }

  lemma NamesDiffer()
    ensures forall s :: s in STYLES <==> s == "continuous" || s == "dash" || s == "dashDot" || s == "dot" || s == "double" || s == "none"
    ensures forall w :: w in WEIGHTS <==> w == "hairline" || w == "thin" || w == "medium" || w == "thick"
  {
  }

  /** The names the lines are stored under. */
  lemma LineNames(weight: string)
    ensures LineStyle("continuous", weight) == Some(if weight == "hairline" then "hair" else weight)
    ensures LineStyle("dot", weight) == Some("dotted") && LineStyle("double", weight) == Some("double")
    ensures LineStyle("dash", "medium") == Some("mediumDashed") && LineStyle("dash", "thin") == Some("dashed")
    ensures LineStyle("dashDot", "thick") == Some("mediumDashDot") && LineStyle("dashDot", "hairline") == Some("dashDot")
  {
  }

  /** Six digits are the whole key, whatever stands before them, as a number sign or an opacity does. */
  lemma SixDigitKey(before: string, digits: string)
    requires |digits| == 6 && (before != "" || digits[0] != '#')
    ensures ColorKey(before + digits) == Upper(digits)
  {
    var text := before + digits;
    assert text[|text| - 6..] == digits;
    assert before != "" ==> text[1..][|text| - 7..] == digits;
    hide Upper;
  }

  /** Of a shorter text all but a leading number sign is. */
  lemma ShortKey(digits: string)
    requires |digits| < 6 && (digits == "" || digits[0] != '#')
    ensures ColorKey(digits) == Upper(digits) && ColorKey("#" + digits) == Upper(digits)
  {
    assert ("#" + digits)[1..] == digits;
    hide Upper;
  }

  predicate HexColor(text: string) { |text| == 7 && text[0] == '#' }

  /** Colours of six digits are the same when they differ in case only. */
  lemma ColorsExactly(a: string, b: string)
    requires HexColor(a) && HexColor(b)
    ensures ColorKey(a) == ColorKey(b) <==> Upper(a) == Upper(b)
  {
    assert a[1..][0..] == a[1..] && b[1..][0..] == b[1..];
    assert Upper(a) == [UpperChar(a[0])] + Upper(a[1..]) && Upper(b) == [UpperChar(b[0])] + Upper(b[1..]);
  }

  /** What passes the verifier: any value of what it does not read, sizes within a tenth, and of
      flags, formats and alignments the very value. */
  lemma PassesExactly(p: Property, actual: Value, expected: Value)
    ensures p == Bold || p == NumberFormat || p == Horizontal || p == Vertical || p == WrapText ==>
              (Passes(Verifier, p, Some(actual), expected) <==> actual == expected)
    ensures p == Italic || p == FontName || p == FontSize ==> Passes(Verifier, p, Some(actual), expected)
    ensures (p == RowHeight || p == ColumnWidth) && actual.Size? && expected.Size? ==>
              (Passes(Verifier, p, Some(actual), expected) <==> -0.1 <= actual.points - expected.points <= 0.1)
    ensures Passes(Literal, p, Some(actual), expected) <==> actual == expected
    ensures !Passes(Verifier, p, None, expected) && !Passes(Literal, p, None, expected)
  {
    hide ColorKey, LineStyle;
  }

  /** Colours pass when they have the same key. */
  lemma ColorsPassExactly(p: Property, actual: string, expected: string)
    requires p == FillColor || p == FontColor
    ensures Passes(Verifier, p, Some(Text(actual)), Text(expected)) <==> ColorKey(actual) == ColorKey(expected)
  {
    hide ColorKey;
  }

  /** Border lines pass when they look the same and, unless absent, have the same colour. */
  lemma LinesPassExactly(side: Side, style: string, color: string, weight: string, style': string, color': string, weight': string)
    ensures Passes(Verifier, Border(side), Some(Line(style, color, weight)), Line(style', color', weight'))
            <==> LineStyle(style, weight) == LineStyle(style', weight')
                 && (LineStyle(style', weight').None? || ColorKey(color) == ColorKey(color'))
  {
    hide ColorKey, LineStyle;
  }
}
