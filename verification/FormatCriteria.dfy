/** Acceptance criteria derived from formatting actions, and what becomes of them when the
    server's executor runs the whole plan: every cell keeps its own formats and border sides,
    while a height belongs to a whole row and a width to a whole column. */
module FormatCriteria {
  import opened Wrappers
  import opened A1Notation

  datatype Side = TopSide | BottomSide | LeftSide | RightSide | InsideHorizontal | InsideVertical

  datatype Property =
    | FillColor | Bold | Italic | FontName | FontSize | FontColor | NumberFormat
    | Horizontal | Vertical | WrapText | RowHeight | ColumnWidth | Border(side: Side)

  datatype Value = Text(text: string) | Flag(on: bool) | Size(points: real) | Line(style: string, color: string, weight: string)

  datatype Action =
    | SetFill(sheet: string, range: string, color: string)
    | SetFont(sheet: string, range: string, bold: Option<bool>, italic: Option<bool>, name: Option<string>,
              size: Option<real>, color': Option<string>)
    | SetNumberFormat(sheet: string, range: string, code: string)
    | SetAlignment(sheet: string, range: string, horizontal: Option<string>, vertical: Option<string>, wrap: Option<bool>)
    | ResizeRange(sheet: string, range: string, rowHeight: Option<real>, columnWidth: Option<real>)
    | SetBorders(sheet: string, range: string, sides: seq<Side>, style: string, edgeColor: string, weight: string)

  datatype Kind = FillKind | FontKind | NumberKind | AlignmentKind | SizeKind | BorderKind

  function KindOf(a: Action): Kind {
    match a
    case SetFill(_, _, _) => FillKind
    case SetFont(_, _, _, _, _, _, _) => FontKind
    case SetNumberFormat(_, _, _) => NumberKind
    case SetAlignment(_, _, _, _, _) => AlignmentKind
    case ResizeRange(_, _, _, _) => SizeKind
    case SetBorders(_, _, _, _, _, _) => BorderKind
  }

  /** The value an action gives a property, if it sets it. */
  function Sets(a: Action, p: Property): Option<Value> {
    match a
    case SetFill(_, _, color) => if p == FillColor then Some(Text(color)) else None
    case SetFont(_, _, bold, italic, name, size, color) =>
      if p == Bold && bold.Some? then Some(Flag(bold.value))
      else if p == Italic && italic.Some? then Some(Flag(italic.value))
      else if p == FontName && name.Some? then Some(Text(name.value))
      else if p == FontSize && size.Some? then Some(Size(size.value))
      else if p == FontColor && color.Some? then Some(Text(color.value))
      else None
    case SetNumberFormat(_, _, code) => if p == NumberFormat then Some(Text(code)) else None
    case SetAlignment(_, _, horizontal, vertical, wrap) =>
      if p == Horizontal && horizontal.Some? then Some(Text(horizontal.value))
      else if p == Vertical && vertical.Some? then Some(Text(vertical.value))
      else if p == WrapText && wrap.Some? then Some(Flag(wrap.value))
      else None
    case ResizeRange(_, _, height, width) =>
      if p == RowHeight && height.Some? then Some(Size(height.value))
      else if p == ColumnWidth && width.Some? then Some(Size(width.value))
      else None
    case SetBorders(_, _, sides, style, color, weight) =>
      if p.Border? && p.side in sides then Some(Line(style, color, weight)) else None
  }

  // ------------------------------------------------------------------- same range

  function FoldChar(c: char): char { if 'A' <= c <= 'Z' then (c as int + 32) as char else c }

  function Fold(s: string): string { seq(|s|, i requires 0 <= i < |s| => FoldChar(s[i])) }

  function DropDollars(s: string): string {
    if s == "" then "" else (if s[0] == '$' then "" else [s[0]]) + DropDollars(s[1..])
  }

  function Normalize(range: string): string { Upper(Strip(DropDollars(range))) }

  /** A later action of the same kind on the same range of the same sheet. */
  predicate SameTarget(a: Action, b: Action) {
    KindOf(a) == KindOf(b) && Fold(a.sheet) == Fold(b.sheet) && Normalize(a.range) == Normalize(b.range)
  }

  /** Some later action with the same target sets the property too. */
  predicate Superseded(actions: seq<Action>, i: nat, p: Property)
    requires i < |actions|
  {
    exists j :: i < j < |actions| && SameTarget(actions[i], actions[j]) && Sets(actions[j], p).Some?
  }

  // ------------------------------------------------------------------- derivation

  datatype Criterion =
    | FormatMatches(sheet: string, range: string, fill: Option<string>, bold: Option<bool>, italic: Option<bool>,
                    name: Option<string>, size: Option<real>, color: Option<string>, code: Option<string>,
                    horizontal: Option<string>, vertical: Option<string>, wrap: Option<bool>,
                    height: Option<real>, width: Option<real>)
    | BordersMatch(sheet: string, range: string, sides: seq<Side>, style: string, edgeColor: string, weight: string)

  function Unless<T>(superseded: bool, value: Option<T>): Option<T> { if superseded then None else value }

  function OpenSides(actions: seq<Action>, i: nat, sides: seq<Side>): (r: seq<Side>)
    requires i < |actions|
    ensures forall s :: s in r <==> s in sides && !Superseded(actions, i, Border(s))
  {
    if sides == [] then []
    else (if Superseded(actions, i, Border(sides[0])) then [] else [sides[0]]) + OpenSides(actions, i, sides[1..])
  }

  function Blank(a: Action): Criterion {
    FormatMatches(a.sheet, a.range, None, None, None, None, None, None, None, None, None, None, None, None)
  }

  /** The criterion an action contributes: each property that no later action with the same
      target sets, or nothing when none is left. */
  function Derive(actions: seq<Action>, i: nat): Option<Criterion>
    requires i < |actions|
  {
    var a := actions[i];
    match a
    case SetFill(_, _, color) =>
      if Superseded(actions, i, FillColor) then None else Some(Blank(a).(fill := Some(color)))
    case SetFont(_, _, bold, italic, name, size, color) =>
      var c := Blank(a).(
        bold := Unless(Superseded(actions, i, Bold), bold),
        italic := Unless(Superseded(actions, i, Italic), italic),
        name := Unless(Superseded(actions, i, FontName), name),
        size := Unless(Superseded(actions, i, FontSize), size),
        color := Unless(Superseded(actions, i, FontColor), color));
      if c == Blank(a) then None else Some(c)
    case SetNumberFormat(_, _, code) =>
      if Superseded(actions, i, NumberFormat) then None else Some(Blank(a).(code := Some(code)))
    case SetAlignment(_, _, horizontal, vertical, wrap) =>
      var c := Blank(a).(
        horizontal := Unless(Superseded(actions, i, Horizontal), horizontal),
        vertical := Unless(Superseded(actions, i, Vertical), vertical),
        wrap := Unless(Superseded(actions, i, WrapText), wrap));
      if c == Blank(a) then None else Some(c)
    case ResizeRange(_, _, height, width) =>
      var c := Blank(a).(
        height := Unless(Superseded(actions, i, RowHeight), height),
        width := Unless(Superseded(actions, i, ColumnWidth), width));
      if c == Blank(a) then None else Some(c)
    case SetBorders(_, _, sides, style, color, weight) =>
      var open := OpenSides(actions, i, sides);
      if open == [] then None else Some(BordersMatch(a.sheet, a.range, open, style, color, weight))
  }

  /** The value a criterion expects of a property. */
  function Expects(c: Criterion, p: Property): Option<Value> {
    match c
    case BordersMatch(_, _, sides, style, color, weight) =>
      if p.Border? && p.side in sides then Some(Line(style, color, weight)) else None
    case FormatMatches(_, _, fill, bold, italic, name, size, color, code, horizontal, vertical, wrap, height, width) =>
      match p
      case FillColor => Wrap(fill, s => Text(s))
      case Bold => Wrap(bold, b => Flag(b))
      case Italic => Wrap(italic, b => Flag(b))
      case FontName => Wrap(name, s => Text(s))
      case FontSize => Wrap(size, x => Size(x))
      case FontColor => Wrap(color, s => Text(s))
      case NumberFormat => Wrap(code, s => Text(s))
      case Horizontal => Wrap(horizontal, s => Text(s))
      case Vertical => Wrap(vertical, s => Text(s))
      case WrapText => Wrap(wrap, b => Flag(b))
      case RowHeight => Wrap(height, x => Size(x))
      case ColumnWidth => Wrap(width, x => Size(x))
      case Border(_) => None
  }

  function Wrap<T>(v: Option<T>, f: T -> Value): Option<Value> { if v.None? then None else Some(f(v.value)) }

  /** What action `i`'s criterion claims about a property. */
  function Claim(actions: seq<Action>, i: nat, p: Property): Option<Value>
    requires i < |actions|
  {
    var c := Derive(actions, i);
    if c.None? then None else Expects(c.value, p)
  }

  /** The derivation, whatever the action type, claims exactly the properties the action sets
      and no later action with the same target sets. */
  lemma ClaimIsLastWriter(actions: seq<Action>, i: nat, p: Property)
    requires i < |actions|
    ensures Claim(actions, i, p) == if Superseded(actions, i, p) then None else Sets(actions[i], p)
  {
    hide *;
    if actions[i].SetBorders? {
      BorderClaim(actions, i, p);
    } else {
      FormatClaim(actions, i, p);
    }
  }

  lemma BorderClaim(actions: seq<Action>, i: nat, p: Property)
    requires i < |actions| && actions[i].SetBorders?
    ensures Claim(actions, i, p) == if Superseded(actions, i, p) then None else Sets(actions[i], p)
  {
    hide Superseded;
  }

  lemma FormatClaim(actions: seq<Action>, i: nat, p: Property)
    requires i < |actions| && !actions[i].SetBorders?
    ensures Claim(actions, i, p) == if Superseded(actions, i, p) then None else Sets(actions[i], p)
  {
    hide Superseded, OpenSides;
  }

  /** Of the actions with one target that set a property, exactly the last one claims it. */
  lemma OnlyTheLastClaims(actions: seq<Action>, i: nat, p: Property)
    requires i < |actions| && Sets(actions[i], p).Some?
    ensures exists k :: i <= k < |actions| && IsLastSetter(actions, i, p, k) && Claim(actions, k, p) == Sets(actions[k], p)
    ensures forall k, l :: 0 <= k < l < |actions| && SameTarget(actions[k], actions[l]) ==>
              Claim(actions, k, p).None? || Claim(actions, l, p).None?
  {
    var k := i;
    while Superseded(actions, k, p)
      invariant i <= k < |actions| && (k == i || SameTarget(actions[i], actions[k])) && Sets(actions[k], p).Some?
      decreases |actions| - k
    {
      var j :| k < j < |actions| && SameTarget(actions[k], actions[j]) && Sets(actions[j], p).Some?;
      k := j;
    }
    ClaimIsLastWriter(actions, k, p);
    assert IsLastSetter(actions, i, p, k);
    forall k, l | 0 <= k < l < |actions| && SameTarget(actions[k], actions[l])
      ensures Claim(actions, k, p).None? || Claim(actions, l, p).None?
    {
      ClaimIsLastWriter(actions, k, p);
      ClaimIsLastWriter(actions, l, p);
    }
  }

  predicate IsLastSetter(actions: seq<Action>, i: nat, p: Property, k: nat)
    requires i < |actions|
  {
    && k < |actions| && (k == i || SameTarget(actions[i], actions[k])) && Sets(actions[k], p).Some?
    && forall j :: k < j < |actions| && SameTarget(actions[i], actions[j]) ==> Sets(actions[j], p).None?
  }

  // ---------------------------------------------------------------------- execution

  /** A place in a workbook that holds one formatting value. */
  datatype Slot =
    | CellSlot(row: int, column: int, property: Property)
    | RowSlot(row: int)
    | ColumnSlot(column: int)

  function PropertyOf(slot: Slot): Property {
    match slot
    case CellSlot(_, _, p) => p
    case RowSlot(_) => RowHeight
    case ColumnSlot(_) => ColumnWidth
  }

  /** The rectangle of a range, `$` and case aside. */
  function RangeBox(range: string): BoxResult { ParseBox(Normalize(range)) }

  /** The places an action on this rectangle can write. */
  predicate Covers(box: Box, slot: Slot) {
    match slot
    case CellSlot(r, c, p) => box.Contains(r, c) && !p.RowHeight? && !p.ColumnWidth?
    case RowSlot(r) => box.top <= r <= box.bottom
    case ColumnSlot(c) => box.left <= c <= box.right
  }

  predicate InRange(range: string, slot: Slot) { RangeBox(range).Parsed? && Covers(RangeBox(range).box, slot) }

  /** What running an action writes into a slot of a sheet, if anything. Each cell of the
      range gets the action's own sides, inside borders included. */
  function Writes(a: Action, sheet: string, slot: Slot): Option<Value> {
    if a.sheet == sheet && InRange(a.range, slot) then Sets(a, PropertyOf(slot)) else None
  }

  /** The slot's value after the actions have run in order. */
  function After(actions: seq<Action>, sheet: string, slot: Slot, before: Option<Value>): Option<Value> {
    if actions == [] then before
    else
      var n := |actions| - 1;
      var w := Writes(actions[n], sheet, slot);
      if w.Some? then w else After(actions[..n], sheet, slot, before)
  }

  /** What the criterion of action `i` expects of this slot, if it speaks of it. */
  function ClaimAt(actions: seq<Action>, i: nat, slot: Slot): Option<Value>
    requires i < |actions|
  {
    if InRange(actions[i].range, slot) then Claim(actions, i, PropertyOf(slot)) else None
  }

  // ------------------------------------------------------------------- verification

  /** How a criterion is read: to the letter, or as the server's verifier reads it. */
  datatype Reading = Literal | Verifier

  /** A colour as the verifier compares it: its last six digits in upper case. */
  function ColorKey(text: string): string {
    var digits := if text != "" && text[0] == '#' then text[1..] else text;
    Upper(if |digits| >= 6 then digits[|digits| - 6..] else digits)
  }

  /** The line style a cell stores; none for an absent line. */
  function LineStyle(style: string, weight: string): Option<string> {
    if style == "none" then None
    else if style == "continuous" then Some(if weight == "hairline" then "hair" else weight)
    else if style == "dash" then Some(if weight == "medium" || weight == "thick" then "mediumDashed" else "dashed")
    else if style == "dashDot" then Some(if weight == "medium" || weight == "thick" then "mediumDashDot" else "dashDot")
    else if style == "dot" then Some("dotted")
    else Some("double")
  }

  /** What the verifier lets pass besides the very value. It reads no italics, font names or
      font sizes, allows sizes a tenth of a point, and ignores the colour of an absent line. */
  predicate Tolerates(p: Property, actual: Value, expected: Value) {
    match p
    case Italic => true
    case FontName => true
    case FontSize => true
    case FillColor => actual.Text? && expected.Text? && ColorKey(actual.text) == ColorKey(expected.text)
    case FontColor => actual.Text? && expected.Text? && ColorKey(actual.text) == ColorKey(expected.text)
    case RowHeight => actual.Size? && expected.Size? && -0.1 <= actual.points - expected.points <= 0.1
    case ColumnWidth => actual.Size? && expected.Size? && -0.1 <= actual.points - expected.points <= 0.1
    case Border(_) =>
      actual.Line? && expected.Line? && LineStyle(actual.style, actual.weight) == LineStyle(expected.style, expected.weight)
      && (LineStyle(expected.style, expected.weight).None? || ColorKey(actual.color) == ColorKey(expected.color))
    case _ => false
  }

  predicate Passes(reading: Reading, p: Property, actual: Option<Value>, expected: Value) {
    actual == Some(expected) || (reading.Verifier? && actual.Some? && Tolerates(p, actual.value, expected))
  }

  /** Every slot the criterion of action `i` speaks of passes after the plan, whatever the
      workbook held before. */
  ghost predicate HoldsAfter(reading: Reading, actions: seq<Action>, i: nat)
    requires i < |actions|
  {
    forall slot, before :: ClaimAt(actions, i, slot).Some? ==>
      Passes(reading, PropertyOf(slot), After(actions, actions[i].sheet, slot, before), ClaimAt(actions, i, slot).value)
  }

  /** A later action is the last to write a claimed slot, and what it writes does not pass. */
  ghost predicate Clobbers(reading: Reading, actions: seq<Action>, i: nat, j: nat, slot: Slot)
    requires i < |actions|
  {
    && i < j < |actions| && ClaimAt(actions, i, slot).Some?
    && Writes(actions[j], actions[i].sheet, slot).Some?
    && !Passes(reading, PropertyOf(slot), Writes(actions[j], actions[i].sheet, slot), ClaimAt(actions, i, slot).value)
    && forall k :: j < k < |actions| ==> Writes(actions[k], actions[i].sheet, slot).None?
  }

  /** The last action that writes a slot decides its value. */
  lemma {:induction false} LastWriteStays(actions: seq<Action>, sheet: string, slot: Slot, before: Option<Value>, j: nat)
    requires j < |actions| && Writes(actions[j], sheet, slot).Some?
    requires forall k :: j < k < |actions| ==> Writes(actions[k], sheet, slot).None?
    ensures After(actions, sheet, slot, before) == Writes(actions[j], sheet, slot)
  {
    hide Writes;
    if j < |actions| - 1 {
      LastWriteStays(actions[..|actions| - 1], sheet, slot, before, j);
    }
  }

  /** Some action from `i` on is the last to write the slot. */
  lemma LastWriter(actions: seq<Action>, sheet: string, slot: Slot, i: nat) returns (j: nat)
    requires i < |actions| && Writes(actions[i], sheet, slot).Some?
    ensures i <= j < |actions| && Writes(actions[j], sheet, slot).Some?
    ensures forall k :: j < k < |actions| ==> Writes(actions[k], sheet, slot).None?
  {
    hide Writes;
    j := i;
    for k := i + 1 to |actions|
      invariant i <= j < k && Writes(actions[j], sheet, slot).Some?
      invariant forall l :: j < l < k ==> Writes(actions[l], sheet, slot).None?
    {
      if Writes(actions[k], sheet, slot).Some? { j := k; }
    }
  }

  lemma ClaimIsWritten(actions: seq<Action>, i: nat, slot: Slot)
    requires i < |actions| && ClaimAt(actions, i, slot).Some?
    ensures Writes(actions[i], actions[i].sheet, slot) == ClaimAt(actions, i, slot)
  {
    hide Claim, InRange, Sets;
    ClaimIsLastWriter(actions, i, PropertyOf(slot));
  }

  /** A derived criterion is true after the plan exactly when no later action clobbers it. */
  lemma HoldsExactlyWhenNotClobbered(reading: Reading, actions: seq<Action>, i: nat)
    requires i < |actions|
    ensures HoldsAfter(reading, actions, i) <==> forall j, slot :: !Clobbers(reading, actions, i, j, slot)
  {
    hide ClaimAt, Writes, Tolerates;
    forall j, slot | Clobbers(reading, actions, i, j, slot) ensures !HoldsAfter(reading, actions, i) {
      LastWriteStays(actions, actions[i].sheet, slot, None, j);
    }
    if forall j, slot :: !Clobbers(reading, actions, i, j, slot) {
      forall slot, before | ClaimAt(actions, i, slot).Some?
        ensures Passes(reading, PropertyOf(slot), After(actions, actions[i].sheet, slot, before), ClaimAt(actions, i, slot).value)
      {
        ClaimIsWritten(actions, i, slot);
        var j := LastWriter(actions, actions[i].sheet, slot, i);
        LastWriteStays(actions, actions[i].sheet, slot, before, j);
        assert !Clobbers(reading, actions, i, j, slot);
      }
    }
  }

  /** No slot is written by two actions with different targets. */
  ghost predicate Independent(actions: seq<Action>) {
    forall i, j, slot :: 0 <= i < j < |actions| && !SameTarget(actions[i], actions[j]) ==>
      Writes(actions[i], actions[i].sheet, slot).None? || Writes(actions[j], actions[i].sheet, slot).None?
  }

  /** A later action with the same target that writes a claimed slot would have superseded it. */
  lemma SameTargetCannotClobber(actions: seq<Action>, i: nat, j: nat, slot: Slot)
    requires 0 <= i < j < |actions| && SameTarget(actions[i], actions[j]) && ClaimAt(actions, i, slot).Some?
    ensures Writes(actions[j], actions[i].sheet, slot).None?
  {
    hide Claim, Covers, Sets, Fold;
    ClaimIsLastWriter(actions, i, PropertyOf(slot));
  }

  /** In a plan of independent actions every derived criterion is true after execution. */
  lemma IndependentPlansMeetTheirCriteria(reading: Reading, actions: seq<Action>)
    requires Independent(actions)
    ensures forall i :: 0 <= i < |actions| ==> HoldsAfter(reading, actions, i)
  {
    hide ClaimAt, Writes, HoldsAfter, SameTarget, Passes;
    forall i | 0 <= i < |actions| ensures HoldsAfter(reading, actions, i) {
      forall j: nat, slot ensures !Clobbers(reading, actions, i, j, slot) {
        if i < j < |actions| && ClaimAt(actions, i, slot).Some? {
          ClaimIsWritten(actions, i, slot);
          if SameTarget(actions[i], actions[j]) { SameTargetCannotClobber(actions, i, j, slot); }
        }
      }
      HoldsExactlyWhenNotClobbered(reading, actions, i);
    }
  }

  /** The criterion is true, to the letter, of the workbook the actions leave behind. */
  ghost predicate MetBy(c: Criterion, actions: seq<Action>) {
    forall slot, before :: InRange(c.range, slot) && Expects(c, PropertyOf(slot)).Some? ==>
      After(actions, c.sheet, slot, before) == Expects(c, PropertyOf(slot))
  }

  lemma HoldingCriterionIsMet(actions: seq<Action>, i: nat)
    requires i < |actions| && Derive(actions, i).Some? && HoldsAfter(Literal, actions, i)
    ensures MetBy(Derive(actions, i).value, actions)
  {
    hide InRange, Expects, After;
    DerivedTarget(actions, i);
    var c := Derive(actions, i).value;
    forall slot, before | InRange(c.range, slot) && Expects(c, PropertyOf(slot)).Some?
      ensures After(actions, c.sheet, slot, before) == Expects(c, PropertyOf(slot))
    {
      assert ClaimAt(actions, i, slot) == Expects(c, PropertyOf(slot));
    }
  }

  lemma DerivedTarget(actions: seq<Action>, i: nat)
    requires i < |actions| && Derive(actions, i).Some?
    ensures Derive(actions, i).value.sheet == actions[i].sheet && Derive(actions, i).value.range == actions[i].range
  {
    hide Superseded;
  }

  lemma {:induction false} AfterConcat(first: seq<Action>, rest: seq<Action>, sheet: string, slot: Slot, before: Option<Value>)
    ensures After(first + rest, sheet, slot, before) == After(rest, sheet, slot, After(first, sheet, slot, before))
  {
    hide Writes;
    if rest == [] {
      assert first + rest == first;
    } else {
      var n := |rest| - 1;
      assert (first + rest)[..|first + rest| - 1] == first + rest[..n];
      AfterConcat(first, rest[..n], sheet, slot, before);
    }
  }

  /** What a plan's tail establishes, the whole plan establishes. */
  lemma MetByWhole(c: Criterion, first: seq<Action>, rest: seq<Action>)
    requires MetBy(c, rest)
    ensures MetBy(c, first + rest)
  {
    hide InRange, Expects, After;
    forall slot, before ensures After(first + rest, c.sheet, slot, before)
        == After(rest, c.sheet, slot, After(first, c.sheet, slot, before)) {
      AfterConcat(first, rest, c.sheet, slot, before);
    }
  }

  // ------------------------------------------------- what independence takes, per kind

  predicate RowsMeet(a: Box, b: Box) { a.top <= b.bottom && b.top <= a.bottom }

  predicate ColumnsMeet(a: Box, b: Box) { a.left <= b.right && b.left <= a.right }

  /** The two actions write different properties, different sheets or disjoint rectangles. */
  predicate Disjoint(a: Action, b: Action) {
    || KindOf(a) != KindOf(b) || a.sheet != b.sheet
    || !RangeBox(a.range).Parsed? || !RangeBox(b.range).Parsed?
    || !(RowsMeet(RangeBox(a.range).box, RangeBox(b.range).box) && ColumnsMeet(RangeBox(a.range).box, RangeBox(b.range).box))
  }

  /** Their rectangles share no row where both set heights and no column where both set widths. */
  predicate SizesApart(a: Action, b: Action) {
    || KindOf(a) != KindOf(b) || a.sheet != b.sheet
    || !RangeBox(a.range).Parsed? || !RangeBox(b.range).Parsed?
    || (var (x, y) := (RangeBox(a.range).box, RangeBox(b.range).box);
        (Sets(a, RowHeight).Some? && Sets(b, RowHeight).Some? ==> !RowsMeet(x, y))
        && (Sets(a, ColumnWidth).Some? && Sets(b, ColumnWidth).Some? ==> !ColumnsMeet(x, y)))
  }

  predicate EqualOrDisjoint(actions: seq<Action>) {
    forall i, j :: 0 <= i < j < |actions| ==> SameTarget(actions[i], actions[j]) || Disjoint(actions[i], actions[j])
  }

  /** Equal or disjoint, and resized ranges share no row or column they both size. */
  predicate EqualOrApart(actions: seq<Action>) {
    EqualOrDisjoint(actions)
    && forall i, j :: 0 <= i < j < |actions| ==> SameTarget(actions[i], actions[j]) || SizesApart(actions[i], actions[j])
  }

  function CellKind(p: Property): Kind {
    match p
    case FillColor => FillKind
    case NumberFormat => NumberKind
    case Horizontal => AlignmentKind
    case Vertical => AlignmentKind
    case WrapText => AlignmentKind
    case Border(_) => BorderKind
    case RowHeight => SizeKind
    case ColumnWidth => SizeKind
    case _ => FontKind
  }

  lemma SetsOwnKind(a: Action, p: Property)
    requires Sets(a, p).Some?
    ensures KindOf(a) == CellKind(p)
  {
  }

  /** Disjoint actions can meet only in the height of a row or the width of a column. */
  lemma DisjointActionsShareOnlySizes(a: Action, b: Action, sheet: string, slot: Slot)
    requires Disjoint(a, b) && Writes(a, sheet, slot).Some? && Writes(b, sheet, slot).Some?
    ensures !slot.CellSlot? && a.ResizeRange? && !SizesApart(a, b)
  {
    hide RangeBox, Sets;
    SetsOwnKind(a, PropertyOf(slot));
    SetsOwnKind(b, PropertyOf(slot));
  }

  /** In a plan whose ranges are pairwise equal or disjoint, a criterion can fail only by a
      row height or a column width: fills, fonts, number formats, alignments and borders all
      hold, and a size holds exactly when no later action ends up sizing one of its rows or
      columns otherwise. */
  lemma DisjointPlansFailOnlyBySizes(reading: Reading, actions: seq<Action>, i: nat)
    requires EqualOrDisjoint(actions) && i < |actions|
    ensures !actions[i].ResizeRange? ==> HoldsAfter(reading, actions, i)
    ensures HoldsAfter(reading, actions, i) <==> forall j, slot: Slot :: !slot.CellSlot? ==> !Clobbers(reading, actions, i, j, slot)
  {
    hide ClaimAt, Writes, HoldsAfter, SameTarget, Passes, Disjoint, SizesApart;
    forall j: nat, slot | Clobbers(reading, actions, i, j, slot) ensures !slot.CellSlot? && actions[i].ResizeRange? {
      ClaimIsWritten(actions, i, slot);
      if SameTarget(actions[i], actions[j]) { SameTargetCannotClobber(actions, i, j, slot); }
      DisjointActionsShareOnlySizes(actions[i], actions[j], actions[i].sheet, slot);
    }
    HoldsExactlyWhenNotClobbered(reading, actions, i);
  }

  /** Plans whose ranges are pairwise equal or apart meet every derived criterion. */
  lemma EqualOrApartPlansMeetTheirCriteria(reading: Reading, actions: seq<Action>)
    requires EqualOrApart(actions)
    ensures forall i :: 0 <= i < |actions| ==> HoldsAfter(reading, actions, i)
  {
    hide Disjoint, SizesApart, SameTarget, Writes, HoldsAfter;
    forall i, j, slot | 0 <= i < j < |actions| && !SameTarget(actions[i], actions[j])
      ensures Writes(actions[i], actions[i].sheet, slot).None? || Writes(actions[j], actions[i].sheet, slot).None?
    {
      if Writes(actions[i], actions[i].sheet, slot).Some? && Writes(actions[j], actions[i].sheet, slot).Some? {
        DisjointActionsShareOnlySizes(actions[i], actions[j], actions[i].sheet, slot);
      }
    }
    IndependentPlansMeetTheirCriteria(reading, actions);
  }

  /** Disjoint ranges are not enough for sizes: two ranges side by side share their rows, and
      the height set first is gone, beyond what the verifier tolerates. */
  lemma SharedRowBreaksHeight(reading: Reading, sheet: string, left: string, right: string, first: real, second: real)
    requires RangeBox(left).Parsed? && RangeBox(right).Parsed?
    requires RowsMeet(RangeBox(left).box, RangeBox(right).box) && !ColumnsMeet(RangeBox(left).box, RangeBox(right).box)
    requires first - second > 0.1 || second - first > 0.1
    ensures var plan := [ResizeRange(sheet, left, Some(first), None), ResizeRange(sheet, right, Some(second), None)];
            EqualOrDisjoint(plan) && Derive(plan, 0).Some? && !HoldsAfter(reading, plan, 0)
  {
    hide ParseBox, Normalize, Fold, HoldsAfter, After;
    var plan := [ResizeRange(sheet, left, Some(first), None), ResizeRange(sheet, right, Some(second), None)];
    var (x, y) := (RangeBox(left).box, RangeBox(right).box);
    var slot := RowSlot(if x.top < y.top then y.top else x.top);
    BoxIsProper(left);
    assert !SameTarget(plan[0], plan[1]);
    ClaimIsLastWriter(plan, 0, RowHeight);
    assert ClaimAt(plan, 0, slot) == Some(Size(first)) && Writes(plan[1], sheet, slot) == Some(Size(second));
    assert Clobbers(reading, plan, 0, 1, slot);
    HoldsExactlyWhenNotClobbered(reading, plan, 0);
  }

  lemma BoxIsProper(range: string)
    ensures RangeBox(range).Parsed? ==> RangeBox(range).box.Proper()
  {
  }

  /** For instance, a height for A1 and then another for B1. */
  lemma NeighboursCollide(reading: Reading, sheet: string)
    ensures var plan := [ResizeRange(sheet, "A1", Some(10.0), None), ResizeRange(sheet, "B1", Some(20.0), None)];
            EqualOrDisjoint(plan) && Derive(plan, 0).Some? && !HoldsAfter(reading, plan, 0)
  {
    OneCell('A');
    OneCell('B');
    assert "A1" == ['A', '1'] && "B1" == ['B', '1'];
    SharedRowBreaksHeight(reading, sheet, "A1", "B1", 10.0, 20.0);
  }

  lemma OneCell(letter: char)
    requires 'A' <= letter <= 'Z'
    ensures var column := letter as int - 64;
            Normalize([letter, '1']) == [letter, '1'] && RangeBox([letter, '1']) == Parsed(Box(1, column, 1, column))
  {
    NormalCell(letter);
    CellParses(letter);
    assert ColumnValue([letter]) == ColumnValue("") * 26 + LetterValue(letter) by { assert [letter][..0] == ""; }
  }

  lemma NormalCell(letter: char)
    requires 'A' <= letter <= 'Z'
    ensures Normalize([letter, '1']) == [letter, '1'] && Strip([letter, '1']) == [letter, '1']
  {
    var s := [letter, '1'];
    assert s[1..] == ['1'] && DropDollars(['1']) == ['1'] + DropDollars("") == ['1'];
    assert DropDollars(s) == s;
    StripIsIdentity(s);
    assert Upper(s) == s;
  }

  lemma CellParses(letter: char)
    requires 'A' <= letter <= 'Z'
    ensures ParseCells([letter, '1']) == Some((CellRef([letter], 1, 2), CellRef([letter], 1, 2)))
  {
    var s := [letter, '1'];
    NormalCell(letter);
    assert s[0..1] == [letter] && s[1..2] == ['1'];
    ParseCellAt(s, 0, 1, 2);
    assert DecimalValue(['1']) == DecimalValue("") * 10 + 1 == 1 by { assert ['1'][..0] == ""; }
    hide ParseCell, DecimalValue, Strip, Normalize;
  }
}
