/** Compiling an outcome matrix into sheet actions. A matrix with nothing to skip or
    clear becomes one block write; otherwise each column is cut into its maximal runs
    of one kind, and skipped positions stay outside every range. */
module MappingSplit {
  import opened Wrappers
  import opened A1Notation
  import opened Counting
  import opened MappingCells

  datatype Action =
    | WriteValues(sheet: string, range: string, values: seq<seq<string>>)
    | ClearRange(sheet: string, range: string)

  /** A cell of the host sheet. */
  datatype Content = Empty | Literal(text: string) | Formula(source: string)

  datatype SplitError = BlankSplitLimit(required: nat, limit: int)

  const DEFAULT_MAX_MAPPING_ACTIONS := 64

  // --------------------------------------------------------------- the executor

  /** What one action does to the cell at (row, column) of a sheet. */
  function Effect(a: Action, sheet: string, row: int, column: int, before: Content): Content {
    match ParseBox(a.range)
    case Unparsable => before
    case Reversed => before
    case Parsed(box) =>
      if a.sheet != sheet || !box.Contains(row, column) then before
      else
        match a
        case ClearRange(_, _) => Empty
        case WriteValues(_, _, values) =>
          var r, c := row - box.top, column - box.left;
          if r < |values| && c < |values[r]| then Literal(values[r][c]) else before
  }

  /** The cell's content after a list of actions has run. */
  function Run(actions: seq<Action>, sheet: string, row: int, column: int, before: Content): Content {
    if actions == [] then before
    else
      var n := |actions| - 1;
      Effect(actions[n], sheet, row, column, Run(actions[..n], sheet, row, column, before))
  }

  /** The action's range holds the cell. */
  predicate Touches(a: Action, sheet: string, row: int, column: int) {
    a.sheet == sheet && ParseBox(a.range).Parsed? && ParseBox(a.range).box.Contains(row, column)
  }

  // -------------------------------------------------------------------- segments

  /** Rows `first..last` of one column, as offsets into the matrix. */
  datatype Segment = Segment(column: nat, first: nat, last: nat)

  predicate Rectangular(rows: nat, columns: nat, outcomes: seq<seq<Outcome>>) {
    |outcomes| == rows && forall i :: 0 <= i < rows ==> |outcomes[i]| == columns
  }

  datatype Kind = WriteKind | ClearKind | SkipKind

  function KindOf(o: Outcome): Kind {
    match o
    case Write(_) => WriteKind
    case Clear => ClearKind
    case Skip => SkipKind
  }

  predicate SameKind(a: Outcome, b: Outcome) { KindOf(a) == KindOf(b) }

  predicate InSegment(s: Segment, row: int, column: int) { s.column == column && s.first <= row <= s.last }

  /** One column, one kind, nothing skipped. */
  predicate Uniform(s: Segment, outcomes: seq<seq<Outcome>>, columns: nat) {
    && s.column < columns && s.first <= s.last < |outcomes|
    && (forall i :: 0 <= i < |outcomes| ==> |outcomes[i]| == columns)
    && !outcomes[s.first][s.column].Skip?
    && forall i :: s.first <= i <= s.last ==> SameKind(outcomes[i][s.column], outcomes[s.first][s.column])
  }

  /** The segment cannot be extended upwards or downwards. */
  predicate Maximal(s: Segment, outcomes: seq<seq<Outcome>>, columns: nat) {
    && Uniform(s, outcomes, columns)
    && (s.first > 0 ==> !SameKind(outcomes[s.first - 1][s.column], outcomes[s.first][s.column]))
    && (s.last + 1 < |outcomes| ==> !SameKind(outcomes[s.last + 1][s.column], outcomes[s.first][s.column]))
  }

  predicate Before(a: Segment, b: Segment) { a.column < b.column || (a.column == b.column && a.last < b.first) }

  predicate Ordered(segments: seq<Segment>) {
    forall k, l :: 0 <= k < l < |segments| ==> Before(segments[k], segments[l])
  }

  ghost predicate CoveredBy(segments: seq<Segment>, row: int, column: int) {
    exists k :: 0 <= k < |segments| && InSegment(segments[k], row, column)
  }

  /** Every position that is not skipped lies in some segment. */
  ghost predicate CoversAll(segments: seq<Segment>, outcomes: seq<seq<Outcome>>, columns: nat)
    requires Rectangular(|outcomes|, columns, outcomes)
  {
    forall i, j :: 0 <= i < |outcomes| && 0 <= j < columns && !outcomes[i][j].Skip? ==> CoveredBy(segments, i, j)
  }

  /** Any way of covering the non-skipped positions with uniform column segments. */
  ghost predicate IsCover(segments: seq<Segment>, outcomes: seq<seq<Outcome>>, columns: nat)
    requires Rectangular(|outcomes|, columns, outcomes)
  {
    (forall k :: 0 <= k < |segments| ==> Uniform(segments[k], outcomes, columns))
    && CoversAll(segments, outcomes, columns)
  }

  /** The segments are exactly the maximal runs, column by column. */
  ghost predicate IsRunDecomposition(segments: seq<Segment>, outcomes: seq<seq<Outcome>>, columns: nat)
    requires Rectangular(|outcomes|, columns, outcomes)
  {
    && (forall k :: 0 <= k < |segments| ==> Maximal(segments[k], outcomes, columns))
    && Ordered(segments)
    && CoversAll(segments, outcomes, columns)
  }

  // ------------------------------------------------------------------ optimality

  lemma UniformKind(s: Segment, outcomes: seq<seq<Outcome>>, columns: nat, i: nat, j: nat)
    requires Uniform(s, outcomes, columns) && s.first <= i <= s.last && s.first <= j <= s.last
    ensures SameKind(outcomes[i][s.column], outcomes[j][s.column])
  {
  }

  /** A uniform segment that holds the first row of a maximal run lies inside that run. */
  lemma UniformStaysInRun(run: Segment, s: Segment, outcomes: seq<seq<Outcome>>, columns: nat)
    requires Maximal(run, outcomes, columns) && Uniform(s, outcomes, columns)
    requires InSegment(s, run.first, run.column)
    ensures s.first == run.first && s.last <= run.last
  {
    UniformKind(s, outcomes, columns, if s.first < run.first then run.first - 1 else run.first, run.first);
    UniformKind(s, outcomes, columns, if run.last < s.last then run.last + 1 else run.first, run.first);
  }

  /** Sends each run to a covering segment that holds the run's first row. */
  lemma {:induction false} RunImage(runs: seq<Segment>, cover: seq<Segment>, outcomes: seq<seq<Outcome>>, columns: nat)
    returns (image: seq<nat>)
    requires Rectangular(|outcomes|, columns, outcomes) && CoversAll(cover, outcomes, columns)
    requires forall k :: 0 <= k < |runs| ==> Uniform(runs[k], outcomes, columns)
    ensures |image| == |runs|
    ensures forall k :: 0 <= k < |runs| ==> image[k] < |cover| && InSegment(cover[image[k]], runs[k].first, runs[k].column)
  {
    image := [];
    if runs != [] {
      var n := |runs| - 1;
      var init := RunImage(runs[..n], cover, outcomes, columns);
      assert Uniform(runs[n], outcomes, columns);
      assert CoveredBy(cover, runs[n].first, runs[n].column);
      var c :| 0 <= c < |cover| && InSegment(cover[c], runs[n].first, runs[n].column);
      image := init + [c];
    }
  }

  /** No cover uses fewer segments than there are maximal runs. */
  lemma RunDecompositionIsMinimal(runs: seq<Segment>, cover: seq<Segment>, outcomes: seq<seq<Outcome>>, columns: nat)
    requires Rectangular(|outcomes|, columns, outcomes)
    requires IsRunDecomposition(runs, outcomes, columns) && IsCover(cover, outcomes, columns)
    ensures |runs| <= |cover|
  {
    hide Maximal, Uniform, CoversAll;
    assert forall k :: 0 <= k < |runs| ==> Uniform(runs[k], outcomes, columns) by {
      forall k | 0 <= k < |runs| ensures Uniform(runs[k], outcomes, columns) { MaximalIsUniform(runs[k], outcomes, columns); }
    }
    var image := RunImage(runs, cover, outcomes, columns);
    forall k, l | 0 <= k < l < |runs| ensures image[k] != image[l] {
      assert Before(runs[k], runs[l]);
      UniformStaysInRun(runs[k], cover[image[k]], outcomes, columns);
      UniformStaysInRun(runs[l], cover[image[l]], outcomes, columns);
      MaximalIsUniform(runs[k], outcomes, columns);
    }
    DistinctBelow(image, |cover|);
  }

  lemma MaximalIsUniform(s: Segment, outcomes: seq<seq<Outcome>>, columns: nat)
    requires Maximal(s, outcomes, columns)
    ensures Uniform(s, outcomes, columns) && s.first <= s.last
  {
  }

  // ------------------------------------------------------------------- rendering

  function SegmentText(s: Segment, box: Region): string
  {
    CornersText(box.left + s.column, box.top + s.first, box.left + s.column, box.top + s.last)
  }

  predicate Shaped(values: seq<seq<string>>, outcomes: seq<seq<Outcome>>, columns: nat) {
    && |values| == |outcomes|
    && (forall i :: 0 <= i < |values| ==> |values[i]| == columns)
    && (forall i :: 0 <= i < |outcomes| ==> |outcomes[i]| == columns)
  }

  function ColumnSlice(values: seq<seq<string>>, column: nat, first: nat, last: nat): (slice: seq<seq<string>>)
    requires first <= last < |values| && forall i :: 0 <= i < |values| ==> column < |values[i]|
  {
    seq(last - first + 1, i requires 0 <= i < last - first + 1 => [values[first + i][column]])
  }

  /** The action of one segment: a clear, or a write of its slice of the value matrix. */
  function SegmentAction(s: Segment, sheet: string, box: Region, values: seq<seq<string>>,
                         outcomes: seq<seq<Outcome>>, columns: nat): Action
    requires Shaped(values, outcomes, columns) && Uniform(s, outcomes, columns)
  {
    if outcomes[s.first][s.column].Clear? then ClearRange(sheet, SegmentText(s, box))
    else WriteValues(sheet, SegmentText(s, box), ColumnSlice(values, s.column, s.first, s.last))
  }

  ghost predicate Renders(actions: seq<Action>, runs: seq<Segment>, sheet: string, box: Region,
                          values: seq<seq<string>>, outcomes: seq<seq<Outcome>>, columns: nat)
    requires Shaped(values, outcomes, columns)
  {
    |actions| == |runs|
    && forall k :: 0 <= k < |runs| ==>
         Uniform(runs[k], outcomes, columns)
         && actions[k] == SegmentAction(runs[k], sheet, box, values, outcomes, columns)
  }

  // -------------------------------------------------------------- the run scanner

  /** The scan of `column` has reached `row`; `start` is the open run, if any. */
  ghost predicate Scanned(runs: seq<Segment>, outcomes: seq<seq<Outcome>>, columns: nat,
                          column: nat, row: nat, start: Option<nat>)
    requires Rectangular(|outcomes|, columns, outcomes)
  {
    && column < columns && row <= |outcomes|
    && (forall k :: 0 <= k < |runs| ==> Maximal(runs[k], outcomes, columns))
    && Ordered(runs)
    && var edge := if start.Some? then start.value else row;
    && (forall k :: 0 <= k < |runs| ==> runs[k].column < column || (runs[k].column == column && runs[k].last < edge))
    && ColumnsCovered(runs, outcomes, columns, column)
    && (forall i :: 0 <= i < edge <= |outcomes| && !outcomes[i][column].Skip? ==> CoveredBy(runs, i, column))
    && (start.Some? ==>
         start.value < row && Uniform(Segment(column, start.value, row - 1), outcomes, columns)
         && (start.value > 0 ==> !SameKind(outcomes[start.value - 1][column], outcomes[start.value][column])))
    && (start.None? && 0 < row < |outcomes| ==>
         outcomes[row][column].Skip? || !SameKind(outcomes[row - 1][column], outcomes[row][column]))
  }

  ghost predicate ColumnsCovered(runs: seq<Segment>, outcomes: seq<seq<Outcome>>, columns: nat, upTo: nat)
    requires Rectangular(|outcomes|, columns, outcomes)
  {
    upTo <= columns
    && forall i, j :: 0 <= i < |outcomes| && 0 <= j < upTo && !outcomes[i][j].Skip? ==> CoveredBy(runs, i, j)
  }

  lemma CoveredStays(runs: seq<Segment>, s: Segment, row: int, column: int)
    requires CoveredBy(runs, row, column) || InSegment(s, row, column)
    ensures CoveredBy(runs + [s], row, column)
  {
    if InSegment(s, row, column) {
      assert (runs + [s])[|runs|] == s;
    } else {
      var k :| 0 <= k < |runs| && InSegment(runs[k], row, column);
      assert (runs + [s])[k] == runs[k];
    }
  }

  lemma ClosedRunIsMaximal(outcomes: seq<seq<Outcome>>, columns: nat, column: nat, row: nat, start: nat)
    requires Rectangular(|outcomes|, columns, outcomes) && start < row <= |outcomes|
    requires Uniform(Segment(column, start, row - 1), outcomes, columns)
    requires start > 0 ==> !SameKind(outcomes[start - 1][column], outcomes[start][column])
    requires row < |outcomes| ==> !SameKind(outcomes[row][column], outcomes[start][column])
    ensures Maximal(Segment(column, start, row - 1), outcomes, columns)
    ensures row < |outcomes| ==> !SameKind(outcomes[row - 1][column], outcomes[row][column])
  {
    UniformKind(Segment(column, start, row - 1), outcomes, columns, row - 1, start);
  }

  lemma OrderedAppend(runs: seq<Segment>, s: Segment)
    requires Ordered(runs) && forall k :: 0 <= k < |runs| ==> Before(runs[k], s)
    ensures Ordered(runs + [s])
  {
  }

  /** Closing the open run just before `row` keeps the scan's account exact. */
  lemma CloseRun(runs: seq<Segment>, outcomes: seq<seq<Outcome>>, columns: nat, column: nat, row: nat, start: nat)
    requires Rectangular(|outcomes|, columns, outcomes)
    requires Scanned(runs, outcomes, columns, column, row, Some(start))
    requires row < |outcomes| ==> !SameKind(outcomes[row][column], outcomes[start][column])
    ensures Scanned(runs + [Segment(column, start, row - 1)], outcomes, columns, column, row, None)
  {
    hide Maximal, Uniform, Ordered, SameKind, CoveredBy;
    var s := Segment(column, start, row - 1);
    var more := runs + [s];
    ClosedRunIsMaximal(outcomes, columns, column, row, start);
    OrderedAppend(runs, s);
    forall i, j | 0 <= i < |outcomes| && 0 <= j < column && !outcomes[i][j].Skip? ensures CoveredBy(more, i, j) {
      CoveredStays(runs, s, i, j);
    }
    forall i | 0 <= i < row && !outcomes[i][column].Skip? ensures CoveredBy(more, i, column) {
      CoveredStays(runs, s, i, column);
    }
  }

  predicate NeedsSplit(outcomes: seq<seq<Outcome>>) {
    exists i, j :: 0 <= i < |outcomes| && 0 <= j < |outcomes[i]| && !outcomes[i][j].Write?
  }

  /** An absent or zero limit means the default. */
  function Limit(maxActions: Option<int>): int {
    if maxActions.None? || maxActions.value == 0 then DEFAULT_MAX_MAPPING_ACTIONS else maxActions.value
  }

  method Flush(actions: seq<Action>, ghost runs: seq<Segment>, start: Option<nat>, column: nat, row: nat,
               sheet: string, box: Region, values: seq<seq<string>>, outcomes: seq<seq<Outcome>>, columns: nat)
    returns (actions': seq<Action>, ghost runs': seq<Segment>)
    requires Shaped(values, outcomes, columns)
    requires Scanned(runs, outcomes, columns, column, row, start) && Renders(actions, runs, sheet, box, values, outcomes, columns)
    requires start.Some? && row < |outcomes| ==> !SameKind(outcomes[row][column], outcomes[start.value][column])
    ensures Scanned(runs', outcomes, columns, column, row, None)
    ensures Renders(actions', runs', sheet, box, values, outcomes, columns)
    ensures start.None? ==> actions' == actions
    ensures start.Some? ==>
              var s := Segment(column, start.value, row - 1);
              Uniform(s, outcomes, columns) && actions' == actions + [SegmentAction(s, sheet, box, values, outcomes, columns)]
  {
    actions', runs' := actions, runs;
    if start.Some? {
      var s := Segment(column, start.value, row - 1);
      CloseRun(runs, outcomes, columns, column, row, start.value);
      actions' := actions + [SegmentAction(s, sheet, box, values, outcomes, columns)];
      runs' := runs + [s];
    }
  }

  /** Scans one column, closing a run at each skip and each change of kind. */
  method ScanColumn(actions: seq<Action>, ghost runs: seq<Segment>, column: nat,
                    sheet: string, box: Region, values: seq<seq<string>>, outcomes: seq<seq<Outcome>>, columns: nat)
    returns (actions': seq<Action>, ghost runs': seq<Segment>)
    requires Shaped(values, outcomes, columns)
    requires Scanned(runs, outcomes, columns, column, 0, None) && Renders(actions, runs, sheet, box, values, outcomes, columns)
    ensures Scanned(runs', outcomes, columns, column, |outcomes|, None)
    ensures Renders(actions', runs', sheet, box, values, outcomes, columns)
    ensures actions <= actions'
  {
    hide Maximal, Uniform, Renders, Ordered, ColumnsCovered, SegmentAction;
    actions', runs' := actions, runs;
    var start: Option<nat> := None;
    var kind: Option<Kind> := None;
    for row := 0 to |outcomes|
      invariant Scanned(runs', outcomes, columns, column, row, start)
      invariant kind == match start case None => None case Some(f) => Some(KindOf(outcomes[f][column]))
      invariant kind != Some(SkipKind)
      invariant Renders(actions', runs', sheet, box, values, outcomes, columns)
      invariant actions <= actions'
    {
      var here := KindOf(outcomes[row][column]);
      if here == SkipKind {
        actions', runs' := Flush(actions', runs', start, column, row, sheet, box, values, outcomes, columns);
        SkipRow(runs', outcomes, columns, column, row);
        start, kind := None, None;
      } else if kind != Some(here) {
        actions', runs' := Flush(actions', runs', start, column, row, sheet, box, values, outcomes, columns);
        OpenRun(runs', outcomes, columns, column, row);
        start, kind := Some(row), Some(here);
      } else {
        ExtendRun(runs', outcomes, columns, column, row, start.value);
      }
    }
    actions', runs' := Flush(actions', runs', start, column, |outcomes|, sheet, box, values, outcomes, columns);
  }

  /** Splits a target block; `runs` is the decomposition the actions render. */
  method SplitTargetActions(sheet: string, box: Region, range: string, values: seq<seq<string>>,
                            outcomes: seq<seq<Outcome>>, maxActions: Option<int>)
    returns (r: Result<seq<Action>, SplitError>, ghost runs: seq<Segment>)
    requires |outcomes| == box.Rows() && Shaped(values, outcomes, box.Columns())
    ensures !NeedsSplit(outcomes) ==> r == Ok([WriteValues(sheet, range, values)])
    ensures NeedsSplit(outcomes) ==> IsRunDecomposition(runs, outcomes, box.Columns())
    ensures NeedsSplit(outcomes) && |runs| > Limit(maxActions) ==> r == Err(BlankSplitLimit(|runs|, Limit(maxActions)))
    ensures NeedsSplit(outcomes) && |runs| <= Limit(maxActions) ==>
              r.Ok? && Renders(r.value, runs, sheet, box, values, outcomes, box.Columns())
  {
    runs := [];
    if !NeedsSplit(outcomes) {
      return Ok([WriteValues(sheet, range, values)]), runs;
    }
    var columns := box.Columns();
    var actions: seq<Action> := [];
    for column := 0 to columns
      invariant ColumnsDone(runs, outcomes, columns, column)
      invariant Renders(actions, runs, sheet, box, values, outcomes, columns)
    {
      actions, runs := ScanColumn(actions, runs, column, sheet, box, values, outcomes, columns);
      FinishColumn(runs, outcomes, columns, column);
    }
    r := if |actions| > Limit(maxActions) then Err(BlankSplitLimit(|actions|, Limit(maxActions))) else Ok(actions);
  }

  /** Every column before `upTo` is decomposed. */
  ghost predicate ColumnsDone(runs: seq<Segment>, outcomes: seq<seq<Outcome>>, columns: nat, upTo: nat)
    requires Rectangular(|outcomes|, columns, outcomes)
  {
    && (forall k :: 0 <= k < |runs| ==> Maximal(runs[k], outcomes, columns) && runs[k].column < upTo)
    && Ordered(runs) && ColumnsCovered(runs, outcomes, columns, upTo)
  }

  lemma FinishColumn(runs: seq<Segment>, outcomes: seq<seq<Outcome>>, columns: nat, column: nat)
    requires Rectangular(|outcomes|, columns, outcomes)
    requires Scanned(runs, outcomes, columns, column, |outcomes|, None)
    ensures ColumnsDone(runs, outcomes, columns, column + 1)
  {
  }

  lemma SkipRow(runs: seq<Segment>, outcomes: seq<seq<Outcome>>, columns: nat, column: nat, row: nat)
    requires Rectangular(|outcomes|, columns, outcomes) && row < |outcomes|
    requires Scanned(runs, outcomes, columns, column, row, None) && outcomes[row][column].Skip?
    ensures Scanned(runs, outcomes, columns, column, row + 1, None)
  {
  }

  lemma OpenRun(runs: seq<Segment>, outcomes: seq<seq<Outcome>>, columns: nat, column: nat, row: nat)
    requires Rectangular(|outcomes|, columns, outcomes) && row < |outcomes|
    requires Scanned(runs, outcomes, columns, column, row, None) && !outcomes[row][column].Skip?
    ensures Scanned(runs, outcomes, columns, column, row + 1, Some(row))
  {
  }

  lemma ExtendRun(runs: seq<Segment>, outcomes: seq<seq<Outcome>>, columns: nat, column: nat, row: nat, start: nat)
    requires Rectangular(|outcomes|, columns, outcomes) && row < |outcomes|
    requires Scanned(runs, outcomes, columns, column, row, Some(start)) && SameKind(outcomes[row][column], outcomes[start][column])
    ensures Scanned(runs, outcomes, columns, column, row + 1, Some(start))
  {
  }
}
