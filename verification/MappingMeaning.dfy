/** What the compiled actions do to a sheet: every order of running them gives each
    position the outcome it was compiled from and leaves everything else alone. */
module MappingMeaning {
  import opened Wrappers
  import opened A1Notation
  import opened MappingCells
  import opened MappingSplit

  /** The content an outcome asks for at a position whose matrix value is `value`. */
  function Landed(o: Outcome, value: string, before: Content): Content {
    match o
    case Write(_) => Literal(value)
    case Clear => Empty
    case Skip => before
  }

  /** The content the whole outcome matrix asks for at one cell of a workbook. */
  function Target(sheet: string, box: Region, values: seq<seq<string>>, outcomes: seq<seq<Outcome>>,
                  onSheet: string, row: int, column: int, before: Content): Content
    requires |outcomes| == box.Rows() && Shaped(values, outcomes, box.Columns())
  {
    if onSheet == sheet && box.Contains(row, column) then
      var i, j := row - box.top, column - box.left;
      Landed(outcomes[i][j], values[i][j], before)
    else before
  }

  /** Every order of the actions yields the target content on every cell of every sheet. */
  ghost predicate Realises(actions: seq<Action>, sheet: string, box: Region, values: seq<seq<string>>, outcomes: seq<seq<Outcome>>)
    requires |outcomes| == box.Rows() && Shaped(values, outcomes, box.Columns())
  {
    forall order, onSheet, row, column, before :: multiset(order) == multiset(actions) ==>
      Run(order, onSheet, row, column, before) == Target(sheet, box, values, outcomes, onSheet, row, column, before)
  }

  ghost predicate TouchedBySome(actions: seq<Action>, onSheet: string, row: int, column: int) {
    exists a :: a in actions && Touches(a, onSheet, row, column)
  }

  /** No cell is in two ranges, and the ranges hold exactly the positions that are not skipped. */
  ghost predicate RangesPartition(actions: seq<Action>, sheet: string, box: Region, outcomes: seq<seq<Outcome>>)
    requires |outcomes| == box.Rows() && Rectangular(|outcomes|, box.Columns(), outcomes)
  {
    && (forall k, l, onSheet, row, column :: 0 <= k < l < |actions| && Touches(actions[k], onSheet, row, column) ==>
          !Touches(actions[l], onSheet, row, column))
    && forall onSheet, row, column :: TouchedBySome(actions, onSheet, row, column) <==>
         NotSkipped(sheet, box, outcomes, onSheet, row, column)
  }

  /** Every action that touches the cell leaves `x` there. */
  ghost predicate AgreeOn(actions: seq<Action>, onSheet: string, row: int, column: int, x: Content) {
    forall a, before :: a in actions && Touches(a, onSheet, row, column) ==> Effect(a, onSheet, row, column, before) == x
  }

  lemma {:induction false} RunOfAgreeing(order: seq<Action>, onSheet: string, row: int, column: int, x: Content, before: Content)
    requires AgreeOn(order, onSheet, row, column, x)
    ensures Run(order, onSheet, row, column, before)
            == if TouchedBySome(order, onSheet, row, column) then x else before
  {
    if order != [] {
      var n := |order| - 1;
      assert forall a :: a in order <==> a in order[..n] || a == order[n];
      RunOfAgreeing(order[..n], onSheet, row, column, x, before);
      assert TouchedBySome(order, onSheet, row, column)
        <==> TouchedBySome(order[..n], onSheet, row, column) || Touches(order[n], onSheet, row, column);
    }
  }

  /** A rendered segment parses back to its own rows and column. */
  lemma SegmentRange(s: Segment, box: Region)
    requires s.first <= s.last
    ensures ParseBox(SegmentText(s, box))
            == Parsed(Box(box.top + s.first, box.left + s.column, box.top + s.last, box.left + s.column))
  {
    hide ParseBox, CornersText;
    BoxTextRoundTrip(box.left + s.column, box.top + s.first, box.left + s.column, box.top + s.last);
  }

  /** One rendered segment lands exactly its own positions. */
  lemma SegmentActionMeaning(s: Segment, sheet: string, box: Region, values: seq<seq<string>>, outcomes: seq<seq<Outcome>>,
                             onSheet: string, row: int, column: int, before: Content)
    requires |outcomes| == box.Rows()
    requires Shaped(values, outcomes, box.Columns()) && Uniform(s, outcomes, box.Columns())
    ensures var a := SegmentAction(s, sheet, box, values, outcomes, box.Columns());
            && (Touches(a, onSheet, row, column) <==> onSheet == sheet && InSegment(s, row - box.top, column - box.left))
            && (Touches(a, onSheet, row, column) ==>
                  box.Contains(row, column)
                  && !outcomes[row - box.top][column - box.left].Skip?
                  && Effect(a, onSheet, row, column, before)
                     == Target(sheet, box, values, outcomes, onSheet, row, column, before))
  {
    hide ParseBox, SegmentText;
    SegmentRange(s, box);
    if InSegment(s, row - box.top, column - box.left) {
      UniformKind(s, outcomes, box.Columns(), row - box.top, s.first);
    }
  }

  predicate NotSkipped(sheet: string, box: Region, outcomes: seq<seq<Outcome>>, onSheet: string, row: int, column: int)
    requires |outcomes| == box.Rows() && Rectangular(|outcomes|, box.Columns(), outcomes)
  {
    onSheet == sheet && box.Contains(row, column) && !outcomes[row - box.top][column - box.left].Skip?
  }

  /** The rendered runs touch a cell exactly when its outcome is not a skip. */
  lemma TouchedExactlyWhenNotSkipped(actions: seq<Action>, runs: seq<Segment>, sheet: string, box: Region,
                                     values: seq<seq<string>>, outcomes: seq<seq<Outcome>>,
                                     onSheet: string, row: int, column: int)
    requires |outcomes| == box.Rows() && Shaped(values, outcomes, box.Columns())
    requires IsRunDecomposition(runs, outcomes, box.Columns())
    requires Renders(actions, runs, sheet, box, values, outcomes, box.Columns())
    ensures TouchedBySome(actions, onSheet, row, column) <==> NotSkipped(sheet, box, outcomes, onSheet, row, column)
  {
    hide Touches, SegmentAction, Maximal, Uniform;
    if a :| a in actions && Touches(a, onSheet, row, column) {
      var k :| 0 <= k < |actions| && actions[k] == a;
      SegmentActionMeaning(runs[k], sheet, box, values, outcomes, onSheet, row, column, Empty);
    }
    if NotSkipped(sheet, box, outcomes, onSheet, row, column) {
      assert CoveredBy(runs, row - box.top, column - box.left);
      var k :| 0 <= k < |runs| && InSegment(runs[k], row - box.top, column - box.left);
      SegmentActionMeaning(runs[k], sheet, box, values, outcomes, onSheet, row, column, Empty);
      assert actions[k] in actions;
    }
  }

  lemma RenderedActionsAgree(actions: seq<Action>, runs: seq<Segment>, sheet: string, box: Region,
                             values: seq<seq<string>>, outcomes: seq<seq<Outcome>>,
                             onSheet: string, row: int, column: int, before: Content)
    requires |outcomes| == box.Rows() && Shaped(values, outcomes, box.Columns())
    requires Renders(actions, runs, sheet, box, values, outcomes, box.Columns())
    ensures AgreeOn(actions, onSheet, row, column, Target(sheet, box, values, outcomes, onSheet, row, column, before))
  {
    hide Touches, SegmentAction, Effect, Uniform;
    forall a, any | a in actions && Touches(a, onSheet, row, column)
      ensures Effect(a, onSheet, row, column, any) == Target(sheet, box, values, outcomes, onSheet, row, column, before)
    {
      var k :| 0 <= k < |actions| && actions[k] == a;
      SegmentActionMeaning(runs[k], sheet, box, values, outcomes, onSheet, row, column, any);
    }
  }

  /** The split actions mean the outcome matrix, in every order of execution. */
  lemma SplitMeansOutcomes(actions: seq<Action>, runs: seq<Segment>, sheet: string, box: Region,
                           values: seq<seq<string>>, outcomes: seq<seq<Outcome>>)
    requires |outcomes| == box.Rows() && Shaped(values, outcomes, box.Columns())
    requires IsRunDecomposition(runs, outcomes, box.Columns())
    requires Renders(actions, runs, sheet, box, values, outcomes, box.Columns())
    ensures Realises(actions, sheet, box, values, outcomes)
  {
    hide IsRunDecomposition, Renders, Run, Touches;
    forall order, onSheet, row, column, before | multiset(order) == multiset(actions)
      ensures Run(order, onSheet, row, column, before) == Target(sheet, box, values, outcomes, onSheet, row, column, before)
    {
      var x := Target(sheet, box, values, outcomes, onSheet, row, column, before);
      assert forall a :: (a in order <==> a in multiset(order)) && (a in actions <==> a in multiset(actions));
      RenderedActionsAgree(actions, runs, sheet, box, values, outcomes, onSheet, row, column, before);
      TouchedExactlyWhenNotSkipped(actions, runs, sheet, box, values, outcomes, onSheet, row, column);
      RunOfAgreeing(order, onSheet, row, column, x, before);
      assert TouchedBySome(order, onSheet, row, column) <==> TouchedBySome(actions, onSheet, row, column);
    }
  }

  /** The split ranges are disjoint and hold exactly the positions that are not skipped. */
  lemma SplitRangesPartition(actions: seq<Action>, runs: seq<Segment>, sheet: string, box: Region,
                             values: seq<seq<string>>, outcomes: seq<seq<Outcome>>)
    requires |outcomes| == box.Rows() && Shaped(values, outcomes, box.Columns())
    requires IsRunDecomposition(runs, outcomes, box.Columns())
    requires Renders(actions, runs, sheet, box, values, outcomes, box.Columns())
    ensures RangesPartition(actions, sheet, box, outcomes)
  {
    hide Touches, SegmentAction, Maximal, Uniform;
    forall onSheet, row, column
      ensures TouchedBySome(actions, onSheet, row, column) <==> NotSkipped(sheet, box, outcomes, onSheet, row, column)
    {
      TouchedExactlyWhenNotSkipped(actions, runs, sheet, box, values, outcomes, onSheet, row, column);
    }
    forall k, l, onSheet, row, column | 0 <= k < l < |actions| && Touches(actions[k], onSheet, row, column)
      ensures !Touches(actions[l], onSheet, row, column)
    {
      SegmentActionMeaning(runs[k], sheet, box, values, outcomes, onSheet, row, column, Empty);
      SegmentActionMeaning(runs[l], sheet, box, values, outcomes, onSheet, row, column, Empty);
      assert Before(runs[k], runs[l]);
    }
  }

  /** One block write means a matrix with nothing skipped or cleared. */
  lemma BlockMeansOutcomes(sheet: string, range: string, box: Region, values: seq<seq<string>>, outcomes: seq<seq<Outcome>>)
    requires |outcomes| == box.Rows() && Shaped(values, outcomes, box.Columns())
    requires ParseBox(range) == Parsed(box) && !NeedsSplit(outcomes)
    ensures Realises([WriteValues(sheet, range, values)], sheet, box, values, outcomes)
    ensures RangesPartition([WriteValues(sheet, range, values)], sheet, box, outcomes)
  {
    hide ParseBox;
    var a := WriteValues(sheet, range, values);
    forall order, onSheet, row, column, before | multiset(order) == multiset([a])
      ensures Run(order, onSheet, row, column, before) == Target(sheet, box, values, outcomes, onSheet, row, column, before)
    {
      assert |multiset(order)| == |order|;
      assert order[0] in multiset(order);
      assert order == [a];
      assert Run([], onSheet, row, column, before) == before;
      assert [a][..0] == [];
    }
    assert forall onSheet, row, column :: TouchedBySome([a], onSheet, row, column) <==> Touches(a, onSheet, row, column);
  }
}
