/** A whole column mapping: shape checks, classification of every source cell, and the
    compiled write actions. */
module ColumnMapping {
  import opened Wrappers
  import opened A1Notation
  import opened MappingCells
  import opened MappingSplit
  import opened MappingMeaning

  datatype Request = Request(
    sourceSheet: string,
    targetSheet: string,
    sourceRange: string,
    targetRange: string,
    source: seq<seq<Cell>>,
    mapping: Mapping,
    policy: Option<Policy>,
    blankLabel: Option<string>,
    delimiters: seq<string>,
    ranks: seq<RankEntry>,
    undeclared: seq<string>,
    maxActions: Option<int>)
  {
    /** A structured policy wins; a nonempty legacy label means that value; otherwise undecided. */
    function EffectivePolicy(): Policy {
      match policy
      case Some(p) => p
      case None => if blankLabel.Some? && blankLabel.value != "" then Fill(blankLabel.value) else Undecided
    }

    function Rules(): Rules { MappingCells.Rules.Rules(mapping, EffectivePolicy(), delimiters, ranks, undeclared) }
  }

  datatype BuildError =
    | EmptySheetName
    | BadRange(range: string)
    | ShapeMismatch
    | Overlapping
    | Mapping(error: MapError)
    | BlankPolicyNeeded(blanks: nat)
    | SplitLimit(required: nat, limit: int)

  predicate Overlap(a: Box, b: Box) {
    a.top <= b.bottom && b.top <= a.bottom && a.left <= b.right && b.left <= a.right
  }

  ghost predicate ShareCell(a: Box, b: Box) { exists row, column :: a.Contains(row, column) && b.Contains(row, column) }

  lemma OverlapIsASharedCell(a: Region, b: Region)
    ensures Overlap(a, b) <==> ShareCell(a, b)
  {
    var row, column := if a.top < b.top then b.top else a.top, if a.left < b.left then b.left else a.left;
    assert Overlap(a, b) ==> a.Contains(row, column) && b.Contains(row, column);
  }

  /** The checks that need no source values; yields the source and target rectangles. */
  function ValidateShape(q: Request): (r: Result<(Region, Region), BuildError>)
    ensures r.Ok? ==> ParseBox(q.sourceRange) == Parsed(r.value.0) && ParseBox(q.targetRange) == Parsed(r.value.1)
                      && r.value.0.Rows() == r.value.1.Rows() && r.value.0.Columns() == r.value.1.Columns()
                      && (q.sourceSheet == q.targetSheet ==> !ShareCell(r.value.0, r.value.1))
    ensures r == Err(EmptySheetName) <==> Strip(q.sourceSheet) == "" || Strip(q.targetSheet) == ""
    ensures r.Err? ==>
              var s, t := ParseBox(q.sourceRange), ParseBox(q.targetRange);
              match r.error
              case EmptySheetName => true
              case BadRange(range) => (range == q.sourceRange || range == q.targetRange) && !ParseBox(range).Parsed?
              case ShapeMismatch => s.Parsed? && t.Parsed? && !(s.box.Rows() == t.box.Rows() && s.box.Columns() == t.box.Columns())
              case Overlapping =>
                s.Parsed? && t.Parsed? && s.box.Rows() == t.box.Rows() && s.box.Columns() == t.box.Columns()
                && q.sourceSheet == q.targetSheet && ShareCell(s.box, t.box)
              case _ => false
  {
    if Strip(q.sourceSheet) == "" || Strip(q.targetSheet) == "" then Err(EmptySheetName)
    else
      var s, t := ParseBox(q.sourceRange), ParseBox(q.targetRange);
      if !s.Parsed? then Err(BadRange(q.sourceRange))
      else if !t.Parsed? then Err(BadRange(q.targetRange))
      else
        OverlapIsASharedCell(s.box, t.box);
        if t.box.Rows() != s.box.Rows() || t.box.Columns() != s.box.Columns() then Err(ShapeMismatch)
        else if q.sourceSheet == q.targetSheet && Overlap(s.box, t.box) then Err(Overlapping)
        else Ok((s.box, t.box))
  }

  function SkipsInRow(row: seq<Outcome>): nat {
    if row == [] then 0 else SkipsInRow(row[..|row| - 1]) + (if row[|row| - 1].Skip? then 1 else 0)
  }

  function Skips(rows: seq<seq<Outcome>>): nat {
    if rows == [] then 0 else Skips(rows[..|rows| - 1]) + SkipsInRow(rows[|rows| - 1])
  }

  datatype Prepared = Prepared(from: Region, target: Region, mapped: Mapped)

  predicate SourceShaped(source: seq<seq<Cell>>, box: Box) {
    |source| == box.Rows() && forall i :: 0 <= i < |source| ==> |source[i]| == box.Columns()
  }

  /** Everything before the split, in the order its errors take precedence. */
  function Prepare(q: Request): (r: Result<Prepared, BuildError>)
    ensures r.Ok? ==> SourceShaped(q.source, r.value.target) && ParseBox(q.targetRange) == Parsed(r.value.target)
  {
    var shape := ValidateShape(q);
    if shape.Err? then Err(shape.error)
    else if !SourceShaped(q.source, shape.value.0) then Err(ShapeMismatch)
    else
      var mapped := MapRegion(q.source, q.Rules());
      if mapped.Err? then Err(Mapping(mapped.error))
      else if q.EffectivePolicy() == Undecided && Skips(mapped.value.outcomes) != 0
      then Err(BlankPolicyNeeded(Skips(mapped.value.outcomes)))
      else Ok(Prepared(shape.value.0, shape.value.1, mapped.value))
  }

  lemma PreparedIsShaped(q: Request)
    requires Prepare(q).Ok?
    ensures var p := Prepare(q).value;
            |p.mapped.outcomes| == p.target.Rows() && Shaped(p.mapped.values, p.mapped.outcomes, p.target.Columns())
  {
    hide OutcomeOf, Entry, Skips, PolicyFails, AmbiguousGaps, UncoveredGaps, Flat, ParseBox, Overlap, Strip;
  }

  /** Running the actions in any order leaves every source cell as it was. */
  ghost predicate LeavesSourceAlone(actions: seq<Action>, sheet: string, box: Region) {
    forall order, row, column, before :: multiset(order) == multiset(actions) && box.Contains(row, column) ==>
      Run(order, sheet, row, column, before) == before
  }

  /** The guarantee of a successful build. */
  ghost predicate Delivers(q: Request, actions: seq<Action>)
    requires Prepare(q).Ok?
  {
    PreparedIsShaped(q);
    var p := Prepare(q).value;
    var outcomes := OutcomeRows(q.source, q.Rules());
    && p.mapped == Mapped(EntryRows(outcomes), outcomes)
    && Realises(actions, q.targetSheet, p.target, p.mapped.values, outcomes)
    && RangesPartition(actions, q.targetSheet, p.target, outcomes)
    && LeavesSourceAlone(actions, q.sourceSheet, p.from)
  }

  /** No cover of the positions to land fits in `n` single-column actions. */
  ghost predicate EveryCoverExceeds(q: Request, n: int)
    requires Prepare(q).Ok?
  {
    PreparedIsShaped(q);
    var p := Prepare(q).value;
    forall cover :: IsCover(cover, p.mapped.outcomes, p.target.Columns()) ==> |cover| > n
  }

  lemma SourceIsSafe(q: Request, actions: seq<Action>)
    requires Prepare(q).Ok?
    requires var p := Prepare(q).value;
             |p.mapped.outcomes| == p.target.Rows() && Shaped(p.mapped.values, p.mapped.outcomes, p.target.Columns())
             && Realises(actions, q.targetSheet, p.target, p.mapped.values, p.mapped.outcomes)
    ensures LeavesSourceAlone(actions, q.sourceSheet, Prepare(q).value.from)
  {
    hide Run;
    var p := Prepare(q).value;
    forall order, row, column, before | multiset(order) == multiset(actions) && p.from.Contains(row, column)
      ensures Run(order, q.sourceSheet, row, column, before) == before
    {
      assert Run(order, q.sourceSheet, row, column, before)
          == Target(q.targetSheet, p.target, p.mapped.values, p.mapped.outcomes, q.sourceSheet, row, column, before);
    }
  }

  /** The split limit is exceeded by the runs exactly when it is exceeded by every cover. */
  lemma LimitIsAboutEveryCover(q: Request, runs: seq<Segment>, limit: int)
    requires Prepare(q).Ok?
    requires var p := Prepare(q).value;
             Rectangular(|p.mapped.outcomes|, p.target.Columns(), p.mapped.outcomes)
             && IsRunDecomposition(runs, p.mapped.outcomes, p.target.Columns())
    ensures |runs| > limit <==> EveryCoverExceeds(q, limit)
    ensures EveryCoverExceeds(q, |runs| - 1)
  {
    var p := Prepare(q).value;
    forall cover | IsCover(cover, p.mapped.outcomes, p.target.Columns()) ensures |runs| <= |cover| {
      RunDecompositionIsMinimal(runs, cover, p.mapped.outcomes, p.target.Columns());
    }
    assert IsCover(runs, p.mapped.outcomes, p.target.Columns());
  }

  /** The result of a build whose preparation succeeded: the actions deliver, and their number
      or the refusal is measured against every cover of the positions to land. */
  ghost predicate Answers(q: Request, r: Result<seq<Action>, BuildError>)
    requires Prepare(q).Ok?
  {
    var split := NeedsSplit(Prepare(q).value.mapped.outcomes);
    match r
    case Ok(actions) =>
      Delivers(q, actions)
      && (if split then EveryCoverExceeds(q, |actions| - 1) && !EveryCoverExceeds(q, Limit(q.maxActions)) else |actions| == 1)
    case Err(e) =>
      split && e.SplitLimit? && e.limit == Limit(q.maxActions) && EveryCoverExceeds(q, e.limit)
      && EveryCoverExceeds(q, e.required - 1) && !EveryCoverExceeds(q, e.required)
  }

  /** What the splitter returned answers the request. */
  lemma SplitAnswers(q: Request, split: Result<seq<Action>, SplitError>, runs: seq<Segment>)
    requires Prepare(q).Ok?
    requires var p := Prepare(q).value;
             && |p.mapped.outcomes| == p.target.Rows() && Shaped(p.mapped.values, p.mapped.outcomes, p.target.Columns())
             && NeedsSplit(p.mapped.outcomes) && IsRunDecomposition(runs, p.mapped.outcomes, p.target.Columns())
             && (|runs| > Limit(q.maxActions) ==> split == Err(BlankSplitLimit(|runs|, Limit(q.maxActions))))
             && (|runs| <= Limit(q.maxActions) ==>
                   split.Ok? && Renders(split.value, runs, q.targetSheet, p.target, p.mapped.values, p.mapped.outcomes, p.target.Columns()))
    ensures Answers(q, if split.Ok? then Ok(split.value) else Err(SplitLimit(split.error.required, split.error.limit)))
  {
    hide Realises, RangesPartition, LeavesSourceAlone, Prepare, IsRunDecomposition, EveryCoverExceeds, Renders;
    var p := Prepare(q).value;
    MappedIsOutcomes(q);
    LimitIsAboutEveryCover(q, runs, Limit(q.maxActions));
    LimitIsAboutEveryCover(q, runs, |runs|);
    if split.Ok? {
      RendersCounts(split.value, runs, q.targetSheet, p.target, p.mapped.values, p.mapped.outcomes, p.target.Columns());
      SplitMeansOutcomes(split.value, runs, q.targetSheet, p.target, p.mapped.values, p.mapped.outcomes);
      SplitRangesPartition(split.value, runs, q.targetSheet, p.target, p.mapped.values, p.mapped.outcomes);
      SourceIsSafe(q, split.value);
    }
  }

  lemma RendersCounts(actions: seq<Action>, runs: seq<Segment>, sheet: string, box: Region,
                      values: seq<seq<string>>, outcomes: seq<seq<Outcome>>, columns: nat)
    requires Shaped(values, outcomes, columns) && Renders(actions, runs, sheet, box, values, outcomes, columns)
    ensures |actions| == |runs|
  {
  }

  lemma BlockAnswers(q: Request)
    requires Prepare(q).Ok? && !NeedsSplit(Prepare(q).value.mapped.outcomes)
    ensures Answers(q, Ok([WriteValues(q.targetSheet, q.targetRange, Prepare(q).value.mapped.values)]))
  {
    hide Realises, RangesPartition, LeavesSourceAlone, Prepare, NeedsSplit;
    var p := Prepare(q).value;
    PreparedIsShaped(q);
    MappedIsOutcomes(q);
    BlockMeansOutcomes(q.targetSheet, q.targetRange, p.target, p.mapped.values, p.mapped.outcomes);
    SourceIsSafe(q, [WriteValues(q.targetSheet, q.targetRange, p.mapped.values)]);
  }

  /** Builds the write actions of a column mapping. */
  method BuildColumnMappingActions(q: Request) returns (r: Result<seq<Action>, BuildError>)
    ensures Prepare(q).Err? ==> r == Err(Prepare(q).error)
    ensures Prepare(q).Ok? ==> Answers(q, r)
  {
    hide Answers, MapRegion, IsRunDecomposition, Skips, Renders, NeedsSplit, ParseBox, SourceShaped;
    var shape := ValidateShape(q);
    if shape.Err? { return Err(shape.error); }
    var (from, target) := shape.value;
    if !SourceShaped(q.source, from) { return Err(ShapeMismatch); }
    var policy := q.EffectivePolicy();
    var mapping := MapColumnCells(q.source, q.Rules());
    if mapping.Err? { return Err(Mapping(mapping.error)); }
    var mapped := mapping.value;
    if policy == Undecided {
      var blanks := Skips(mapped.outcomes);
      if blanks != 0 { return Err(BlankPolicyNeeded(blanks)); }
    }
    PreparedIsShaped(q);
    var split, runs := SplitTargetActions(q.targetSheet, target, q.targetRange, mapped.values, mapped.outcomes, q.maxActions);
    if NeedsSplit(mapped.outcomes) {
      SplitAnswers(q, split, runs);
    } else {
      BlockAnswers(q);
    }
    r := if split.Ok? then Ok(split.value) else Err(SplitLimit(split.error.required, split.error.limit));
  }

  lemma MappedIsOutcomes(q: Request)
    requires Prepare(q).Ok?
    ensures var outcomes := OutcomeRows(q.source, q.Rules());
            Prepare(q).value.mapped == Mapped(EntryRows(outcomes), outcomes)
            && ParseBox(q.targetRange) == Parsed(Prepare(q).value.target)
  {
    hide OutcomeRows, EntryRows, Skips, PolicyFails, AmbiguousGaps, UncoveredGaps, Flat;
  }

  lemma OutcomeAt(q: Request, i: nat, j: nat)
    requires Prepare(q).Ok? && i < |q.source| && j < |q.source[i]|
    ensures var outcomes := OutcomeRows(q.source, q.Rules());
            Resolvable(q.source[i][j], q.Rules())
            && Judge(q.source[i][j], q.Rules()).Lands?
            && outcomes[i][j] == Judge(q.source[i][j], q.Rules()).outcome
            && EntryRows(outcomes)[i][j] == Entry(outcomes[i][j])
  {
    hide Judge, Resolvable, MapRegion, Skips;
    MappingSucceedsExactlyWhenResolvable(q.source, q.Rules());
    CellInFlat(q.source, i, j);
    LandsExactlyWhenResolvable(q.source[i][j], q.Rules());
  }

  function LandedBy(o: Outcome, before: Content): Content {
    match o
    case Write(v) => Literal(v)
    case Clear => Empty
    case Skip => before
  }

  /** End to end, one cell: after a successful build every order of the actions leaves the
      target of source cell (i, j) holding what the rules say about that source cell. */
  lemma DeliveredCell(q: Request, actions: seq<Action>, order: seq<Action>, i: nat, j: nat, before: Content)
    requires Prepare(q).Ok? && Delivers(q, actions) && multiset(order) == multiset(actions)
    requires i < |q.source| && j < |q.source[i]|
    ensures var t := Prepare(q).value.target;
            Resolvable(q.source[i][j], q.Rules())
            && Judge(q.source[i][j], q.Rules()).Lands?
            && Run(order, q.targetSheet, t.top + i, t.left + j, before)
               == LandedBy(Judge(q.source[i][j], q.Rules()).outcome, before)
  {
    hide Run, RangesPartition, LeavesSourceAlone, Judge, Resolvable, Prepare, OutcomeRows, EntryRows;
    PreparedIsShaped(q);
    OutcomeAt(q, i, j);
    var p := Prepare(q).value;
    assert Run(order, q.targetSheet, p.target.top + i, p.target.left + j, before)
        == Target(q.targetSheet, p.target, p.mapped.values, p.mapped.outcomes,
                  q.targetSheet, p.target.top + i, p.target.left + j, before);
  }
}
