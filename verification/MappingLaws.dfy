/** What a column mapping promises, cell by cell and word by word: which label a cell gets,
    what becomes of a blank one under each policy, and which item of a cell wins. */
module MappingLaws {
  import opened Wrappers
  import opened A1Notation
  import opened A1Grammar
  import opened MappingCells
  import opened MappingSplit
  import opened MappingMeaning
  import opened ColumnMapping

  // ------------------------------------------------------------------- the mapping

  /** The mapping has this entry. */
  predicate HasEntry(m: Mapping, key: string, named: string) { exists k :: 0 <= k < |m| && m[k] == (key, named) }

  predicate HasKey(m: Mapping, key: string) { exists k :: 0 <= k < |m| && m[k].0 == key }

  lemma EntriesExactly(m: Mapping, key: string, named: string)
    ensures Covers(m, key) <==> HasKey(m, key)
    ensures HasEntry(m, key, named) <==> Covers(m, key) && Label(m, key) == named
  {
    if Covers(m, key) { assert m[Order(m, key)].0 == key; }
  }

  lemma DeclaredAt(m: Mapping, k: nat)
    requires k < |m|
    ensures Order(m, m[k].0) == k
  {
  }

  // --------------------------------------------------------------------- priorities

  /** The rank a value is given: the last entry that names it counts. */
  ghost predicate Ranked(ranks: seq<RankEntry>, value: string, rank: int) {
    exists k :: LastRank(ranks, value, rank, k)
  }

  predicate LastRank(ranks: seq<RankEntry>, value: string, rank: int, k: int) {
    0 <= k < |ranks| && ranks[k] == RankEntry(value, rank) && forall l :: k < l < |ranks| ==> ranks[l].value != value
  }

  predicate Unranked(ranks: seq<RankEntry>, value: string) { forall k :: 0 <= k < |ranks| ==> ranks[k].value != value }

  lemma {:induction false} RanksExactly(ranks: seq<RankEntry>, value: string, rank: int)
    ensures RankOf(ranks, value) == Some(rank) <==> Ranked(ranks, value, rank)
    ensures RankOf(ranks, value) == None <==> Unranked(ranks, value)
  {
    if ranks != [] {
      var n := |ranks| - 1;
      RanksExactly(ranks[..n], value, rank);
      if ranks[n].value == value {
        assert LastRank(ranks, value, ranks[n].rank, n);
        assert forall k, r :: LastRank(ranks, value, r, k) ==> k == n;
      } else {
        assert forall k, r :: LastRank(ranks, value, r, k) <==> LastRank(ranks[..n], value, r, k);
      }
    }
  }

  predicate DeclaredBefore(m: Mapping, a: string, b: string) {
    exists k, l :: 0 <= k < l < |m| && m[k].0 == a && m[l].0 == b
  }

  /** `a` has priority over `b`: a higher rank, a rank where the other has none, or the same
      standing and an earlier declaration. */
  ghost predicate HasPriority(rules: Rules, a: string, b: string) {
    || (exists r, s :: Ranked(rules.ranks, a, r) && Ranked(rules.ranks, b, s) && r > s)
    || (Unranked(rules.ranks, b) && exists r :: Ranked(rules.ranks, a, r))
    || (DeclaredBefore(rules.mapping, a, b)
        && ((Unranked(rules.ranks, a) && Unranked(rules.ranks, b))
            || exists r :: Ranked(rules.ranks, a, r) && Ranked(rules.ranks, b, r)))
  }

  /** The comparison answers with these priorities. */
  lemma PrioritiesExactly(rules: Rules, a: string, b: string)
    requires HasKey(rules.mapping, a) && HasKey(rules.mapping, b)
    ensures CompareRank(a, b, rules) > 0 <==> HasPriority(rules, a, b)
    ensures CompareRank(a, b, rules) < 0 <==> HasPriority(rules, b, a)
  {
    var m, ranks := rules.mapping, rules.ranks;
    forall v, r ensures (RankOf(ranks, v) == Some(r) <==> Ranked(ranks, v, r)) && (RankOf(ranks, v) == None <==> Unranked(ranks, v)) {
      RanksExactly(ranks, v, r);
    }
    hide RankOf, Ranked, Unranked;
    EntriesExactly(m, a, "");
    EntriesExactly(m, b, "");
    forall k | 0 <= k < |m| ensures Order(m, m[k].0) == k { DeclaredAt(m, k); }
    assert DeclaredBefore(m, a, b) <==> Order(m, a) < Order(m, b);
    assert DeclaredBefore(m, b, a) <==> Order(m, b) < Order(m, a);
    hide Order, DeclaredBefore;
    assert RankOf(ranks, a).Some? ==> Ranked(ranks, a, RankOf(ranks, a).value);
    assert RankOf(ranks, b).Some? ==> Ranked(ranks, b, RankOf(ranks, b).value);
  }

  /** The item that wins has priority over every other item of its cell, and there is only one
      such item. */
  lemma WinnerHasPriority(items: seq<string>, rules: Rules, w: string)
    requires items != [] && forall x :: x in items ==> HasKey(rules.mapping, x)
    ensures w == Winner(items, rules) <==> w in items && forall x :: x in items && x != w ==> HasPriority(rules, w, x)
  {
    hide Winner, HasPriority, CompareRank, HasKey;
    forall x | x in items ensures Covers(rules.mapping, x) { EntriesExactly(rules.mapping, x, ""); }
    var top := Winner(items, rules);
    WinnerIsTop(items, rules);
    forall x | x in items && x != top ensures HasPriority(rules, top, x) && !HasPriority(rules, x, top) {
      CompareRankIsTotalOrder(x, top, x, rules);
      PrioritiesExactly(rules, top, x);
    }
  }

  // -------------------------------------------------------------------- cell texts

  /** Blank: nothing, or text of spaces only. */
  lemma BlankExactly(cell: Cell)
    ensures IsBlank(cell) <==> cell == Null || (cell.Text? && AllSpaces(cell.text))
  {
    if cell.Text? { StripExactly(cell.text); }
  }

  /** The text a nonblank cell is matched by: its own, or what it shows. */
  lemma MatchedBy(text: string)
    ensures KeyOf(Text(text)) == text && KeyOf(Other(text)) == text
  {
  }

  ghost predicate Contains(key: string, pattern: string) { exists i :: OccursAt(key, pattern, i) }

  lemma FoundExactly(key: string, pattern: string)
    ensures Find(key, pattern) >= 0 <==> Contains(key, pattern)
  {
  }

  /** Delimiter `k` occurs at `i`, nothing declared occurs before, and at `i` nothing declared
      before `k` does. */
  ghost predicate FirstDelimiterAt(key: string, delimiters: seq<string>, k: nat, i: int) {
    && k < |delimiters| && delimiters[k] != "" && OccursAt(key, delimiters[k], i)
    && forall l, j :: 0 <= l < |delimiters| && delimiters[l] != "" && OccursAt(key, delimiters[l], j) ==> i < j || (i == j && k <= l)
  }

  lemma DelimitersExactly(key: string, delimiters: seq<string>, k: nat)
    ensures PickDelimiter(key, delimiters) == Some(k) <==> exists i :: FirstDelimiterAt(key, delimiters, k, i)
    ensures PickDelimiter(key, delimiters) == None
            <==> forall l :: 0 <= l < |delimiters| && delimiters[l] != "" ==> !Contains(key, delimiters[l])
  {
    forall l | 0 <= l < |delimiters| ensures Find(key, delimiters[l]) >= 0 <==> Contains(key, delimiters[l]) {
      FoundExactly(key, delimiters[l]);
    }
    hide Find, PickDelimiter, OccursAt;
    if Earliest(key, delimiters, k) {
      EarliestIsPicked(key, delimiters, k);
      assert FirstDelimiterAt(key, delimiters, k, Find(key, delimiters[k]));
    }
    if i :| FirstDelimiterAt(key, delimiters, k, i) {
      assert Contains(key, delimiters[k]);
      assert OccursAt(key, delimiters[k], Find(key, delimiters[k]));
      assert i == Find(key, delimiters[k]);
      assert Earliest(key, delimiters, k);
    }
  }

  /** A cell mentions an undeclared separator. */
  lemma MentionsExactly(key: string, undeclared: seq<string>)
    ensures MentionsUndeclared(key, undeclared)
            <==> exists k :: 0 <= k < |undeclared| && undeclared[k] != "" && Contains(key, undeclared[k])
  {
    forall k | 0 <= k < |undeclared| ensures Find(key, undeclared[k]) >= 0 <==> Contains(key, undeclared[k]) {
      FoundExactly(key, undeclared[k]);
    }
    hide Find, Contains;
  }

  /** Splitting: the text up to the first separator is the first piece, and the rest is split on. */
  lemma SplitAtFirst(first: string, separator: string, rest: string)
    requires separator != "" && forall i :: 0 <= i < |first| ==> !OccursAt(first + separator, separator, i)
    ensures Split(first + separator + rest, separator) == [first] + Split(rest, separator)
  {
    var s := first + separator + rest;
    assert s[|first|..|first| + |separator|] == separator;
    assert OccursAt(s, separator, |first|);
    forall i | 0 <= i < |first| ensures !OccursAt(s, separator, i) {
      assert i + |separator| <= |first + separator| && s == (first + separator) + rest;
      assert s[i..i + |separator|] == (first + separator)[i..i + |separator|];
      assert !OccursAt(first + separator, separator, i);
    }
    assert Find(s, separator) == |first|;
    assert s[..|first|] == first && s[|first| + |separator|..] == rest;
  }

  lemma SplitWhole(s: string, separator: string)
    requires separator != "" && !Contains(s, separator)
    ensures Split(s, separator) == [s]
  {
    FoundExactly(s, separator);
  }

  /** Items: the pieces trimmed one by one, those of spaces only left out. */
  lemma NonBlankCons(piece: string, pieces: seq<string>)
    ensures NonBlank([]) == []
    ensures NonBlank([piece] + pieces) == if AllSpaces(piece) then NonBlank(pieces) else [Strip(piece)] + NonBlank(pieces)
  {
    StripExactly(piece);
    assert ([piece] + pieces)[1..] == pieces;
  }

  /** Gaps: the items that are no category, each in its place. */
  lemma MissingCons(item: string, items: seq<string>, m: Mapping)
    ensures MissingItems([], m) == []
    ensures MissingItems([item] + items, m)
            == if HasKey(m, item) then MissingItems(items, m) else [Gap(item, Text(item))] + MissingItems(items, m)
  {
    EntriesExactly(m, item, "");
    hide Covers, HasKey;
    assert ([item] + items)[1..] == items;
  }

  // ----------------------------------------------------------- what the actions deliver

  /** The blank policy of a request: its own, else a nonempty legacy label to fill in, else none. */
  predicate HasPolicy(q: Request, p: Policy) {
    match q.policy
    case Some(own) => p == own
    case None =>
      match q.blankLabel
      case None => p == Undecided
      case Some(text) => p == if text == "" then Undecided else Fill(text)
  }

  /** The actions, run in any order, leave this in a cell. */
  ghost predicate EndsAt(actions: seq<MappingSplit.Action>, sheet: string, row: int, column: int, before: Content, after: Content) {
    forall order :: multiset(order) == multiset(actions) ==> Run(order, sheet, row, column, before) == after
  }

  /** The built actions, run in any order, leave this at the target of source cell (i, j). */
  ghost predicate Ends(q: Request, actions: seq<MappingSplit.Action>, t: Region, i: nat, j: nat, before: Content, after: Content) {
    EndsAt(actions, q.targetSheet, t.top + i, t.left + j, before, after)
  }

  lemma EndsAsJudged(q: Request, actions: seq<MappingSplit.Action>, t: Region, i: nat, j: nat, before: Content)
    requires Prepare(q).Ok? && Delivers(q, actions) && ParseBox(q.targetRange) == Parsed(t)
    requires i < |q.source| && j < |q.source[i]|
    ensures Judge(q.source[i][j], q.Rules()).Lands?
    ensures Ends(q, actions, t, i, j, before, LandedBy(Judge(q.source[i][j], q.Rules()).outcome, before))
  {
    hide Delivers, Judge, Run, Resolvable, Prepare, ParseBox, LandedBy;
    TargetOf(q);
    OutcomeAt(q, i, j);
    var row, column := t.top + i, t.left + j;
    var after := LandedBy(Judge(q.source[i][j], q.Rules()).outcome, before);
    forall order | multiset(order) == multiset(actions) ensures Run(order, q.targetSheet, row, column, before) == after {
      DeliveredCell(q, actions, order, i, j, before);
    }
  }

  lemma TargetOf(q: Request)
    requires Prepare(q).Ok?
    ensures ParseBox(q.targetRange) == Parsed(Prepare(q).value.target)
  {
    MappedIsOutcomes(q);
  }

  /** The request's rules are its own fields. */
  lemma RulesOf(q: Request, p: Policy)
    ensures q.Rules().mapping == q.mapping && q.Rules().delimiters == q.delimiters && q.Rules().ranks == q.ranks
    ensures q.Rules().undeclared == q.undeclared && (q.Rules().policy == p <==> HasPolicy(q, p))
  {
  }

  /** A cell whose very text is a category gets that category's label, blank or not. */
  lemma ExactCellsLand(q: Request, actions: seq<MappingSplit.Action>, t: Region, i: nat, j: nat, before: Content, named: string)
    requires Prepare(q).Ok? && Delivers(q, actions) && ParseBox(q.targetRange) == Parsed(t)
    requires i < |q.source| && j < |q.source[i]| && q.source[i][j].Text? && HasEntry(q.mapping, q.source[i][j].text, named)
    ensures Ends(q, actions, t, i, j, before, Literal(named))
  {
    EndsAsJudged(q, actions, t, i, j, before);
    hide Delivers, Prepare, Ends;
    RulesOf(q, Keep);
    EntriesExactly(q.mapping, q.source[i][j].text, named);
  }

  predicate BlankCell(q: Request, i: nat, j: nat)
    requires i < |q.source| && j < |q.source[i]|
  {
    var cell := q.source[i][j];
    cell == Null || (cell.Text? && AllSpaces(cell.text) && !HasKey(q.mapping, cell.text))
  }

  /** A blank source cell that is no category: whatever its target held stays under keep, is
      emptied under clear, and becomes the value under fill. No build with such a cell
      succeeds while the policy is undecided, or of a kind that is not known. */
  lemma BlankCellsLand(q: Request, actions: seq<MappingSplit.Action>, t: Region, i: nat, j: nat, before: Content)
    requires Prepare(q).Ok? && Delivers(q, actions) && ParseBox(q.targetRange) == Parsed(t)
    requires i < |q.source| && j < |q.source[i]| && BlankCell(q, i, j)
    ensures HasPolicy(q, Keep) ==> Ends(q, actions, t, i, j, before, before)
    ensures HasPolicy(q, Erase) ==> Ends(q, actions, t, i, j, before, Empty)
    ensures forall text :: HasPolicy(q, Fill(text)) ==> Ends(q, actions, t, i, j, before, Literal(text))
    ensures !HasPolicy(q, Undecided) && !HasPolicy(q, Unknown)
  {
    EndsAsJudged(q, actions, t, i, j, before);
    BlankJudged(q, i, j);
    UndecidedHasNoBlanks(q, i, j);
    RulesOf(q, q.Rules().policy);
    hide Delivers, Prepare, Ends, HasPolicy, Judge, BlankCell;
    forall p ensures q.Rules().policy == p <==> HasPolicy(q, p) { RulesOf(q, p); }
  }

  lemma BlankJudged(q: Request, i: nat, j: nat)
    requires i < |q.source| && j < |q.source[i]| && BlankCell(q, i, j)
    ensures Judge(q.source[i][j], q.Rules())
            == match q.Rules().policy
               case Keep => Lands(Skip)
               case Erase => Lands(Clear)
               case Fill(text) => Lands(Write(text))
               case Undecided => Lands(Skip)
               case Unknown => BadPolicy
  {
    BlankExactly(q.source[i][j]);
    if q.source[i][j].Text? { EntriesExactly(q.mapping, q.source[i][j].text, ""); }
    hide IsBlank, Covers;
  }

  function SkippedInRow(i: nat, row: seq<Outcome>): set<(nat, nat)> {
    set j: nat | j < |row| && row[j].Skip? :: (i, j)
  }

  function Skipped(rows: seq<seq<Outcome>>): set<(nat, nat)> {
    set i: nat, j: nat | i < |rows| && j < |rows[i]| && rows[i][j].Skip? :: (i, j)
  }

  lemma {:induction false} SkippedInRowCount(i: nat, row: seq<Outcome>)
    ensures |SkippedInRow(i, row)| == SkipsInRow(row)
  {
    if row != [] {
      var n := |row| - 1;
      SkippedInRowCount(i, row[..n]);
      assert SkippedInRow(i, row) == SkippedInRow(i, row[..n]) + (if row[n].Skip? then {(i, n as nat)} else {});
    }
  }

  /** The count of cells left alone counts positions. */
  lemma {:induction false} SkippedCount(rows: seq<seq<Outcome>>)
    ensures |Skipped(rows)| == Skips(rows)
  {
    if rows != [] {
      var n := |rows| - 1;
      SkippedCount(rows[..n]);
      SkippedInRowCount(n, rows[n]);
      assert Skipped(rows) == Skipped(rows[..n]) + SkippedInRow(n, rows[n]);
      assert Skipped(rows[..n]) !! SkippedInRow(n, rows[n]);
    }
  }

  function BlankCells(q: Request): set<(nat, nat)> {
    set i: nat, j: nat | i < |q.source| && j < |q.source[i]| && BlankCell(q, i, j) :: (i, j)
  }

  /** The build asks for a blank policy only when none is decided, and says how many blank
      cells there are; without one it never succeeds over blank cells. */
  lemma BlankPolicyIsAskedFor(q: Request, n: nat)
    ensures Prepare(q) == Err(BlankPolicyNeeded(n)) ==> HasPolicy(q, Undecided) && n == |BlankCells(q)| && n > 0
    ensures Prepare(q).Ok? && HasPolicy(q, Undecided) ==> BlankCells(q) == {}
  {
    RulesOf(q, Undecided);
    hide HasPolicy, BlankCells;
    if q.Rules().policy == Undecided && MapRegion(q.source, q.Rules()).Ok? {
      BlanksAreCounted(q);
    }
    hide MapRegion, Skips;
  }

  lemma BlanksAreCounted(q: Request)
    requires q.Rules().policy == Undecided && MapRegion(q.source, q.Rules()).Ok?
    ensures var outcomes := OutcomeRows(q.source, q.Rules());
            MapRegion(q.source, q.Rules()).value.outcomes == outcomes && Skips(outcomes) == |BlankCells(q)|
  {
    var outcomes := OutcomeRows(q.source, q.Rules());
    SkippedCount(outcomes);
    forall i: nat, j: nat | i < |q.source| && j < |q.source[i]|
      ensures outcomes[i][j].Skip? <==> BlankCell(q, i, j)
    {
      SkipsAreBlanks(q, i, j);
    }
    hide BlankCell, OutcomeOf, Skips;
    assert Skipped(outcomes) == BlankCells(q);
  }

  lemma SkipsAreBlanks(q: Request, i: nat, j: nat)
    requires i < |q.source| && j < |q.source[i]| && q.Rules().policy == Undecided && MapRegion(q.source, q.Rules()).Ok?
    ensures OutcomeOf(q.source[i][j], q.Rules()).Skip? <==> BlankCell(q, i, j)
  {
    var cell := q.source[i][j];
    BlankExactly(cell);
    if cell.Text? { EntriesExactly(q.mapping, cell.text, ""); }
    hide IsBlank, Covers, PickDelimiter, Winner, Items, MapRegion;
  }

  lemma UndecidedHasNoBlanks(q: Request, i: nat, j: nat)
    requires Prepare(q).Ok? && i < |q.source| && j < |q.source[i]| && BlankCell(q, i, j)
    ensures q.Rules().policy != Undecided
  {
    RulesOf(q, Undecided);
    BlankPolicyIsAskedFor(q, 0);
    hide Prepare, BlankCell;
    assert (i, j) in BlankCells(q);
  }

  /** Any other cell holding no declared delimiter must be a category as a whole, and gets its label. */
  lemma WholeCellsLand(q: Request, actions: seq<MappingSplit.Action>, t: Region, i: nat, j: nat, before: Content, text: string)
    requires Prepare(q).Ok? && Delivers(q, actions) && ParseBox(q.targetRange) == Parsed(t)
    requires i < |q.source| && j < |q.source[i]| && (q.source[i][j] == Other(text) || (q.source[i][j] == Text(text) && !AllSpaces(text)))
    requires forall l :: 0 <= l < |q.delimiters| && q.delimiters[l] != "" ==> !Contains(text, q.delimiters[l])
    ensures exists named :: HasEntry(q.mapping, text, named) && Ends(q, actions, t, i, j, before, Literal(named))
  {
    EndsAsJudged(q, actions, t, i, j, before);
    RulesOf(q, Keep);
    BlankExactly(q.source[i][j]);
    DelimitersExactly(text, q.delimiters, 0);
    hide Delivers, Prepare, Ends, IsBlank, PickDelimiter, Covers, Contains;
    assert Judge(q.source[i][j], q.Rules()).Lands?;
    EntriesExactly(q.mapping, text, Label(q.mapping, text));
  }

  /** A cell split at its first delimiter: its items are its trimmed nonempty pieces, all of
      them are categories, and it gets the label of the item with priority over all others. */
  lemma SplitCellsLand(q: Request, actions: seq<MappingSplit.Action>, t: Region, i: nat, j: nat, before: Content, text: string, k: nat, at: int)
    requires Prepare(q).Ok? && Delivers(q, actions) && ParseBox(q.targetRange) == Parsed(t)
    requires i < |q.source| && j < |q.source[i]| && (q.source[i][j] == Other(text) || (q.source[i][j] == Text(text) && !AllSpaces(text)))
    requires q.source[i][j].Text? ==> !HasKey(q.mapping, text)
    requires FirstDelimiterAt(text, q.delimiters, k, at)
    ensures var items := NonBlank(Split(text, q.delimiters[k]));
            items != [] && (forall x :: x in items ==> HasKey(q.mapping, x))
            && exists w, named :: w in items && (forall x :: x in items && x != w ==> HasPriority(q.Rules(), w, x))
                 && HasEntry(q.mapping, w, named) && Ends(q, actions, t, i, j, before, Literal(named))
  {
    EndsAsJudged(q, actions, t, i, j, before);
    RulesOf(q, Keep);
    BlankExactly(q.source[i][j]);
    EntriesExactly(q.mapping, text, "");
    DelimitersExactly(text, q.delimiters, k);
    var items := NonBlank(Split(text, q.delimiters[k]));
    hide Delivers, Prepare, Ends, IsBlank, PickDelimiter, Covers, Contains, Winner, Label, HasPriority, HasEntry, FirstDelimiterAt, HasKey, Split, NonBlank;
    assert Judge(q.source[i][j], q.Rules()) == SplitVerdict(q.source[i][j], items, q.Rules());
    forall x | x in items ensures HasKey(q.mapping, x) { EntriesExactly(q.mapping, x, ""); }
    var w := Winner(items, q.Rules());
    WinnerHasPriority(items, q.Rules(), w);
    EntriesExactly(q.mapping, w, Label(q.mapping, w));
  }

  /** Every cell outside the target block keeps its content, on the target sheet and on any other. */
  lemma NothingElseChanges(q: Request, actions: seq<MappingSplit.Action>, order: seq<MappingSplit.Action>, t: Region,
                           sheet: string, row: int, column: int, before: Content)
    requires Prepare(q).Ok? && Delivers(q, actions) && ParseBox(q.targetRange) == Parsed(t) && multiset(order) == multiset(actions)
    requires sheet != q.targetSheet || row < t.top || row > t.bottom || column < t.left || column > t.right
    ensures Run(order, sheet, row, column, before) == before
  {
    MappedIsOutcomes(q);
    PreparedIsShaped(q);
    var p := Prepare(q).value;
    hide Prepare, Run, RangesPartition, LeavesSourceAlone, OutcomeRows, EntryRows;
    assert Run(order, sheet, row, column, before)
        == Target(q.targetSheet, p.target, p.mapped.values, p.mapped.outcomes, sheet, row, column, before);
  }

  /** The most actions a request allows: what it says, or sixty-four when it says nothing or zero. */
  predicate Allows(q: Request, limit: int) {
    match q.maxActions
    case None => limit == 64
    case Some(n) => limit == if n == 0 then 64 else n
  }

  /** A build that splits its block stays within the limit, and a refusal names it. */
  lemma LimitsAreKept(q: Request, r: Result<seq<MappingSplit.Action>, BuildError>, limit: int)
    requires Prepare(q).Ok? && Answers(q, r) && Allows(q, limit)
    ensures r.Ok? ==> |r.value| <= limit || |r.value| == 1
    ensures r.Err? ==> r.error.SplitLimit? && r.error.limit == limit < r.error.required
  {
    PreparedIsShaped(q);
    var p := Prepare(q).value;
    assert Limit(q.maxActions) == limit;
    if r.Ok? && NeedsSplit(p.mapped.outcomes) {
      var cover :| IsCover(cover, p.mapped.outcomes, p.target.Columns()) && |cover| <= limit;
    }
    if r.Err? {
      var cover :| IsCover(cover, p.mapped.outcomes, p.target.Columns()) && |cover| <= r.error.required;
    }
    hide Delivers, Prepare, IsCover;
  }
}
