/** Classifying the cells of a source region: exact match, blank policy, declared
    delimiters and ranked winners, and the complete list of gaps when some cell
    cannot be classified. */
module MappingCells {
  import opened Wrappers
  import opened A1Notation

  /** A source value: empty, text, or any other value shown through `str`. */
  datatype Cell = Null | Text(text: string) | Other(shown: string)

  /** What to do with a blank cell. `Unknown` is a policy object of an unlisted kind. */
  datatype Policy = Keep | Erase | Fill(value: string) | Undecided | Unknown

  datatype RankEntry = RankEntry(value: string, rank: int)

  /** A Python dict: distinct keys in declaration order. */
  type Mapping = m: seq<(string, string)> | DistinctKeys(m) witness []

  datatype Rules = Rules(
    mapping: Mapping,
    policy: Policy,
    delimiters: seq<string>,
    ranks: seq<RankEntry>,
    undeclared: seq<string>)

  /** How one target position lands. */
  datatype Outcome = Write(value: string) | Clear | Skip

  /** A value the rules do not cover, deduplicated by `key` and reported as `shown`. */
  datatype Gap = Gap(key: string, shown: Cell)

  datatype Verdict =
    | Lands(outcome: Outcome)
    | Ambiguous(gap: Gap)
    | Uncovered(gaps: seq<Gap>)
    | BadPolicy

  datatype MapError =
    | NeedsClarification(cells: seq<Cell>)
    | UnmappedCategory(cells: seq<Cell>)
    | PolicyError

  // ------------------------------------------------------------ ordered mapping

  predicate DistinctKeys(m: seq<(string, string)>) {
    forall i, j :: 0 <= i < j < |m| ==> m[i].0 != m[j].0
  }

  /** Declaration position of `key`, or the number of entries when it is absent. */
  function Order(m: seq<(string, string)>, key: string): (r: nat)
    ensures r <= |m|
    ensures r < |m| ==> m[r].0 == key
    ensures forall i :: 0 <= i < r ==> m[i].0 != key
  {
    if m == [] then 0 else if m[0].0 == key then 0 else 1 + Order(m[1..], key)
  }

  predicate Covers(m: Mapping, key: string) { Order(m, key) < |m| }

  function Label(m: Mapping, key: string): string
    requires Covers(m, key)
  {
    m[Order(m, key)].1
  }

  /** The explicit rank of `value`; a later entry overrides an earlier one. */
  function RankOf(ranks: seq<RankEntry>, value: string): Option<int> {
    if ranks == [] then None
    else
      var last := ranks[|ranks| - 1];
      if last.value == value then Some(last.rank) else RankOf(ranks[..|ranks| - 1], value)
  }

  // ------------------------------------------------------------------ searching

  predicate OccursAt(s: string, pattern: string, i: int) {
    0 <= i && i + |pattern| <= |s| && s[i..i + |pattern|] == pattern
  }

  function FindFrom(s: string, pattern: string, i: nat): (r: int)
    ensures r >= 0 ==> i <= r && OccursAt(s, pattern, r)
    ensures r < 0 ==> r == -1
    ensures forall j :: i <= j && (r < 0 || j < r) ==> !OccursAt(s, pattern, j)
    decreases |s| - i
  {
    if i + |pattern| > |s| then -1
    else if OccursAt(s, pattern, i) then i
    else FindFrom(s, pattern, i + 1)
  }

  /** `str.find`: the least position of `pattern`, or -1. */
  function Find(s: string, pattern: string): (r: int)
    ensures -1 <= r
    ensures r >= 0 ==> OccursAt(s, pattern, r)
    ensures forall j :: 0 <= j && (r < 0 || j < r) ==> !OccursAt(s, pattern, j)
  {
    FindFrom(s, pattern, 0)
  }

  /** `str.split` on a nonempty separator. */
  function Split(s: string, separator: string): (pieces: seq<string>)
    requires separator != ""
    ensures pieces != []
    decreases |s|
  {
    var i := Find(s, separator);
    if i < 0 then [s] else [s[..i]] + Split(s[i + |separator|..], separator)
  }

  function Join(pieces: seq<string>, separator: string): string {
    if pieces == [] then ""
    else if |pieces| == 1 then pieces[0]
    else pieces[0] + separator + Join(pieces[1..], separator)
  }

  /** Splitting loses nothing and leaves no separator inside a piece. */
  lemma {:induction false} SplitJoins(s: string, separator: string)
    requires separator != ""
    ensures Join(Split(s, separator), separator) == s
    ensures forall k :: 0 <= k < |Split(s, separator)| ==> Find(Split(s, separator)[k], separator) < 0
    decreases |s|
  {
    var i := Find(s, separator);
    if i >= 0 {
      var rest := Split(s[i + |separator|..], separator);
      SplitJoins(s[i + |separator|..], separator);
      assert Split(s, separator)[1..] == rest;
      assert s == s[..i] + s[i..i + |separator|] + s[i + |separator|..];
      if Find(s[..i], separator) >= 0 {
        var j := Find(s[..i], separator);
        assert s[j..j + |separator|] == s[..i][j..j + |separator|];
        assert OccursAt(s, separator, j);
      }
    }
  }

  /** Delimiter `k` occurs in `key`, no declared delimiter occurs earlier, and none
      declared before `k` occurs at the same place. */
  predicate Earliest(key: string, delimiters: seq<string>, k: nat) {
    && k < |delimiters| && delimiters[k] != "" && Find(key, delimiters[k]) >= 0
    && forall j :: 0 <= j < |delimiters| && delimiters[j] != "" && Find(key, delimiters[j]) >= 0 ==>
         Find(key, delimiters[k]) < Find(key, delimiters[j])
         || (Find(key, delimiters[k]) == Find(key, delimiters[j]) && k <= j)
  }

  predicate NoDelimiter(key: string, delimiters: seq<string>) {
    forall j :: 0 <= j < |delimiters| && delimiters[j] != "" ==> Find(key, delimiters[j]) < 0
  }

  /** The declared delimiter a cell is split on. */
  function PickDelimiter(key: string, delimiters: seq<string>): (r: Option<nat>)
    ensures r.None? ==> NoDelimiter(key, delimiters)
    ensures r.Some? ==> Earliest(key, delimiters, r.value)
  {
    if delimiters == [] then None
    else
      var n := |delimiters| - 1;
      var before := PickDelimiter(key, delimiters[..n]);
      var i := Find(key, delimiters[n]);
      if delimiters[n] != "" && i >= 0 && (before.None? || i < Find(key, delimiters[before.value]))
      then Some(n) else before
  }

  method ChooseDelimiter(key: string, delimiters: seq<string>) returns (delimiter: Option<string>)
    ensures delimiter == match PickDelimiter(key, delimiters)
                         case None => None
                         case Some(k) => Some(delimiters[k])
  {
    delimiter := None;
    var delimiterIndex: int := |key| + 1;
    for n := 0 to |delimiters|
      invariant var picked := PickDelimiter(key, delimiters[..n]);
                match picked
                case None => delimiter == None && delimiterIndex == |key| + 1
                case Some(k) => delimiter == Some(delimiters[k]) && delimiterIndex == Find(key, delimiters[k])
    {
      assert delimiters[..n + 1][..n] == delimiters[..n];
      if delimiters[n] == "" { continue; }
      var index := Find(key, delimiters[n]);
      if 0 <= index < delimiterIndex {
        delimiter, delimiterIndex := Some(delimiters[n]), index;
      }
    }
    assert delimiters[..|delimiters|] == delimiters;
  }

  // -------------------------------------------------------------------- ranking

  /** Whether explicit rank `a` is above `b`, a missing rank being below every rank. */
  predicate RankAbove(a: Option<int>, b: Option<int>) {
    a.Some? && (b.None? || a.value > b.value)
  }

  /** 1 when `left` has priority, -1 when `right` has, 0 when neither. */
  function CompareRank(left: string, right: string, rules: Rules): int {
    var l, r := RankOf(rules.ranks, left), RankOf(rules.ranks, right);
    if (l.Some? || r.Some?) && l != r then (if RankAbove(l, r) then 1 else -1)
    else
      var lo, ro := Order(rules.mapping, left), Order(rules.mapping, right);
      if lo == ro then 0 else if lo < ro then 1 else -1
  }

  /** On covered values the comparison is a strict total order. */
  lemma CompareRankIsTotalOrder(a: string, b: string, c: string, rules: Rules)
    requires Covers(rules.mapping, a) && Covers(rules.mapping, b) && Covers(rules.mapping, c)
    ensures CompareRank(a, b, rules) == -CompareRank(b, a, rules)
    ensures CompareRank(a, b, rules) == 0 <==> a == b
    ensures CompareRank(a, b, rules) > 0 && CompareRank(b, c, rules) > 0 ==> CompareRank(a, c, rules) > 0
  {
  }

  /** The item no other item has priority over. */
  predicate IsTop(items: seq<string>, rules: Rules, w: string) {
    w in items && forall x :: x in items ==> CompareRank(x, w, rules) <= 0
  }

  /** The first item kept by a left-to-right scan that replaces on strictly higher priority. */
  function Winner(items: seq<string>, rules: Rules): (w: string)
    requires items != []
    ensures w in items
  {
    var n := |items| - 1;
    if n == 0 then items[0]
    else
      var before := Winner(items[..n], rules);
      if CompareRank(items[n], before, rules) > 0 then items[n] else before
  }

  lemma {:induction false} WinnerIsTop(items: seq<string>, rules: Rules)
    requires items != [] && forall x :: x in items ==> Covers(rules.mapping, x)
    ensures IsTop(items, rules, Winner(items, rules))
  {
    var n := |items| - 1;
    var w := Winner(items, rules);
    if n > 0 {
      var before := Winner(items[..n], rules);
      WinnerIsTop(items[..n], rules);
      forall x | x in items ensures CompareRank(x, w, rules) <= 0 {
        CompareRankIsTotalOrder(x, w, before, rules);
        CompareRankIsTotalOrder(w, before, x, rules);
        CompareRankIsTotalOrder(x, before, w, rules);
        assert x in items[..n] || x == items[n];
      }
    }
  }

  /** The winner depends only on which items occur: it is the one maximum, so
      permuting or repeating items cannot change it. */
  lemma WinnerIgnoresOrder(items: seq<string>, others: seq<string>, rules: Rules)
    requires items != [] && forall x :: x in items ==> Covers(rules.mapping, x)
    requires forall x :: x in items <==> x in others
    ensures others != [] && Winner(items, rules) == Winner(others, rules)
    ensures forall w :: IsTop(items, rules, w) ==> w == Winner(items, rules)
  {
    assert items[0] in others;
    WinnerIsTop(items, rules);
    WinnerIsTop(others, rules);
    forall w | IsTop(items, rules, w) ensures w == Winner(items, rules) {
      CompareRankIsTotalOrder(w, Winner(items, rules), w, rules);
    }
    assert IsTop(items, rules, Winner(others, rules));
  }

  method PickHighestRank(items: seq<string>, rules: Rules) returns (winner: string)
    requires items != []
    ensures winner == Winner(items, rules)
  {
    winner := items[0];
    for n := 0 to |items|
      invariant n == 0 ==> winner == items[0]
      invariant n > 0 ==> winner == Winner(items[..n], rules)
    {
      assert n > 0 ==> items[..n + 1][..n] == items[..n];
      if CompareRank(items[n], winner, rules) > 0 {
        winner := items[n];
      }
    }
    assert items[..|items|] == items;
  }

  // ------------------------------------------------------------- one cell's fate

  predicate IsBlank(cell: Cell) { cell.Null? || (cell.Text? && Strip(cell.text) == "") }

  /** The text a cell is matched by. */
  function KeyOf(cell: Cell): string {
    match cell
    case Null => "None"
    case Text(t) => t
    case Other(shown) => shown
  }

  predicate MatchesWhole(cell: Cell, rules: Rules) { cell.Text? && Covers(rules.mapping, cell.text) }

  function BlankVerdict(policy: Policy): Verdict {
    match policy
    case Keep => Lands(Skip)
    case Erase => Lands(Clear)
    case Fill(v) => Lands(Write(v))
    case Undecided => Lands(Skip)
    case Unknown => BadPolicy
  }

  function NonBlank(pieces: seq<string>): (items: seq<string>) {
    if pieces == [] then []
    else
      var item := Strip(pieces[0]);
      (if item == "" then [] else [item]) + NonBlank(pieces[1..])
  }

  /** The trimmed nonempty pieces of `key`. */
  function Items(key: string, delimiter: string): seq<string>
    requires delimiter != ""
  {
    NonBlank(Split(key, delimiter))
  }

  /** The items the mapping lacks, each as its own gap. */
  function MissingItems(items: seq<string>, m: Mapping): (gaps: seq<Gap>)
    ensures gaps == [] <==> forall x :: x in items ==> Covers(m, x)
  {
    if items == [] then []
    else (if Covers(m, items[0]) then [] else [Gap(items[0], Text(items[0]))]) + MissingItems(items[1..], m)
  }

  predicate MentionsUndeclared(key: string, undeclared: seq<string>) {
    exists i :: 0 <= i < |undeclared| && undeclared[i] != "" && Find(key, undeclared[i]) >= 0
  }

  /** The verdict for a cell that is neither an exact match nor blank and holds no declared delimiter. */
  function WholeVerdict(cell: Cell, rules: Rules): Verdict {
    var key := KeyOf(cell);
    if Covers(rules.mapping, key) then Lands(Write(Label(rules.mapping, key)))
    else if rules.delimiters != [] && MentionsUndeclared(key, rules.undeclared) then Ambiguous(Gap(key, cell))
    else Uncovered([Gap(key, cell)])
  }

  function SplitVerdict(cell: Cell, items: seq<string>, rules: Rules): Verdict {
    if items == [] then Uncovered([Gap(KeyOf(cell), cell)])
    else
      var missing := MissingItems(items, rules.mapping);
      if missing != [] then Uncovered(missing)
      else Lands(Write(Label(rules.mapping, Winner(items, rules))))
  }

  function Judge(cell: Cell, rules: Rules): Verdict {
    if MatchesWhole(cell, rules) then Lands(Write(Label(rules.mapping, cell.text)))
    else if IsBlank(cell) then BlankVerdict(rules.policy)
    else
      match PickDelimiter(KeyOf(cell), rules.delimiters)
      case None => WholeVerdict(cell, rules)
      case Some(k) => SplitVerdict(cell, Items(KeyOf(cell), rules.delimiters[k]), rules)
  }

  predicate SplitsIntoCovered(cell: Cell, rules: Rules, k: nat) {
    Earliest(KeyOf(cell), rules.delimiters, k)
    && var items := Items(KeyOf(cell), rules.delimiters[k]);
       items != [] && forall x :: x in items ==> Covers(rules.mapping, x)
  }

  /** What it takes for one cell to be resolvable, stated without the scan order. */
  ghost predicate Resolvable(cell: Cell, rules: Rules) {
    || MatchesWhole(cell, rules)
    || (IsBlank(cell) && rules.policy != Unknown)
    || (!IsBlank(cell) && NoDelimiter(KeyOf(cell), rules.delimiters) && Covers(rules.mapping, KeyOf(cell)))
    || (!IsBlank(cell) && exists k: nat :: SplitsIntoCovered(cell, rules, k))
  }

  lemma EarliestIsPicked(key: string, delimiters: seq<string>, k: nat)
    requires Earliest(key, delimiters, k)
    ensures PickDelimiter(key, delimiters) == Some(k)
  {
    assert PickDelimiter(key, delimiters).None? ==> NoDelimiter(key, delimiters);
  }

  lemma LandsExactlyWhenResolvable(cell: Cell, rules: Rules)
    ensures Judge(cell, rules).Lands? <==> Resolvable(cell, rules)
  {
    hide Earliest, PickDelimiter, NoDelimiter, Items, Winner, Label, Find, KeyOf, IsBlank;
    var key, ds := KeyOf(cell), rules.delimiters;
    if k: nat :| Earliest(key, ds, k) {
      EarliestIsPicked(key, ds, k);
      forall j: nat | Earliest(key, ds, j) ensures j == k { EarliestIsPicked(key, ds, j); }
      EarliestExcludesNone(key, ds, k);
      assert SplitsIntoCovered(cell, rules, k) || forall j: nat :: !SplitsIntoCovered(cell, rules, j);
    } else {
      assert PickDelimiter(key, ds).None?;
    }
  }

  lemma EarliestExcludesNone(key: string, delimiters: seq<string>, k: nat)
    requires Earliest(key, delimiters, k)
    ensures !NoDelimiter(key, delimiters)
  {
  }

  /** What a split cell means: no items or a missing item is a gap, otherwise the label of the
      item nothing has priority over. */
  ghost predicate SplitMeans(cell: Cell, items: seq<string>, rules: Rules, v: Verdict) {
    if items == [] then v == Uncovered([Gap(KeyOf(cell), cell)])
    else if exists x :: x in items && !Covers(rules.mapping, x) then v == Uncovered(MissingItems(items, rules.mapping))
    else exists w :: IsTop(items, rules, w) && Covers(rules.mapping, w) && v == Lands(Write(Label(rules.mapping, w)))
  }

  /** The meaning of a cell as a relation, with no scan order in it. */
  ghost predicate Means(cell: Cell, rules: Rules, v: Verdict) {
    var key, ds := KeyOf(cell), rules.delimiters;
    if MatchesWhole(cell, rules) then v == Lands(Write(Label(rules.mapping, cell.text)))
    else if IsBlank(cell) then
      match rules.policy
      case Keep => v == Lands(Skip)
      case Erase => v == Lands(Clear)
      case Fill(text) => v == Lands(Write(text))
      case Undecided => v == Lands(Skip)
      case Unknown => v == BadPolicy
    else if !NoDelimiter(key, ds) then
      exists k: nat :: Earliest(key, ds, k) && SplitMeans(cell, Items(key, ds[k]), rules, v)
    else if Covers(rules.mapping, key) then v == Lands(Write(Label(rules.mapping, key)))
    else if ds != [] && MentionsUndeclared(key, rules.undeclared) then v == Ambiguous(Gap(key, cell))
    else v == Uncovered([Gap(key, cell)])
  }

  lemma SplitVerdictIsItsMeaning(cell: Cell, items: seq<string>, rules: Rules, v: Verdict)
    ensures SplitMeans(cell, items, rules, v) <==> v == SplitVerdict(cell, items, rules)
  {
    if items != [] && forall x :: x in items ==> Covers(rules.mapping, x) {
      WinnerIgnoresOrder(items, items, rules);
      WinnerIsTop(items, rules);
    }
  }

  /** The verdict is the one the meaning allows. */
  lemma JudgeIsTheMeaning(cell: Cell, rules: Rules, v: Verdict)
    ensures Means(cell, rules, v) <==> v == Judge(cell, rules)
  {
    hide Earliest, NoDelimiter, PickDelimiter, SplitMeans, SplitVerdict, Items, KeyOf, IsBlank, Label, MentionsUndeclared;
    var key, ds := KeyOf(cell), rules.delimiters;
    if k: nat :| Earliest(key, ds, k) {
      EarliestIsPicked(key, ds, k);
      EarliestExcludesNone(key, ds, k);
      forall j: nat | Earliest(key, ds, j) ensures j == k { EarliestIsPicked(key, ds, j); }
      ItemsExist(key, ds, k);
      SplitVerdictIsItsMeaning(cell, Items(key, ds[k]), rules, v);
    } else {
      assert PickDelimiter(key, ds).None?;
    }
  }

  lemma ItemsExist(key: string, delimiters: seq<string>, k: nat)
    requires Earliest(key, delimiters, k)
    ensures k < |delimiters| && delimiters[k] != ""
  {
  }

  /** Classifies one cell in the source's own order of tests. */
  method MapCell(cell: Cell, rules: Rules) returns (verdict: Verdict)
    ensures verdict == Judge(cell, rules)
  {
    if cell.Text? && Covers(rules.mapping, cell.text) {
      return Lands(Write(Label(rules.mapping, cell.text)));
    }
    if IsBlank(cell) {
      return BlankVerdict(rules.policy);
    }
    var key := KeyOf(cell);
    if rules.delimiters == [] {
      if Covers(rules.mapping, key) { return Lands(Write(Label(rules.mapping, key))); }
      return Uncovered([Gap(key, cell)]);
    }
    var delimiter := ChooseDelimiter(key, rules.delimiters);
    if delimiter.None? {
      return WholeVerdict(cell, rules);
    }
    var items := NonBlank(Split(key, delimiter.value));
    if items == [] { return Uncovered([Gap(key, cell)]); }
    var missing := MissingItems(items, rules.mapping);
    if missing != [] { return Uncovered(missing); }
    var winner := PickHighestRank(items, rules);
    verdict := Lands(Write(Label(rules.mapping, winner)));
  }

  // ------------------------------------------------------- gaps in first-seen order

  function Keys(gaps: seq<Gap>): set<string> { set g | g in gaps :: g.key }

  /** The gaps with a new key, in the order met. */
  function FirstSeen(gaps: seq<Gap>): seq<Gap> {
    if gaps == [] then []
    else
      var n := |gaps| - 1;
      FirstSeen(gaps[..n]) + (if gaps[n].key in Keys(gaps[..n]) then [] else [gaps[n]])
  }

  function Shown(gaps: seq<Gap>): seq<Cell> { seq(|gaps|, i requires 0 <= i < |gaps| => gaps[i].shown) }

  /** Every position in `at` is the first of its key. */
  ghost predicate OnlyFirsts(gaps: seq<Gap>, at: seq<nat>) {
    forall k :: 0 <= k < |at| ==> at[k] < |gaps| && forall i :: 0 <= i < at[k] ==> gaps[i].key != gaps[at[k]].key
  }

  predicate Increasing(at: seq<nat>) { forall k, l :: 0 <= k < l < |at| ==> at[k] < at[l] }

  ghost predicate KeyShown(gaps: seq<Gap>, at: seq<nat>, key: string) {
    exists k :: 0 <= k < |at| && at[k] < |gaps| && gaps[at[k]].key == key
  }

  /** Every gap's key is shown by some position in `at`. */
  ghost predicate AllKeysShown(gaps: seq<Gap>, at: seq<nat>) {
    forall i :: 0 <= i < |gaps| ==> KeyShown(gaps, at, gaps[i].key)
  }

  function NewKeys(gaps: seq<Gap>): seq<nat> {
    if gaps == [] then []
    else
      var n := |gaps| - 1;
      NewKeys(gaps[..n]) + (if gaps[n].key in Keys(gaps[..n]) then [] else [n])
  }

  lemma {:induction false} NewKeysAreFirst(gaps: seq<Gap>)
    ensures OnlyFirsts(gaps, NewKeys(gaps)) && Increasing(NewKeys(gaps))
  {
    if gaps != [] {
      var n := |gaps| - 1;
      var init, before := gaps[..n], NewKeys(gaps[..n]);
      NewKeysAreFirst(init);
      forall k | 0 <= k < |before|
        ensures before[k] < n && forall i :: 0 <= i < before[k] ==> gaps[i].key != gaps[before[k]].key
      {
        assert forall i :: 0 <= i <= before[k] ==> init[i] == gaps[i];
      }
      assert gaps[n].key !in Keys(init) ==> forall i :: 0 <= i < n ==> init[i] in init && gaps[i].key != gaps[n].key;
    }
  }

  lemma KeyStaysShown(gaps: seq<Gap>, at: seq<nat>, g: Gap, more: seq<nat>, key: string)
    requires KeyShown(gaps, at, key)
    ensures KeyShown(gaps + [g], at + more, key)
  {
    var k :| 0 <= k < |at| && at[k] < |gaps| && gaps[at[k]].key == key;
    assert (at + more)[k] == at[k] && (gaps + [g])[at[k]] == gaps[at[k]];
  }

  lemma {:induction false} NewKeysShowAll(gaps: seq<Gap>)
    ensures AllKeysShown(gaps, NewKeys(gaps))
  {
    if gaps != [] {
      var n := |gaps| - 1;
      var init, before := gaps[..n], NewKeys(gaps[..n]);
      var more: seq<nat> := if gaps[n].key in Keys(init) then [] else [n];
      NewKeysShowAll(init);
      assert gaps == init + [gaps[n]] && NewKeys(gaps) == before + more;
      forall i | 0 <= i < |gaps| ensures KeyShown(gaps, before + more, gaps[i].key) {
        if i == n && more == [n] {
          assert (before + more)[|before|] == n;
        } else {
          var j :| 0 <= j < n && init[j].key == gaps[i].key;
          KeyStaysShown(init, before, gaps[n], more, init[j].key);
        }
      }
    }
  }

  /** Every gap is reported once, through the first cell that showed it, in first-seen order. */
  lemma {:induction false} FirstSeenReportsEachOnce(gaps: seq<Gap>)
    ensures OnlyFirsts(gaps, NewKeys(gaps)) && Increasing(NewKeys(gaps)) && AllKeysShown(gaps, NewKeys(gaps))
    ensures |FirstSeen(gaps)| == |NewKeys(gaps)|
    ensures forall k :: 0 <= k < |NewKeys(gaps)| ==> FirstSeen(gaps)[k] == gaps[NewKeys(gaps)[k]]
  {
    NewKeysAreFirst(gaps);
    NewKeysShowAll(gaps);
    if gaps != [] {
      NewKeysAreFirst(gaps[..|gaps| - 1]);
      FirstSeenReportsEachOnce(gaps[..|gaps| - 1]);
    }
  }

  function AmbiguousGaps(cells: seq<Cell>, rules: Rules): seq<Gap> {
    if cells == [] then []
    else
      var n := |cells| - 1;
      var v := Judge(cells[n], rules);
      AmbiguousGaps(cells[..n], rules) + (if v.Ambiguous? then [v.gap] else [])
  }

  function UncoveredGaps(cells: seq<Cell>, rules: Rules): seq<Gap> {
    if cells == [] then []
    else
      var n := |cells| - 1;
      var v := Judge(cells[n], rules);
      UncoveredGaps(cells[..n], rules) + (if v.Uncovered? then v.gaps else [])
  }

  predicate PolicyFails(cells: seq<Cell>, rules: Rules) {
    exists i :: 0 <= i < |cells| && Judge(cells[i], rules).BadPolicy?
  }

  /** The cells of a matrix row by row. */
  function Flat(rows: seq<seq<Cell>>): seq<Cell> {
    if rows == [] then [] else Flat(rows[..|rows| - 1]) + rows[|rows| - 1]
  }

  function OutcomeOf(cell: Cell, rules: Rules): Outcome {
    var v := Judge(cell, rules);
    if v.Lands? then v.outcome else Write("")
  }

  function OutcomeRow(row: seq<Cell>, rules: Rules): seq<Outcome> {
    seq(|row|, j requires 0 <= j < |row| => OutcomeOf(row[j], rules))
  }

  function OutcomeRows(rows: seq<seq<Cell>>, rules: Rules): seq<seq<Outcome>> {
    seq(|rows|, i requires 0 <= i < |rows| => OutcomeRow(rows[i], rules))
  }

  /** The value matrix entry of an outcome: a placeholder unless something is written. */
  function Entry(o: Outcome): string { if o.Write? then o.value else "" }

  function EntryRow(row: seq<Outcome>): seq<string> {
    seq(|row|, j requires 0 <= j < |row| => Entry(row[j]))
  }

  function EntryRows(rows: seq<seq<Outcome>>): seq<seq<string>> {
    seq(|rows|, i requires 0 <= i < |rows| => EntryRow(rows[i]))
  }

  datatype Mapped = Mapped(values: seq<seq<string>>, outcomes: seq<seq<Outcome>>)

  /** The mapping of a whole region. */
  function MapRegion(rows: seq<seq<Cell>>, rules: Rules): Result<Mapped, MapError> {
    var cells := Flat(rows);
    if PolicyFails(cells, rules) then Err(PolicyError)
    else if AmbiguousGaps(cells, rules) != [] then Err(NeedsClarification(Shown(FirstSeen(AmbiguousGaps(cells, rules)))))
    else if UncoveredGaps(cells, rules) != [] then Err(UnmappedCategory(Shown(FirstSeen(UncoveredGaps(cells, rules)))))
    else
      var outcomes := OutcomeRows(rows, rules);
      Ok(Mapped(EntryRows(outcomes), outcomes))
  }

  // -------------------------------------------------------- the loop over the region

  lemma FirstSeenStep(met: seq<Gap>, g: Gap)
    ensures Shown(FirstSeen(met + [g])) == Shown(FirstSeen(met)) + (if g.key in Keys(met) then [] else [g.shown])
    ensures Keys(met + [g]) == Keys(met) + {g.key}
  {
    var longer := met + [g];
    assert longer[..|longer| - 1] == met && longer[|longer| - 1] == g;
    assert forall h :: h in longer <==> h in met || h == g;
  }

  /** Appends the gaps whose key has not been seen. */
  method RecordGaps(found: seq<Gap>, listed: seq<Cell>, seen: set<string>, ghost met: seq<Gap>)
    returns (listed': seq<Cell>, seen': set<string>)
    requires listed == Shown(FirstSeen(met)) && seen == Keys(met)
    ensures listed' == Shown(FirstSeen(met + found)) && seen' == Keys(met + found)
  {
    hide FirstSeen, Keys, Shown;
    listed', seen' := listed, seen;
    assert met + found[..0] == met;
    for n := 0 to |found|
      invariant listed' == Shown(FirstSeen(met + found[..n])) && seen' == Keys(met + found[..n])
    {
      FirstSeenStep(met + found[..n], found[n]);
      assert met + found[..n + 1] == met + found[..n] + [found[n]];
      if found[n].key !in seen' {
        seen', listed' := seen' + {found[n].key}, listed' + [found[n].shown];
      } else {
        assert seen' + {found[n].key} == seen';
      }
    }
    assert found[..|found|] == found;
  }

  datatype Log = Log(listed: seq<Cell>, seen: set<string>) {
    ghost predicate Records(met: seq<Gap>) { listed == Shown(FirstSeen(met)) && seen == Keys(met) }
  }

  /** The two gap lists after the cells `done`, none of which failed on the policy. */
  ghost predicate LogsAgree(unresolved: Log, unmatched: Log, done: seq<Cell>, rules: Rules) {
    && unresolved.Records(AmbiguousGaps(done, rules))
    && unmatched.Records(UncoveredGaps(done, rules))
    && !PolicyFails(done, rules)
  }

  lemma GapsAfterCell(done: seq<Cell>, cell: Cell, rules: Rules)
    requires !Judge(cell, rules).BadPolicy?
    ensures var v := Judge(cell, rules);
            && AmbiguousGaps(done + [cell], rules) == (if v.Ambiguous? then AmbiguousGaps(done, rules) + [v.gap] else AmbiguousGaps(done, rules))
            && UncoveredGaps(done + [cell], rules) == (if v.Uncovered? then UncoveredGaps(done, rules) + v.gaps else UncoveredGaps(done, rules))
            && (PolicyFails(done + [cell], rules) <==> PolicyFails(done, rules))
  {
    hide Judge;
    var longer := done + [cell];
    assert longer[..|longer| - 1] == done && longer[|longer| - 1] == cell;
    if i :| 0 <= i < |done| && Judge(done[i], rules).BadPolicy? {
      assert longer[i] == done[i];
    }
  }

  method RecordVerdict(verdict: Verdict, cell: Cell, rules: Rules, unresolved: Log, unmatched: Log, ghost done: seq<Cell>)
    returns (unresolved': Log, unmatched': Log)
    requires verdict == Judge(cell, rules) && !verdict.BadPolicy?
    requires LogsAgree(unresolved, unmatched, done, rules)
    ensures LogsAgree(unresolved', unmatched', done + [cell], rules)
  {
    hide FirstSeen, Keys, Shown, Judge, AmbiguousGaps, UncoveredGaps, PolicyFails;
    unresolved', unmatched' := unresolved, unmatched;
    GapsAfterCell(done, cell, rules);
    ghost var ambiguous, uncovered := AmbiguousGaps(done, rules), UncoveredGaps(done, rules);
    if verdict.Ambiguous? {
      var listed, seen := RecordGaps([verdict.gap], unresolved.listed, unresolved.seen, ambiguous);
      unresolved' := Log(listed, seen);
    } else if verdict.Uncovered? {
      var listed, seen := RecordGaps(verdict.gaps, unmatched.listed, unmatched.seen, uncovered);
      unmatched' := Log(listed, seen);
    }
  }

  /** Maps every cell, collecting all gaps before reporting any. */
  method MapColumnCells(rows: seq<seq<Cell>>, rules: Rules) returns (r: Result<Mapped, MapError>)
    ensures r == MapRegion(rows, rules)
  {
    hide LogsAgree, Judge, FirstSeen, Keys, Shown, AmbiguousGaps, UncoveredGaps, PolicyFails;
    var mapped: seq<seq<string>>, outcomes: seq<seq<Outcome>> := [], [];
    var unresolved, unmatched := Log([], {}), Log([], {});
    ghost var done: seq<Cell> := [];
    NothingLogged(rules);
    for i := 0 to |rows|
      invariant done == Flat(rows[..i]) && LogsAgree(unresolved, unmatched, done, rules)
      invariant outcomes == OutcomeRows(rows[..i], rules) && mapped == EntryRows(outcomes)
    {
      var row := rows[i];
      var mappedRow: seq<string>, outcomeRow: seq<Outcome> := [], [];
      for j := 0 to |row|
        invariant done == Flat(rows[..i]) + row[..j] && LogsAgree(unresolved, unmatched, done, rules)
        invariant outcomeRow == OutcomeRow(row[..j], rules) && mappedRow == EntryRow(outcomeRow)
      {
        var verdict := MapCell(row[j], rules);
        if verdict.BadPolicy? {
          PolicyFailureIsFinal(rows, i, j, rules);
          return Err(PolicyError);
        }
        unresolved, unmatched := RecordVerdict(verdict, row[j], rules, unresolved, unmatched, done);
        var outcome := if verdict.Lands? then verdict.outcome else Write("");
        mappedRow, outcomeRow := mappedRow + [Entry(outcome)], outcomeRow + [outcome];
        done := done + [row[j]];
      }
      assert row[..|row|] == row && rows[..i + 1][..i] == rows[..i];
      outcomes, mapped := outcomes + [outcomeRow], mapped + [mappedRow];
    }
    assert rows[..|rows|] == rows;
    LoggedSome(unresolved, unmatched, done, rules);
    if unresolved.listed != [] { return Err(NeedsClarification(unresolved.listed)); }
    if unmatched.listed != [] { return Err(UnmappedCategory(unmatched.listed)); }
    return Ok(Mapped(mapped, outcomes));
  }

  lemma NothingLogged(rules: Rules)
    ensures LogsAgree(Log([], {}), Log([], {}), [], rules)
  {
  }

  lemma LoggedSome(unresolved: Log, unmatched: Log, done: seq<Cell>, rules: Rules)
    requires LogsAgree(unresolved, unmatched, done, rules)
    ensures !PolicyFails(done, rules)
    ensures unresolved.listed == Shown(FirstSeen(AmbiguousGaps(done, rules)))
    ensures unmatched.listed == Shown(FirstSeen(UncoveredGaps(done, rules)))
    ensures unresolved.listed == [] <==> AmbiguousGaps(done, rules) == []
    ensures unmatched.listed == [] <==> UncoveredGaps(done, rules) == []
  {
    FirstSeenKeepsSome(AmbiguousGaps(done, rules));
    FirstSeenKeepsSome(UncoveredGaps(done, rules));
  }

  lemma {:induction false} FirstSeenKeepsSome(gaps: seq<Gap>)
    ensures FirstSeen(gaps) == [] <==> gaps == []
  {
    if |gaps| > 1 {
      FirstSeenKeepsSome(gaps[..|gaps| - 1]);
    }
  }

  lemma {:induction false} CellInFlat(rows: seq<seq<Cell>>, i: nat, j: nat)
    requires i < |rows| && j < |rows[i]|
    ensures rows[i][j] in Flat(rows)
  {
    if i < |rows| - 1 {
      CellInFlat(rows[..|rows| - 1], i, j);
    }
  }

  lemma PolicyFailureIsFinal(rows: seq<seq<Cell>>, i: nat, j: nat, rules: Rules)
    requires i < |rows| && j < |rows[i]| && Judge(rows[i][j], rules).BadPolicy?
    ensures PolicyFails(Flat(rows), rules)
  {
    CellInFlat(rows, i, j);
    var k :| 0 <= k < |Flat(rows)| && Flat(rows)[k] == rows[i][j];
    assert Judge(Flat(rows)[k], rules).BadPolicy?;
  }

  // ----------------------------------------------------------------- main results

  predicate AllLand(cells: seq<Cell>, rules: Rules) { forall c :: c in cells ==> Judge(c, rules).Lands? }

  lemma AllLandSnoc(cells: seq<Cell>, cell: Cell, rules: Rules)
    ensures AllLand(cells + [cell], rules) <==> AllLand(cells, rules) && Judge(cell, rules).Lands?
  {
    hide Judge;
    assert forall c :: c in cells + [cell] <==> c in cells || c == cell;
  }

  lemma {:induction false} NoGapsExactlyWhenAllLand(cells: seq<Cell>, rules: Rules)
    ensures !PolicyFails(cells, rules) && AmbiguousGaps(cells, rules) == [] && UncoveredGaps(cells, rules) == []
            <==> AllLand(cells, rules)
  {
    if cells != [] {
      hide Judge, AllLand, PolicyFails, AmbiguousGaps, UncoveredGaps;
      var n := |cells| - 1;
      assert cells == cells[..n] + [cells[n]];
      NoGapsExactlyWhenAllLand(cells[..n], rules);
      AllLandSnoc(cells[..n], cells[n], rules);
      UncoveredIsNonempty(cells[n], rules);
      if Judge(cells[n], rules).BadPolicy? {
        PolicyFailsHere(cells, n, rules);
      } else {
        GapsAfterCell(cells[..n], cells[n], rules);
      }
    }
  }

  lemma PolicyFailsHere(cells: seq<Cell>, n: nat, rules: Rules)
    requires n < |cells| && Judge(cells[n], rules).BadPolicy?
    ensures PolicyFails(cells, rules)
  {
  }

  lemma UncoveredIsNonempty(cell: Cell, rules: Rules)
    ensures Judge(cell, rules).Uncovered? ==> Judge(cell, rules).gaps != []
  {
  }

  /** A region maps exactly when every cell is resolvable. */
  lemma MappingSucceedsExactlyWhenResolvable(rows: seq<seq<Cell>>, rules: Rules)
    ensures MapRegion(rows, rules).Ok? <==> forall c :: c in Flat(rows) ==> Resolvable(c, rules)
  {
    hide Judge, Resolvable, PolicyFails, AmbiguousGaps, UncoveredGaps, Flat, OutcomeRows, EntryRows;
    NoGapsExactlyWhenAllLand(Flat(rows), rules);
    forall c ensures Judge(c, rules).Lands? <==> Resolvable(c, rules) {
      LandsExactlyWhenResolvable(c, rules);
    }
  }
}
