/** The plan validator as a whole: derived criteria appended without repetition, capped
    warnings, and what happens when an accepted plan is validated again. */
module PlanValidation {
  import opened Wrappers
  import opened A1Notation
  import opened FormatCriteria
  import opened FormatLaws

  const WARNING_LIMIT := 20
  const CRITERIA_LIMIT := 100

  /** Sheet deletion, formatting, and any other action: the criteria it derives in its plan
      besides the existence of its sheet, as texts, the warning that announces it, and whether
      it deletes, clears or replaces. */
  datatype PlanAction =
    | DeleteWorksheet(sheet: string)
    | Format(action: Action)
    | Other(sheet: string, derived: seq<string>, notice: Option<string>, destroys: bool)

  /** `Content` is a criterion about the contents of a sheet, compared by its text. */
  datatype PlanCriterion =
    | WorksheetExists(sheet: string)
    | WorksheetMissing(sheet: string)
    | Formatting(criterion: Criterion)
    | Content(sheet: string, text: string)

  datatype Plan = Plan(actions: seq<PlanAction>, criteria: seq<PlanCriterion>, warnings: seq<string>)

  datatype Validation = Accepted(plan: Plan) | ForeignSheet | TooManyCriteria

  const DESTRUCTIVE_WARNING := "destructive"

  function SheetOf(a: PlanAction): string {
    match a
    case DeleteWorksheet(s) => s
    case Format(action) => action.sheet
    case Other(s, _, _, _) => s
  }

  function CriterionSheet(c: PlanCriterion): string {
    match c
    case WorksheetExists(s) => s
    case WorksheetMissing(s) => s
    case Formatting(criterion) => criterion.sheet
    case Content(s, _) => s
  }

  /** The formatting actions of a plan from action `i` on, in order. */
  function FormattingFrom(actions: seq<PlanAction>, i: nat): seq<Action>
    requires i <= |actions|
    decreases |actions| - i
  {
    if i == |actions| then []
    else (if actions[i].Format? then [actions[i].action] else []) + FormattingFrom(actions, i + 1)
  }

  /** The criteria one action asks for, in the order they are added. */
  function Contributed(actions: seq<PlanAction>, i: nat): (r: seq<PlanCriterion>)
    requires i < |actions|
    ensures forall c :: c in r ==> CriterionSheet(c) == SheetOf(actions[i])
  {
    match actions[i]
    case DeleteWorksheet(s) => [WorksheetMissing(s)]
    case Other(s, derived, _, _) => [WorksheetExists(s)] + seq(|derived|, k requires 0 <= k < |derived| => Content(s, derived[k]))
    case Format(action) =>
      var derived := Derive(FormattingFrom(actions, i), 0);
      [WorksheetExists(action.sheet)] + (if derived.Some? then [Formatting(derived.value)] else [])
  }

  function AllContributed(actions: seq<PlanAction>, n: nat): (r: seq<PlanCriterion>)
    requires n <= |actions|
    ensures forall c :: c in r ==> exists i :: 0 <= i < |actions| && SheetOf(actions[i]) == CriterionSheet(c)
  {
    if n == 0 then [] else AllContributed(actions, n - 1) + Contributed(actions, n - 1)
  }

  /** Appends the criteria that are not there yet. */
  function AddAll(criteria: seq<PlanCriterion>, more: seq<PlanCriterion>): (r: seq<PlanCriterion>)
    ensures criteria <= r
    ensures forall c :: c in r <==> c in criteria || c in more
    decreases |more|
  {
    if more == [] then criteria
    else AddAll(if more[0] in criteria then criteria else criteria + [more[0]], more[1..])
  }

  lemma {:induction false} AddAllConcat(criteria: seq<PlanCriterion>, more: seq<PlanCriterion>, rest: seq<PlanCriterion>)
    ensures AddAll(criteria, more + rest) == AddAll(AddAll(criteria, more), rest)
    decreases |more|
  {
    if more == [] {
      assert more + rest == rest;
    } else {
      assert (more + rest)[1..] == more[1..] + rest;
      AddAllConcat(if more[0] in criteria then criteria else criteria + [more[0]], more[1..], rest);
    }
  }

  lemma {:induction false} AddNothingNew(criteria: seq<PlanCriterion>, more: seq<PlanCriterion>)
    requires forall c :: c in more ==> c in criteria
    ensures AddAll(criteria, more) == criteria
    decreases |more|
  {
    if more != [] {
      AddNothingNew(criteria, more[1..]);
    }
  }

  // ----------------------------------------------------------------------- warnings

  /** Adds a warning in the last place once the list is full. */
  function AddWarning(warnings: seq<string>, w: string): seq<string> {
    if w in warnings then warnings
    else (if |warnings| < WARNING_LIMIT then warnings else warnings[..WARNING_LIMIT - 1]) + [w]
  }

  function AddWarnings(warnings: seq<string>, more: seq<string>): (r: seq<string>)
    ensures |warnings| <= WARNING_LIMIT ==> |warnings| <= |r| <= WARNING_LIMIT
  {
    if more == [] then warnings
    else AddWarning(AddWarnings(warnings, more[..|more| - 1]), more[|more| - 1])
  }

  /** The last of `more` that is not in `fixed`. */
  function LastOutside(fixed: seq<string>, more: seq<string>): Option<string> {
    if more == [] then None
    else if more[|more| - 1] !in fixed then Some(more[|more| - 1])
    else LastOutside(fixed, more[..|more| - 1])
  }

  lemma {:induction false} ShortListKeepsAll(warnings: seq<string>, more: seq<string>)
    requires |AddWarnings(warnings, more)| < WARNING_LIMIT
    ensures warnings <= AddWarnings(warnings, more)
    ensures forall w :: w in more ==> w in AddWarnings(warnings, more)
  {
    if more != [] {
      ShortListKeepsAll(warnings, more[..|more| - 1]);
    }
  }

  /** Once nineteen warnings are fixed, the twentieth is the last candidate outside them. */
  lemma {:induction false} LastPlaceIsLastOutside(warnings: seq<string>, more: seq<string>)
    requires |warnings| <= WARNING_LIMIT && |AddWarnings(warnings, more)| >= WARNING_LIMIT - 1
    ensures var r := AddWarnings(warnings, more);
            var fixed := r[..WARNING_LIMIT - 1];
            LastOutside(fixed, more).Some? ==> r == fixed + [LastOutside(fixed, more).value]
    ensures |warnings| >= WARNING_LIMIT - 1 ==>
              var r := AddWarnings(warnings, more);
              var fixed := warnings[..WARNING_LIMIT - 1];
              r[..WARNING_LIMIT - 1] == fixed && (LastOutside(fixed, more).None? ==> r == warnings)
  {
    if more != [] {
      var init, c := more[..|more| - 1], more[|more| - 1];
      var s, r := AddWarnings(warnings, init), AddWarnings(warnings, more);
      if |s| >= WARNING_LIMIT - 1 {
        LastPlaceIsLastOutside(warnings, init);
        assert r[..WARNING_LIMIT - 1] == s[..WARNING_LIMIT - 1];
      } else {
        ShortListKeepsAll(warnings, init);
        assert forall w :: w in more ==> w in r;
        NothingOutside(r[..WARNING_LIMIT - 1], more);
      }
    }
  }

  lemma {:induction false} NothingOutside(fixed: seq<string>, more: seq<string>)
    requires forall w :: w in more ==> w in fixed
    ensures LastOutside(fixed, more).None?
  {
    if more != [] {
      NothingOutside(fixed, more[..|more| - 1]);
    }
  }

  lemma {:induction false} AddKnownWarnings(warnings: seq<string>, more: seq<string>)
    requires forall w :: w in more ==> w in warnings
    ensures AddWarnings(warnings, more) == warnings
  {
    if more != [] {
      AddKnownWarnings(warnings, more[..|more| - 1]);
    }
  }

  /** Adding the same candidates again changes nothing, full list or not. */
  lemma AddWarningsTwice(warnings: seq<string>, more: seq<string>)
    requires |warnings| <= WARNING_LIMIT
    ensures AddWarnings(AddWarnings(warnings, more), more) == AddWarnings(warnings, more)
  {
    var r := AddWarnings(warnings, more);
    if |r| < WARNING_LIMIT - 1 {
      ShortListKeepsAll(warnings, more);
      AddKnownWarnings(r, more);
    } else {
      LastPlaceIsLastOutside(warnings, more);
      LastPlaceIsLastOutside(r, more);
    }
  }

  function NoticesFrom(actions: seq<PlanAction>): seq<string> {
    if actions == [] then []
    else (if actions[0].Other? && actions[0].notice.Some? then [actions[0].notice.value] else []) + NoticesFrom(actions[1..])
  }

  predicate IsDestructive(a: PlanAction) { a.DeleteWorksheet? || (a.Other? && a.destroys) }

  function CandidateWarnings(actions: seq<PlanAction>): seq<string> {
    GeneralWarnings(exists i :: 0 <= i < |actions| && IsDestructive(actions[i])) + NoticesFrom(actions)
  }

  // --------------------------------------------------------------------- validation

  predicate KnownSheets(actions: seq<PlanAction>, criteria: seq<PlanCriterion>) {
    forall c :: c in criteria ==> exists i :: 0 <= i < |actions| && SheetOf(actions[i]) == CriterionSheet(c)
  }

  function Validate(p: Plan): Validation {
    if !KnownSheets(p.actions, p.criteria) then ForeignSheet
    else
      var criteria := AddAll(p.criteria, AllContributed(p.actions, |p.actions|));
      if |criteria| > CRITERIA_LIMIT then TooManyCriteria
      else Accepted(Plan(p.actions, criteria, AddWarnings(p.warnings, CandidateWarnings(p.actions))))
  }

  method CollectCriteria(p: Plan) returns (criteria: seq<PlanCriterion>)
    ensures criteria == AddAll(p.criteria, AllContributed(p.actions, |p.actions|))
  {
    hide AddAll, Contributed;
    criteria := p.criteria;
    AddNothingNew(p.criteria, []);
    for i := 0 to |p.actions|
      invariant criteria == AddAll(p.criteria, AllContributed(p.actions, i))
    {
      AddAllConcat(p.criteria, AllContributed(p.actions, i), Contributed(p.actions, i));
      criteria := AddAll(criteria, Contributed(p.actions, i));
    }
  }

  lemma {:induction false} NoticesSnoc(actions: seq<PlanAction>, a: PlanAction)
    ensures NoticesFrom(actions + [a]) == NoticesFrom(actions) + (if a.Other? && a.notice.Some? then [a.notice.value] else [])
  {
    var more := actions + [a];
    if actions == [] {
      assert more[1..] == [] && more[0] == a;
    } else {
      assert more[1..] == actions[1..] + [a];
      NoticesSnoc(actions[1..], a);
    }
  }

  lemma AddOneMore(warnings: seq<string>, more: seq<string>, w: string)
    ensures AddWarnings(warnings, more + [w]) == AddWarning(AddWarnings(warnings, more), w)
  {
    assert (more + [w])[..|more|] == more;
  }

  method DestroysAnything(actions: seq<PlanAction>) returns (destroys: bool)
    ensures destroys <==> exists i :: 0 <= i < |actions| && IsDestructive(actions[i])
  {
    destroys := false;
    for i := 0 to |actions|
      invariant destroys <==> exists k :: 0 <= k < i && IsDestructive(actions[k])
    {
      match actions[i]
      case DeleteWorksheet(_) => destroys := true;
      case Other(_, _, _, deletes) => destroys := destroys || deletes;
      case Format(_) =>
    }
  }

  /** The warnings so far, once the first `i` actions have announced themselves. */
  predicate Warned(p: Plan, general: seq<string>, i: nat, warnings: seq<string>)
    requires i <= |p.actions|
  {
    warnings == AddWarnings(p.warnings, general + NoticesFrom(p.actions[..i]))
  }

  lemma NextNotice(p: Plan, general: seq<string>, i: nat, warnings: seq<string>)
    requires i < |p.actions| && Warned(p, general, i, warnings)
    ensures var a := p.actions[i];
            Warned(p, general, i + 1, if a.Other? && a.notice.Some? then AddWarning(warnings, a.notice.value) else warnings)
  {
    hide AddWarning, AddWarnings, NoticesFrom;
    var a, before := p.actions[i], NoticesFrom(p.actions[..i]);
    assert p.actions[..i + 1] == p.actions[..i] + [a];
    NoticesSnoc(p.actions[..i], a);
    if a.Other? && a.notice.Some? {
      assert general + (before + [a.notice.value]) == (general + before) + [a.notice.value];
      AddOneMore(p.warnings, general + before, a.notice.value);
    } else {
      assert before + [] == before;
    }
  }

  /** What precedes the actions' own warnings. */
  function GeneralWarnings(destroys: bool): seq<string> { if destroys then [DESTRUCTIVE_WARNING] else [] }

  lemma FirstWarned(p: Plan, destroys: bool)
    ensures Warned(p, GeneralWarnings(destroys), 0, if destroys then AddWarning(p.warnings, DESTRUCTIVE_WARNING) else p.warnings)
  {
    hide AddWarning;
    assert GeneralWarnings(destroys) + [] == GeneralWarnings(destroys);
    if destroys {
      AddOneMore(p.warnings, [], DESTRUCTIVE_WARNING);
      assert [] + [DESTRUCTIVE_WARNING] == [DESTRUCTIVE_WARNING];
    }
  }

  lemma LastWarned(p: Plan, destroys: bool, warnings: seq<string>)
    requires destroys <==> exists i :: 0 <= i < |p.actions| && IsDestructive(p.actions[i])
    requires Warned(p, GeneralWarnings(destroys), |p.actions|, warnings)
    ensures warnings == AddWarnings(p.warnings, CandidateWarnings(p.actions))
  {
    hide AddWarnings, NoticesFrom, IsDestructive;
    assert p.actions[..|p.actions|] == p.actions;
  }

  /** One general warning if anything is deleted, cleared or replaced, then the actions' own. */
  method CollectWarnings(p: Plan) returns (warnings: seq<string>)
    ensures warnings == AddWarnings(p.warnings, CandidateWarnings(p.actions))
  {
    hide AddWarning, AddWarnings, NoticesFrom, CandidateWarnings, Warned, GeneralWarnings, IsDestructive;
    warnings := p.warnings;
    var destroys := DestroysAnything(p.actions);
    FirstWarned(p, destroys);
    if destroys {
      warnings := WithWarning(warnings, DESTRUCTIVE_WARNING);
    }
    for i := 0 to |p.actions|
      invariant Warned(p, GeneralWarnings(destroys), i, warnings)
    {
      NextNotice(p, GeneralWarnings(destroys), i, warnings);
      if p.actions[i].Other? && p.actions[i].notice.Some? {
        warnings := WithWarning(warnings, p.actions[i].notice.value);
      }
    }
    LastWarned(p, destroys, warnings);
  }

  /** Adds a warning unless it is there, in the last of twenty places if the list is full. */
  method WithWarning(warnings: seq<string>, w: string) returns (r: seq<string>)
    ensures r == AddWarning(warnings, w)
  {
    if w in warnings { return warnings; }
    r := (if |warnings| <= 19 then warnings else warnings[..19]) + [w];
  }

  /** Every submitted criterion is about a sheet some action works on. */
  method SheetsKnown(p: Plan) returns (known: bool)
    ensures known <==> KnownSheets(p.actions, p.criteria)
  {
    for k := 0 to |p.criteria|
      invariant forall l :: 0 <= l < k ==> exists i :: 0 <= i < |p.actions| && SheetOf(p.actions[i]) == CriterionSheet(p.criteria[l])
    {
      var found := false;
      for i := 0 to |p.actions|
        invariant found <==> exists j :: 0 <= j < i && SheetOf(p.actions[j]) == CriterionSheet(p.criteria[k])
      {
        if SheetOf(p.actions[i]) == CriterionSheet(p.criteria[k]) { found := true; }
      }
      if !found {
        assert p.criteria[k] in p.criteria;
        return false;
      }
    }
    known := true;
  }

  /** The validator: criteria, then warnings, then the size limit. */
  method ValidatePlan(p: Plan) returns (v: Validation)
    ensures v == Validate(p)
  {
    hide AddAll, AllContributed, CandidateWarnings, AddWarnings, KnownSheets;
    var known := SheetsKnown(p);
    if !known { return ForeignSheet; }
    var criteria := CollectCriteria(p);
    var warnings := CollectWarnings(p);
    if |criteria| > CRITERIA_LIMIT { return TooManyCriteria; }
    v := Accepted(Plan(p.actions, criteria, warnings));
  }

  /** An accepted plan is accepted again, unchanged. */
  lemma AcceptedPlansAreStable(p: Plan)
    requires |p.warnings| <= WARNING_LIMIT && Validate(p).Accepted?
    ensures Validate(Validate(p).plan) == Validate(p)
  {
    var contributed := AllContributed(p.actions, |p.actions|);
    var criteria := AddAll(p.criteria, contributed);
    AddNothingNew(criteria, contributed);
    AddWarningsTwice(p.warnings, CandidateWarnings(p.actions));
  }

  /** Starting from any prefix of the final list adds up to the same list. */
  lemma {:induction false} PrefixAddsUp(first: seq<PlanCriterion>, some: seq<PlanCriterion>, more: seq<PlanCriterion>)
    requires first <= some <= AddAll(first, more)
    ensures AddAll(some, more) == AddAll(first, more)
    decreases |more|
  {
    if more != [] && some != first {
      if more[0] in first {
        PrefixKeeps(first, some, more[0]);
        PrefixAddsUp(first, some, more[1..]);
      } else {
        var next := first + [more[0]];
        assert some[|first|] == AddAll(next, more[1..])[|first|] == more[0];
        assert next <= some;
        PrefixKeeps(next, some, more[0]);
        PrefixAddsUp(next, some, more[1..]);
      }
    }
  }

  lemma PrefixKeeps(first: seq<PlanCriterion>, some: seq<PlanCriterion>, c: PlanCriterion)
    requires first <= some && c in first
    ensures c in some
  {
  }

  /** Dropping an accepted plan's criteria and validating it again gives the same plan back
      exactly when the criteria submitted with it were the first derived ones: so always for
      a plan submitted without criteria. */
  lemma DroppedCriteriaComeBack(p: Plan)
    requires |p.warnings| <= WARNING_LIMIT && Validate(p).Accepted?
    ensures Validate(Validate(p).plan.(criteria := [])) == Validate(p)
            <==> p.criteria <= AddAll([], AllContributed(p.actions, |p.actions|))
  {
    hide AllContributed, CandidateWarnings;
    var contributed := AllContributed(p.actions, |p.actions|);
    AddWarningsTwice(p.warnings, CandidateWarnings(p.actions));
    if p.criteria <= AddAll([], contributed) {
      PrefixAddsUp([], p.criteria, contributed);
    }
  }

  // --------------------------------------------------- added criteria hold on execution

  lemma {:induction false} FormattingTail(actions: seq<PlanAction>, i: nat, from: nat) returns (first: seq<Action>)
    requires from <= i <= |actions|
    ensures FormattingFrom(actions, from) == first + FormattingFrom(actions, i)
    decreases i - from
  {
    if from == i {
      first := [];
    } else {
      var here: seq<Action> := if actions[from].Format? then [actions[from].action] else [];
      var rest := FormattingTail(actions, i, from + 1);
      first := here + rest;
      assert here + (rest + FormattingFrom(actions, i)) == first + FormattingFrom(actions, i);
    }
  }

  lemma FormattingIsDerived(actions: seq<PlanAction>, i: nat, c: Criterion)
    requires i < |actions| && Formatting(c) in Contributed(actions, i)
    ensures FormattingFrom(actions, i) != [] && Derive(FormattingFrom(actions, i), 0) == Some(c)
  {
    hide Derive;
  }

  lemma TailIsEqualOrApart(first: seq<Action>, tail: seq<Action>)
    requires EqualOrApart(first + tail)
    ensures EqualOrApart(tail)
  {
    hide SameTarget, Disjoint, SizesApart;
    assert forall j :: 0 <= j < |tail| ==> tail[j] == (first + tail)[|first| + j];
  }

  /** The formatting criterion an action contributes is true once the whole plan has run. */
  lemma ContributionIsMet(actions: seq<PlanAction>, i: nat, c: Criterion)
    requires i < |actions| && EqualOrApart(FormattingFrom(actions, 0)) && Formatting(c) in Contributed(actions, i)
    ensures MetBy(c, FormattingFrom(actions, 0))
  {
    FormattingIsDerived(actions, i, c);
    hide MetBy, Derive, EqualOrApart, FormattingFrom, Contributed, HoldsAfter;
    var tail := FormattingFrom(actions, i);
    var first := FormattingTail(actions, i, 0);
    TailIsEqualOrApart(first, tail);
    EqualOrApartPlansMeetTheirCriteria(Literal, tail);
    HoldingCriterionIsMet(tail, 0);
    MetByWhole(c, first, tail);
  }

  lemma {:induction false} ContributedSomewhere(actions: seq<PlanAction>, n: nat, c: PlanCriterion) returns (i: nat)
    requires n <= |actions| && c in AllContributed(actions, n)
    ensures i < n && c in Contributed(actions, i)
  {
    hide Contributed;
    if c in Contributed(actions, n - 1) {
      i := n - 1;
    } else {
      i := ContributedSomewhere(actions, n - 1, c);
    }
  }

  /** Every formatting criterion the validator adds to a plan of equal or separate ranges is
      true after the plan has run. */
  lemma AddedCriteriaHold(p: Plan, c: Criterion)
    requires Validate(p).Accepted? && EqualOrApart(FormattingFrom(p.actions, 0))
    requires Formatting(c) in Validate(p).plan.criteria && Formatting(c) !in p.criteria
    ensures MetBy(c, FormattingFrom(p.actions, 0))
  {
    hide EqualOrApart, MetBy;
    var i := ContributedSomewhere(p.actions, |p.actions|, Formatting(c));
    ContributionIsMet(p.actions, i, c);
  }

  // --------------------------------------------------------- what an action contributes

  /** The sheet an action works on. */
  lemma WorksOn(s: string, action: Action, derived: seq<string>, notice: Option<string>, destroys: bool)
    ensures SheetOf(DeleteWorksheet(s)) == s && SheetOf(Other(s, derived, notice, destroys)) == s && SheetOf(Format(action)) == action.sheet
  {
  }

  /** The criteria an action contributes: that its sheet is gone if it deletes it; otherwise that
      its sheet exists, what else it derives, and the claims of its formatting. */
  lemma ContributedExactly(actions: seq<PlanAction>, i: nat, c: PlanCriterion)
    requires i < |actions|
    ensures c in Contributed(actions, i)
            <==> match actions[i]
                 case DeleteWorksheet(s) => c == WorksheetMissing(s)
                 case Other(s, derived, _, _) => c == WorksheetExists(s) || (c.Content? && c.sheet == s && c.text in derived)
                 case Format(action) =>
                   c == WorksheetExists(action.sheet)
                   || (c.Formatting? && Derive(FormattingFrom(actions, i), 0) == Some(c.criterion))
  {
    hide Derive;
    if actions[i].Other? {
      var s, derived := actions[i].sheet, actions[i].derived;
      var contents := seq(|derived|, k requires 0 <= k < |derived| => Content(s, derived[k]));
      assert Contributed(actions, i) == [WorksheetExists(s)] + contents;
      assert forall k :: 0 <= k < |derived| ==> contents[k] == Content(s, derived[k]);
      if c.Content? && c.sheet == s && c.text in derived {
        var k :| 0 <= k < |derived| && derived[k] == c.text;
        assert contents[k] == c;
      }
    }
  }

  predicate FormatsLater(actions: seq<PlanAction>, i: nat, a: Action) {
    exists j :: i <= j < |actions| && actions[j] == Format(a)
  }

  lemma FormatsNext(actions: seq<PlanAction>, i: nat, a: Action)
    requires i < |actions|
    ensures FormatsLater(actions, i, a) <==> actions[i] == Format(a) || FormatsLater(actions, i + 1, a)
  {
  }

  lemma {:induction false} FormattingMembers(actions: seq<PlanAction>, i: nat, a: Action)
    requires i <= |actions|
    ensures a in FormattingFrom(actions, i) <==> FormatsLater(actions, i, a)
    decreases |actions| - i
  {
    if i < |actions| {
      FormattingMembers(actions, i + 1, a);
      FormatsNext(actions, i, a);
      hide FormatsLater;
      var tail := FormattingFrom(actions, i + 1);
      assert FormattingFrom(actions, i) == (if actions[i].Format? then [actions[i].action] else []) + tail;
      hide FormattingFrom;
    }
  }

  /** In a whole plan a formatting action's criterion claims a property exactly when it sets it
      and no later formatting action on the same sheet and range does. */
  lemma PlanClaimsExactly(actions: seq<PlanAction>, i: nat, p: Property)
    requires i < |actions| && actions[i].Format?
    ensures FormattingFrom(actions, i) != []
    ensures Claim(FormattingFrom(actions, i), 0, p)
            == if Sets(actions[i].action, p).Some?
                  && exists j :: i < j < |actions| && actions[j].Format? && Sets(actions[j].action, p).Some?
                       && Fold(actions[j].action.sheet) == Fold(actions[i].action.sheet)
                       && Normalize(actions[j].action.range) == Normalize(actions[i].action.range)
               then None else Sets(actions[i].action, p)
  {
    hide Claim, Sets, Fold, Normalize;
    var here, tail := FormattingFrom(actions, i), FormattingFrom(actions, i + 1);
    assert here == [actions[i].action] + tail;
    ClaimsExactly(here, 0, p);
    forall a ensures a in tail <==> exists j :: i < j < |actions| && actions[j] == Format(a) {
      FormattingMembers(actions, i + 1, a);
    }
    assert forall j :: 0 < j < |here| ==> here[j] == tail[j - 1] && here[j] in tail;
    assert forall a :: a in tail ==> exists j :: 0 < j < |here| && here[j] == a by {
      forall a | a in tail ensures exists j :: 0 < j < |here| && here[j] == a {
        var k :| 0 <= k < |tail| && tail[k] == a;
        assert here[k + 1] == a;
      }
    }
  }
}
