/** The volatile registry of local query results: results by handle and by task,
    ownership claims, time to live, and the global retention cap. */
module ResultRegistry {
  import opened Wrappers
  import opened Counting

  datatype OwnerClaim = OwnerClaim(
    taskId: string,
    hostId: string,
    workbookName: string,
    workbookIdentity: string,
    authorizedKey: string,
    sourceFingerprint: Option<string>,
    revision: nat,
    createdAt: int)
  {
    predicate SameAuthorization(other: OwnerClaim) {
      && hostId == other.hostId && workbookName == other.workbookName
      && workbookIdentity == other.workbookIdentity && authorizedKey == other.authorizedKey
    }

    predicate Accepts(host: string, name: string, identity: Option<string>) {
      hostId == host && workbookName == name && workbookIdentity == Identity(name, identity)
    }
  }

  /** A missing or empty identity falls back to the workbook's name. */
  function Identity(name: string, identity: Option<string>): string {
    if identity.Some? && identity.value != "" then identity.value else "name:" + name
  }

  datatype CellValue = NullValue | BoolValue(b: bool) | IntValue(n: int) | FloatValue(finite: bool) | TextValue(text: string)

  datatype Table = Table(headers: seq<CellValue>, rows: seq<seq<CellValue>>)

  datatype RegisteredResult = RegisteredResult(
    handle: string,
    taskId: string,
    table: Table,
    sourceFingerprint: Option<string>,
    createdAt: int,
    fingerprint: string,
    claimRevision: Option<nat>)

  datatype Limits = Limits(
    ttl: nat, maxRetained: nat, maxPerTask: nat,
    maxRows: nat, maxColumns: nat, maxCells: nat, maxChars: nat)

  datatype RegisterError = InvalidMatrix | TooManyForTask | Undigestible

  datatype Outcome<+T> = Accepted(value: T) | Refused(error: RegisterError)

  predicate CellFits(v: CellValue, limits: Limits) {
    (v.FloatValue? ==> v.finite) && (v.TextValue? ==> |v.text| <= limits.maxChars)
  }

  predicate MatrixFits(t: Table, limits: Limits) {
    && 1 <= |t.headers| <= limits.maxColumns && |t.rows| <= limits.maxRows
    && |t.rows| * |t.headers| <= limits.maxCells
    && forall i :: 0 <= i < |t.rows| ==>
         |t.rows[i]| == |t.headers| && forall j :: 0 <= j < |t.rows[i]| ==> CellFits(t.rows[i][j], limits)
  }

  /** The bounds check, cell by cell. */
  method ValidateMatrix(t: Table, limits: Limits) returns (fits: bool)
    ensures fits <==> MatrixFits(t, limits)
  {
    var columns := |t.headers|;
    if columns < 1 || columns > limits.maxColumns || |t.rows| > limits.maxRows { return false; }
    if |t.rows| * columns > limits.maxCells { return false; }
    for i := 0 to |t.rows|
      invariant forall k :: 0 <= k < i ==>
                  |t.rows[k]| == columns && forall j :: 0 <= j < |t.rows[k]| ==> CellFits(t.rows[k][j], limits)
    {
      var row := t.rows[i];
      if |row| != columns { return false; }
      for j := 0 to |row|
        invariant forall k :: 0 <= k < j ==> CellFits(row[k], limits)
      {
        match row[j]
        case NullValue =>
        case BoolValue(_) =>
        case IntValue(_) =>
        case FloatValue(finite) => if !finite { return false; }
        case TextValue(text) => if |text| > limits.maxChars { return false; }
      }
    }
    fits := true;
  }

  // ------------------------------------------------------- retained results as a list

  /** The results whose handle is not in `gone`, in order. */
  function Minus(items: seq<RegisteredResult>, gone: set<string>): (r: seq<RegisteredResult>)
    ensures forall x :: x in r <==> x in items && x.handle !in gone
    ensures |r| <= |items|
  {
    if items == [] then []
    else (if items[0].handle in gone then [] else [items[0]]) + Minus(items[1..], gone)
  }

  /** A task's handles in registration order. */
  function HandlesOf(items: seq<RegisteredResult>, taskId: string): (r: seq<string>)
    ensures forall h :: h in r <==> exists x :: x in items && x.handle == h && x.taskId == taskId
  {
    if items == [] then []
    else
      var rest := HandlesOf(items[1..], taskId);
      var r := (if items[0].taskId == taskId then [items[0].handle] else []) + rest;
      assert forall x :: x in items <==> x == items[0] || x in items[1..];
      r
  }

  predicate DistinctHandles(items: seq<RegisteredResult>) {
    forall i, j :: 0 <= i < j < |items| ==> items[i].handle != items[j].handle
  }

  function Without(handles: seq<string>, gone: set<string>): seq<string> {
    if handles == [] then []
    else (if handles[0] in gone then [] else [handles[0]]) + Without(handles[1..], gone)
  }

  lemma MinusCons(x: RegisteredResult, items: seq<RegisteredResult>, gone: set<string>)
    ensures Minus([x] + items, gone) == if x.handle in gone then Minus(items, gone) else [x] + Minus(items, gone)
  {
    assert ([x] + items)[1..] == items;
  }

  lemma HandlesOfCons(x: RegisteredResult, items: seq<RegisteredResult>, taskId: string)
    ensures HandlesOf([x] + items, taskId) == if x.taskId == taskId then [x.handle] + HandlesOf(items, taskId) else HandlesOf(items, taskId)
  {
    assert ([x] + items)[1..] == items;
  }

  lemma WithoutCons(h: string, handles: seq<string>, gone: set<string>)
    ensures Without([h] + handles, gone) == if h in gone then Without(handles, gone) else [h] + Without(handles, gone)
  {
    assert ([h] + handles)[1..] == handles;
  }

  lemma HandlesOfMinusCons(x: RegisteredResult, rest: seq<RegisteredResult>, gone: set<string>, taskId: string)
    requires HandlesOf(Minus(rest, gone), taskId) == Without(HandlesOf(rest, taskId), gone)
    ensures HandlesOf(Minus([x] + rest, gone), taskId) == Without(HandlesOf([x] + rest, taskId), gone)
  {
    hide *;
    MinusCons(x, rest, gone);
    HandlesOfCons(x, rest, taskId);
    if x.handle !in gone {
      HandlesOfCons(x, Minus(rest, gone), taskId);
    }
    if x.taskId == taskId {
      WithoutCons(x.handle, HandlesOf(rest, taskId), gone);
    }
  }

  lemma {:induction false} HandlesOfMinus(items: seq<RegisteredResult>, gone: set<string>, taskId: string)
    ensures HandlesOf(Minus(items, gone), taskId) == Without(HandlesOf(items, taskId), gone)
  {
    if items != [] {
      assert items == [items[0]] + items[1..];
      HandlesOfMinus(items[1..], gone, taskId);
      HandlesOfMinusCons(items[0], items[1..], gone, taskId);
    }
  }

  lemma {:induction false} MinusTwice(items: seq<RegisteredResult>, a: set<string>, b: set<string>)
    ensures Minus(Minus(items, a), b) == Minus(items, a + b)
  {
    if items != [] {
      hide Minus;
      var x, rest := items[0], items[1..];
      assert items == [x] + rest;
      MinusTwice(rest, a, b);
      MinusCons(x, rest, a);
      MinusCons(x, rest, a + b);
      MinusCons(x, Minus(rest, a), b);
    }
  }

  lemma {:induction false} MinusNothing(items: seq<RegisteredResult>, gone: set<string>)
    requires forall x :: x in items ==> x.handle !in gone
    ensures Minus(items, gone) == items
  {
    if items != [] {
      MinusNothing(items[1..], gone);
    }
  }

  lemma {:induction false} MinusIsDistinct(items: seq<RegisteredResult>, gone: set<string>)
    requires DistinctHandles(items)
    ensures DistinctHandles(Minus(items, gone))
  {
    if items != [] {
      var rest := Minus(items[1..], gone);
      MinusIsDistinct(items[1..], gone);
      assert forall x :: x in rest ==> x in items[1..] && x.handle != items[0].handle;
      assert forall i :: 0 <= i < |rest| ==> rest[i] in rest;
    }
  }

  /** The retained result with this handle. */
  function Lookup(items: seq<RegisteredResult>, handle: string): (r: Option<RegisteredResult>)
    ensures r.Some? ==> r.value in items && r.value.handle == handle
    ensures r.None? ==> forall x :: x in items ==> x.handle != handle
  {
    if items == [] then None else if items[0].handle == handle then Some(items[0]) else Lookup(items[1..], handle)
  }

  function TaskHandles(items: seq<RegisteredResult>, taskId: string): set<string> {
    set x | x in items && x.taskId == taskId :: x.handle
  }

  function ExpiredHandles(items: seq<RegisteredResult>, cutoff: int): set<string> {
    set x | x in items && x.createdAt < cutoff :: x.handle
  }

  /** The handles whose task, among `tasks`, holds an expired claim. */
  function OrphanHandles(items: seq<RegisteredResult>, claims: map<string, OwnerClaim>, cutoff: int, tasks: set<string>): set<string> {
    set x | x in items && x.taskId in tasks && x.taskId in claims && claims[x.taskId].createdAt < cutoff :: x.handle
  }

  function LiveClaims(claims: map<string, OwnerClaim>, cutoff: int): map<string, OwnerClaim> {
    map t | t in claims && claims[t].createdAt >= cutoff :: claims[t]
  }

  function Newest(items: seq<RegisteredResult>, n: nat): seq<RegisteredResult> {
    if |items| <= n then items else items[|items| - n..]
  }

  /** What a prune at `now` retains: nothing past its own or its claim's time to live,
      and of the rest the newest up to the cap. */
  function Retained(items: seq<RegisteredResult>, claims: map<string, OwnerClaim>, now: int, limits: Limits): seq<RegisteredResult> {
    var cutoff := now - limits.ttl;
    Newest(Minus(items, ExpiredHandles(items, cutoff) + OrphanHandles(items, claims, cutoff, claims.Keys)), limits.maxRetained)
  }

  /** `byTask` lists the handles of every task that has results, in order; the list of a task
      without results, if there is one, is empty. */
  ghost predicate IndexesAgree(items: seq<RegisteredResult>, byTask: map<string, seq<string>>) {
    forall t {:trigger HandlesOf(items, t)} :: (HandlesOf(items, t) != [] ==> t in byTask)
      && (t in byTask ==> byTask[t] == HandlesOf(items, t))
  }

  /** The tasks listed without results. */
  function Strays(byTask: map<string, seq<string>>): set<string> { set t | t in byTask && byTask[t] == [] }

  /** The tasks whose claim is past its time to live. */
  function LapsedTasks(claims: map<string, OwnerClaim>, cutoff: int): set<string> {
    set t | t in claims && claims[t].createdAt < cutoff
  }

  lemma {:induction false} WithoutNothing(handles: seq<string>, gone: set<string>)
    requires forall h :: h in handles ==> h !in gone
    ensures Without(handles, gone) == handles
  {
    if handles != [] {
      WithoutNothing(handles[1..], gone);
    }
  }

  lemma {:induction false} WithoutIsSubsequence(handles: seq<string>, gone: set<string>)
    ensures |Without(handles, gone)| <= |handles|
    ensures forall h :: h in Without(handles, gone) <==> h in handles && h !in gone
    ensures (forall h :: h in handles ==> h in gone) ==> Without(handles, gone) == []
  {
    if handles != [] {
      WithoutIsSubsequence(handles[1..], gone);
    }
  }

  /** Removing one task's handles touches no other task. */
  lemma OtherTasksKeepHandles(items: seq<RegisteredResult>, gone: set<string>, owner: string, t: string)
    requires DistinctHandles(items) && t != owner
    requires forall x :: x in items && x.handle in gone ==> x.taskId == owner
    ensures HandlesOf(Minus(items, gone), t) == HandlesOf(items, t)
  {
    HandlesOfMinus(items, gone, t);
    WithoutNothing(HandlesOf(items, t), gone);
  }

  lemma {:induction false} DistinctHandlesListed(items: seq<RegisteredResult>, t: string)
    requires DistinctHandles(items)
    ensures Distinct(HandlesOf(items, t))
  {
    if items != [] {
      DistinctHandlesListed(items[1..], t);
      var rest := HandlesOf(items[1..], t);
      assert forall h :: h in rest ==> h != items[0].handle;
      assert forall i :: 0 <= i < |rest| ==> rest[i] in rest;
    }
  }

  /** The index after handles of one task are removed. */
  function IndexWithout(byTask: map<string, seq<string>>, owner: string, kept: seq<string>): map<string, seq<string>> {
    if kept == [] then byTask - {owner} else byTask[owner := kept]
  }

  lemma IndexAfterRemoval(items: seq<RegisteredResult>, byTask: map<string, seq<string>>, gone: set<string>, owner: string)
    requires DistinctHandles(items) && IndexesAgree(items, byTask)
    requires forall x :: x in items && x.handle in gone ==> x.taskId == owner
    ensures var kept := Without(HandlesOf(items, owner), gone);
            var index := IndexWithout(byTask, owner, kept);
            IndexesAgree(Minus(items, gone), index) && DistinctHandles(Minus(items, gone))
            && Strays(index) == Strays(byTask) - {owner}
            && forall t :: t in index ==> |index[t]| <= if t in byTask then |byTask[t]| else 0
  {
    hide HandlesOf, Minus, Without;
    var kept := Without(HandlesOf(items, owner), gone);
    var index := IndexWithout(byTask, owner, kept);
    MinusIsDistinct(items, gone);
    HandlesOfMinus(items, gone, owner);
    WithoutIsSubsequence(HandlesOf(items, owner), gone);
    assert HandlesOf(items, owner) != [] ==> owner in byTask;
    forall t
      ensures (HandlesOf(Minus(items, gone), t) != [] ==> t in index)
              && (t in index ==> index[t] == HandlesOf(Minus(items, gone), t))
    {
      if t != owner {
        OtherTasksKeepHandles(items, gone, owner, t);
        assert HandlesOf(items, t) != [] ==> t in byTask;
      }
    }
  }

  lemma SameHandleSameResult(items: seq<RegisteredResult>, x: RegisteredResult, y: RegisteredResult)
    requires DistinctHandles(items) && x in items && y in items && x.handle == y.handle
    ensures x == y
  {
  }

  lemma HandleIsIndexed(items: seq<RegisteredResult>, byTask: map<string, seq<string>>, x: RegisteredResult)
    requires DistinctHandles(items) && IndexesAgree(items, byTask) && x in items
    ensures x.taskId in byTask && x.handle in byTask[x.taskId] && byTask[x.taskId] == HandlesOf(items, x.taskId)
    ensures x.taskId !in Strays(byTask)
    ensures forall y :: y in items && y.handle == x.handle ==> y.taskId == x.taskId
  {
    assert x.handle in HandlesOf(items, x.taskId);
  }

  lemma TaskIsIndexed(items: seq<RegisteredResult>, byTask: map<string, seq<string>>, taskId: string)
    requires DistinctHandles(items) && IndexesAgree(items, byTask)
    ensures (if taskId in byTask then byTask[taskId] else []) == HandlesOf(items, taskId)
    ensures Elements(HandlesOf(items, taskId)) == TaskHandles(items, taskId)
    ensures Without(HandlesOf(items, taskId), TaskHandles(items, taskId)) == []
    ensures forall x :: x in items && x.handle in TaskHandles(items, taskId) ==> x.taskId == taskId
  {
    assert HandlesOf(items, taskId) != [] ==> taskId in byTask;
    WithoutIsSubsequence(HandlesOf(items, taskId), TaskHandles(items, taskId));
    assert forall h :: h in HandlesOf(items, taskId) ==> h in TaskHandles(items, taskId);
    forall x | x in items && x.handle in TaskHandles(items, taskId) ensures x.taskId == taskId {
      var y :| y in items && y.taskId == taskId && y.handle == x.handle;
      SameHandleSameResult(items, x, y);
    }
  }

  function ExpiredList(items: seq<RegisteredResult>, cutoff: int): (r: seq<string>)
    ensures forall h :: h in r <==> h in ExpiredHandles(items, cutoff)
  {
    if items == [] then []
    else
      assert forall x :: x in items <==> x == items[0] || x in items[1..];
      (if items[0].createdAt < cutoff then [items[0].handle] else []) + ExpiredList(items[1..], cutoff)
  }

  lemma MinusFirst(items: seq<RegisteredResult>)
    requires items != [] && DistinctHandles(items)
    ensures Minus(items, {items[0].handle}) == items[1..]
  {
    MinusNothing(items[1..], {items[0].handle});
  }

  lemma NoOrphans(items: seq<RegisteredResult>, claims: map<string, OwnerClaim>, cutoff: int)
    ensures OrphanHandles(items, claims, cutoff, {}) == {}
  {
  }

  /** Dropping expired results first does not change which results are left in the end. */
  lemma RetainedInTwoSteps(items: seq<RegisteredResult>, claims: map<string, OwnerClaim>, cutoff: int)
    ensures var kept := Minus(items, ExpiredHandles(items, cutoff));
            Minus(kept, OrphanHandles(kept, claims, cutoff, claims.Keys))
            == Minus(items, ExpiredHandles(items, cutoff) + OrphanHandles(items, claims, cutoff, claims.Keys))
  {
    var expired := ExpiredHandles(items, cutoff);
    var kept := Minus(items, expired);
    MinusTwice(items, expired, OrphanHandles(kept, claims, cutoff, claims.Keys));
    assert expired + OrphanHandles(kept, claims, cutoff, claims.Keys)
        == expired + OrphanHandles(items, claims, cutoff, claims.Keys) by {
      forall x | x in items && x.taskId in claims && claims[x.taskId].createdAt < cutoff && x.handle !in expired
        ensures x in kept {}
    }
  }

  /** Dropping one more expired claim's results extends the orphans by that task. */
  lemma OrphanStep(items: seq<RegisteredResult>, claims: map<string, OwnerClaim>, cutoff: int, done: set<string>, t: string)
    requires t in claims && t !in done
    ensures var gone := OrphanHandles(items, claims, cutoff, done);
            var left := Minus(items, gone);
            Minus(items, OrphanHandles(items, claims, cutoff, done + {t}))
            == if claims[t].createdAt < cutoff then Minus(left, TaskHandles(left, t)) else left
  {
    var gone := OrphanHandles(items, claims, cutoff, done);
    var left := Minus(items, gone);
    var next := OrphanHandles(items, claims, cutoff, done + {t});
    if claims[t].createdAt < cutoff {
      MinusTwice(items, gone, TaskHandles(left, t));
      assert next == gone + TaskHandles(left, t) by {
        forall h | h in next ensures h in gone + TaskHandles(left, t) {
          var x :| x in items && x.taskId in done + {t} && x.taskId in claims && claims[x.taskId].createdAt < cutoff && x.handle == h;
          if x.handle !in gone { assert x in left; }
        }
      }
    } else {
      assert next == gone;
    }
  }

  lemma {:induction false} HandlesOfSnoc(items: seq<RegisteredResult>, x: RegisteredResult, taskId: string)
    ensures HandlesOf(items + [x], taskId) == HandlesOf(items, taskId) + (if x.taskId == taskId then [x.handle] else [])
  {
    var more := items + [x];
    if items == [] {
      assert more[1..] == [];
    } else {
      assert more[1..] == items[1..] + [x];
      HandlesOfSnoc(items[1..], x, taskId);
    }
  }

  /** The index after one more result is appended. */
  lemma IndexAfterAppend(items: seq<RegisteredResult>, byTask: map<string, seq<string>>, x: RegisteredResult)
    requires IndexesAgree(items, byTask)
    ensures IndexesAgree(items + [x], byTask[x.taskId := HandlesOf(items, x.taskId) + [x.handle]])
    ensures Strays(byTask[x.taskId := HandlesOf(items, x.taskId) + [x.handle]]) == Strays(byTask) - {x.taskId}
  {
    var index := byTask[x.taskId := HandlesOf(items, x.taskId) + [x.handle]];
    forall t
      ensures (HandlesOf(items + [x], t) != [] ==> t in index) && (t in index ==> index[t] == HandlesOf(items + [x], t))
    {
      HandlesOfSnoc(items, x, t);
      assert HandlesOf(items, t) != [] ==> t in byTask;
    }
  }

  /** The handles of a task whose bound source differs from `fingerprint`. */
  function StaleHandles(items: seq<RegisteredResult>, taskId: string, fingerprint: Option<string>): set<string> {
    set x | x in items && x.taskId == taskId && x.sourceFingerprint != fingerprint :: x.handle
  }

  /** The stale handles among those already visited. */
  function StaleAmong(items: seq<RegisteredResult>, taskId: string, fingerprint: Option<string>, seen: seq<string>): set<string> {
    StaleHandles(items, taskId, fingerprint) * Elements(seen)
  }

  lemma NothingStaleYet(items: seq<RegisteredResult>, taskId: string, fingerprint: Option<string>)
    ensures Minus(items, StaleAmong(items, taskId, fingerprint, [])) == items
  {
    MinusNothing(items, StaleAmong(items, taskId, fingerprint, []));
  }

  lemma AllStale(items: seq<RegisteredResult>, taskId: string, fingerprint: Option<string>, handles: seq<string>)
    requires Elements(handles) == TaskHandles(items, taskId)
    ensures StaleAmong(items, taskId, fingerprint, handles) == StaleHandles(items, taskId, fingerprint)
  {
  }

  lemma StaleExactly(items: seq<RegisteredResult>, taskId: string, fingerprint: Option<string>, x: RegisteredResult)
    requires DistinctHandles(items) && x in items && x.taskId == taskId
    ensures x.handle in StaleHandles(items, taskId, fingerprint) <==> x.sourceFingerprint != fingerprint
  {
    if x.handle in StaleHandles(items, taskId, fingerprint) {
      var y :| y in items && y.taskId == taskId && y.sourceFingerprint != fingerprint && y.handle == x.handle;
      SameHandleSameResult(items, x, y);
    }
  }

  /** Visiting one more handle of the task removes it exactly when it is stale. */
  lemma StaleStep(items: seq<RegisteredResult>, taskId: string, fingerprint: Option<string>, seen: seq<string>, h: string)
    requires DistinctHandles(items) && h in TaskHandles(items, taskId)
    ensures var left := Minus(items, StaleAmong(items, taskId, fingerprint, seen));
            var found := Lookup(left, h);
            Minus(items, StaleAmong(items, taskId, fingerprint, seen + [h]))
            == if found.Some? && found.value.sourceFingerprint != fingerprint then Minus(left, {h}) else left
  {
    hide Minus, Lookup, StaleHandles, Elements;
    var gone := StaleAmong(items, taskId, fingerprint, seen);
    var left := Minus(items, gone);
    var x :| x in items && x.taskId == taskId && x.handle == h;
    StaleExactly(items, taskId, fingerprint, x);
    var next := StaleAmong(items, taskId, fingerprint, seen + [h]);
    assert Elements(seen + [h]) == Elements(seen) + {h};
    MinusTwice(items, gone, {h});
    if x.sourceFingerprint == fingerprint {
      assert next == gone;
      if found: RegisteredResult :| Lookup(left, h) == Some(found) { SameHandleSameResult(items, x, found); }
    } else {
      assert next == gone + {h};
      if h in gone {
        assert next == gone;
      } else {
        assert x in left;
        SameHandleSameResult(items, x, Lookup(left, h).value);
      }
    }
  }

  /** What is left once the handles in `seen` have been visited. */
  predicate Visited(before: seq<RegisteredResult>, left: seq<RegisteredResult>, taskId: string, fingerprint: Option<string>, seen: seq<string>) {
    left == Minus(before, StaleAmong(before, taskId, fingerprint, seen))
  }

  lemma NothingVisited(before: seq<RegisteredResult>, taskId: string, fingerprint: Option<string>)
    ensures Visited(before, before, taskId, fingerprint, [])
  {
    NothingStaleYet(before, taskId, fingerprint);
  }

  lemma VisitOne(before: seq<RegisteredResult>, left: seq<RegisteredResult>, taskId: string, fingerprint: Option<string>, seen: seq<string>, h: string)
    requires DistinctHandles(before) && h in TaskHandles(before, taskId) && Visited(before, left, taskId, fingerprint, seen)
    ensures var found := Lookup(left, h);
            Visited(before, if found.Some? && found.value.sourceFingerprint != fingerprint then Minus(left, {h}) else left,
                    taskId, fingerprint, seen + [h])
  {
    hide Minus, Lookup;
    StaleStep(before, taskId, fingerprint, seen, h);
  }

  lemma AllVisited(before: seq<RegisteredResult>, left: seq<RegisteredResult>, taskId: string, fingerprint: Option<string>, handles: seq<string>)
    requires Elements(handles) == TaskHandles(before, taskId) && Visited(before, left, taskId, fingerprint, handles)
    ensures left == Minus(before, StaleHandles(before, taskId, fingerprint))
  {
    AllStale(before, taskId, fingerprint, handles);
  }

  lemma MinusOneSize(items: seq<RegisteredResult>, x: RegisteredResult)
    requires DistinctHandles(items) && x in items
    ensures |Minus(items, {x.handle})| == |items| - 1
  {
    if items[0] == x {
      MinusFirst(items);
    } else {
      MinusOneSize(items[1..], x);
    }
  }

  lemma RetainedIsPart(items: seq<RegisteredResult>, gone: set<string>, claims: map<string, OwnerClaim>, now: int, limits: Limits)
    ensures forall x :: x in Retained(Minus(items, gone), claims, now, limits) ==> x in items && x.handle !in gone
  {
  }

  lemma RetainedIsFresh(items: seq<RegisteredResult>, claims: map<string, OwnerClaim>, now: int, limits: Limits)
    ensures forall x :: x in Retained(items, claims, now, limits) ==>
              x in items && x.createdAt >= now - limits.ttl
              && (x.taskId in claims ==> claims[x.taskId].createdAt >= now - limits.ttl)
  {
  }

  /** A task's results are all gone once a prune drops its claim. */
  lemma NoResultOutlivesItsClaim(items: seq<RegisteredResult>, claims: map<string, OwnerClaim>, now: int, limits: Limits, taskId: string)
    requires taskId in claims
    ensures taskId !in LiveClaims(claims, now - limits.ttl) ==>
              forall x :: x in Retained(items, claims, now, limits) ==> x.taskId != taskId
    ensures taskId in LiveClaims(claims, now - limits.ttl) ==> LiveClaims(claims, now - limits.ttl)[taskId] == claims[taskId]
  {
    RetainedIsFresh(items, claims, now, limits);
  }

  /** The result belongs to the very claim it was registered under, and that claim is in force. */
  ghost predicate UnderClaim(x: RegisteredResult, claims: map<string, OwnerClaim>, grants: map<string, OwnerClaim>) {
    && x.handle in grants && x.taskId in claims && claims[x.taskId] == grants[x.handle]
    && x.claimRevision == Some(claims[x.taskId].revision)
    && claims[x.taskId].createdAt <= x.createdAt
  }

  /** Every result that carries a revision is under its claim. */
  ghost predicate Backed(items: seq<RegisteredResult>, claims: map<string, OwnerClaim>, grants: map<string, OwnerClaim>, clock: int) {
    forall x :: x in items ==> x.createdAt <= clock && (x.claimRevision.Some? ==> UnderClaim(x, claims, grants))
  }

  ghost predicate ClaimsHeld(claims: map<string, OwnerClaim>, clock: int) {
    forall t :: t in claims ==> claims[t].taskId == t && claims[t].createdAt <= clock
  }

  ghost predicate WithinTaskCap(byTask: map<string, seq<string>>, cap: nat) {
    forall t :: t in byTask ==> |byTask[t]| <= cap
  }

  lemma BackedSubset(items: seq<RegisteredResult>, fewer: seq<RegisteredResult>, claims: map<string, OwnerClaim>,
                     grants: map<string, OwnerClaim>, clock: int)
    requires Backed(items, claims, grants, clock) && forall x :: x in fewer ==> x in items
    ensures Backed(fewer, claims, grants, clock)
  {
  }

  /** Results of a task without a claim carry no revision. */
  lemma UnclaimedCarryNoRevision(items: seq<RegisteredResult>, claims: map<string, OwnerClaim>, grants: map<string, OwnerClaim>,
                                 clock: int, taskId: string)
    requires Backed(items, claims, grants, clock) && taskId !in claims
    ensures forall x :: x in items && x.taskId == taskId ==> x.claimRevision.None?
  {
  }

  /** Changing the claim of a task without revisioned results leaves the rest backed. */
  lemma BackedElsewhere(items: seq<RegisteredResult>, claims: map<string, OwnerClaim>, changed: map<string, OwnerClaim>,
                        grants: map<string, OwnerClaim>, clock: int, taskId: string)
    requires Backed(items, claims, grants, clock)
    requires forall x :: x in items && x.taskId == taskId ==> x.claimRevision.None?
    requires forall t :: t != taskId && t in claims ==> t in changed && changed[t] == claims[t]
    ensures Backed(items, changed, grants, clock)
  {
  }

  /** Appending a result that records its live claim as grant keeps everything backed. */
  lemma BackedAppend(items: seq<RegisteredResult>, claims: map<string, OwnerClaim>, grants: map<string, OwnerClaim>,
                     clock: int, x: RegisteredResult)
    requires Backed(items, claims, grants, clock) && ClaimsHeld(claims, clock)
    requires x.createdAt == clock && x.handle !in grants && forall y :: y in items ==> y.handle != x.handle
    requires x.claimRevision == if x.taskId in claims then Some(claims[x.taskId].revision) else None
    ensures Backed(items + [x], claims, if x.taskId in claims then grants[x.handle := claims[x.taskId]] else grants, clock)
  {
    var more := if x.taskId in claims then grants[x.handle := claims[x.taskId]] else grants;
    forall y | y in items + [x] ensures y.createdAt <= clock && (y.claimRevision.Some? ==> UnderClaim(y, claims, more)) {
      if y in items { assert y.claimRevision.Some? ==> UnderClaim(y, claims, grants); }
    }
  }

  lemma CapShrinks(byTask: map<string, seq<string>>, index: map<string, seq<string>>, cap: nat)
    requires WithinTaskCap(byTask, cap)
    requires forall t :: t in index ==> |index[t]| <= if t in byTask then |byTask[t]| else 0
    ensures WithinTaskCap(index, cap)
  {
  }

  class LocalResultRegistry {
    const limits: Limits
    /** The results by handle: an ordered dict, oldest first. */
    var byHandle: seq<RegisteredResult>
    var byTask: map<string, seq<string>>
    var claims: map<string, OwnerClaim>
    /** The claim each handle was registered under, and the latest clock reading. */
    ghost var grants: map<string, OwnerClaim>
    ghost var clock: int

    ghost predicate Valid()
      reads this
    {
      && limits.maxPerTask >= 1
      && DistinctHandles(byHandle)
      && IndexesAgree(byHandle, byTask)
      && Backed(byHandle, claims, grants, clock)
      && ClaimsHeld(claims, clock)
      && |byHandle| <= limits.maxRetained + 1
      && WithinTaskCap(byTask, limits.maxPerTask)
    }

    constructor (limits: Limits)
      requires limits.maxPerTask >= 1
      ensures Valid() && this.limits == limits && byHandle == [] && claims == map[] && grants == map[] && Strays(byTask) == {}
    {
      this.limits := limits;
      byHandle, byTask, claims, grants, clock := [], map[], map[], map[], 0;
    }

    method Discard(handle: string)
      requires Valid()
      modifies this`byHandle, this`byTask
      ensures Valid() && byHandle == Minus(old(byHandle), {handle}) && Strays(byTask) == old(Strays(byTask))
    {
      hide HandlesOf, Minus, Without, IndexesAgree, Backed, ClaimsHeld, WithinTaskCap, DistinctHandles;
      var item := Lookup(byHandle, handle);
      if item.None? {
        MinusNothing(byHandle, {handle});
        return;
      }
      var task := item.value.taskId;
      HandleIsIndexed(byHandle, byTask, item.value);
      IndexAfterRemoval(byHandle, byTask, {handle}, task);
      BackedSubset(byHandle, Minus(byHandle, {handle}), claims, grants, clock);
      CapShrinks(byTask, IndexWithout(byTask, task, Without(byTask[task], {handle})), limits.maxPerTask);
      byHandle := Minus(byHandle, {handle});
      if task in byTask && handle in byTask[task] {
        var handles := Without(byTask[task], {handle});
        byTask := if handles == [] then byTask - {task} else byTask[task := handles];
      }
    }

    method DiscardTask(taskId: string)
      requires Valid()
      modifies this`byHandle, this`byTask
      ensures Valid() && byHandle == Minus(old(byHandle), TaskHandles(old(byHandle), taskId))
      ensures Strays(byTask) == old(Strays(byTask)) - {taskId}
    {
      hide HandlesOf, Minus, Without, IndexesAgree, Backed, ClaimsHeld, WithinTaskCap, DistinctHandles, TaskHandles, Elements;
      var handles := if taskId in byTask then byTask[taskId] else [];
      ghost var before := byHandle;
      MinusNothing(before, {});
      TaskIsIndexed(before, byTask, taskId);
      IndexAfterRemoval(before, byTask, TaskHandles(before, taskId), taskId);
      BackedSubset(before, Minus(before, TaskHandles(before, taskId)), claims, grants, clock);
      CapShrinks(byTask, byTask - {taskId}, limits.maxPerTask);
      for k := 0 to |handles|
        invariant byHandle == Minus(before, Elements(handles[..k])) && byTask == old(byTask)
      {
        MinusTwice(before, Elements(handles[..k]), {handles[k]});
        assert Elements(handles[..k]) + {handles[k]} == Elements(handles[..k + 1]);
        byHandle := Minus(byHandle, {handles[k]});
      }
      assert handles[..|handles|] == handles;
      byTask := byTask - {taskId};
    }

    /** Full teardown of a task: its results and its claim. */
    method Release(taskId: string)
      requires Valid()
      modifies this`byHandle, this`byTask, this`claims
      ensures Valid() && claims == old(claims) - {taskId}
      ensures byHandle == Minus(old(byHandle), TaskHandles(old(byHandle), taskId))
      ensures forall x :: x in byHandle ==> x.taskId != taskId
      ensures Strays(byTask) == old(Strays(byTask)) - {taskId}
    {
      hide IndexesAgree, Backed, Minus, WithinTaskCap, DistinctHandles;
      ghost var before := byHandle;
      DiscardTask(taskId);
      forall x | x in byHandle ensures x.taskId != taskId {
        assert x.taskId == taskId && x in before ==> x.handle in TaskHandles(before, taskId);
      }
      BackedElsewhere(byHandle, claims, claims - {taskId}, grants, clock, taskId);
      claims := claims - {taskId};
    }

    lemma ValidIsDistinct()
      requires Valid()
      ensures DistinctHandles(byHandle)
    {
    }

    method SetClock(now: int)
      requires Valid() && clock <= now
      modifies this`clock
      ensures Valid() && clock == now
    {
      hide IndexesAgree, HandlesOf, UnderClaim;
      clock := now;
    }

    method DropExpired(cutoff: int)
      requires Valid()
      modifies this`byHandle, this`byTask
      ensures Valid() && byHandle == Minus(old(byHandle), ExpiredHandles(old(byHandle), cutoff))
      ensures Strays(byTask) == old(Strays(byTask))
    {
      hide Minus, IndexesAgree, Valid, ExpiredHandles, Elements;
      ghost var before := byHandle;
      var expired := ExpiredList(byHandle, cutoff);
      MinusNothing(before, {});
      for k := 0 to |expired|
        invariant Valid() && byHandle == Minus(before, Elements(expired[..k])) && Strays(byTask) == old(Strays(byTask))
      {
        MinusTwice(before, Elements(expired[..k]), {expired[k]});
        assert Elements(expired[..k]) + {expired[k]} == Elements(expired[..k + 1]);
        Discard(expired[k]);
      }
      assert expired[..|expired|] == expired;
      assert Elements(expired) == ExpiredHandles(before, cutoff);
    }

    method DropExpiredClaims(cutoff: int)
      requires Valid()
      modifies this`byHandle, this`byTask, this`claims
      ensures Valid() && claims == LiveClaims(old(claims), cutoff)
      ensures byHandle == Minus(old(byHandle), OrphanHandles(old(byHandle), old(claims), cutoff, old(claims).Keys))
      ensures Strays(byTask) == old(Strays(byTask)) - LapsedTasks(old(claims), cutoff)
    {
      hide Minus, IndexesAgree, OrphanHandles, TaskHandles, Valid;
      ghost var before, held := byHandle, claims;
      NoOrphans(before, held, cutoff);
      var todo := claims.Keys;
      ghost var done: set<string> := {};
      MinusNothing(before, {});
      while todo != {}
        invariant Valid() && todo !! done && todo + done == held.Keys
        invariant byHandle == Minus(before, OrphanHandles(before, held, cutoff, done))
        invariant claims == map t | t in held && (t in todo || held[t].createdAt >= cutoff) :: held[t]
        invariant Strays(byTask) == old(Strays(byTask)) - (LapsedTasks(held, cutoff) * done)
        decreases todo
      {
        var t :| t in todo;
        OrphanStep(before, held, cutoff, done, t);
        if claims[t].createdAt < cutoff {
          Release(t);
        }
        todo, done := todo - {t}, done + {t};
      }
      assert done == held.Keys;
    }

    method EnforceCap()
      requires Valid()
      modifies this`byHandle, this`byTask
      ensures Valid() && byHandle == Newest(old(byHandle), limits.maxRetained) && Strays(byTask) == old(Strays(byTask))
    {
      hide Minus, IndexesAgree, Valid;
      ghost var before := byHandle;
      while |byHandle| > limits.maxRetained
        invariant Valid() && |byHandle| <= |before| && byHandle == before[|before| - |byHandle|..]
        invariant |before| > limits.maxRetained ==> |byHandle| >= limits.maxRetained
        invariant |before| <= limits.maxRetained ==> byHandle == before
        invariant Strays(byTask) == old(Strays(byTask))
      {
        ValidIsDistinct();
        MinusFirst(byHandle);
        Discard(byHandle[0].handle);
      }
    }

    /** Expired results, then expired claims with their results, then the oldest above the cap. */
    method Prune(now: int)
      requires Valid() && clock <= now
      modifies this`byHandle, this`byTask, this`claims, this`clock
      ensures Valid() && clock == now
      ensures byHandle == Retained(old(byHandle), old(claims), now, limits)
      ensures claims == LiveClaims(old(claims), now - limits.ttl)
      ensures |byHandle| <= limits.maxRetained
      ensures Strays(byTask) == old(Strays(byTask)) - LapsedTasks(old(claims), now - limits.ttl)
    {
      hide Minus, IndexesAgree, ExpiredHandles, OrphanHandles, Valid, LiveClaims, Strays, LapsedTasks;
      var cutoff := now - limits.ttl;
      RetainedInTwoSteps(byHandle, claims, cutoff);
      DropExpired(cutoff);
      DropExpiredClaims(cutoff);
      EnforceCap();
      SetClock(now);
    }

    /** Records the authorization a task is planned under. The same authorization keeps
        the claim and every result; a different one drops the task's results. */
    method Bind(now: int, taskId: string, hostId: string, workbookName: string, workbookIdentity: Option<string>,
                authorizedKey: string, sourceFingerprint: Option<string>) returns (claim: OwnerClaim)
      requires Valid() && clock <= now
      modifies this`byHandle, this`byTask, this`claims, this`clock
      ensures Valid() && clock == now && taskId in claims && claims[taskId] == claim
      ensures claim.taskId == taskId && claim.hostId == hostId && claim.workbookName == workbookName && claim.authorizedKey == authorizedKey
      ensures claim.workbookIdentity == match workbookIdentity
                                        case None => "name:" + workbookName
                                        case Some(given) => if given == "" then "name:" + workbookName else given
      ensures var same := taskId in old(claims)
                && old(claims)[taskId].hostId == hostId && old(claims)[taskId].workbookName == workbookName
                && old(claims)[taskId].workbookIdentity == claim.workbookIdentity && old(claims)[taskId].authorizedKey == authorizedKey;
              if same then
                claim == old(claims)[taskId] && claims == old(claims) && byHandle == old(byHandle) && byTask == old(byTask)
              else
                claim.revision == (if taskId in old(claims) then old(claims)[taskId].revision + 1 else 1)
                && claim.createdAt == now && claim.sourceFingerprint == sourceFingerprint
                && claims == LiveClaims(old(claims), now - limits.ttl)[taskId := claim]
                && byHandle == Retained(Minus(old(byHandle), if taskId in old(claims) then TaskHandles(old(byHandle), taskId) else {}),
                                        old(claims), now, limits)
                && Strays(byTask) == old(Strays(byTask)) - (if taskId in old(claims) then {taskId} else {})
                                     - LapsedTasks(old(claims), now - limits.ttl)
    {
      hide Minus, IndexesAgree, Retained, Backed, DistinctHandles, WithinTaskCap, Strays, LapsedTasks;
      var identity := Identity(workbookName, workbookIdentity);
      var revision := 1;
      ghost var before, held := byHandle, claims;
      if taskId in claims {
        var existing := claims[taskId];
        var candidate := existing.(hostId := hostId, workbookName := workbookName, workbookIdentity := identity,
                                   authorizedKey := authorizedKey, sourceFingerprint := sourceFingerprint);
        if existing.SameAuthorization(candidate) {
          SetClock(now);
          return existing;
        }
        DiscardTask(taskId);
        revision := existing.revision + 1;
      } else {
        MinusNothing(byHandle, {});
        UnclaimedCarryNoRevision(byHandle, claims, grants, clock, taskId);
      }
      RetainedIsPart(before, if taskId in held then TaskHandles(before, taskId) else {}, held, now, limits);
      Prune(now);
      forall x | x in byHandle && x.taskId == taskId ensures x.claimRevision.None? {
        assert x in before;
        assert taskId in held ==> x.handle in TaskHandles(before, taskId);
      }
      claim := OwnerClaim(taskId, hostId, workbookName, identity, authorizedKey, sourceFingerprint, revision, now);
      BackedElsewhere(byHandle, claims, claims[taskId := claim], grants, clock, taskId);
      claims := claims[taskId := claim];
    }

    /** The claim in force for a task. */
    method Claim(now: int, taskId: string) returns (claim: Option<OwnerClaim>)
      requires Valid() && clock <= now
      modifies this`byHandle, this`byTask, this`claims, this`clock
      ensures Valid() && clock == now
      ensures byHandle == Retained(old(byHandle), old(claims), now, limits)
      ensures claims == LiveClaims(old(claims), now - limits.ttl)
      ensures claim == if taskId in claims then Some(claims[taskId]) else None
      ensures Strays(byTask) == old(Strays(byTask)) - LapsedTasks(old(claims), now - limits.ttl)
    {
      Prune(now);
      claim := if taskId in claims then Some(claims[taskId]) else None;
    }

    /** Stores a new result in both indexes and records its grant. */
    method Append(x: RegisteredResult, handles: seq<string>)
      requires Valid() && |byHandle| <= limits.maxRetained && x.createdAt == clock
      requires handles == HandlesOf(byHandle, x.taskId) && |handles| < limits.maxPerTask
      requires x.handle !in grants && forall y :: y in byHandle ==> y.handle != x.handle
      requires x.claimRevision == if x.taskId in claims then Some(claims[x.taskId].revision) else None
      modifies this`byHandle, this`byTask, this`grants
      ensures Valid() && byHandle == old(byHandle) + [x] && Strays(byTask) == old(Strays(byTask)) - {x.taskId}
      ensures grants == if x.taskId in claims then old(grants)[x.handle := claims[x.taskId]] else old(grants)
    {
      hide IndexesAgree, HandlesOf, Backed;
      IndexAfterAppend(byHandle, byTask, x);
      BackedAppend(byHandle, claims, grants, clock, x);
      if x.taskId in claims {
        grants := grants[x.handle := claims[x.taskId]];
      }
      byHandle := byHandle + [x];
      byTask := byTask[x.taskId := handles + [x.handle]];
    }

    /** Registers a result under a fresh handle; a live claim is recorded as its grant. The
        task is listed before the result's digest is taken, so when the digest cannot be taken
        (`None`) a task without results stays listed. */
    method Register(now: int, taskId: string, table: Table, digest: Option<string>, sourceFingerprint: Option<string>, handle: string)
      returns (r: Outcome<RegisteredResult>)
      requires Valid() && clock <= now
      requires handle !in grants && forall x :: x in byHandle ==> x.handle != handle
      modifies this`byHandle, this`byTask, this`claims, this`clock, this`grants
      ensures Valid() && claims == LiveClaims(old(claims), now - limits.ttl)
      ensures var base := Retained(old(byHandle), old(claims), now, limits);
              var strays := old(Strays(byTask)) - LapsedTasks(old(claims), now - limits.ttl);
              var full := |HandlesOf(base, taskId)| >= limits.maxPerTask;
              && (r == Refused(InvalidMatrix) <==> !MatrixFits(table, limits))
              && (r == Refused(TooManyForTask) <==> MatrixFits(table, limits) && full)
              && (r == Refused(Undigestible) <==> MatrixFits(table, limits) && !full && digest.None?)
              && (r.Refused? ==> byHandle == base && grants == old(grants))
              && (r.Refused? ==> Strays(byTask) == if r.error.Undigestible? && HandlesOf(base, taskId) == [] then strays + {taskId} else strays)
              && (r.Accepted? ==>
                    byHandle == base + [r.value] && |base| <= limits.maxRetained && Strays(byTask) == strays - {taskId}
                    && r.value.handle == handle && r.value.taskId == taskId && r.value.table == table
                    && r.value.sourceFingerprint == sourceFingerprint && r.value.createdAt == now
                    && digest == Some(r.value.fingerprint) && (r.value.claimRevision.Some? <==> taskId in claims)
                    && grants == if taskId in claims then old(grants)[handle := claims[taskId]] else old(grants))
    {
      hide Minus, IndexesAgree, Retained, MatrixFits, LapsedTasks;
      RetainedIsPart(old(byHandle), {}, old(claims), now, limits);
      MinusNothing(old(byHandle), {});
      Prune(now);
      var fits := ValidateMatrix(table, limits);
      if !fits {
        return Refused(InvalidMatrix);
      }
      var handles := ListTask(taskId);
      if |handles| >= limits.maxPerTask {
        return Refused(TooManyForTask);
      }
      if digest.None? {
        return Refused(Undigestible);
      }
      var revision := if taskId in claims then Some(claims[taskId].revision) else None;
      var registered := RegisteredResult(handle, taskId, table, sourceFingerprint, now, digest.value, revision);
      Append(registered, handles);
      r := Accepted(registered);
    }

    /** The task's list of handles, entered empty if there is none. */
    method ListTask(taskId: string) returns (handles: seq<string>)
      requires Valid()
      modifies this`byTask
      ensures Valid() && handles == HandlesOf(byHandle, taskId)
      ensures Strays(byTask) == if handles == [] then old(Strays(byTask)) + {taskId} else old(Strays(byTask))
    {
      hide HandlesOf, Backed, ClaimsHeld, DistinctHandles;
      assert HandlesOf(byHandle, taskId) != [] ==> taskId in byTask;
      if taskId !in byTask { byTask := byTask[taskId := []]; }
      handles := byTask[taskId];
    }

    /** Resolves a handle for the task that owns it. The revision comparison of the source
        is made here and, by the class invariant, never refuses. */
    method Resolve(now: int, taskId: string, handle: string) returns (r: Option<RegisteredResult>)
      requires Valid() && clock <= now
      modifies this`byHandle, this`byTask, this`claims, this`clock
      ensures Valid() && clock == now
      ensures byHandle == Retained(old(byHandle), old(claims), now, limits)
      ensures claims == LiveClaims(old(claims), now - limits.ttl)
      ensures r.Some? <==> exists x :: x in byHandle && x.handle == handle && x.taskId == taskId
      ensures r.Some? ==> r.value in byHandle && r.value.handle == handle && r.value.taskId == taskId
      ensures r.Some? ==> r.value.createdAt >= now - limits.ttl
      ensures r.Some? && taskId in claims ==> claims[taskId].createdAt >= now - limits.ttl
      ensures r.Some? && r.value.claimRevision.Some? ==>
                handle in grants && taskId in claims && claims[taskId] == grants[handle]
      ensures Strays(byTask) == old(Strays(byTask)) - LapsedTasks(old(claims), now - limits.ttl)
    {
      hide Minus, IndexesAgree, Retained, Strays, LapsedTasks;
      RetainedIsFresh(byHandle, claims, now, limits);
      Prune(now);
      var item := Lookup(byHandle, handle);
      if item.None? || item.value.taskId != taskId {
        assert forall x :: x in byHandle && x.handle == handle ==> item.Some? && x == item.value;
        return None;
      }
      if taskId in claims && item.value.claimRevision.Some? && item.value.claimRevision != Some(claims[taskId].revision) {
        assert false;
      }
      r := item;
    }

    /** Resolution for a caller that must still hold the task's authorization. The claim and
        the result are looked up at two clock readings. */
    method ResolveOwned(now: int, later: int, taskId: string, handle: string,
                        hostId: string, workbookName: string, workbookIdentity: Option<string>)
      returns (r: Option<RegisteredResult>)
      requires Valid() && clock <= now <= later
      modifies this`byHandle, this`byTask, this`claims, this`clock
      ensures Valid()
      ensures var held := LiveClaims(old(claims), now - limits.ttl);
              var kept := Retained(old(byHandle), old(claims), now, limits);
              var identity := match workbookIdentity
                              case None => "name:" + workbookName
                              case Some(given) => if given == "" then "name:" + workbookName else given;
              var owns := taskId in held && held[taskId].hostId == hostId && held[taskId].workbookName == workbookName
                          && held[taskId].workbookIdentity == identity;
              && byHandle == (if owns then Retained(kept, held, later, limits) else kept)
              && claims == (if owns then LiveClaims(held, later - limits.ttl) else held)
              && Strays(byTask) == old(Strays(byTask)) - LapsedTasks(old(claims), now - limits.ttl)
                                   - (if owns then LapsedTasks(held, later - limits.ttl) else {})
              && (r.Some? <==> owns && exists x :: x in byHandle && x.handle == handle && x.taskId == taskId)
      ensures r.Some? ==> r.value in byHandle && r.value.handle == handle && r.value.taskId == taskId
                          && taskId in claims && claims[taskId].hostId == hostId && claims[taskId].workbookName == workbookName
      ensures r.Some? && r.value.claimRevision.Some? ==> handle in grants && claims[taskId] == grants[handle]
    {
      hide Minus, IndexesAgree, Retained, Strays, LapsedTasks;
      var claim := Claim(now, taskId);
      if claim.None? || !claim.value.Accepts(hostId, workbookName, workbookIdentity) {
        return None;
      }
      NoResultOutlivesItsClaim(byHandle, claims, later, limits, taskId);
      r := Resolve(later, taskId, handle);
    }

    /** Discards a retained result that was not read from the given source; 1 if it did. */
    method DropUnlessBound(handle: string, sourceFingerprint: Option<string>) returns (dropped: nat)
      requires Valid()
      modifies this`byHandle, this`byTask
      ensures Valid() && dropped == |old(byHandle)| - |byHandle| && Strays(byTask) == old(Strays(byTask))
      ensures var found := Lookup(old(byHandle), handle);
              byHandle == if found.Some? && found.value.sourceFingerprint != sourceFingerprint
                          then Minus(old(byHandle), {handle}) else old(byHandle)
    {
      hide Minus, IndexesAgree, HandlesOf, Lookup, Backed, ClaimsHeld, WithinTaskCap;
      dropped := 0;
      var item := Lookup(byHandle, handle);
      if item.Some? && item.value.sourceFingerprint != sourceFingerprint {
        MinusOneSize(byHandle, item.value);
        Discard(handle);
        dropped := 1;
      }
    }

    /** Drops a task's results whose source changed and counts them. */
    method InvalidateSource(taskId: string, sourceFingerprint: Option<string>) returns (removed: nat)
      requires Valid()
      modifies this`byHandle, this`byTask
      ensures Valid() && byHandle == Minus(old(byHandle), StaleHandles(old(byHandle), taskId, sourceFingerprint))
      ensures removed == |old(byHandle)| - |byHandle| && Strays(byTask) == old(Strays(byTask))
    {
      hide *;
      removed := 0;
      var handles := TaskList(taskId);
      ghost var before := byHandle;
      NothingVisited(before, taskId, sourceFingerprint);
      for k := 0 to |handles|
        invariant Valid() && removed == |before| - |byHandle| && Strays(byTask) == old(Strays(byTask))
        invariant Visited(before, byHandle, taskId, sourceFingerprint, handles[..k])
      {
        assert handles[..k + 1] == handles[..k] + [handles[k]];
        VisitOne(before, byHandle, taskId, sourceFingerprint, handles[..k], handles[k]);
        var dropped := DropUnlessBound(handles[k], sourceFingerprint);
        removed := removed + dropped;
      }
      assert handles[..|handles|] == handles;
      AllVisited(before, byHandle, taskId, sourceFingerprint, handles);
    }

    /** The task's list of handles, if it has one. */
    method TaskList(taskId: string) returns (handles: seq<string>)
      requires Valid()
      ensures DistinctHandles(byHandle) && Elements(handles) == TaskHandles(byHandle, taskId)
    {
      TaskIsIndexed(byHandle, byTask, taskId);
      handles := if taskId in byTask then byTask[taskId] else [];
    }
  }

  /** After a task is bound, whatever is registered for it, only a caller on the same host, with
      the same workbook name and the same identity, reads its results: here a bind followed by
      a resolution at any later time. */
  method ResolveAfterBind(registry: LocalResultRegistry, now: int, later: int, last: int, taskId: string, handle: string,
                          hostId: string, workbookName: string, identity: string, authorizedKey: string, sourceFingerprint: Option<string>,
                          callerHost: string, callerName: string, callerIdentity: string)
    returns (r: Option<RegisteredResult>)
    requires registry.Valid() && registry.clock <= now <= later <= last && identity != "" && callerIdentity != ""
    modifies registry
    ensures registry.Valid()
    ensures r.Some? ==> callerHost == hostId && callerName == workbookName && callerIdentity == identity
  {
    var claim := registry.Bind(now, taskId, hostId, workbookName, Some(identity), authorizedKey, sourceFingerprint);
    r := registry.ResolveOwned(later, last, taskId, handle, callerHost, callerName, Some(callerIdentity));
  }

  /** What a prune keeps, without its steps: the results within their own and their claim's
      time to live, in their order, and of these the last ones up to the cap. */
  lemma RetainedExactly(items: seq<RegisteredResult>, claims: map<string, OwnerClaim>, now: int, limits: Limits)
    returns (live: seq<RegisteredResult>, at: seq<nat>)
    requires DistinctHandles(items)
    ensures Picks(items, live, at)
    ensures forall x :: x in live <==>
              x in items && x.createdAt >= now - limits.ttl
              && (x.taskId in claims ==> claims[x.taskId].createdAt >= now - limits.ttl)
    ensures var kept := Retained(items, claims, now, limits);
            |kept| == (if |live| <= limits.maxRetained then |live| else limits.maxRetained) && kept == live[|live| - |kept|..]
  {
    var cutoff := now - limits.ttl;
    var gone := ExpiredHandles(items, cutoff) + OrphanHandles(items, claims, cutoff, claims.Keys);
    live := Minus(items, gone);
    at := MinusPositions(items, gone);
    forall x | x in items && x.handle in gone
      ensures x.createdAt < cutoff || (x.taskId in claims && claims[x.taskId].createdAt < cutoff)
    {
      var y :| y in items && y.handle == x.handle
        && (y.createdAt < cutoff || (y.taskId in claims && claims[y.taskId].createdAt < cutoff));
      SameHandleSameResult(items, x, y);
    }
  }

  /** `picked` are the items at increasing positions. */
  predicate Picks(items: seq<RegisteredResult>, picked: seq<RegisteredResult>, at: seq<nat>) {
    && |at| == |picked| && (forall i :: 0 <= i < |at| ==> at[i] < |items| && picked[i] == items[at[i]])
    && forall i, j :: 0 <= i < j < |at| ==> at[i] < at[j]
  }

  function Shifted(at: seq<nat>): seq<nat> { seq(|at|, i requires 0 <= i < |at| => at[i] + 1) }

  lemma PicksLater(x: RegisteredResult, items: seq<RegisteredResult>, picked: seq<RegisteredResult>, at: seq<nat>)
    requires Picks(items, picked, at)
    ensures Picks([x] + items, picked, Shifted(at))
  {
    assert forall i :: 0 <= i < |at| ==> ([x] + items)[at[i] + 1] == items[at[i]];
  }

  lemma PicksFirst(x: RegisteredResult, items: seq<RegisteredResult>, picked: seq<RegisteredResult>, at: seq<nat>)
    requires Picks([x] + items, picked, at) && forall i :: 0 <= i < |at| ==> at[i] > 0
    ensures Picks([x] + items, [x] + picked, [0] + at)
  {
  }

  lemma {:induction false} MinusPositions(items: seq<RegisteredResult>, gone: set<string>) returns (at: seq<nat>)
    ensures Picks(items, Minus(items, gone), at)
  {
    if items == [] {
      at := [];
    } else {
      var x, tail := items[0], items[1..];
      var rest := MinusPositions(tail, gone);
      hide Minus, Picks;
      assert items == [x] + tail;
      MinusCons(x, tail, gone);
      PicksLater(x, tail, Minus(tail, gone), rest);
      at := Shifted(rest);
      if x.handle !in gone {
        PicksFirst(x, tail, Minus(tail, gone), at);
        at := [0] + at;
      }
    }
  }
}
