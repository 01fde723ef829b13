/** The two one-shot development faults and the bounded list of targets they may be armed for. */
module FaultArming {
  import opened Wrappers
  import opened A1Notation
  import opened Counting

  // ------------------------------------------------------------------- seen targets

  datatype Target = Target(host: string, name: string, identity: string)

  const MAX_SEEN_TARGETS := 16

  /** Identities that can be checked, as opposed to a display name. */
  predicate IsTrusted(identity: string) {
    var v := Strip(identity);
    "url:" <= v || "wps-path:" <= v || "wps-session:" <= v || "unsaved:" <= v
  }

  function Trimmed(t: Target): Target { Target(Strip(t.host), Strip(t.name), Strip(t.identity)) }

  predicate IsNoted(t: Target) {
    Strip(t.host) != "" && Strip(t.name) != "" && IsTrusted(Strip(t.identity))
  }

  function Drop<T(==, !new)>(s: seq<T>, x: T): (r: seq<T>)
    ensures forall y :: y in r <==> y in s && y != x
    ensures |r| <= |s| && (x !in s ==> r == s)
  {
    if s == [] then [] else if s[0] == x then Drop(s[1..], x) else [s[0]] + Drop(s[1..], x)
  }

  function Cut<T>(s: seq<T>, n: nat): seq<T> { if |s| <= n then s else s[..n] }

  /** Every noted target once, the most recently noted first. */
  function MostRecentFirst(history: seq<Target>): seq<Target> {
    if history == [] then []
    else
      var n := |history| - 1;
      [history[n]] + Drop(MostRecentFirst(history[..n]), history[n])
  }

  lemma {:induction false} DropOfCut(s: seq<Target>, x: Target, n: nat)
    requires n > 0 && Distinct(s)
    ensures Cut(Drop(Cut(s, n), x), n - 1) == Cut(Drop(s, x), n - 1)
  {
    if s != [] {
      var rest := s[1..];
      CutOfFront(s[0], rest, n);
      assert s == [s[0]] + rest;
      DistinctTail(s);
      if s[0] == x {
        DropFirst(x, rest);
        DropFirst(x, Cut(rest, n - 1));
      } else if n > 1 {
        DropLater(s[0], rest, x);
        DropLater(s[0], Cut(rest, n - 1), x);
        DropOfCut(rest, x, n - 1);
        CutOfFront(s[0], Drop(Cut(rest, n - 1), x), n - 1);
        CutOfFront(s[0], Drop(rest, x), n - 1);
      }
    }
  }

  lemma DropFirst(x: Target, rest: seq<Target>)
    requires x !in rest
    ensures Drop([x] + rest, x) == rest
  {
    assert ([x] + rest)[1..] == rest;
  }

  lemma DropLater(y: Target, rest: seq<Target>, x: Target)
    requires x != y
    ensures Drop([y] + rest, x) == [y] + Drop(rest, x)
  {
    assert ([y] + rest)[1..] == rest;
  }

  lemma {:induction false} MostRecentIsDistinct(history: seq<Target>)
    ensures Distinct(MostRecentFirst(history))
  {
    if history != [] {
      var n := |history| - 1;
      var before := MostRecentFirst(history[..n]);
      MostRecentIsDistinct(history[..n]);
      DropIsDistinct(before, history[n]);
      DistinctCons(history[n], Drop(before, history[n]));
    }
  }

  lemma {:induction false} DropIsDistinct(s: seq<Target>, x: Target)
    requires Distinct(s)
    ensures Distinct(Drop(s, x)) && x !in Drop(s, x)
  {
    hide Distinct;
    if s == [] {
      assert Drop(s, x) == s;
    } else {
      DistinctTail(s);
      DropIsDistinct(s[1..], x);
      if s[0] != x { DistinctCons(s[0], Drop(s[1..], x)); }
    }
  }

  class SeenTargets {
    var seen: seq<Target>
    /** Every target noted so far, oldest first. */
    ghost var history: seq<Target>

    ghost predicate Valid()
      reads this
    {
      seen == Cut(MostRecentFirst(history), MAX_SEEN_TARGETS)
    }

    constructor ()
      ensures Valid() && history == []
    {
      seen, history := [], [];
    }

    /** Moves the target to the front, or inserts it there, and cuts the list. */
    method NoteTarget(t: Target) returns (noted: bool)
      requires Valid()
      modifies this
      ensures Valid() && Distinct(seen)
      ensures noted <==> Strip(t.host) != "" && Strip(t.name) != "" && IsTrusted(Strip(t.identity))
      ensures seen <= MostRecentFirst(history) && (|seen| == 16 || (|seen| < 16 && seen == MostRecentFirst(history)))
      ensures history == if noted then old(history) + [Target(Strip(t.host), Strip(t.name), Strip(t.identity))] else old(history)
    {
      hide Strip, IsTrusted;
      MostRecentIsDistinct(history);
      if !IsNoted(t) { return false; }
      var entry := Trimmed(t);
      ghost var before := MostRecentFirst(history);
      DropOfCut(before, entry, MAX_SEEN_TARGETS);
      var kept := if entry in seen then Drop(seen, entry) else seen;
      assert kept == Drop(Cut(before, MAX_SEEN_TARGETS), entry);
      seen := Cut([entry] + kept, MAX_SEEN_TARGETS);
      history := history + [entry];
      MostRecentIsDistinct(history);
      assert history[..|history| - 1] == old(history);
      CutOfFront(entry, kept, MAX_SEEN_TARGETS);
      CutOfFront(entry, Drop(before, entry), MAX_SEEN_TARGETS);
      noted := true;
    }
  }

  lemma CutOfFront(x: Target, s: seq<Target>, n: nat)
    requires n > 0
    ensures Cut([x] + s, n) == [x] + Cut(s, n - 1)
  {
  }

  /** The target is on this host and has this name, as far as they are given. */
  predicate Matches(t: Target, host: string, name: string) {
    (host == "" || t.host == host) && (name == "" || t.name == name)
  }

  /** The seen targets that match, most recent first. */
  function Matching(seen: seq<Target>, host: string, name: string): (r: seq<Target>)
    ensures forall t :: t in r <==> t in seen && Matches(t, host, name)
  {
    if seen == [] then []
    else
      var rest := Matching(seen[1..], host, name);
      assert forall t :: t in seen <==> t == seen[0] || t in seen[1..];
      if Matches(seen[0], host, name) then [seen[0]] + rest else rest
  }

  lemma {:induction false} MatchingIsDistinct(seen: seq<Target>, host: string, name: string)
    requires Distinct(seen)
    ensures Distinct(Matching(seen, host, name))
  {
    hide Distinct;
    if seen == [] {
      assert Matching(seen, host, name) == seen;
    } else {
      DistinctTail(seen);
      MatchingIsDistinct(seen[1..], host, name);
      if Matches(seen[0], host, name) { DistinctCons(seen[0], Matching(seen[1..], host, name)); }
    }
  }

  /** The identity an arming applies to: a trusted declared one, or the only one seen. */
  function ResolveIdentity(seen: seq<Target>, host: string, name: string, declared: string): Option<string> {
    if Strip(declared) != "" then (if IsTrusted(declared) then Some(Strip(declared)) else None)
    else
      var found := Matching(seen, Strip(host), Strip(name));
      if |found| == 1 then Some(found[0].identity) else None
  }

  /** The target's host and name are the given ones, spaces around them aside; a blank one fits any. */
  predicate FitsCall(t: Target, host: string, name: string) {
    && (Strip(host) != "" ==> t.host == Strip(host))
    && (Strip(name) != "" ==> t.name == Strip(name))
  }

  const TRUSTED_PREFIXES := ["url:", "wps-path:", "wps-session:", "unsaved:"]

  /** An identity is trusted exactly when, trimmed, it starts with one of the trusted prefixes;
      so the name a workbook falls back to never is. */
  lemma TrustedExactly(identity: string)
    ensures IsTrusted(identity) <==> exists k :: 0 <= k < |TRUSTED_PREFIXES| && TRUSTED_PREFIXES[k] <= Strip(identity)
    ensures "name:" <= Strip(identity) ==> !IsTrusted(identity)
  {
    var v := Strip(identity);
    assert TRUSTED_PREFIXES[0] == "url:" && TRUSTED_PREFIXES[1] == "wps-path:";
    assert TRUSTED_PREFIXES[2] == "wps-session:" && TRUSTED_PREFIXES[3] == "unsaved:";
    if "name:" <= v { assert v[0] == 'n'; }
  }

  /** Without a declared identity an arming applies exactly when one seen target matches, and
      then to that one; a declared identity is used exactly when it is a trusted one. */
  lemma ResolvesExactlyWhenUnambiguous(seen: seq<Target>, host: string, name: string, declared: string, id: string)
    requires Distinct(seen)
    ensures Strip(declared) == "" ==>
              (ResolveIdentity(seen, host, name, declared) == Some(id)
               <==> exists t :: t in seen && FitsCall(t, host, name) && t.identity == id
                                && forall u :: u in seen && FitsCall(u, host, name) ==> u == t)
    ensures Strip(declared) != "" ==>
              (ResolveIdentity(seen, host, name, declared) == Some(id) <==> IsTrusted(declared) && id == Strip(declared))
  {
    forall t ensures Matches(t, Strip(host), Strip(name)) <==> FitsCall(t, host, name) {}
    hide Matches, FitsCall, Strip, IsTrusted;
    var found := Matching(seen, Strip(host), Strip(name));
    MatchingIsDistinct(seen, Strip(host), Strip(name));
    if |found| == 1 { assert found[0] in found && forall u :: u in found ==> u == found[0]; }
    if |found| > 1 { assert found[0] in found && found[1] in found && found[0] != found[1]; }
  }

  // ------------------------------------------------------------------------- faults

  datatype Arm = Arm(host: string, name: string, identity: string, expiresAt: int)

  /** A fault's module state; `doomed` is used by the result fault only. */
  datatype Fault = Fault(arm: Option<Arm>, boundTask: Option<string>, doomed: Option<(string, string)>, consumed: bool)

  /** What succeeded, in order. */
  datatype Event =
    | Armed(arm: Arm)
    | Cancelled
    | BoundTo(task: string, host: string, name: string, identity: string, now: int)
    | Doomed(task: string, handle: string)
    | Taken(task: string, handle: string, now: int)

  datatype Op =
    | DoArm(host: string, name: string, declared: string, seen: seq<Target>, ttl: int, now: int)
    | DoCancel
    | DoBind(task: string, host: string, name: string, identity: string, now: int)
    | DoDoom(task: string, handle: string)
    | DoTake(task: string, handle: string, now: int)

  const IDLE := Fault(None, None, None, false)

  /** The result-reference fault. Its window is checked when a task binds, not when it is taken. */
  function ResultStep(f: Fault, op: Op, enabled: bool): (Fault, seq<Event>) {
    match op
    case DoArm(host, name, declared, seen, ttl, now) =>
      if !enabled || host == "" || name == "" then (f, [])
      else
        var identity := ResolveIdentity(seen, host, name, declared);
        if identity.None? then (f, [])
        else
          var a := Arm(host, name, identity.value, now + ttl);
          (Fault(Some(a), None, None, false), [Armed(a)])
    case DoCancel => (IDLE, [Cancelled])
    case DoBind(task, host, name, identity, now) =>
      if !enabled || task == "" || f.arm.None? || f.consumed || f.boundTask.Some? || now >= f.arm.value.expiresAt
        || !IsTrusted(Strip(identity)) || f.arm.value.host != host || f.arm.value.name != name
        || f.arm.value.identity != Strip(identity)
      then (f, [])
      else (f.(boundTask := Some(task)), [BoundTo(task, host, name, Strip(identity), now)])
    case DoDoom(task, handle) =>
      if !enabled || handle == "" || f.consumed || f.boundTask != Some(task) || f.doomed.Some? then (f, [])
      else (f.(doomed := Some((task, handle))), [Doomed(task, handle)])
    case DoTake(task, handle, now) =>
      if !enabled || f.doomed != Some((task, handle)) then (f, [])
      else (Fault(None, None, None, true), [Taken(task, handle, now)])
  }

  /** The source-changed fault: taken by task, and only inside the window. */
  function SourceStep(f: Fault, op: Op, enabled: bool): (Fault, seq<Event>) {
    match op
    case DoArm(host, name, declared, seen, ttl, now) =>
      if !enabled || Strip(host) == "" || Strip(name) == "" then (f, [])
      else
        var identity := ResolveIdentity(seen, host, name, declared);
        if identity.None? then (f, [])
        else
          var a := Arm(Strip(host), Strip(name), identity.value, now + (if ttl > 1 then ttl else 1));
          (Fault(Some(a), None, None, false), [Armed(a)])
    case DoCancel => if !enabled then (f, []) else (f.(arm := None, boundTask := None), [Cancelled])
    case DoBind(task, host, name, identity, now) =>
      if !enabled || task == "" || f.arm.None? || f.consumed || f.boundTask.Some? || now >= f.arm.value.expiresAt
        || f.arm.value.host != Strip(host) || f.arm.value.name != Strip(name)
        || !IsTrusted(Strip(identity)) || f.arm.value.identity != Strip(identity)
      then (f, [])
      else (f.(boundTask := Some(task)), [BoundTo(task, Strip(host), Strip(name), Strip(identity), now)])
    case DoDoom(_, _) => (f, [])
    case DoTake(task, _, now) =>
      if !enabled || f.arm.None? || f.boundTask != Some(task) then (f, [])
      else if now >= f.arm.value.expiresAt then (f.(arm := None, boundTask := None), [])
      else (Fault(None, None, f.doomed, true), [Taken(task, "", now)])
  }

  datatype Call = Call(op: Op, enabled: bool)

  function ResultRun(calls: seq<Call>): (Fault, seq<Event>) {
    if calls == [] then (IDLE, [])
    else
      var n := |calls| - 1;
      var (f, log) := ResultRun(calls[..n]);
      var (g, events) := ResultStep(f, calls[n].op, calls[n].enabled);
      (g, log + events)
  }

  function SourceRun(calls: seq<Call>): (Fault, seq<Event>) {
    if calls == [] then (IDLE, [])
    else
      var n := |calls| - 1;
      var (f, log) := SourceRun(calls[..n]);
      var (g, events) := SourceStep(f, calls[n].op, calls[n].enabled);
      (g, log + events)
  }

  /** The bound target is the armed one: same host, same workbook name, same identity. */
  predicate IsFor(e: Event, a: Arm)
    requires e.BoundTo?
  {
    e.host == a.host && e.name == a.name && e.identity == a.identity
  }

  /** A binding follows an arming directly, in its window and for its identity. */
  predicate BindingIsDue(log: seq<Event>, i: nat)
    requires i < |log| && log[i].BoundTo?
  {
    i >= 1 && log[i - 1].Armed? && IsFor(log[i], log[i - 1].arm) && log[i].now < log[i - 1].arm.expiresAt
  }

  /** Each success of the result fault stands on the one before it: arm, bind, first result, take. */
  predicate ResultOrdered(log: seq<Event>) {
    && (forall i :: 0 <= i < |log| && log[i].BoundTo? ==> BindingIsDue(log, i))
    && (forall i :: 0 <= i < |log| && log[i].Doomed? ==> i >= 1 && log[i - 1].BoundTo? && log[i - 1].task == log[i].task)
    && (forall i :: 0 <= i < |log| && log[i].Taken? ==> i >= 1 && log[i - 1] == Doomed(log[i].task, log[i].handle))
  }

  predicate SourceOrdered(log: seq<Event>) {
    && (forall i :: 0 <= i < |log| && log[i].BoundTo? ==> BindingIsDue(log, i))
    && (forall i :: 0 <= i < |log| && log[i].Taken? ==>
          i >= 2 && log[i - 1].BoundTo? && log[i - 1].task == log[i].task
          && log[i - 2].Armed? && log[i].now < log[i - 2].arm.expiresAt)
    && (forall i :: 0 <= i < |log| ==> !log[i].Doomed?)
  }

  /** The state mirrors the last successes. */
  predicate ResultMirrors(f: Fault, log: seq<Event>) {
    var n := |log|;
    && (f.arm.None? ==> f.boundTask.None?)
    && (f.boundTask.None? ==> f.doomed.None?)
    && (f.arm.Some? && f.boundTask.None? ==> n >= 1 && log[n - 1] == Armed(f.arm.value))
    && (f.boundTask.Some? && f.doomed.None? ==> n >= 1 && log[n - 1].BoundTo? && log[n - 1].task == f.boundTask.value)
    && (f.doomed.Some? ==> n >= 1 && log[n - 1] == Doomed(f.doomed.value.0, f.doomed.value.1))
  }

  predicate SourceMirrors(f: Fault, log: seq<Event>) {
    var n := |log|;
    && (f.arm.None? ==> f.boundTask.None?)
    && (f.arm.Some? && f.boundTask.None? ==> n >= 1 && log[n - 1] == Armed(f.arm.value))
    && (f.boundTask.Some? ==> n >= 2 && log[n - 1].BoundTo? && log[n - 1].task == f.boundTask.value && log[n - 2] == Armed(f.arm.value))
  }

  function Arms(log: seq<Event>): nat {
    if log == [] then 0 else Arms(log[..|log| - 1]) + (if log[|log| - 1].Armed? then 1 else 0)
  }

  function Takes(log: seq<Event>): nat {
    if log == [] then 0 else Takes(log[..|log| - 1]) + (if log[|log| - 1].Taken? then 1 else 0)
  }

  lemma CountsOneMore(log: seq<Event>, e: Event)
    ensures Arms(log + [e]) == Arms(log) + (if e.Armed? then 1 else 0)
    ensures Takes(log + [e]) == Takes(log) + (if e.Taken? then 1 else 0)
  {
    assert (log + [e])[..|log + [e]| - 1] == log;
  }

  /** An unused arming, if there is one. */
  function Unused(f: Fault): nat { if f.arm.Some? then 1 else 0 }

  lemma ResultSnoc(log: seq<Event>, e: Event)
    requires ResultOrdered(log)
    requires e.BoundTo? ==> BindingIsDue(log + [e], |log|)
    requires e.Doomed? ==> |log| >= 1 && log[|log| - 1].BoundTo? && log[|log| - 1].task == e.task
    requires e.Taken? ==> |log| >= 1 && log[|log| - 1] == Doomed(e.task, e.handle)
    ensures ResultOrdered(log + [e])
  {
    forall i | 0 <= i < |log| && log[i].BoundTo? ensures BindingIsDue(log + [e], i) { assert BindingIsDue(log, i); }
  }

  lemma SourceSnoc(log: seq<Event>, e: Event)
    requires SourceOrdered(log) && !e.Doomed?
    requires e.BoundTo? ==> BindingIsDue(log + [e], |log|)
    requires e.Taken? ==> |log| >= 2 && log[|log| - 1].BoundTo? && log[|log| - 1].task == e.task
                          && log[|log| - 2].Armed? && e.now < log[|log| - 2].arm.expiresAt
    ensures SourceOrdered(log + [e])
  {
    forall i | 0 <= i < |log| && log[i].BoundTo? ensures BindingIsDue(log + [e], i) { assert BindingIsDue(log, i); }
  }

  lemma ResultStepKeepsOrder(f: Fault, log: seq<Event>, op: Op, enabled: bool)
    requires ResultOrdered(log) && ResultMirrors(f, log) && Takes(log) + Unused(f) <= Arms(log)
    ensures var (g, events) := ResultStep(f, op, enabled);
            ResultOrdered(log + events) && ResultMirrors(g, log + events) && Takes(log + events) + Unused(g) <= Arms(log + events)
  {
    hide IsTrusted, ResolveIdentity, ResultOrdered, Arms, Takes, Strip;
    var (g, events) := ResultStep(f, op, enabled);
    assert log + [] == log;
    if events != [] {
      assert events == [events[0]];
      CountsOneMore(log, events[0]);
      ResultSnoc(log, events[0]);
    }
  }

  lemma SourceStepKeepsOrder(f: Fault, log: seq<Event>, op: Op, enabled: bool)
    requires SourceOrdered(log) && SourceMirrors(f, log) && Takes(log) + Unused(f) <= Arms(log)
    ensures var (g, events) := SourceStep(f, op, enabled);
            SourceOrdered(log + events) && SourceMirrors(g, log + events) && Takes(log + events) + Unused(g) <= Arms(log + events)
  {
    hide IsTrusted, ResolveIdentity, SourceOrdered, Arms, Takes, Strip;
    var (g, events) := SourceStep(f, op, enabled);
    assert log + [] == log;
    if events != [] {
      assert events == [events[0]];
      CountsOneMore(log, events[0]);
      SourceSnoc(log, events[0]);
    }
  }

  lemma {:induction false} ResultRunIsOrdered(calls: seq<Call>)
    ensures var (f, log) := ResultRun(calls);
            ResultOrdered(log) && ResultMirrors(f, log) && Takes(log) + Unused(f) <= Arms(log)
  {
    if calls != [] {
      hide ResultStep, ResultOrdered, ResultMirrors, Arms, Takes;
      var n := |calls| - 1;
      ResultRunIsOrdered(calls[..n]);
      var (f, log) := ResultRun(calls[..n]);
      ResultStepKeepsOrder(f, log, calls[n].op, calls[n].enabled);
    }
  }

  lemma {:induction false} SourceRunIsOrdered(calls: seq<Call>)
    ensures var (f, log) := SourceRun(calls);
            SourceOrdered(log) && SourceMirrors(f, log) && Takes(log) + Unused(f) <= Arms(log)
  {
    if calls != [] {
      hide SourceStep, SourceOrdered, SourceMirrors, Arms, Takes;
      var n := |calls| - 1;
      SourceRunIsOrdered(calls[..n]);
      var (f, log) := SourceRun(calls[..n]);
      SourceStepKeepsOrder(f, log, calls[n].op, calls[n].enabled);
    }
  }

  /** A history goes on call by call. */
  lemma RunsGoOn(calls: seq<Call>, c: Call)
    ensures var (f, log) := ResultRun(calls);
            var (g, events) := ResultStep(f, c.op, c.enabled);
            ResultRun(calls + [c]) == (g, log + events)
    ensures var (f, log) := SourceRun(calls);
            var (g, events) := SourceStep(f, c.op, c.enabled);
            SourceRun(calls + [c]) == (g, log + events)
  {
    assert (calls + [c])[..|calls|] == calls;
    hide ResultStep, SourceStep;
  }

  /** Over every history, a taken result reference is the first one bound for the task bound
      since the latest arming, with nothing cancelled, re-armed or taken in between. */
  lemma ResultTakeIsTheBoundOne(calls: seq<Call>, i: nat)
    requires i < |ResultRun(calls).1| && ResultRun(calls).1[i].Taken?
    ensures var log := ResultRun(calls).1;
            i >= 3 && log[i - 1] == Doomed(log[i].task, log[i].handle)
            && log[i - 2].BoundTo? && log[i - 2].task == log[i].task
            && log[i - 3].Armed? && log[i - 2].host == log[i - 3].arm.host && log[i - 2].name == log[i - 3].arm.name
            && log[i - 2].identity == log[i - 3].arm.identity
            && log[i - 2].now < log[i - 3].arm.expiresAt
  {
    ResultRunIsOrdered(calls);
    var log := ResultRun(calls).1;
    assert BindingIsDue(log, i - 2);
  }

  /** Over every history of the source fault, a take is for the task bound since the latest
      arming, inside its window, with nothing in between. */
  lemma SourceTakeIsTheBoundOne(calls: seq<Call>, i: nat)
    requires i < |SourceRun(calls).1| && SourceRun(calls).1[i].Taken?
    ensures var log := SourceRun(calls).1;
            i >= 2 && log[i - 1].BoundTo? && log[i - 1].task == log[i].task
            && log[i - 2].Armed? && log[i - 1].host == log[i - 2].arm.host && log[i - 1].name == log[i - 2].arm.name
            && log[i - 1].identity == log[i - 2].arm.identity
            && log[i].now < log[i - 2].arm.expiresAt
  {
    SourceRunIsOrdered(calls);
    var log := SourceRun(calls).1;
    assert BindingIsDue(log, i - 1);
  }

  /** Over every history of either fault, nothing is taken after a cancellation until a new
      arming has succeeded. */
  lemma NothingIsTakenAfterCancel(calls: seq<Call>, i: nat, j: nat)
    ensures var log := ResultRun(calls).1;
            i < j < |log| && log[i].Cancelled? && log[j].Taken? ==> exists k :: i < k < j && log[k].Armed?
    ensures var log := SourceRun(calls).1;
            i < j < |log| && log[i].Cancelled? && log[j].Taken? ==> exists k :: i < k < j && log[k].Armed?
  {
    hide ResultRun, SourceRun;
    var results, sources := ResultRun(calls).1, SourceRun(calls).1;
    if i < j < |results| && results[i].Cancelled? && results[j].Taken? {
      ResultTakeIsTheBoundOne(calls, j);
      assert i < j - 3 < j && results[j - 3].Armed?;
    }
    if i < j < |sources| && sources[i].Cancelled? && sources[j].Taken? {
      SourceTakeIsTheBoundOne(calls, j);
      assert i < j - 2 < j && sources[j - 2].Armed?;
    }
  }

  /** In every history, successful takes never outnumber successful armings. */
  lemma TakesNeverExceedArms(calls: seq<Call>)
    ensures Takes(ResultRun(calls).1) <= Arms(ResultRun(calls).1)
    ensures Takes(SourceRun(calls).1) <= Arms(SourceRun(calls).1)
  {
    ResultRunIsOrdered(calls);
    SourceRunIsOrdered(calls);
  }

  // -------------------------------------------------------------- the modules in place

  /** The result-reference fault's module state; `log` is the history of its successes. */
  class ResultRefFault {
    var arm: Option<Arm>
    var boundTask: Option<string>
    var doomed: Option<(string, string)>
    var consumed: bool
    ghost var log: seq<Event>

    function State(): Fault
      reads this
    {
      Fault(arm, boundTask, doomed, consumed)
    }

    constructor ()
      ensures State() == IDLE && log == []
    {
      arm, boundTask, doomed, consumed, log := None, None, None, false, [];
    }

    method DoArm(host: string, name: string, declared: string, seen: seq<Target>, ttl: int, now: int, enabled: bool)
      modifies this
      ensures (State(), log) == var (f, e) := ResultStep(old(State()), Op.DoArm(host, name, declared, seen, ttl, now), enabled); (f, old(log) + e)
    {
      assert log + [] == log;
      if !enabled || host == "" || name == "" { return; }
      var identity := ResolveIdentity(seen, host, name, declared);
      if identity.None? { return; }
      arm := Some(Arm(host, name, identity.value, now + ttl));
      boundTask, doomed, consumed := None, None, false;
      log := log + [Armed(arm.value)];
    }

    method Cancel()
      modifies this
      ensures State() == IDLE && log == old(log) + [Cancelled]
    {
      arm, boundTask, doomed, consumed := None, None, None, false;
      log := log + [Cancelled];
    }

    method BindTask(task: string, host: string, name: string, identity: string, now: int, enabled: bool) returns (bound: bool)
      modifies this
      ensures (State(), log) == var (f, e) := ResultStep(old(State()), DoBind(task, host, name, identity, now), enabled); (f, old(log) + e)
      ensures bound <==> State() != old(State())
    {
      assert log + [] == log;
      if !enabled || task == "" { return false; }
      if arm.None? || consumed || boundTask.Some? { return false; }
      if now >= arm.value.expiresAt { return false; }
      var target := Strip(identity);
      if !IsTrusted(target) { return false; }
      if arm.value.host != host || arm.value.name != name || arm.value.identity != target { return false; }
      boundTask := Some(task);
      log := log + [BoundTo(task, host, name, target, now)];
      bound := true;
    }

    method BindPythonResult(task: string, handle: string, enabled: bool) returns (bound: bool)
      modifies this
      ensures (State(), log) == var (f, e) := ResultStep(old(State()), DoDoom(task, handle), enabled); (f, old(log) + e)
      ensures bound <==> State() != old(State())
    {
      assert log + [] == log;
      if !enabled || handle == "" { return false; }
      if consumed || boundTask.None? || boundTask.value != task { return false; }
      if doomed.Some? { return false; }
      doomed := Some((task, handle));
      log := log + [Doomed(task, handle)];
      bound := true;
    }

    method TakeExpiry(task: string, handle: string, now: int, enabled: bool) returns (taken: bool)
      modifies this
      ensures (State(), log) == var (f, e) := ResultStep(old(State()), DoTake(task, handle, now), enabled); (f, old(log) + e)
      ensures taken <==> enabled && old(doomed) == Some((task, handle))
      ensures taken ==> log == old(log) + [Taken(task, handle, now)] && doomed.None?
    {
      assert log + [] == log;
      if !enabled { return false; }
      if doomed.None? || doomed.value != (task, handle) { return false; }
      doomed, arm, boundTask, consumed := None, None, None, true;
      log := log + [Taken(task, handle, now)];
      taken := true;
    }
  }

  /** The source-changed fault's module state. */
  class SourceChangedFault {
    var arm: Option<Arm>
    var boundTask: Option<string>
    var consumed: bool
    ghost var log: seq<Event>

    function State(): Fault
      reads this
    {
      Fault(arm, boundTask, None, consumed)
    }

    constructor ()
      ensures State() == IDLE && log == []
    {
      arm, boundTask, consumed, log := None, None, false, [];
    }

    method DoArm(host: string, name: string, declared: string, seen: seq<Target>, ttl: int, now: int, enabled: bool)
      modifies this
      ensures (State(), log) == var (f, e) := SourceStep(old(State()), Op.DoArm(host, name, declared, seen, ttl, now), enabled); (f, old(log) + e)
    {
      assert log + [] == log;
      if !enabled || Strip(host) == "" || Strip(name) == "" { return; }
      var identity := ResolveIdentity(seen, host, name, declared);
      if identity.None? { return; }
      arm := Some(Arm(Strip(host), Strip(name), identity.value, now + (if ttl > 1 then ttl else 1)));
      boundTask, consumed := None, false;
      log := log + [Armed(arm.value)];
    }

    method Cancel(enabled: bool)
      modifies this
      ensures (State(), log) == var (f, e) := SourceStep(old(State()), DoCancel, enabled); (f, old(log) + e)
    {
      assert log + [] == log;
      if !enabled { return; }
      arm, boundTask := None, None;
      log := log + [Cancelled];
    }

    method BindTask(task: string, host: string, name: string, identity: string, now: int, enabled: bool) returns (bound: bool)
      modifies this
      ensures (State(), log) == var (f, e) := SourceStep(old(State()), DoBind(task, host, name, identity, now), enabled); (f, old(log) + e)
      ensures bound <==> State() != old(State())
    {
      assert log + [] == log;
      if !enabled || task == "" { return false; }
      if arm.None? || consumed || boundTask.Some? { return false; }
      if now >= arm.value.expiresAt { return false; }
      if arm.value.host != Strip(host) || arm.value.name != Strip(name) { return false; }
      var target := Strip(identity);
      if !IsTrusted(target) || target != arm.value.identity { return false; }
      boundTask := Some(task);
      log := log + [BoundTo(task, Strip(host), Strip(name), target, now)];
      bound := true;
    }

    /** A take outside the window disarms without succeeding. */
    method Take(task: string, now: int, enabled: bool) returns (taken: bool)
      modifies this
      ensures (State(), log) == var (f, e) := SourceStep(old(State()), DoTake(task, "", now), enabled); (f, old(log) + e)
      ensures taken <==> enabled && old(arm).Some? && old(boundTask) == Some(task) && now < old(arm).value.expiresAt
      ensures taken ==> log == old(log) + [Taken(task, "", now)] && arm.None?
    {
      assert log + [] == log;
      if !enabled { return false; }
      if arm.None? || boundTask.None? || boundTask.value != task { return false; }
      if now >= arm.value.expiresAt {
        arm, boundTask := None, None;
        return false;
      }
      arm, boundTask, consumed := None, None, true;
      log := log + [Taken(task, "", now)];
      taken := true;
    }
  }
}
