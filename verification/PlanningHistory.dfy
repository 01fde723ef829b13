/** The planning loop's counters, tool set and dialogue, read off what has happened: over every
    run, with crashes anywhere, they are those of the history up to now, where a crash rolls
    the history back to the last save. */
module PlanningHistory {
  import opened Wrappers
  import opened PlanningLoop

  /** What happened: a model answer, a batch of calls entering the dialogue, a tool call, a
      refused text, the end of a batch, and a warning notice. */
  datatype Fact =
    | Heard(tokens: nat)
    | Spoke(calls: seq<Call>)
    | Did(call: Call, failed: bool)
    | Refusal
    | Closed
    | Warned

  /** What one step adds to the history. */
  function FactsOf(cfg: Config, s: Planner, step: Step): seq<Fact> {
    if !s.process.Live? then []
    else
      var notice := if (step.Ask? || step.Reuse? || step.Pause?) && step.prompt && s.process.turn == cfg.warningTurn then [Warned] else [];
      match (s.process.point, step)
      case (Top(_, _, _), _) => notice
      case (Asking, Answer(_, tokens)) => [Heard(tokens)]
      case (Dispatching(_, _, _, _), Reject) => [Refusal]
      case (Dispatching(r, resuming, _, _), BeginBatch) => if resuming then [] else [Spoke(r.calls)]
      case (InBatch(r, k, _), RunTool(outcome)) => if outcome.Ends? || k >= |r.calls| then [] else [Did(r.calls[k], outcome.Fails?)]
      case (InBatch(_, _, _), FinishBatch) => [Closed]
      case (_, _) => []
  }

  predicate Saves(step: Step) { step.Ask? || step.Pause? || step.SaveResponse? || step.SaveTool? || step.FinishBatch? }

  /** The history up to now, and the part of it that has been saved. */
  datatype Past = Past(now: seq<Fact>, saved: seq<Fact>)

  /** A step adds its facts; a saving step saves them; a start takes the saved history up again. */
  function Onward(cfg: Config, s: Planner, past: Past, step: Step): Past {
    if step.Start? then Past(past.saved, past.saved)
    else
      var now := past.now + FactsOf(cfg, s, step);
      Past(now, if Saves(step) then now else past.saved)
  }

  ghost function PastOf(cfg: Config, steps: seq<Step>): Past {
    if steps == [] then Past([], [])
    else
      var n := |steps| - 1;
      var s := After(cfg, steps[..n]);
      if s.None? then Past([], []) else Onward(cfg, s.value, PastOf(cfg, steps[..n]), steps[n])
  }

  // -------------------------------------------------------------- what a history tells

  /** Failed tools and refused texts since the last tool that succeeded. */
  function Failures(facts: seq<Fact>): nat {
    if facts == [] then 0
    else
      var n := |facts| - 1;
      match facts[n]
      case Did(_, failed) => if failed then Failures(facts[..n]) + 1 else 0
      case Refusal => Failures(facts[..n]) + 1
      case _ => Failures(facts[..n])
  }

  function TokensHeard(facts: seq<Fact>): nat {
    if facts == [] then 0
    else TokensHeard(facts[..|facts| - 1]) + (if facts[|facts| - 1].Heard? then facts[|facts| - 1].tokens else 0)
  }

  /** Turns that have ended: by a refused text or by the end of a batch. */
  function TurnsEnded(facts: seq<Fact>): nat {
    if facts == [] then 0
    else TurnsEnded(facts[..|facts| - 1]) + (if facts[|facts| - 1].Refusal? || facts[|facts| - 1].Closed? then 1 else 0)
  }

  /** The tools that ran in the batch under way. */
  function CurrentBatch(facts: seq<Fact>): seq<Fact> {
    if facts == [] then []
    else
      var n := |facts| - 1;
      match facts[n]
      case Did(_, _) => CurrentBatch(facts[..n]) + [facts[n]]
      case Warned => CurrentBatch(facts[..n])
      case _ => []
  }

  /** Some read-only tool of the batch succeeded, and some failed. */
  function Reads(readonly: set<string>, batch: seq<Fact>): Flags {
    Flags(exists k :: 0 <= k < |batch| && batch[k].Did? && batch[k].call.name in readonly && !batch[k].failed,
          exists k :: 0 <= k < |batch| && batch[k].Did? && batch[k].call.name in readonly && batch[k].failed)
  }

  /** A batch ended in which read-only tools succeeded and none failed. */
  predicate ReadCleanly(readonly: set<string>, facts: seq<Fact>, k: int) {
    0 <= k < |facts| && facts[k].Closed? && Reads(readonly, CurrentBatch(facts[..k])) == Flags(true, false)
  }

  /** The tool set: plans only once a submitted plan has failed, else no more exploration once a
      text was refused or a batch read cleanly, else the one the run began with. */
  function ModeAfter(cfg: Config, facts: seq<Fact>): Mode {
    if cfg.initialMode == PlanOnly || exists k :: 0 <= k < |facts| && facts[k].Did? && facts[k].failed && facts[k].call.name == "submit_plan"
    then PlanOnly
    else if cfg.initialMode == Terminal || exists k :: 0 <= k < |facts| && (facts[k].Refusal? || ReadCleanly(cfg.readonly, facts, k))
    then Terminal
    else Full
  }

  /** The dialogue, notices aside: every batch is followed by the receipts of its tools, and every
      refused text by the demand to submit again. */
  function Dialogue(facts: seq<Fact>): seq<Message> {
    if facts == [] then [System, User(0)]
    else
      var n := |facts| - 1;
      match facts[n]
      case Spoke(calls) => Dialogue(facts[..n]) + [Assistant(calls)]
      case Did(call, _) => Dialogue(facts[..n]) + [Tool(if call.id.Some? then call.id.value else "", call.name)]
      case Refusal => Dialogue(facts[..n]) + [Assistant([]), User(0)]
      case _ => Dialogue(facts[..n])
  }

  /** One notice for each warning and for each clean read that narrowed the full tool set. */
  function NoticesGiven(cfg: Config, facts: seq<Fact>): nat {
    if facts == [] then 0
    else
      var n := |facts| - 1;
      NoticesGiven(cfg, facts[..n])
      + (if facts[n].Warned? || (ReadCleanly(cfg.readonly, facts, n) && ModeAfter(cfg, facts[..n]) == Full) then 1 else 0)
  }

  function Plain(m: Message): Message { if m.User? then User(0) else m }

  function PlainAll(messages: seq<Message>): seq<Message> {
    seq(|messages|, i requires 0 <= i < |messages| => Plain(messages[i]))
  }

  function NoticeCount(messages: seq<Message>): nat {
    if messages == [] then 0
    else NoticeCount(messages[..|messages| - 1]) + (if messages[|messages| - 1].User? then messages[|messages| - 1].notices else 0)
  }

  /** A dialogue, tool set, tally, turn, flags and tool index that are those of a history. */
  predicate Tells(cfg: Config, facts: seq<Fact>, messages: seq<Message>, mode: Mode, tally: Tally, turn: nat) {
    && PlainAll(messages) == Dialogue(facts) && NoticeCount(messages) == NoticesGiven(cfg, facts)
    && mode == ModeAfter(cfg, facts) && turn == TurnsEnded(facts)
    && tally == Tally(Failures(facts), TokensHeard(facts))
  }

  predicate TellsBatch(cfg: Config, facts: seq<Fact>, k: nat, flags: Flags) {
    k == |CurrentBatch(facts)| && flags == Reads(cfg.readonly, CurrentBatch(facts))
  }

  predicate TellsPoint(cfg: Config, facts: seq<Fact>, point: Point) {
    match point
    case Top(pending, k, flags) => TellsBatch(cfg, facts, k, flags) && (pending.None? ==> k == 0)
    case Asking => TellsBatch(cfg, facts, 0, NO_FLAGS)
    case Answered(_, _, k, flags) => TellsBatch(cfg, facts, k, flags)
    case Dispatching(_, _, k, flags) => TellsBatch(cfg, facts, k, flags)
    case InBatch(_, k, flags) => TellsBatch(cfg, facts, k, flags)
    case ToolRan(_, k, flags) => TellsBatch(cfg, facts, k + 1, flags)
  }

  predicate TellsProcess(cfg: Config, facts: seq<Fact>, p: Process)
    requires p.Live?
  {
    Tells(cfg, facts, p.messages, p.mode, p.tally, p.turn) && TellsPoint(cfg, facts, p.point)
  }

  predicate TellsCheckpoint(cfg: Config, facts: seq<Fact>, cp: Checkpoint) {
    && Tells(cfg, facts, cp.messages, cp.mode, cp.tally, cp.nextTurn) && TellsBatch(cfg, facts, cp.nextTool, cp.flags)
    && (cp.pending.None? ==> cp.nextTool == 0)
  }

  /** The live process is the one its history tells of, and the checkpoint the one the saved
      history tells of. */
  predicate Told(cfg: Config, s: Planner, past: Past) {
    && (if s.disk.None? then past.saved == [] else TellsCheckpoint(cfg, past.saved, s.disk.value))
    && (s.process.Live? ==> TellsProcess(cfg, past.now, s.process))
  }

  // ------------------------------------------------------------------ one fact at a time

  /** Nothing but a warning changes nothing but the notices. */
  lemma Later(cfg: Config, facts: seq<Fact>, f: Fact)
    ensures var more := facts + [f];
            && Failures(more) == (match f case Did(_, failed) => (if failed then Failures(facts) + 1 else 0)
                                          case Refusal => Failures(facts) + 1 case _ => Failures(facts))
            && TokensHeard(more) == TokensHeard(facts) + (if f.Heard? then f.tokens else 0)
            && TurnsEnded(more) == TurnsEnded(facts) + (if f.Refusal? || f.Closed? then 1 else 0)
            && CurrentBatch(more) == (if f.Did? then CurrentBatch(facts) + [f] else if f.Warned? then CurrentBatch(facts) else [])
            && Dialogue(more) == Dialogue(facts) + (match f case Spoke(calls) => [Assistant(calls)]
                 case Did(call, _) => [Receipt(call)] case Refusal => [Assistant([]), User(0)] case _ => [])
  {
    var more := facts + [f];
    assert more[..|more| - 1] == facts && more[|more| - 1] == f;
    assert Dialogue(facts) + [] == Dialogue(facts);
  }

  lemma LaterReads(readonly: set<string>, batch: seq<Fact>, call: Call, failed: bool)
    ensures Reads(readonly, batch + [Did(call, failed)])
            == if call.name !in readonly then Reads(readonly, batch)
               else if failed then Reads(readonly, batch).(readonlyFailed := true)
               else Reads(readonly, batch).(readonlySucceeded := true)
  {
    var more := batch + [Did(call, failed)];
    assert forall k :: 0 <= k < |batch| ==> more[k] == batch[k];
    assert more[|batch|] == Did(call, failed);
  }

  lemma LaterClean(readonly: set<string>, facts: seq<Fact>, f: Fact, k: int)
    ensures ReadCleanly(readonly, facts + [f], k)
            <==> if k == |facts| then f.Closed? && Reads(readonly, CurrentBatch(facts)) == Flags(true, false)
                 else ReadCleanly(readonly, facts, k)
  {
    var more := facts + [f];
    assert 0 <= k <= |facts| ==> more[..k] == facts[..k];
    assert facts[..|facts|] == facts;
  }

  lemma LaterMode(cfg: Config, facts: seq<Fact>, f: Fact)
    ensures var mode := ModeAfter(cfg, facts);
            var clean := f.Closed? && Reads(cfg.readonly, CurrentBatch(facts)) == Flags(true, false);
            && ModeAfter(cfg, facts + [f])
               == (if f.Did? && f.failed && f.call.name == "submit_plan" then PlanOnly
                   else if mode == Full && (f.Refusal? || clean) then Terminal else mode)
            && NoticesGiven(cfg, facts + [f]) == NoticesGiven(cfg, facts) + (if f.Warned? || (clean && mode == Full) then 1 else 0)
  {
    var more := facts + [f];
    forall k ensures ReadCleanly(cfg.readonly, more, k)
                     <==> if k == |facts| then f.Closed? && Reads(cfg.readonly, CurrentBatch(facts)) == Flags(true, false)
                          else ReadCleanly(cfg.readonly, facts, k) {
      LaterClean(cfg.readonly, facts, f, k);
    }
    hide ReadCleanly;
    assert forall k :: 0 <= k < |facts| ==> more[k] == facts[k];
    assert more[|facts|] == f && more[..|more| - 1] == facts;
  }

  lemma {:induction false} NotifyCounts(messages: seq<Message>)
    ensures PlainAll(Notify(messages)) == PlainAll(messages)
    ensures NoticeCount(Notify(messages)) == NoticeCount(messages) + (if HasUser(messages) then 1 else 0)
  {
    NotifyKeepsShape(messages);
    if messages != [] {
      var n := |messages| - 1;
      if messages[n].User? {
        assert Notify(messages)[..n] == messages[..n];
      } else {
        NotifyCounts(messages[..n]);
        NotifyKeepsShape(messages[..n]);
        assert Notify(messages)[..n] == Notify(messages[..n]);
        assert HasUser(messages) <==> HasUser(messages[..n]);
      }
    }
  }

  predicate HasUser(messages: seq<Message>) { exists i :: 0 <= i < |messages| && messages[i].User? }

  lemma {:induction false} DialogueStarts(facts: seq<Fact>)
    ensures |Dialogue(facts)| >= 2 && Dialogue(facts)[1] == User(0)
  {
    if facts != [] { DialogueStarts(facts[..|facts| - 1]); }
  }

  lemma TellingHasUser(cfg: Config, facts: seq<Fact>, messages: seq<Message>)
    requires PlainAll(messages) == Dialogue(facts)
    ensures HasUser(messages)
  {
    DialogueStarts(facts);
    assert |messages| == |Dialogue(facts)|;
    assert Plain(messages[1]) == PlainAll(messages)[1] == User(0);
  }

  lemma OneMessage(messages: seq<Message>, m: Message)
    ensures PlainAll(messages + [m]) == PlainAll(messages) + [Plain(m)]
    ensures NoticeCount(messages + [m]) == NoticeCount(messages) + (if m.User? then m.notices else 0)
  {
    assert (messages + [m])[..|messages|] == messages;
  }

  lemma AddHeard(cfg: Config, facts: seq<Fact>, messages: seq<Message>, mode: Mode, tally: Tally, turn: nat, tokens: nat)
    requires Tells(cfg, facts, messages, mode, tally, turn)
    ensures Tells(cfg, facts + [Heard(tokens)], messages, mode, tally.(tokens := tally.tokens + tokens), turn)
    ensures TellsBatch(cfg, facts + [Heard(tokens)], 0, NO_FLAGS)
  {
    hide *;
    Later(cfg, facts, Heard(tokens));
    LaterMode(cfg, facts, Heard(tokens));
    NothingRead(cfg.readonly);
    assert Dialogue(facts) + [] == Dialogue(facts);
    TellsParts(cfg, facts, messages, mode, tally, turn);
    TellsFrom(cfg, facts + [Heard(tokens)], messages, mode, tally.(tokens := tally.tokens + tokens), turn);
    BatchFrom(cfg, facts + [Heard(tokens)], 0, NO_FLAGS);
  }

  lemma AddSpoke(cfg: Config, facts: seq<Fact>, messages: seq<Message>, mode: Mode, tally: Tally, turn: nat, calls: seq<Call>)
    requires Tells(cfg, facts, messages, mode, tally, turn)
    ensures Tells(cfg, facts + [Spoke(calls)], messages + [Assistant(calls)], mode, tally, turn)
    ensures TellsBatch(cfg, facts + [Spoke(calls)], 0, NO_FLAGS)
  {
    hide *;
    Later(cfg, facts, Spoke(calls));
    LaterMode(cfg, facts, Spoke(calls));
    OneMessage(messages, Assistant(calls));
    NothingRead(cfg.readonly);
    PlainMessage(Assistant(calls));
    TellsParts(cfg, facts, messages, mode, tally, turn);
    TellsFrom(cfg, facts + [Spoke(calls)], messages + [Assistant(calls)], mode, tally, turn);
    BatchFrom(cfg, facts + [Spoke(calls)], 0, NO_FLAGS);
  }

  lemma AddRefusal(cfg: Config, facts: seq<Fact>, messages: seq<Message>, mode: Mode, tally: Tally, turn: nat)
    requires Tells(cfg, facts, messages, mode, tally, turn)
    ensures Tells(cfg, facts + [Refusal], messages + [Assistant([]), User(0)], Narrowed(mode), tally.(errors := tally.errors + 1), turn + 1)
    ensures TellsBatch(cfg, facts + [Refusal], 0, NO_FLAGS)
  {
    hide *;
    var demand := messages + [Assistant([])] + [User(0)];
    Later(cfg, facts, Refusal);
    LaterMode(cfg, facts, Refusal);
    OneMessage(messages, Assistant([]));
    OneMessage(messages + [Assistant([])], User(0));
    NothingRead(cfg.readonly);
    assert demand == messages + [Assistant([]), User(0)];
    PlainMessage(Assistant([]));
    PlainMessage(User(0));
    NarrowedMode(mode);
    TellsParts(cfg, facts, messages, mode, tally, turn);
    assert Dialogue(facts) + [Assistant([])] + [User(0)] == Dialogue(facts) + [Assistant([]), User(0)];
    TellsFrom(cfg, facts + [Refusal], demand, Narrowed(mode), tally.(errors := tally.errors + 1), turn + 1);
    BatchFrom(cfg, facts + [Refusal], 0, NO_FLAGS);
  }

  lemma AddDid(cfg: Config, facts: seq<Fact>, messages: seq<Message>, mode: Mode, tally: Tally, turn: nat, k: nat, flags: Flags, call: Call, failed: bool)
    requires Tells(cfg, facts, messages, mode, tally, turn) && TellsBatch(cfg, facts, k, flags)
    ensures Tells(cfg, facts + [Did(call, failed)], messages + [Receipt(call)], if failed && call.name == "submit_plan" then PlanOnly else mode,
                  tally.(errors := if failed then tally.errors + 1 else 0), turn)
    ensures TellsBatch(cfg, facts + [Did(call, failed)], k + 1, FlagsAfter(cfg, flags, call.name, failed))
  {
    hide *;
    Later(cfg, facts, Did(call, failed));
    LaterMode(cfg, facts, Did(call, failed));
    LaterReads(cfg.readonly, CurrentBatch(facts), call, failed);
    OneMessage(messages, Receipt(call));
    ReceiptMessage(call);
    PlainMessage(Receipt(call));
    var after := FlagsAfter(cfg, flags, call.name, failed);
    NewFlags(cfg, flags, call.name, failed);
    TellsParts(cfg, facts, messages, mode, tally, turn);
    BatchParts(cfg, facts, k, flags);
    TellsFrom(cfg, facts + [Did(call, failed)], messages + [Receipt(call)], if failed && call.name == "submit_plan" then PlanOnly else mode,
              tally.(errors := if failed then tally.errors + 1 else 0), turn);
    BatchFrom(cfg, facts + [Did(call, failed)], k + 1, after);
  }

  lemma AddClosed(cfg: Config, facts: seq<Fact>, messages: seq<Message>, mode: Mode, tally: Tally, turn: nat, k: nat, flags: Flags)
    requires Tells(cfg, facts, messages, mode, tally, turn) && TellsBatch(cfg, facts, k, flags)
    ensures var narrows := flags.readonlySucceeded && !flags.readonlyFailed && mode == Full;
            Tells(cfg, facts + [Closed], if narrows then Notify(messages) else messages, if narrows then Terminal else mode, tally, turn + 1)
    ensures TellsBatch(cfg, facts + [Closed], 0, NO_FLAGS)
  {
    hide *;
    Later(cfg, facts, Closed);
    LaterMode(cfg, facts, Closed);
    NotifyCounts(messages);
    NothingRead(cfg.readonly);
    TellsParts(cfg, facts, messages, mode, tally, turn);
    TellingHasUser(cfg, facts, messages);
    BatchParts(cfg, facts, k, flags);
    assert Dialogue(facts) + [] == Dialogue(facts);
    assert flags == Flags(true, false) <==> flags.readonlySucceeded && !flags.readonlyFailed;
    var narrows := flags.readonlySucceeded && !flags.readonlyFailed && mode == Full;
    TellsFrom(cfg, facts + [Closed], if narrows then Notify(messages) else messages, if narrows then Terminal else mode, tally, turn + 1);
    BatchFrom(cfg, facts + [Closed], 0, NO_FLAGS);
  }

  /** A notice is the fact of a warning. */
  lemma AddWarning(cfg: Config, facts: seq<Fact>, p: Process, prompt: bool)
    requires p.Live? && Tells(cfg, facts, p.messages, p.mode, p.tally, p.turn)
    ensures var more := facts + (if prompt && p.turn == cfg.warningTurn then [Warned] else []);
            Tells(cfg, more, Prompted(cfg, p, prompt), p.mode, p.tally, p.turn) && CurrentBatch(more) == CurrentBatch(facts)
  {
    if prompt && p.turn == cfg.warningTurn {
      Later(cfg, facts, Warned);
      LaterMode(cfg, facts, Warned);
      NotifyCounts(p.messages);
      TellsParts(cfg, facts, p.messages, p.mode, p.tally, p.turn);
      TellingHasUser(cfg, facts, p.messages);
      assert Prompted(cfg, p, prompt) == Notify(p.messages);
      hide *;
      assert Dialogue(facts) + [] == Dialogue(facts);
      TellsFrom(cfg, facts + [Warned], Notify(p.messages), p.mode, p.tally, p.turn);
    } else {
      assert facts + [] == facts;
    }
  }

  lemma PlainMessage(m: Message)
    requires !m.User? || m == User(0)
    ensures Plain(m) == m
  {
  }

  lemma ReceiptMessage(call: Call)
    ensures Receipt(call).Tool?
  {
  }

  lemma NarrowedMode(mode: Mode)
    ensures Narrowed(mode) == if mode == Full then Terminal else mode
  {
  }

  lemma NewFlags(cfg: Config, flags: Flags, name: string, failed: bool)
    ensures FlagsAfter(cfg, flags, name, failed)
            == if name !in cfg.readonly then flags
               else if failed then flags.(readonlyFailed := true)
               else flags.(readonlySucceeded := true)
  {
  }

  lemma TellsParts(cfg: Config, facts: seq<Fact>, messages: seq<Message>, mode: Mode, tally: Tally, turn: nat)
    requires Tells(cfg, facts, messages, mode, tally, turn)
    ensures PlainAll(messages) == Dialogue(facts) && NoticeCount(messages) == NoticesGiven(cfg, facts)
    ensures mode == ModeAfter(cfg, facts) && turn == TurnsEnded(facts) && tally == Tally(Failures(facts), TokensHeard(facts))
  {
  }

  lemma TellsFrom(cfg: Config, facts: seq<Fact>, messages: seq<Message>, mode: Mode, tally: Tally, turn: nat)
    requires PlainAll(messages) == Dialogue(facts) && NoticeCount(messages) == NoticesGiven(cfg, facts)
    requires mode == ModeAfter(cfg, facts) && turn == TurnsEnded(facts) && tally == Tally(Failures(facts), TokensHeard(facts))
    ensures Tells(cfg, facts, messages, mode, tally, turn)
  {
  }

  lemma BatchParts(cfg: Config, facts: seq<Fact>, k: nat, flags: Flags)
    requires TellsBatch(cfg, facts, k, flags)
    ensures k == |CurrentBatch(facts)| && flags == Reads(cfg.readonly, CurrentBatch(facts))
  {
  }

  lemma BatchFrom(cfg: Config, facts: seq<Fact>, k: nat, flags: Flags)
    requires k == |CurrentBatch(facts)| && flags == Reads(cfg.readonly, CurrentBatch(facts))
    ensures TellsBatch(cfg, facts, k, flags)
  {
  }

  // -------------------------------------------------------------------- one step at a time

  function Noticed(cfg: Config, p: Process, facts: seq<Fact>, prompt: bool): seq<Fact>
    requires p.Live?
  {
    if prompt && p.turn == cfg.warningTurn then facts + [Warned] else facts
  }

  lemma TellsTop(cfg: Config, s: Planner, past: Past, step: Step)
    requires Told(cfg, s, past) && Apply(cfg, s, step).Some? && s.process.Live? && s.process.point.Top?
    requires step.Reuse? || step.Ask? || step.Pause?
    ensures Told(cfg, Apply(cfg, s, step).value, Onward(cfg, s, past, step))
  {
    var p, now := s.process, Noticed(cfg, s.process, past.now, step.prompt);
    AddWarning(cfg, past.now, p, step.prompt);
    assert past.now + [] == past.now;
    assert Onward(cfg, s, past, step) == Past(now, if step.Reuse? then past.saved else now);
    SameBatch(cfg, past.now, now, p.point.nextTool, p.point.flags);
    assert Tells(cfg, now, Prompted(cfg, p, step.prompt), p.mode, p.tally, p.turn);
    hide Tells, Prompted, ShouldStop, TurnStep, TellsBatch, Onward, Noticed;
    if step.Reuse? {
      TellsReused(cfg, s, past, now, step.prompt);
    } else {
      TellsAsked(cfg, s, past, now, step);
    }
  }

  lemma TellsReused(cfg: Config, s: Planner, past: Past, now: seq<Fact>, prompt: bool)
    requires Told(cfg, s, past) && Apply(cfg, s, Reuse(prompt)).Some? && s.process.Live? && s.process.point.Top?
    requires Tells(cfg, now, Prompted(cfg, s.process, prompt), s.process.mode, s.process.tally, s.process.turn)
    requires TellsBatch(cfg, now, s.process.point.nextTool, s.process.point.flags)
    ensures Told(cfg, Apply(cfg, s, Reuse(prompt)).value, Past(now, past.saved))
  {
    hide Tells, Prompted, ShouldStop, TurnStep, TellsBatch, TellsCheckpoint;
  }

  lemma TellsAsked(cfg: Config, s: Planner, past: Past, now: seq<Fact>, step: Step)
    requires (step.Ask? || step.Pause?) && Apply(cfg, s, step).Some? && s.process.Live? && s.process.point.Top?
    requires Tells(cfg, now, Prompted(cfg, s.process, step.prompt), s.process.mode, s.process.tally, s.process.turn)
    requires TellsBatch(cfg, now, 0, NO_FLAGS)
    ensures Told(cfg, Apply(cfg, s, step).value, Past(now, now))
  {
    hide Tells, Prompted, ShouldStop, TurnStep, TellsBatch;
  }

  /** The same tools ran; and if none did, there are no flags. */
  lemma SameBatch(cfg: Config, facts: seq<Fact>, more: seq<Fact>, k: nat, flags: Flags)
    requires TellsBatch(cfg, facts, k, flags) && CurrentBatch(more) == CurrentBatch(facts)
    ensures TellsBatch(cfg, more, k, flags) && (k == 0 ==> flags == NO_FLAGS)
  {
    NothingRead(cfg.readonly);
  }

  lemma TellsAnswer(cfg: Config, s: Planner, past: Past, step: Step)
    requires Told(cfg, s, past) && Apply(cfg, s, step).Some?
    requires s.process.Live? && s.process.point.Asking? && step.Answer?
    ensures Told(cfg, Apply(cfg, s, step).value, Onward(cfg, s, past, step))
  {
    var p := s.process;
    AddHeard(cfg, past.now, p.messages, p.mode, p.tally, p.turn, step.tokens);
    assert Onward(cfg, s, past, step) == Past(past.now + [Heard(step.tokens)], past.saved);
    hide Tells, TellsBatch, TopStep, Onward, TellsCheckpoint;
  }

  lemma TellsSavedResponse(cfg: Config, s: Planner, past: Past)
    requires Shape(cfg, s) && Told(cfg, s, past) && s.process.Live? && s.process.point.Answered?
    ensures Told(cfg, Apply(cfg, s, SaveResponse).value, Onward(cfg, s, past, SaveResponse))
  {
    assert past.now + [] == past.now;
    assert Onward(cfg, s, past, SaveResponse) == Past(past.now, past.now);
    SameBatch(cfg, past.now, past.now, s.process.point.nextTool, s.process.point.flags);
    hide Tells, TellsBatch, TopStep, Onward, Fits;
  }

  lemma BatchBegunTold(cfg: Config, facts: seq<Fact>, p: Process, q: Process)
    requires p.Live? && p.point.Dispatching? && TellsProcess(cfg, facts, p) && q.Live?
    requires var calls := p.point.response.calls;
             if p.point.resuming
             then q == p.(point := InBatch(p.point.response, p.point.nextTool, p.point.flags))
             else q == p.(messages := p.messages + [Assistant(calls)], point := InBatch(p.point.response, 0, NO_FLAGS))
    ensures var now := if p.point.resuming then facts else facts + [Spoke(p.point.response.calls)];
            Tells(cfg, now, q.messages, q.mode, q.tally, q.turn) && TellsPoint(cfg, now, q.point)
  {
    if !p.point.resuming { AddSpoke(cfg, facts, p.messages, p.mode, p.tally, p.turn, p.point.response.calls); }
    hide Tells, TellsBatch;
  }

  lemma BatchIsNew(cfg: Config, p: Process, facts: seq<Fact>)
    requires p.Live? && p.point.Dispatching? && !p.point.resuming && p.point.response.calls != []
    requires ProcessFits(cfg, p) && TellsProcess(cfg, facts, p)
    ensures p.messages == [] || p.messages[|p.messages| - 1] != Assistant(p.point.response.calls)
  {
    if p.messages != [] { BatchIsNotAlreadyThere(p.messages, p.point.response.calls); }
    hide Tells, TellsBatch, Complete;
  }

  lemma TellsBatchBegun(cfg: Config, s: Planner, past: Past)
    requires Shape(cfg, s) && Told(cfg, s, past) && Apply(cfg, s, BeginBatch).Some?
    requires s.process.Live? && s.process.point.Dispatching?
    ensures Told(cfg, Apply(cfg, s, BeginBatch).value, Onward(cfg, s, past, BeginBatch))
  {
    var p, t := s.process, Apply(cfg, s, BeginBatch).value;
    var now := if p.point.resuming then past.now else past.now + [Spoke(p.point.response.calls)];
    assert Onward(cfg, s, past, BeginBatch) == Past(now, past.saved) by { assert past.now + [] == past.now; }
    hide Tells, TellsPoint, TopStep, Onward, TellsCheckpoint, ProcessFits, CheckpointFits;
    if !p.point.resuming { BatchIsNew(cfg, p, past.now); }
    BatchBegunTold(cfg, past.now, p, t.process);
    ToldFrom(cfg, s, past, t, now);
  }

  lemma TellsRefusal(cfg: Config, s: Planner, past: Past)
    requires Told(cfg, s, past) && Apply(cfg, s, Reject).Some? && s.process.Live? && s.process.point.Dispatching?
    ensures Told(cfg, Apply(cfg, s, Reject).value, Onward(cfg, s, past, Reject))
  {
    var p := s.process;
    AddRefusal(cfg, past.now, p.messages, p.mode, p.tally, p.turn);
    assert Onward(cfg, s, past, Reject) == Past(past.now + [Refusal], past.saved);
    hide Tells, TellsBatch, TopStep, Onward, TellsCheckpoint;
  }

  lemma ToldFrom(cfg: Config, s: Planner, past: Past, t: Planner, now: seq<Fact>)
    requires Told(cfg, s, past) && t.disk == s.disk && t.process.Live?
    requires Tells(cfg, now, t.process.messages, t.process.mode, t.process.tally, t.process.turn)
    requires TellsPoint(cfg, now, t.process.point)
    ensures Told(cfg, t, Past(now, past.saved))
  {
    hide Tells, TellsPoint, TellsCheckpoint;
  }

  lemma ToolTold(cfg: Config, facts: seq<Fact>, p: Process, q: Process, k: nat, call: Call, failed: bool)
    requires p.Live? && p.point.InBatch? && p.point.tool == k && TellsProcess(cfg, facts, p)
    requires q.Live? && q.turn == p.turn && q.messages == p.messages + [Receipt(call)]
    requires q.mode == if failed && call.name == "submit_plan" then PlanOnly else p.mode
    requires q.tally == p.tally.(errors := if failed then p.tally.errors + 1 else 0)
    requires q.point == ToolRan(p.point.response, k, FlagsAfter(cfg, p.point.flags, call.name, failed))
    ensures Tells(cfg, facts + [Did(call, failed)], q.messages, q.mode, q.tally, q.turn)
    ensures TellsPoint(cfg, facts + [Did(call, failed)], q.point)
  {
    AddDid(cfg, facts, p.messages, p.mode, p.tally, p.turn, k, p.point.flags, call, failed);
    hide Tells, TellsBatch, FlagsAfter, Receipt;
  }

  lemma TellsTool(cfg: Config, s: Planner, past: Past, outcome: ToolOutcome)
    requires Told(cfg, s, past) && Apply(cfg, s, RunTool(outcome)).Some? && s.process.Live? && s.process.point.InBatch?
    ensures Told(cfg, Apply(cfg, s, RunTool(outcome)).value, Onward(cfg, s, past, RunTool(outcome)))
  {
    var p, t := s.process, Apply(cfg, s, RunTool(outcome)).value;
    if !outcome.Ends? {
      var k, call := p.point.tool, p.point.response.calls[p.point.tool];
      assert Onward(cfg, s, past, RunTool(outcome)) == Past(past.now + [Did(call, outcome.Fails?)], past.saved);
      hide Tells, TellsPoint, TopStep, FlagsAfter, Receipt, Onward, TellsCheckpoint;
      ToolTold(cfg, past.now, p, t.process, k, call, outcome.Fails?);
      ToldFrom(cfg, s, past, t, past.now + [Did(call, outcome.Fails?)]);
    }
  }

  lemma TellsBatchEnd(cfg: Config, s: Planner, past: Past)
    requires Told(cfg, s, past) && Apply(cfg, s, FinishBatch).Some? && s.process.Live? && s.process.point.InBatch?
    ensures Told(cfg, Apply(cfg, s, FinishBatch).value, Onward(cfg, s, past, FinishBatch))
  {
    var p := s.process;
    AddClosed(cfg, past.now, p.messages, p.mode, p.tally, p.turn, p.point.tool, p.point.flags);
    assert Onward(cfg, s, past, FinishBatch) == Past(past.now + [Closed], past.now + [Closed]);
    hide Tells, TellsBatch, TopStep, Notify, Onward;
  }

  lemma TellsSavedTool(cfg: Config, s: Planner, past: Past)
    requires Told(cfg, s, past) && s.process.Live? && s.process.point.ToolRan?
    ensures Told(cfg, Apply(cfg, s, SaveTool).value, Onward(cfg, s, past, SaveTool))
  {
    assert past.now + [] == past.now;
    assert Onward(cfg, s, past, SaveTool) == Past(past.now, past.now);
    hide Tells, TellsBatch, TopStep, Onward;
  }

  lemma TellsQuietly(cfg: Config, s: Planner, past: Past, step: Step)
    requires Told(cfg, s, past) && Apply(cfg, s, step).Some? && s.process.Live?
    requires step.Accept? || step.GiveUp? || step.Crash? || step.Stop? || step.Exhaust?
    ensures Told(cfg, Apply(cfg, s, step).value, Onward(cfg, s, past, step))
  {
    assert past.now + [] == past.now;
    assert Onward(cfg, s, past, step).saved == past.saved;
    hide TellsCheckpoint, TellsProcess, Onward;
  }

  lemma NothingRead(readonly: set<string>)
    ensures Reads(readonly, []) == NO_FLAGS
  {
  }

  lemma TellsStart(cfg: Config, s: Planner, past: Past)
    requires Told(cfg, s, past) && s.process.Down?
    ensures Told(cfg, Apply(cfg, s, Start).value, Onward(cfg, s, past, Start))
  {
    hide ReadCleanly;
    assert PlainAll([System, User(0)]) == [System, User(0)];
    assert NoticeCount([System, User(0)]) == 0 by { OneMessage([System], User(0)); OneMessage([], System); assert [] + [System] == [System] && [System] + [User(0)] == [System, User(0)]; }
    assert !(exists k :: ReadCleanly(cfg.readonly, [], k)) by { NoCleanReads(cfg.readonly); }
    NothingRead(cfg.readonly);
    hide Attributable;
  }

  lemma NoCleanReads(readonly: set<string>)
    ensures forall k :: !ReadCleanly(readonly, [], k)
  {
  }

  lemma StepTells(cfg: Config, s: Planner, past: Past, step: Step)
    requires Shape(cfg, s) && Told(cfg, s, past) && Apply(cfg, s, step).Some?
    ensures Told(cfg, Apply(cfg, s, step).value, Onward(cfg, s, past, step))
  {
    hide Told, Onward, Shape;
    if s.process.Down? {
      TellsStart(cfg, s, past);
    } else {
      match step
      case Reuse(_) => TellsTop(cfg, s, past, step);
      case Ask(_) => TellsTop(cfg, s, past, step);
      case Pause(_) => TellsTop(cfg, s, past, step);
      case Answer(_, _) => TellsAnswer(cfg, s, past, step);
      case SaveResponse => TellsSavedResponse(cfg, s, past);
      case BeginBatch => TellsBatchBegun(cfg, s, past);
      case Reject => TellsRefusal(cfg, s, past);
      case RunTool(outcome) => TellsTool(cfg, s, past, outcome);
      case FinishBatch => TellsBatchEnd(cfg, s, past);
      case SaveTool => TellsSavedTool(cfg, s, past);
      case _ => TellsQuietly(cfg, s, past, step);
    }
  }

  // ----------------------------------------------------------------------- whole runs

  /** Over every run the dialogue, the tool set, the counters, the turn and the batch under way
      are those its history tells of, and so are the checkpoint's. */
  lemma {:induction false} HistoryTellsTheState(cfg: Config, steps: seq<Step>)
    requires After(cfg, steps).Some?
    ensures Told(cfg, After(cfg, steps).value, PastOf(cfg, steps))
  {
    if steps != [] {
      var n := |steps| - 1;
      HistoryTellsTheState(cfg, steps[..n]);
      ReachableIsInvariant(cfg, steps[..n]);
      hide Told, Apply, Onward, Shape;
      StepTells(cfg, After(cfg, steps[..n]).value, PastOf(cfg, steps[..n]), steps[n]);
    }
  }

  /** A run is stopped at the head of a turn exactly when the tools and texts that failed since
      the last success have reached the limit, or the tokens heard theirs; and otherwise it goes on. */
  lemma StopsExactlyAtTheLimits(cfg: Config, steps: seq<Step>)
    requires After(cfg, steps).Some?
    requires var p := After(cfg, steps).value.process; p.Live? && p.point.Top? && p.turn < cfg.maxTurns
    ensures var s, now := After(cfg, steps).value, PastOf(cfg, steps).now;
            var limits := Failures(now) >= cfg.maxErrors || (cfg.maxTokens.Some? && TokensHeard(now) >= cfg.maxTokens.value);
            && (Apply(cfg, s, Stop).Some? <==> limits)
            && forall prompt :: (Apply(cfg, s, Ask(prompt)).Some? || Apply(cfg, s, Reuse(prompt)).Some?) <==> !limits
  {
    HistoryTellsTheState(cfg, steps);
    hide After, PastOf, PlainAll, Dialogue, NoticeCount, NoticesGiven, ModeAfter, TurnsEnded, Failures, TokensHeard;
  }

  /** Failing in a row: the last `n` tools and texts all failed. */
  predicate LastFailed(facts: seq<Fact>, from: nat) {
    from <= |facts| && forall k :: from <= k < |facts| && facts[k].Did? ==> facts[k].failed
  }

  function FailingFacts(facts: seq<Fact>, from: nat): set<nat> {
    set k: nat | from <= k < |facts| && (facts[k].Refusal? || (facts[k].Did? && facts[k].failed))
  }

  lemma {:induction false} FailuresInARow(facts: seq<Fact>) returns (from: nat)
    ensures LastFailed(facts, from) && |FailingFacts(facts, from)| == Failures(facts)
  {
    if facts == [] {
      from := 0;
      assert FailingFacts(facts, from) == {};
    } else {
      var n := |facts| - 1;
      var last := facts[n];
      if last.Did? && !last.failed {
        from := |facts|;
        assert FailingFacts(facts, from) == {};
      } else {
        from := FailuresInARow(facts[..n]);
        assert forall k :: 0 <= k < n ==> facts[..n][k] == facts[k];
        assert FailingFacts(facts, from) == FailingFacts(facts[..n], from) + (if last.Refusal? || last.Did? then {n as nat} else {});
      }
    }
  }

  /** Without a token limit a run is stopped only after as many failures in a row as are
      allowed, with no successful tool among or after them. */
  lemma OnlyFailuresInARowStop(cfg: Config, steps: seq<Step>) returns (from: nat)
    requires cfg.maxTokens.None? && After(cfg, steps).Some? && After(cfg, steps).value.process.Live?
    requires Apply(cfg, After(cfg, steps).value, Stop).Some?
    ensures var now := PastOf(cfg, steps).now;
            LastFailed(now, from) && |FailingFacts(now, from)| >= cfg.maxErrors
  {
    hide PastOf, After, LastFailed, FailingFacts;
    StopsExactlyAtTheLimits(cfg, steps);
    from := FailuresInARow(PastOf(cfg, steps).now);
  }

  // ------------------------------------------------------------- what can happen when

  /** Where each step belongs: the loop's own conditions, step by step. */
  predicate Possible(cfg: Config, s: Planner, step: Step) {
    match s.process
    case Down => step.Start?
    case Finished => false
    case Refused => false
    case Live(turn, _, _, tally, point) =>
      var limits := tally.errors >= cfg.maxErrors || (cfg.maxTokens.Some? && tally.tokens >= cfg.maxTokens.value);
      match step
      case Start => false
      case Crash => true
      case Exhaust => point.Top? && turn >= cfg.maxTurns
      case Stop => point.Top? && turn < cfg.maxTurns && limits
      case Reuse(_) => point.Top? && turn < cfg.maxTurns && !limits && point.pending.Some?
      case Ask(_) => point.Top? && turn < cfg.maxTurns && !limits && point.pending.None?
      case Pause(_) => point.Top? && turn < cfg.maxTurns && !limits && point.pending.None?
      case Answer(_, _) => point.Asking?
      case SaveResponse => point.Answered?
      case GiveUp => point.Dispatching? && point.response.cut == ByLength
      case Accept => point.Dispatching? && point.response.calls == [] && point.response.cut == Whole
      case Reject => point.Dispatching? && point.response.calls == [] && point.response.cut != ByLength
      case BeginBatch => point.Dispatching? && point.response.calls != []
      case RunTool(_) => point.InBatch? && point.tool < |point.response.calls|
      case SaveTool => point.ToolRan?
      case FinishBatch => point.InBatch? && point.tool == |point.response.calls|
  }

  /** In every reachable state just these steps can be taken. */
  lemma StepsExactly(cfg: Config, steps: seq<Step>, step: Step)
    requires After(cfg, steps).Some?
    ensures Apply(cfg, After(cfg, steps).value, step).Some? <==> Possible(cfg, After(cfg, steps).value, step)
    ensures After(cfg, steps + [step]) == Apply(cfg, After(cfg, steps).value, step)
  {
    ReachableIsInvariant(cfg, steps);
    assert (steps + [step])[..|steps|] == steps;
    var s := After(cfg, steps).value;
    assert Shape(cfg, s);
    hide Attributable, Prompted, Notify, After, Invariant;
    StepsFromShape(cfg, s, step);
  }

  lemma StepsFromShape(cfg: Config, s: Planner, step: Step)
    requires Shape(cfg, s)
    ensures Apply(cfg, s, step).Some? <==> Possible(cfg, s, step)
  {
    hide Attributable, Prompted, Notify, Complete;
  }

  /** The response a step leaves under way. */
  function UnderWay(p: Process): Option<Response> {
    if !p.Live? then None
    else
      match p.point
      case Top(pending, _, _) => pending
      case Asking => None
      case Answered(r, _, _, _) => Some(r)
      case Dispatching(r, _, _, _) => Some(r)
      case InBatch(r, _, _) => Some(r)
      case ToolRan(r, _, _) => Some(r)
  }

  /** An answer is taken up as it is, or without its calls if it was cut; it stays under way,
      and is saved as it is, until its turn ends; and only then is none. */
  lemma ResponseIsKept(cfg: Config, s: Planner, step: Step)
    requires Apply(cfg, s, step).Some? && s.process.Live?
    ensures var t := Apply(cfg, s, step).value;
            && (step.Answer? ==> UnderWay(t.process) == Some(if step.response.cut == Whole then step.response else Response([], step.response.cut)))
            && (step.Reuse? || step.SaveResponse? || step.BeginBatch? || step.SaveTool? || (step.RunTool? && !step.outcome.Ends?) ==>
                  t.process.Live? && UnderWay(t.process) == UnderWay(s.process))
            && (step.SaveResponse? || step.SaveTool? ==> t.disk.Some? && t.disk.value.pending == UnderWay(s.process))
            && (step.Ask? || step.Pause? || step.Reject? || step.FinishBatch? ==> UnderWay(t.process) == None)
            && (step.Ask? || step.Pause? || step.FinishBatch? ==> t.disk.Some? && t.disk.value.pending == None)
  {
    hide Prompted, Notify, FlagsAfter, Receipt, ShouldStop;
  }

  /** How a run ends: by acceptance, by giving up on a cut answer, at a limit, or by a tool that
      ends it; a crash and a pause take the process down with its checkpoint as it stands; and
      nothing else ends or stops it. */
  lemma EndsExactly(cfg: Config, s: Planner, step: Step)
    requires Apply(cfg, s, step).Some?
    ensures var t := Apply(cfg, s, step).value;
            && (t.process.Finished? <==> step.Accept? || step.GiveUp? || step.Stop? || step.Exhaust? || (step.RunTool? && step.outcome.Ends?))
            && (t.process.Down? <==> step.Crash? || step.Pause?)
            && (t.process.Refused? <==> step.Start? && s.disk.Some? && !Attributable(s.disk.value.messages, s.disk.value.pending))
            && (!Saves(step) ==> t.disk == s.disk)
  {
    hide Prompted, Notify, FlagsAfter, Receipt, ShouldStop, Attributable;
  }
}
