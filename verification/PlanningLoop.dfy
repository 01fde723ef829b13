/** The checkpointed planning loop as a state machine: turns, tool batches, saved
    boundaries, crashes at any point and resumption from the last checkpoint. */
module PlanningLoop {
  import opened Wrappers
  import opened Counting

  /** A tool call of a model response; the model may leave its id out. */
  datatype Call = Call(id: Option<string>, name: string)

  /** Why a response is unusable, if it is. */
  datatype Cut = Whole | ByLength | ByFilter

  /** A model response; a cut one carries no calls. */
  datatype Response = Response(calls: seq<Call>, cut: Cut)

  /** A message of the dialogue. User messages count the notices appended to them. */
  datatype Message = System | User(notices: nat) | Assistant(calls: seq<Call>) | Tool(callId: string, name: string)

  /** The offered tool set, from widest to narrowest. */
  datatype Mode = Full | Terminal | PlanOnly

  datatype Tally = Tally(errors: nat, tokens: nat)

  datatype Flags = Flags(readonlySucceeded: bool, readonlyFailed: bool)

  datatype Stage = BeforeModel | ResponseSaved | ToolCompleted | BatchCompleted

  datatype Checkpoint = Checkpoint(
    stage: Stage,
    messages: seq<Message>,
    mode: Mode,
    tally: Tally,
    nextTurn: nat,
    pending: Option<Response>,
    nextTool: nat,
    flags: Flags)

  datatype Config = Config(
    maxTurns: nat,
    maxErrors: nat,
    maxTokens: Option<nat>,
    warningTurn: nat,
    initialMode: Mode,
    readonly: set<string>)

  /** Where a live process stands. `Top` is the head of the turn loop. */
  datatype Point =
    | Top(pending: Option<Response>, nextTool: nat, flags: Flags)
    | Asking
    | Answered(response: Response, resuming: bool, nextTool: nat, flags: Flags)
    | Dispatching(response: Response, resuming: bool, nextTool: nat, flags: Flags)
    | InBatch(response: Response, tool: nat, flags: Flags)
    | ToolRan(response: Response, tool: nat, flags: Flags)

  datatype Process =
    | Down
    | Live(turn: nat, messages: seq<Message>, mode: Mode, tally: Tally, point: Point)
    | Finished
    | Refused

  datatype Event = Saved(checkpoint: Checkpoint) | Ran(turn: nat, tool: nat)

  /** The whole system: the last saved checkpoint, the process, and what has happened. */
  datatype Planner = Planner(disk: Option<Checkpoint>, process: Process, log: seq<Event>)

  datatype ToolOutcome = Ends | Succeeds | Fails

  datatype Step =
    | Start
    | Crash
    | Stop
    | Exhaust
    | Reuse(prompt: bool)
    | Ask(prompt: bool)
    | Pause(prompt: bool)
    | Answer(response: Response, tokens: nat)
    | SaveResponse
    | Accept
    | Reject
    | GiveUp
    | BeginBatch
    | RunTool(outcome: ToolOutcome)
    | SaveTool
    | FinishBatch

  const NO_FLAGS := Flags(false, false)

  // ----------------------------------------------------------------------- messages

  function EffectiveId(c: Call): string { if c.id.Some? then c.id.value else "" }

  function Receipt(c: Call): Message { Tool(EffectiveId(c), c.name) }

  /** Appends a notice to the last user message. */
  function Notify(messages: seq<Message>): seq<Message> {
    if messages == [] then []
    else
      var n := |messages| - 1;
      if messages[n].User? then messages[..n] + [User(messages[n].notices + 1)]
      else Notify(messages[..n]) + [messages[n]]
  }

  /** Every call recorded in the messages or in the pending response. */
  ghost predicate HasCall(messages: seq<Message>, pending: Option<Response>, c: Call) {
    || (exists i :: 0 <= i < |messages| && messages[i].Assistant? && c in messages[i].calls)
    || (pending.Some? && c in pending.value.calls)
  }

  /** No id is used with two tool names. */
  ghost predicate IdsConsistent(messages: seq<Message>, pending: Option<Response>) {
    forall c, d :: HasCall(messages, pending, c) && HasCall(messages, pending, d) && c.id.Some? && c.id == d.id ==> c.name == d.name
  }

  /** The resume check: ids are consistent and every tool message belongs to a recorded call. */
  ghost predicate Attributable(messages: seq<Message>, pending: Option<Response>) {
    IdsConsistent(messages, pending)
    && forall i :: 0 <= i < |messages| && messages[i].Tool? ==>
         HasCall(messages, pending, Call(Some(messages[i].callId), messages[i].name))
  }

  // -------------------------------------------------------------------- transitions

  predicate ShouldStop(cfg: Config, tally: Tally) {
    tally.errors >= cfg.maxErrors || (cfg.maxTokens.Some? && tally.tokens >= cfg.maxTokens.value)
  }

  function Prompted(cfg: Config, p: Process, prompt: bool): seq<Message>
    requires p.Live?
  {
    if prompt && p.turn == cfg.warningTurn then Notify(p.messages) else p.messages
  }

  function Save(s: Planner, cp: Checkpoint, p: Process): Planner { Planner(Some(cp), p, s.log + [Saved(cp)]) }

  function Resumed(cp: Checkpoint): Process {
    Live(cp.nextTurn, cp.messages, cp.mode, cp.tally, Top(cp.pending, cp.nextTool, cp.flags))
  }

  function Fresh(cfg: Config): Process {
    Live(0, [System, User(0)], cfg.initialMode, Tally(0, 0), Top(None, 0, NO_FLAGS))
  }

  function Narrowed(mode: Mode): Mode { if mode == Full then Terminal else mode }

  /** The flags after a tool call. */
  function FlagsAfter(cfg: Config, flags: Flags, name: string, failed: bool): Flags {
    if name !in cfg.readonly then flags
    else if failed then flags.(readonlyFailed := true)
    else flags.(readonlySucceeded := true)
  }

  /** One step from a live process at the head of the loop. */
  ghost function TopStep(cfg: Config, s: Planner, step: Step): Option<Planner>
    requires s.process.Live? && s.process.point.Top?
  {
    var p := s.process;
    var at := p.point;
    if p.turn >= cfg.maxTurns then (if step.Exhaust? then Some(s.(process := Finished)) else None)
    else if ShouldStop(cfg, p.tally) then (if step.Stop? then Some(s.(process := Finished)) else None)
    else
      match step
      case Reuse(prompt) =>
        if at.pending.None? then None
        else Some(s.(process := p.(messages := Prompted(cfg, p, prompt),
                                   point := Answered(at.pending.value, at.nextTool > 0, at.nextTool, at.flags))))
      case Ask(prompt) =>
        if at.pending.Some? then None
        else
          var cp := Checkpoint(BeforeModel, Prompted(cfg, p, prompt), p.mode, p.tally, p.turn, None, 0, NO_FLAGS);
          Some(Save(s, cp, p.(messages := Prompted(cfg, p, prompt), point := Asking)))
      case Pause(prompt) =>
        if at.pending.Some? then None
        else
          var cp := Checkpoint(BeforeModel, Prompted(cfg, p, prompt), p.mode, p.tally, p.turn, None, 0, NO_FLAGS);
          Some(Save(s, cp, Down))
      case _ => None
  }

  /** One step from a live process inside a turn. */
  ghost function TurnStep(cfg: Config, s: Planner, step: Step): Option<Planner>
    requires s.process.Live? && !s.process.point.Top?
  {
    var p := s.process;
    match (p.point, step)
    case (Asking, Answer(r, tokens)) =>
      var response := if r.cut == Whole then r else Response([], r.cut);
      Some(s.(process := p.(tally := p.tally.(tokens := p.tally.tokens + tokens), point := Answered(response, false, 0, NO_FLAGS))))
    case (Answered(r, resuming, k, flags), SaveResponse) =>
      var cp := Checkpoint(ResponseSaved, p.messages, p.mode, p.tally, p.turn, Some(r),
                           if resuming then k else 0, if resuming then flags else NO_FLAGS);
      Some(Save(s, cp, p.(point := Dispatching(r, resuming, k, flags))))
    case (Dispatching(r, _, _, _), GiveUp) =>
      if r.cut == ByLength then Some(s.(process := Finished)) else None
    case (Dispatching(r, _, _, _), Accept) =>
      if r.calls == [] && r.cut == Whole then Some(s.(process := Finished)) else None
    case (Dispatching(r, _, _, _), Reject) =>
      if r.calls == [] && r.cut != ByLength then
        Some(s.(process := Live(p.turn + 1, p.messages + [Assistant([]), User(0)], Narrowed(p.mode),
                                p.tally.(errors := p.tally.errors + 1), Top(None, 0, NO_FLAGS))))
      else None
    case (Dispatching(r, resuming, k, flags), BeginBatch) =>
      if r.calls == [] || (resuming && k > |r.calls|) then None
      else
        var known := resuming || (p.messages != [] && p.messages[|p.messages| - 1] == Assistant(r.calls));
        Some(s.(process := p.(messages := if known then p.messages else p.messages + [Assistant(r.calls)],
                              point := InBatch(r, if resuming then k else 0, if resuming then flags else NO_FLAGS))))
    case (InBatch(r, k, flags), RunTool(outcome)) =>
      if k >= |r.calls| then None
      else
        var call := r.calls[k];
        var ran := s.(log := s.log + [Ran(p.turn, k)]);
        if outcome.Ends? then Some(ran.(process := Finished))
        else
          var failed := outcome.Fails?;
          Some(ran.(process := p.(
            messages := p.messages + [Receipt(call)],
            mode := if failed && call.name == "submit_plan" then PlanOnly else p.mode,
            tally := p.tally.(errors := if failed then p.tally.errors + 1 else 0),
            point := ToolRan(r, k, FlagsAfter(cfg, flags, call.name, failed)))))
    case (ToolRan(r, k, flags), SaveTool) =>
      var cp := Checkpoint(ToolCompleted, p.messages, p.mode, p.tally, p.turn, Some(r), k + 1, flags);
      Some(Save(s, cp, p.(point := InBatch(r, k + 1, flags))))
    case (InBatch(r, k, flags), FinishBatch) =>
      if k < |r.calls| then None
      else
        var narrows := flags.readonlySucceeded && !flags.readonlyFailed && p.mode == Full;
        var mode := if narrows then Terminal else p.mode;
        var messages := if narrows then Notify(p.messages) else p.messages;
        var cp := Checkpoint(BatchCompleted, messages, mode, p.tally, p.turn + 1, None, 0, NO_FLAGS);
        Some(Save(s, cp, Live(p.turn + 1, messages, mode, p.tally, Top(None, 0, NO_FLAGS))))
    case (_, _) => None
  }

  /** The state after a step, if the step is possible. */
  ghost function Apply(cfg: Config, s: Planner, step: Step): Option<Planner> {
    match s.process
    case Finished => None
    case Refused => None
    case Down =>
      if !step.Start? then None
      else if s.disk.None? then Some(s.(process := Fresh(cfg)))
      else if !Attributable(s.disk.value.messages, s.disk.value.pending) then Some(s.(process := Refused))
      else Some(s.(process := Resumed(s.disk.value)))
    case Live(_, _, _, _, point) =>
      if step.Crash? then Some(s.(process := Down))
      else if point.Top? then TopStep(cfg, s, step)
      else TurnStep(cfg, s, step)
  }

  /** The state after a run of steps from nothing, if every step is possible. */
  ghost function After(cfg: Config, steps: seq<Step>): Option<Planner> {
    if steps == [] then Some(Planner(None, Down, []))
    else
      var n := |steps| - 1;
      var before := After(cfg, steps[..n]);
      if before.None? then None else Apply(cfg, before.value, steps[n])
  }

  // ----------------------------------------------------------- pairing of the messages

  /** After an assistant message come its receipts, in call order; every tool message is one. */
  ghost predicate Paired(messages: seq<Message>) {
    && (forall i, k :: 0 <= i < |messages| && messages[i].Assistant? && 0 <= k < |messages[i].calls| && i + 1 + k < |messages| ==>
          messages[i + 1 + k] == Receipt(messages[i].calls[k]))
    && (forall t :: 0 <= t < |messages| && messages[t].Tool? ==> Answers(messages, t))
  }

  /** Tool message `t` is a receipt of the batch it stands in. */
  ghost predicate Answers(messages: seq<Message>, t: int) {
    exists i :: 0 <= i < t < |messages| && messages[i].Assistant? && t - i - 1 < |messages[i].calls|
  }

  /** Every assistant message up to `end` has all its receipts before `end`. */
  ghost predicate CompleteBefore(messages: seq<Message>, end: nat) {
    end <= |messages| && forall i :: 0 <= i < end && messages[i].Assistant? ==> i + |messages[i].calls| < end
  }

  ghost predicate Complete(messages: seq<Message>) { Paired(messages) && CompleteBefore(messages, |messages|) }

  /** The messages end with the batch of `calls`, of which the first `k` are answered. */
  ghost predicate OpenBatch(messages: seq<Message>, calls: seq<Call>, k: nat) {
    && k <= |calls| && calls != [] && k < |messages|
    && Paired(messages) && CompleteBefore(messages, |messages| - 1 - k)
    && messages[|messages| - 1 - k] == Assistant(calls)
  }

  lemma PairedExtends(messages: seq<Message>, m: Message)
    requires Complete(messages) && !m.Tool?
    ensures Paired(messages + [m])
    ensures CompleteBefore(messages + [m], |messages|)
    ensures m.Assistant? && m.calls != [] ==> OpenBatch(messages + [m], m.calls, 0)
    ensures !m.Assistant? || m.calls == [] ==> Complete(messages + [m])
  {
    var more := messages + [m];
    forall t | 0 <= t < |more| && more[t].Tool? ensures Answers(more, t) {
      assert Answers(messages, t);
      var i :| 0 <= i < t < |messages| && messages[i].Assistant? && t - i - 1 < |messages[i].calls|;
      assert more[i] == messages[i];
    }
  }

  lemma TailIsReceipts(messages: seq<Message>, calls: seq<Call>, k: nat, i: int)
    requires OpenBatch(messages, calls, k) && |messages| - 1 - k < i < |messages|
    ensures messages[i] == Receipt(calls[i - (|messages| - k)])
  {
    var at := |messages| - 1 - k;
    assert messages[at + 1 + (i - at - 1)] == Receipt(messages[at].calls[i - at - 1]);
  }

  /** A fully answered batch leaves nothing open. */
  lemma BatchCloses(messages: seq<Message>, calls: seq<Call>)
    requires OpenBatch(messages, calls, |calls|)
    ensures Complete(messages)
  {
    forall i | 0 <= i < |messages| && messages[i].Assistant? ensures i + |messages[i].calls| < |messages| {
      if i > |messages| - 1 - |calls| { TailIsReceipts(messages, calls, |calls|, i); }
    }
  }

  lemma {:induction false} NotifyKeepsShape(messages: seq<Message>)
    ensures |Notify(messages)| == |messages|
    ensures forall i :: 0 <= i < |messages| ==>
              if messages[i].User? then Notify(messages)[i].User? else Notify(messages)[i] == messages[i]
  {
    if messages != [] && !messages[|messages| - 1].User? {
      NotifyKeepsShape(messages[..|messages| - 1]);
    }
  }

  lemma NotifyKeepsPairing(messages: seq<Message>)
    ensures Paired(messages) ==> Paired(Notify(messages))
    ensures forall end: nat :: CompleteBefore(messages, end) ==> CompleteBefore(Notify(messages), end)
  {
    NotifyKeepsShape(messages);
    var noted := Notify(messages);
    if Paired(messages) {
      forall i, k | 0 <= i < |noted| && noted[i].Assistant? && 0 <= k < |noted[i].calls| && i + 1 + k < |noted|
        ensures noted[i + 1 + k] == Receipt(noted[i].calls[k])
      {
        assert messages[i + 1 + k] == Receipt(messages[i].calls[k]);
      }
      forall t | 0 <= t < |noted| && noted[t].Tool? ensures Answers(noted, t) {
        assert Answers(messages, t);
        var i :| 0 <= i < t < |messages| && messages[i].Assistant? && t - i - 1 < |messages[i].calls|;
        assert noted[i] == messages[i];
      }
    }
  }

  lemma NotifyKeepsOpen(messages: seq<Message>, calls: seq<Call>, k: nat)
    requires OpenBatch(messages, calls, k)
    ensures OpenBatch(Notify(messages), calls, k)
  {
    NotifyKeepsShape(messages);
    NotifyKeepsPairing(messages);
  }

  lemma ReceiptExtends(messages: seq<Message>, calls: seq<Call>, k: nat)
    requires OpenBatch(messages, calls, k) && k < |calls|
    ensures OpenBatch(messages + [Receipt(calls[k])], calls, k + 1)
  {
    var more, at := messages + [Receipt(calls[k])], |messages| - 1 - k;
    forall t | 0 <= t < |more| && more[t].Tool? ensures Answers(more, t) {
      if t == |messages| {
        assert more[at] == Assistant(calls);
      } else {
        assert Answers(messages, t);
        var i :| 0 <= i < t < |messages| && messages[i].Assistant? && t - i - 1 < |messages[i].calls|;
        assert more[i] == messages[i];
      }
    }
    forall i, j | 0 <= i < |more| && more[i].Assistant? && 0 <= j < |more[i].calls| && i + 1 + j < |more|
      ensures more[i + 1 + j] == Receipt(more[i].calls[j])
    {
      if i + 1 + j < |messages| {
        assert messages[i + 1 + j] == Receipt(messages[i].calls[j]);
      } else {
        if at < i < |messages| { TailIsReceipts(messages, calls, k, i); }
      }
    }
  }

  // -------------------------------------------------- what holds in every reachable state

  /** The messages suit a pending response of which `k` calls are answered. */
  ghost predicate Fits(messages: seq<Message>, pending: Option<Response>, k: nat) {
    if pending.Some? && k > 0 then OpenBatch(messages, pending.value.calls, k) else k == 0 && Complete(messages)
  }

  ghost predicate CheckpointFits(cfg: Config, cp: Checkpoint) {
    && Fits(cp.messages, cp.pending, cp.nextTool)
    && cp.nextTurn <= cfg.maxTurns
    && (cp.pending.Some? <==> cp.stage.ResponseSaved? || cp.stage.ToolCompleted?)
    && (cp.pending.Some? ==> cp.nextTurn < cfg.maxTurns)
    && (cp.stage.ToolCompleted? ==> cp.nextTool > 0)
  }

  ghost predicate ProcessFits(cfg: Config, p: Process)
    requires p.Live?
  {
    p.turn <= cfg.maxTurns && (!p.point.Top? ==> p.turn < cfg.maxTurns)
    && match p.point
       case Top(pending, k, _) => Fits(p.messages, pending, k) && (pending.Some? ==> p.turn < cfg.maxTurns)
       case Asking => Complete(p.messages)
       case Answered(r, resuming, k, _) => (resuming <==> k > 0) && Fits(p.messages, Some(r), k)
       case Dispatching(r, resuming, k, _) => (resuming <==> k > 0) && Fits(p.messages, Some(r), k)
       case InBatch(r, k, _) => OpenBatch(p.messages, r.calls, k)
       case ToolRan(r, k, _) => OpenBatch(p.messages, r.calls, k + 1)
  }

  ghost predicate Shape(cfg: Config, s: Planner) {
    (s.disk.Some? ==> CheckpointFits(cfg, s.disk.value)) && (s.process.Live? ==> ProcessFits(cfg, s.process))
  }

  lemma NotifyKeepsFit(messages: seq<Message>, pending: Option<Response>, k: nat)
    requires Fits(messages, pending, k)
    ensures Fits(Notify(messages), pending, k)
  {
    NotifyKeepsPairing(messages);
    NotifyKeepsShape(messages);
    if pending.Some? && k > 0 { NotifyKeepsOpen(messages, pending.value.calls, k); }
  }

  lemma FreshFits(cfg: Config)
    ensures Complete([System, User(0)])
  {
  }

  lemma RejectedTextFits(messages: seq<Message>)
    requires Complete(messages)
    ensures Complete(messages + [Assistant([]), User(0)])
  {
    PairedExtends(messages, Assistant([]));
    PairedExtends(messages + [Assistant([])], User(0));
    assert messages + [Assistant([])] + [User(0)] == messages + [Assistant([]), User(0)];
  }

  lemma BatchIsNotAlreadyThere(messages: seq<Message>, calls: seq<Call>)
    requires Complete(messages) && calls != [] && messages != []
    ensures messages[|messages| - 1] != Assistant(calls)
  {
  }

  lemma ShapeFromTop(cfg: Config, s: Planner, step: Step)
    requires Shape(cfg, s) && s.process.Live? && s.process.point.Top? && TopStep(cfg, s, step).Some?
    ensures Shape(cfg, TopStep(cfg, s, step).value)
  {
    hide Complete, OpenBatch, ShouldStop, Notify;
    NotifyKeepsFit(s.process.messages, s.process.point.pending, s.process.point.nextTool);
  }

  lemma ShapeFromDispatch(cfg: Config, s: Planner, step: Step)
    requires Shape(cfg, s) && s.process.Live? && s.process.point.Dispatching? && TurnStep(cfg, s, step).Some?
    ensures Shape(cfg, TurnStep(cfg, s, step).value)
  {
    hide Complete, OpenBatch, Notify, FlagsAfter;
    var p, r := s.process, s.process.point.response;
    if p.point.resuming {
      OpenHasCalls(p.messages, r.calls, p.point.nextTool);
    } else {
      RejectedTextFits(p.messages);
      if r.calls != [] {
        PairedExtends(p.messages, Assistant(r.calls));
        if p.messages != [] { BatchIsNotAlreadyThere(p.messages, r.calls); }
      }
    }
  }

  lemma ShapeFromBatch(cfg: Config, s: Planner, step: Step)
    requires Shape(cfg, s) && s.process.Live? && s.process.point.InBatch? && TurnStep(cfg, s, step).Some?
    ensures Shape(cfg, TurnStep(cfg, s, step).value)
  {
    hide Complete, OpenBatch, Notify, FlagsAfter;
    var p, r, k := s.process, s.process.point.response, s.process.point.tool;
    OpenHasCalls(p.messages, r.calls, k);
    if k < |r.calls| {
      ReceiptExtends(p.messages, r.calls, k);
    } else {
      BatchCloses(p.messages, r.calls);
      NotifyKeepsFit(p.messages, None, 0);
    }
  }

  /** Every step keeps the message structure, in the process and in what it saves. */
  lemma ShapeStep(cfg: Config, s: Planner, step: Step)
    requires Shape(cfg, s) && Apply(cfg, s, step).Some?
    ensures Shape(cfg, Apply(cfg, s, step).value)
  {
    hide Complete, OpenBatch, Attributable, ShouldStop, Notify, FlagsAfter, TopStep;
    FreshFits(cfg);
    if s.process.Live? && !step.Crash? {
      match s.process.point
      case Top(_, _, _) => ShapeFromTop(cfg, s, step);
      case Dispatching(_, _, _, _) => ShapeFromDispatch(cfg, s, step);
      case InBatch(_, _, _) => ShapeFromBatch(cfg, s, step);
      case _ =>
    }
  }

  lemma OpenHasCalls(messages: seq<Message>, calls: seq<Call>, k: nat)
    requires OpenBatch(messages, calls, k)
    ensures calls != [] && k <= |calls|
  {
  }

  // ----------------------------------------------------------- progress of checkpoints

  /** How far a checkpoint is: its turn, then whether its response is in, then its tools. */
  datatype Position = Position(turn: nat, rank: nat) {
    predicate UpTo(other: Position) { turn < other.turn || (turn == other.turn && rank <= other.rank) }
  }

  function Rank(pending: Option<Response>, k: nat): nat { if pending.None? then 0 else 1 + k }

  function PositionOf(cp: Checkpoint): Position { Position(cp.nextTurn, Rank(cp.pending, cp.nextTool)) }

  function Width(mode: Mode): nat {
    match mode
    case Full => 2
    case Terminal => 1
    case PlanOnly => 0
  }

  /** `b` can be saved after `a`: no earlier, no wider tool set, and the same response for the same turn. */
  predicate Follows(a: Checkpoint, b: Checkpoint) {
    && PositionOf(a).UpTo(PositionOf(b))
    && Width(b.mode) <= Width(a.mode)
    && (a.pending.Some? && a.nextTurn == b.nextTurn ==> b.pending == a.pending)
  }

  lemma FollowsIsTransitive(a: Checkpoint, b: Checkpoint, c: Checkpoint)
    requires Follows(a, b) && Follows(b, c)
    ensures Follows(a, c)
  {
  }

  /** What the next checkpoint of a live process would have to follow. */
  function ProcessPosition(p: Process): Position
    requires p.Live?
  {
    match p.point
    case Top(pending, k, _) => Position(p.turn, Rank(pending, k))
    case Asking => Position(p.turn, 0)
    case Answered(r, resuming, k, _) => Position(p.turn, 1 + k)
    case Dispatching(r, resuming, k, _) => Position(p.turn, 1 + k)
    case InBatch(r, k, _) => Position(p.turn, 1 + k)
    case ToolRan(r, k, _) => Position(p.turn, 1 + k)
  }

  function ProcessResponse(p: Process): Option<Response>
    requires p.Live?
  {
    match p.point
    case Top(pending, k, _) => pending
    case Asking => None
    case Answered(r, _, _, _) => Some(r)
    case Dispatching(r, _, _, _) => Some(r)
    case InBatch(r, _, _) => Some(r)
    case ToolRan(r, _, _) => Some(r)
  }

  /** The live process is no earlier and no wider than the disk, and has its response. */
  predicate Linked(s: Planner) {
    s.disk.Some? && s.process.Live? ==>
      var d, p := s.disk.value, s.process;
      && PositionOf(d).UpTo(ProcessPosition(p))
      && Width(p.mode) <= Width(d.mode)
      && (d.pending.Some? && d.nextTurn == p.turn ==> ProcessResponse(p) == d.pending)
      && (p.point.Answered? && !p.point.resuming ==> p.point.nextTool == 0)
  }

  /** What a step adds to the history: nothing, a checkpoint that follows the disk, or a tool
      run no earlier than the disk. */
  predicate Records(s: Planner, t: Planner) {
    || (t.log == s.log && t.disk == s.disk)
    || (t.disk.Some? && t.log == s.log + [Saved(t.disk.value)] && (s.disk.Some? ==> Follows(s.disk.value, t.disk.value)))
    || (t.disk == s.disk && s.process.Live? && s.process.point.InBatch?
        && t.log == s.log + [Ran(s.process.turn, s.process.point.tool)]
        && (s.disk.Some? ==> PositionOf(s.disk.value).UpTo(Position(s.process.turn, 1 + s.process.point.tool))))
  }

  lemma LinkFromTop(cfg: Config, s: Planner, step: Step)
    requires Shape(cfg, s) && Linked(s) && s.process.Live? && s.process.point.Top? && TopStep(cfg, s, step).Some?
    ensures Linked(TopStep(cfg, s, step).value) && Records(s, TopStep(cfg, s, step).value)
  {
    hide Complete, OpenBatch, ShouldStop, Notify, CheckpointFits;
  }

  lemma LinkFromTurn(cfg: Config, s: Planner, step: Step)
    requires Shape(cfg, s) && Linked(s) && s.process.Live? && !s.process.point.Top? && TurnStep(cfg, s, step).Some?
    ensures Linked(TurnStep(cfg, s, step).value) && Records(s, TurnStep(cfg, s, step).value)
  {
    hide Complete, OpenBatch, Notify, FlagsAfter, CheckpointFits;
  }

  lemma LinkStep(cfg: Config, s: Planner, step: Step)
    requires Shape(cfg, s) && Linked(s) && Apply(cfg, s, step).Some?
    ensures Linked(Apply(cfg, s, step).value) && Records(s, Apply(cfg, s, step).value)
  {
    hide Attributable, TopStep, TurnStep, CheckpointFits, Fits;
    if s.process.Live? && !step.Crash? {
      if s.process.point.Top? { LinkFromTop(cfg, s, step); } else { LinkFromTurn(cfg, s, step); }
    }
  }

  // -------------------------------------------------------------------- the history

  /** Checkpoints in the log follow one another up to the disk, and no tool run lies before
      a checkpoint already saved. */
  ghost predicate History(log: seq<Event>, disk: Option<Checkpoint>) {
    && (disk.None? ==> forall i :: 0 <= i < |log| ==> !log[i].Saved?)
    && (disk.Some? ==> forall i :: 0 <= i < |log| && log[i].Saved? ==> Follows(log[i].checkpoint, disk.value))
    && (forall i, j :: 0 <= i < j < |log| && log[i].Saved? && log[j].Saved? ==> Follows(log[i].checkpoint, log[j].checkpoint))
    && (forall i, j :: 0 <= i < j < |log| && log[i].Saved? && log[j].Ran? ==>
          PositionOf(log[i].checkpoint).UpTo(Position(log[j].turn, 1 + log[j].tool)))
  }

  lemma HistoryStep(s: Planner, t: Planner)
    requires History(s.log, s.disk) && Records(s, t)
    ensures History(t.log, t.disk)
  {
    hide Follows;
    if t.disk.Some? && t.log == s.log + [Saved(t.disk.value)] {
      FollowsItself(t.disk.value);
      forall i | 0 <= i < |s.log| && s.log[i].Saved? ensures Follows(s.log[i].checkpoint, t.disk.value) {
        FollowsIsTransitive(s.log[i].checkpoint, s.disk.value, t.disk.value);
      }
    } else if t.log != s.log {
      forall i | 0 <= i < |s.log| && s.log[i].Saved?
        ensures PositionOf(s.log[i].checkpoint).UpTo(Position(s.process.turn, 1 + s.process.point.tool))
      {
        FollowsMeansUpTo(s.log[i].checkpoint, s.disk.value);
      }
    }
  }

  lemma FollowsItself(a: Checkpoint)
    ensures Follows(a, a)
  {
  }

  lemma FollowsMeansUpTo(a: Checkpoint, b: Checkpoint)
    requires Follows(a, b)
    ensures PositionOf(a).UpTo(PositionOf(b))
  {
  }

  // ------------------------------------------------------------ no tool is skipped

  ghost predicate RanBy(log: seq<Event>, end: nat, turn: nat, tool: nat) {
    exists j :: 0 <= j < end <= |log| && log[j] == Ran(turn, tool)
  }

  /** The first `n` tools of a turn ran before `end`. */
  ghost predicate AllRanBy(log: seq<Event>, end: nat, turn: nat, n: nat) {
    forall k: nat :: k < n ==> RanBy(log, end, turn, k)
  }

  ghost predicate ResponseSavedBy(log: seq<Event>, end: nat, turn: nat, r: Response) {
    exists j :: 0 <= j < end <= |log| && log[j].Saved? && log[j].checkpoint.nextTurn == turn && log[j].checkpoint.pending == Some(r)
  }

  /** A batch of the turn was saved and every call in it ran. */
  ghost predicate BatchRanBy(log: seq<Event>, end: nat, turn: nat) {
    exists r :: ResponseSavedBy(log, end, turn, r) && AllRanBy(log, end, turn, |r.calls|)
  }

  /** What a checkpoint in the log vouches for. */
  ghost predicate Vouches(log: seq<Event>, i: nat, cp: Checkpoint) {
    && AllRanBy(log, i, cp.nextTurn, cp.nextTool)
    && (cp.stage.BatchCompleted? ==> cp.nextTurn > 0 && BatchRanBy(log, i, cp.nextTurn - 1))
  }

  /** What the process itself has seen done. */
  ghost predicate Witnessed(s: Planner) {
    s.process.Live? ==>
      var p, end := s.process, |s.log|;
      match p.point
      case Top(pending, k, _) => AllRanBy(s.log, end, p.turn, k) && (pending.Some? ==> ResponseSavedBy(s.log, end, p.turn, pending.value))
      case Asking => true
      case Answered(_, _, k, _) => AllRanBy(s.log, end, p.turn, k)
      case Dispatching(r, _, k, _) => AllRanBy(s.log, end, p.turn, k) && ResponseSavedBy(s.log, end, p.turn, r)
      case InBatch(r, k, _) => AllRanBy(s.log, end, p.turn, k) && ResponseSavedBy(s.log, end, p.turn, r)
      case ToolRan(r, k, _) => AllRanBy(s.log, end, p.turn, k + 1) && ResponseSavedBy(s.log, end, p.turn, r)
  }

  ghost predicate Accounted(s: Planner) {
    && (forall i :: 0 <= i < |s.log| && s.log[i].Saved? ==> Vouches(s.log, i, s.log[i].checkpoint))
    && (s.disk.Some? ==> AllRanBy(s.log, |s.log|, s.disk.value.nextTurn, s.disk.value.nextTool))
    && (s.disk.Some? && s.disk.value.pending.Some? ==>
          ResponseSavedBy(s.log, |s.log|, s.disk.value.nextTurn, s.disk.value.pending.value))
    && Witnessed(s)
  }

  lemma AllRanLasts(log: seq<Event>, more: seq<Event>, end: nat, later: nat, turn: nat, n: nat)
    requires log <= more && end <= later <= |more| && AllRanBy(log, end, turn, n)
    ensures AllRanBy(more, later, turn, n)
  {
    forall k: nat | k < n ensures RanBy(more, later, turn, k) {
      assert RanBy(log, end, turn, k);
      var j :| 0 <= j < end <= |log| && log[j] == Ran(turn, k);
      assert more[j] == log[j];
    }
  }

  lemma ResponseSavedLasts(log: seq<Event>, more: seq<Event>, end: nat, later: nat, turn: nat, r: Response)
    requires log <= more && end <= later <= |more| && ResponseSavedBy(log, end, turn, r)
    ensures ResponseSavedBy(more, later, turn, r)
  {
    var j :| 0 <= j < end <= |log| && log[j].Saved? && log[j].checkpoint.nextTurn == turn && log[j].checkpoint.pending == Some(r);
    assert more[j] == log[j];
  }

  lemma VouchingLasts(log: seq<Event>, more: seq<Event>, i: nat, cp: Checkpoint)
    requires log <= more && i <= |log| && Vouches(log, i, cp)
    ensures Vouches(more, i, cp)
  {
    AllRanLasts(log, more, i, i, cp.nextTurn, cp.nextTool);
    if cp.stage.BatchCompleted? {
      var r :| ResponseSavedBy(log, i, cp.nextTurn - 1, r) && AllRanBy(log, i, cp.nextTurn - 1, |r.calls|);
      ResponseSavedLasts(log, more, i, i, cp.nextTurn - 1, r);
      AllRanLasts(log, more, i, i, cp.nextTurn - 1, |r.calls|);
    }
  }

  lemma OneMoreRan(log: seq<Event>, turn: nat, tool: nat)
    requires AllRanBy(log, |log|, turn, tool)
    ensures AllRanBy(log + [Ran(turn, tool)], |log| + 1, turn, tool + 1)
  {
    var more := log + [Ran(turn, tool)];
    AllRanLasts(log, more, |log|, |more|, turn, tool);
    assert more[|log|] == Ran(turn, tool);
  }

  lemma NothingToRun(log: seq<Event>, end: nat, turn: nat)
    ensures AllRanBy(log, end, turn, 0)
  {
  }

  /** A checkpoint just written is vouched for by what the process has witnessed. */
  lemma SavedIsVouched(cfg: Config, s: Planner, step: Step)
    requires Shape(cfg, s) && Accounted(s) && Apply(cfg, s, step).Some?
    requires Apply(cfg, s, step).value.log != s.log && !step.RunTool?
    ensures var t := Apply(cfg, s, step).value;
            t.disk.Some? && t.log == s.log + [Saved(t.disk.value)] && Vouches(s.log, |s.log|, t.disk.value)
            && (t.disk.value.pending.Some? && step != SaveResponse ==>
                  ResponseSavedBy(s.log, |s.log|, t.disk.value.nextTurn, t.disk.value.pending.value))
  {
    hide Complete, Attributable, ShouldStop, Notify, FlagsAfter, AllRanBy, ResponseSavedBy;
    var p := s.process;
    NothingToRun(s.log, |s.log|, p.turn);
    NothingToRun(s.log, |s.log|, p.turn + 1);
    if step.FinishBatch? {
      var r := p.point.response;
      assert p.point.tool == |r.calls|;
      assert ResponseSavedBy(s.log, |s.log|, p.turn, r) && AllRanBy(s.log, |s.log|, p.turn, |r.calls|);
    }
  }

  lemma AccountedStep(cfg: Config, s: Planner, step: Step)
    requires Shape(cfg, s) && Accounted(s) && Apply(cfg, s, step).Some?
    ensures Accounted(Apply(cfg, s, step).value)
  {
    hide Apply, Shape, Witnessed, AllRanBy, ResponseSavedBy, Vouches;
    LogGrows(cfg, s, step);
    var t := Apply(cfg, s, step).value;
    forall i | 0 <= i < |s.log| && s.log[i].Saved? ensures Vouches(t.log, i, s.log[i].checkpoint) {
      VouchingLasts(s.log, t.log, i, s.log[i].checkpoint);
    }
    EarlierFactsLast(s, t.log);
    if step.RunTool? {
      WitnessedAfterTool(cfg, s, step);
    } else if t.log != s.log {
      SavedIsVouched(cfg, s, step);
      VouchingLasts(s.log, t.log, |s.log|, t.disk.value);
      NewCheckpointCounts(s.log, t.disk.value);
      WitnessedAfterSave(cfg, s, step);
    } else {
      WitnessedOtherwise(cfg, s, step);
    }
  }

  lemma LogGrows(cfg: Config, s: Planner, step: Step)
    requires Apply(cfg, s, step).Some?
    ensures var t := Apply(cfg, s, step).value;
            s.log <= t.log && (t.log == s.log ==> t.disk == s.disk)
            && (step.RunTool? ==> t.disk == s.disk && |t.log| == |s.log| + 1 && t.log[|s.log|].Ran?)
  {
    hide Notify, FlagsAfter, Attributable, ShouldStop;
  }

  lemma WitnessedAfterTool(cfg: Config, s: Planner, step: Step)
    requires Accounted(s) && step.RunTool? && Apply(cfg, s, step).Some?
    ensures Witnessed(Apply(cfg, s, step).value)
  {
    hide AllRanBy, ResponseSavedBy, Vouches, Notify, FlagsAfter;
    OneMoreRan(s.log, s.process.turn, s.process.point.tool);
    EarlierFactsLast(s, Apply(cfg, s, step).value.log);
  }

  lemma WitnessedAfterSave(cfg: Config, s: Planner, step: Step)
    requires Accounted(s) && Apply(cfg, s, step).Some? && !step.RunTool?
    requires var t := Apply(cfg, s, step).value;
             t.disk.Some? && t.log == s.log + [Saved(t.disk.value)]
             && AllRanBy(t.log, |t.log|, t.disk.value.nextTurn, t.disk.value.nextTool)
             && (t.disk.value.pending.Some? ==> ResponseSavedBy(t.log, |t.log|, t.disk.value.nextTurn, t.disk.value.pending.value))
    ensures Witnessed(Apply(cfg, s, step).value)
  {
    hide AllRanBy, ResponseSavedBy, Vouches, Notify, FlagsAfter, ShouldStop;
    var t := Apply(cfg, s, step).value;
    EarlierFactsLast(s, t.log);
    NothingToRun(t.log, |t.log|, s.process.turn + 1);
  }

  lemma WitnessedOtherwise(cfg: Config, s: Planner, step: Step)
    requires Shape(cfg, s) && Accounted(s) && Apply(cfg, s, step).Some? && Apply(cfg, s, step).value.log == s.log
    ensures Witnessed(Apply(cfg, s, step).value)
  {
    hide AllRanBy, ResponseSavedBy, Vouches, Notify, FlagsAfter, ShouldStop, Attributable, CheckpointFits, Complete, OpenBatch;
    NothingToRun(s.log, |s.log|, 0);
    if s.process.Live? {
      NothingToRun(s.log, |s.log|, s.process.turn);
      NothingToRun(s.log, |s.log|, s.process.turn + 1);
    }
  }

  /** Facts about the disk and the process survive a longer log. */
  lemma EarlierFactsLast(s: Planner, more: seq<Event>)
    requires Accounted(s) && s.log <= more
    ensures s.disk.Some? ==> AllRanBy(more, |more|, s.disk.value.nextTurn, s.disk.value.nextTool)
    ensures s.disk.Some? && s.disk.value.pending.Some? ==>
              ResponseSavedBy(more, |more|, s.disk.value.nextTurn, s.disk.value.pending.value)
    ensures Witnessed(Planner(s.disk, s.process, more))
  {
    hide AllRanBy, ResponseSavedBy;
    forall turn, n | AllRanBy(s.log, |s.log|, turn, n) ensures AllRanBy(more, |more|, turn, n) {
      AllRanLasts(s.log, more, |s.log|, |more|, turn, n);
    }
    forall turn, r | ResponseSavedBy(s.log, |s.log|, turn, r) ensures ResponseSavedBy(more, |more|, turn, r) {
      ResponseSavedLasts(s.log, more, |s.log|, |more|, turn, r);
    }
  }

  lemma NewCheckpointCounts(log: seq<Event>, cp: Checkpoint)
    requires Vouches(log, |log|, cp)
    ensures var more := log + [Saved(cp)];
            AllRanBy(more, |more|, cp.nextTurn, cp.nextTool)
            && (cp.pending.Some? ==> ResponseSavedBy(more, |more|, cp.nextTurn, cp.pending.value))
  {
    var more := log + [Saved(cp)];
    AllRanLasts(log, more, |log|, |more|, cp.nextTurn, cp.nextTool);
    assert more[|log|] == Saved(cp);
  }

  // ----------------------------------------------------------------- reachable states

  ghost predicate Invariant(cfg: Config, s: Planner) {
    Shape(cfg, s) && Linked(s) && History(s.log, s.disk) && Accounted(s)
    && forall i :: 0 <= i < |s.log| && s.log[i].Saved? ==> CheckpointFits(cfg, s.log[i].checkpoint)
  }

  lemma {:induction false} ReachableIsInvariant(cfg: Config, steps: seq<Step>)
    requires After(cfg, steps).Some?
    ensures Invariant(cfg, After(cfg, steps).value)
  {
    hide Shape, Linked, History, Accounted, Apply, CheckpointFits;
    if steps == [] {
      NothingYet(cfg);
    } else {
      var n := |steps| - 1;
      ReachableIsInvariant(cfg, steps[..n]);
      var s := After(cfg, steps[..n]).value;
      ShapeStep(cfg, s, steps[n]);
      LinkStep(cfg, s, steps[n]);
      var t := Apply(cfg, s, steps[n]).value;
      HistoryStep(s, t);
      AccountedStep(cfg, s, steps[n]);
      DiskFits(cfg, t);
    }
  }

  lemma DiskFits(cfg: Config, s: Planner)
    requires Shape(cfg, s)
    ensures s.disk.Some? ==> CheckpointFits(cfg, s.disk.value)
  {
  }

  lemma NothingYet(cfg: Config)
    ensures Invariant(cfg, Planner(None, Down, []))
  {
  }

  // --------------------------------------------------------------------- main results

  /** Every saved dialogue pairs calls with receipts in call order; only the batch in
      progress, if any, is open, and it is answered exactly up to the saved tool index. */
  lemma SavedDialoguesArePaired(cfg: Config, steps: seq<Step>, i: nat)
    requires After(cfg, steps).Some?
    requires var log := After(cfg, steps).value.log; i < |log| && log[i].Saved?
    ensures var cp := After(cfg, steps).value.log[i].checkpoint;
            Paired(cp.messages)
            && (cp.nextTool == 0 ==> CompleteBefore(cp.messages, |cp.messages|))
            && (cp.nextTool > 0 ==> cp.pending.Some? && OpenBatch(cp.messages, cp.pending.value.calls, cp.nextTool))
  {
    ReachableIsInvariant(cfg, steps);
  }

  /** Once the completion of a tool is saved, neither it nor an earlier one runs again, in
      this process or after any number of crashes. */
  lemma NoSavedToolRunsAgain(cfg: Config, steps: seq<Step>, i: nat, j: nat)
    requires After(cfg, steps).Some?
    requires var log := After(cfg, steps).value.log;
             i < j < |log| && log[i].Saved? && log[i].checkpoint.stage.ToolCompleted? && log[j].Ran?
    ensures var log := After(cfg, steps).value.log;
            var cp := log[i].checkpoint;
            log[j].turn > cp.nextTurn || (log[j].turn == cp.nextTurn && log[j].tool >= cp.nextTool)
  {
    ReachableIsInvariant(cfg, steps);
    var log := After(cfg, steps).value.log;
    assert PositionOf(log[i].checkpoint).UpTo(Position(log[j].turn, 1 + log[j].tool));
    assert CheckpointFits(cfg, log[i].checkpoint);
  }

  /** A checkpoint that counts `n` tools done, or a whole batch done, was preceded by a run of
      each of those tools. */
  lemma NoToolIsSkipped(cfg: Config, steps: seq<Step>, i: nat)
    requires After(cfg, steps).Some?
    requires var log := After(cfg, steps).value.log; i < |log| && log[i].Saved?
    ensures var log := After(cfg, steps).value.log;
            var cp := log[i].checkpoint;
            AllRanBy(log, i, cp.nextTurn, cp.nextTool)
            && (cp.stage.BatchCompleted? ==> cp.nextTurn > 0 && BatchRanBy(log, i, cp.nextTurn - 1))
  {
    ReachableIsInvariant(cfg, steps);
    assert Vouches(After(cfg, steps).value.log, i, After(cfg, steps).value.log[i].checkpoint);
  }

  /** Over all crashes and resumptions the saved tool set never widens, and a turn's saved
      response is never replaced. */
  lemma SavedStateOnlyAdvances(cfg: Config, steps: seq<Step>, i: nat, j: nat)
    requires After(cfg, steps).Some?
    requires var log := After(cfg, steps).value.log; i < j < |log| && log[i].Saved? && log[j].Saved?
    ensures var log := After(cfg, steps).value.log;
            var a, b := log[i].checkpoint, log[j].checkpoint;
            Width(b.mode) <= Width(a.mode)
            && a.nextTurn <= b.nextTurn
            && (a.pending.Some? && b.nextTurn == a.nextTurn ==> b.pending == a.pending && a.nextTool <= b.nextTool)
  {
    ReachableIsInvariant(cfg, steps);
    var log := After(cfg, steps).value.log;
    assert Follows(log[i].checkpoint, log[j].checkpoint);
  }

  /** The model responses ever saved, each with its turn. */
  function SavedResponses(log: seq<Event>): set<(nat, Response)> {
    set i | 0 <= i < |log| && log[i].Saved? && log[i].checkpoint.pending.Some?
      :: (log[i].checkpoint.nextTurn, log[i].checkpoint.pending.value)
  }

  lemma SavedWhere(log: seq<Event>, p: (nat, Response)) returns (i: nat)
    requires p in SavedResponses(log)
    ensures i < |log| && log[i].Saved? && log[i].checkpoint.pending == Some(p.1) && log[i].checkpoint.nextTurn == p.0
  {
    i :| 0 <= i < |log| && log[i].Saved? && log[i].checkpoint.pending == Some(p.1) && log[i].checkpoint.nextTurn == p.0;
  }

  lemma OneResponsePerTurn(cfg: Config, steps: seq<Step>, p: (nat, Response), q: (nat, Response))
    requires After(cfg, steps).Some?
    requires var log := After(cfg, steps).value.log; p in SavedResponses(log) && q in SavedResponses(log)
    ensures p.0 < cfg.maxTurns && (p.0 == q.0 ==> p == q)
  {
    hide After, SavedResponses, Invariant;
    var log := After(cfg, steps).value.log;
    var i := SavedWhere(log, p);
    var j := SavedWhere(log, q);
    TurnInRange(cfg, steps, i);
    if i < j && p.0 == q.0 { SavedStateOnlyAdvances(cfg, steps, i, j); }
    if j < i && p.0 == q.0 { SavedStateOnlyAdvances(cfg, steps, j, i); }
  }

  lemma TurnInRange(cfg: Config, steps: seq<Step>, i: nat)
    requires After(cfg, steps).Some?
    requires var log := After(cfg, steps).value.log; i < |log| && log[i].Saved? && log[i].checkpoint.pending.Some?
    ensures After(cfg, steps).value.log[i].checkpoint.nextTurn < cfg.maxTurns
  {
    ReachableIsInvariant(cfg, steps);
    assert CheckpointFits(cfg, After(cfg, steps).value.log[i].checkpoint);
  }

  /** At most `maxTurns` responses are ever saved, over all crashes and resumptions. */
  lemma AtMostMaxTurnsResponses(cfg: Config, steps: seq<Step>)
    requires After(cfg, steps).Some?
    ensures |SavedResponses(After(cfg, steps).value.log)| <= cfg.maxTurns
  {
    hide After, SavedResponses;
    var saved := SavedResponses(After(cfg, steps).value.log);
    forall p, q | p in saved && q in saved ensures p.0 < cfg.maxTurns && (p.0 == q.0 ==> p == q) {
      OneResponsePerTurn(cfg, steps, p, q);
    }
    PairsBelow(saved, cfg.maxTurns);
  }

  /** A call that has a receipt can be found by the receipt's id. */
  ghost predicate ReceiptsNamed(messages: seq<Message>, pending: Option<Response>) {
    forall i, k :: 0 <= i < |messages| && messages[i].Assistant? && 0 <= k < |messages[i].calls| && i + 1 + k < |messages| ==>
      messages[i].calls[k].id.Some? || HasCall(messages, pending, Call(Some(""), messages[i].calls[k].name))
  }

  /** A saved dialogue is accepted on resume exactly when no id is used for two tools and
      every answered call has an id (or an empty id stands for it). */
  lemma ResumeAcceptsExactly(messages: seq<Message>, pending: Option<Response>)
    requires Paired(messages)
    ensures Attributable(messages, pending) <==> IdsConsistent(messages, pending) && ReceiptsNamed(messages, pending)
  {
    if IdsConsistent(messages, pending) && ReceiptsNamed(messages, pending) {
      forall t | 0 <= t < |messages| && messages[t].Tool?
        ensures HasCall(messages, pending, Call(Some(messages[t].callId), messages[t].name))
      {
        assert Answers(messages, t);
        var i :| 0 <= i < t < |messages| && messages[i].Assistant? && t - i - 1 < |messages[i].calls|;
        var c := messages[i].calls[t - i - 1];
        assert messages[i + 1 + (t - i - 1)] == Receipt(c);
        assert HasCall(messages, pending, c);
      }
    }
    if Attributable(messages, pending) {
      forall i, k | 0 <= i < |messages| && messages[i].Assistant? && 0 <= k < |messages[i].calls| && i + 1 + k < |messages|
        ensures messages[i].calls[k].id.Some? || HasCall(messages, pending, Call(Some(""), messages[i].calls[k].name))
      {
        assert messages[i + 1 + k] == Receipt(messages[i].calls[k]);
      }
    }
  }

  ghost function ApplyAll(cfg: Config, s: Planner, steps: seq<Step>): Option<Planner>
    decreases steps
  {
    if steps == [] then Some(s)
    else
      var next := Apply(cfg, s, steps[0]);
      if next.None? then None else ApplyAll(cfg, next.value, steps[1..])
  }

  /** A notice changes the dialogue exactly when there is a user message to append it to. */
  lemma {:induction false} NotifyChanges(messages: seq<Message>)
    ensures Notify(messages) != messages <==> exists i :: 0 <= i < |messages| && messages[i].User?
  {
    if messages != [] {
      var n := |messages| - 1;
      NotifyChanges(messages[..n]);
      assert messages == messages[..n] + [messages[n]];
      NotifyKeepsShape(messages[..n]);
      if messages[n].User? {
        assert Notify(messages)[n] == User(messages[n].notices + 1) != messages[n];
      } else {
        assert Notify(messages)[..n] == Notify(messages[..n]);
        assert forall i :: 0 <= i < n ==> messages[..n][i] == messages[i];
      }
    }
  }

  /** Crashing right after a tool's completion is saved and resuming reaches the same batch at
      the same tool, with the same tool set, counters and flags, and runs no tool on the way.
      It is possible exactly when the dialogue is attributable and the stop condition, judged
      again, does not hold. The dialogue is the saved one unless the turn is the warning turn
      and there is a warning to give: then the resumed run appends the notice once more. */
  lemma ResumeContinuesTheBatch(cfg: Config, s: Planner, prompt: bool)
    requires Shape(cfg, s) && s.process.Live? && s.process.point.ToolRan?
    ensures var saved := Apply(cfg, s, SaveTool).value;
            var resumed := ApplyAll(cfg, saved, [Crash, Start, Reuse(prompt), SaveResponse, BeginBatch]);
            && (resumed.Some? <==> Attributable(s.process.messages, Some(s.process.point.response)) && !ShouldStop(cfg, s.process.tally))
            && (resumed.Some? ==>
                  && resumed.value.process == saved.process.(messages := Prompted(cfg, saved.process, prompt))
                  && (resumed.value.process == saved.process
                      <==> !(prompt && s.process.turn == cfg.warningTurn && exists i :: 0 <= i < |s.process.messages| && s.process.messages[i].User?))
                  && |resumed.value.log| == |saved.log| + 1 && resumed.value.log[|saved.log|].Saved?
                  && resumed.value.log[..|saved.log|] == saved.log)
  {
    hide Attributable, ShouldStop, ApplyAll, Shape, Notify;
    OpenWhenRan(cfg, s);
    NotifyChanges(s.process.messages);
    var saved := Apply(cfg, s, SaveTool).value;
    var tail := [SaveResponse, BeginBatch];
    assert [Crash, Start, Reuse(prompt), SaveResponse, BeginBatch] == [Crash] + ([Start] + ([Reuse(prompt)] + tail));
    ApplyFirst(cfg, saved, Crash, [Start] + ([Reuse(prompt)] + tail));
    var crashed := Apply(cfg, saved, Crash).value;
    ApplyFirst(cfg, crashed, Start, [Reuse(prompt)] + tail);
    var started := Apply(cfg, crashed, Start).value;
    ApplyFirst(cfg, started, Reuse(prompt), tail);
    var reused := Apply(cfg, started, Reuse(prompt));
    if reused.Some? {
      assert tail == [SaveResponse] + [BeginBatch] && [BeginBatch] == [BeginBatch] + [];
      ApplyFirst(cfg, reused.value, SaveResponse, [BeginBatch]);
      var resaved := Apply(cfg, reused.value, SaveResponse).value;
      ApplyFirst(cfg, resaved, BeginBatch, []);
      ApplyNone(cfg, Apply(cfg, resaved, BeginBatch).value);
    }
  }

  lemma OpenWhenRan(cfg: Config, s: Planner)
    requires Shape(cfg, s) && s.process.Live? && s.process.point.ToolRan?
    ensures s.process.point.response.calls != [] && s.process.point.tool + 1 <= |s.process.point.response.calls|
    ensures s.process.turn < cfg.maxTurns
  {
  }

  lemma ApplyFirst(cfg: Config, s: Planner, first: Step, rest: seq<Step>)
    ensures ApplyAll(cfg, s, [first] + rest)
            == if Apply(cfg, s, first).None? then None else ApplyAll(cfg, Apply(cfg, s, first).value, rest)
  {
    hide Apply;
    assert ([first] + rest)[1..] == rest;
  }

  lemma ApplyNone(cfg: Config, s: Planner)
    ensures ApplyAll(cfg, s, []) == Some(s)
  {
  }
}
