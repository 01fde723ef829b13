/** The two-level folder lock: a per-process thread lock, then an exclusive file lock. */
module FolderMutex {

  // ------------------------------------------------------------- one guarded attempt

  /** What the surroundings do to one attempt. */
  datatype Surroundings = Surroundings(
    setupWorks: bool,
    opens: bool,
    writes: bool,
    bodyRaises: bool,
    unlocks: bool,
    closes: bool)

  datatype Outcome = Finished | Busy | Failed

  /** An attempt that finds these locks held enters the guarded body. */
  predicate Enters(threadHeld: bool, fileHeld: bool, env: Surroundings) {
    !threadHeld && env.setupWorks && env.opens && env.writes && !fileHeld
  }

  /** It ends with the thread locks it found: it took none, or nothing failed outside the
      protected block or in its clean-up. */
  predicate ReturnsThreadLock(threadHeld: bool, fileHeld: bool, env: Surroundings) {
    threadHeld
    || (env.setupWorks && (Enters(threadHeld, fileHeld, env) ==> env.unlocks) && (env.opens ==> env.closes))
  }

  /** The locks one process sees: its own thread locks and the system's file locks. */
  class Locks {
    var threadLocks: set<string>
    var fileLocks: set<string>

    /** Runs one guarded attempt. The set-up between the thread lock and the protected block is
        not covered by the release, so its failure keeps the thread lock; so does a failure
        inside the release itself. On every other path the locks are left as found. */
    method FolderWriteGuard(key: string, env: Surroundings) returns (r: Outcome, entered: bool)
      modifies this
      ensures entered <==> Enters(key in old(threadLocks), key in old(fileLocks), env)
      ensures key in old(threadLocks) ==> r == Busy
      ensures threadLocks == if ReturnsThreadLock(key in old(threadLocks), key in old(fileLocks), env)
                             then old(threadLocks) else old(threadLocks) + {key}
      ensures fileLocks == if entered && !env.unlocks then old(fileLocks) + {key} else old(fileLocks)
      ensures r == Finished <==> entered && !env.bodyRaises && env.unlocks && env.closes
      ensures r == Busy ==> key in old(threadLocks) || key in old(fileLocks)
    {
      entered := false;
      if key in threadLocks { return Busy, false; }
      threadLocks := threadLocks + {key};
      if !env.setupWorks { return Failed, false; }
      var handle, locked := false, false;
      r := Failed;
      if env.opens {
        handle := true;
        if env.writes {
          if key in fileLocks {
            r := Busy;
          } else {
            fileLocks := fileLocks + {key};
            locked, entered := true, true;
            r := if env.bodyRaises then Failed else Finished;
          }
        }
      }
      if locked && handle {
        if !env.unlocks { return Failed, entered; }
        fileLocks := fileLocks - {key};
      }
      if handle {
        if !env.closes { return Failed, entered; }
      }
      threadLocks := threadLocks - {key};
    }
  }

  // ------------------------------------------------ any number of processes and threads

  datatype Agent = Agent(process: nat, thread: nat)

  /** Where a thread stands in an attempt on `key`. */
  datatype Point =
    | Idle
    | Entered(key: string)
    | Opening(key: string)
    | Opened(key: string)
    | Inside(key: string)
    | Closing(key: string, handle: bool, locked: bool)

  datatype ThreadLock = ThreadLock(process: nat, key: string)

  /** `leaked` records the thread locks whose attempt ended without releasing them. */
  datatype System = System(
    points: map<Agent, Point>,
    threadLocks: set<ThreadLock>,
    fileLocks: map<string, Agent>,
    leaked: set<ThreadLock>)

  datatype Step =
    | Try(agent: Agent, key: string)
    | SetupFails(agent: Agent)
    | SetUp(agent: Agent)
    | OpenFails(agent: Agent)
    | Open(agent: Agent)
    | WriteFails(agent: Agent)
    | LockFile(agent: Agent)
    | LeaveBody(agent: Agent)
    | Unlock(agent: Agent)
    | UnlockFails(agent: Agent)
    | Close(agent: Agent)
    | CloseFails(agent: Agent)
    | Release(agent: Agent)
    | CollectHandle(key: string)
    | ProcessEnds(process: nat)

  function At(s: System, a: Agent): Point { if a in s.points then s.points[a] else Idle }

  function Lock(a: Agent, key: string): ThreadLock { ThreadLock(a.process, key) }

  function Move(s: System, a: Agent, p: Point): System { s.(points := s.points[a := p]) }

  /** The attempt ends here without releasing its thread lock. */
  function Leak(s: System, a: Agent, key: string): System {
    Move(s, a, Idle).(leaked := s.leaked + {Lock(a, key)})
  }

  /** The file lock of `key` belongs to this attempt. */
  predicate UsesFileLock(p: Point, key: string) {
    p == Inside(key) || (p.Closing? && p.key == key && p.locked)
  }

  function Next(s: System, step: Step): System {
    match step
    case Try(a, key) =>
      if At(s, a).Idle? && Lock(a, key) !in s.threadLocks
      then Move(s, a, Entered(key)).(threadLocks := s.threadLocks + {Lock(a, key)}) else s
    case SetupFails(a) => if At(s, a).Entered? then Leak(s, a, At(s, a).key) else s
    case SetUp(a) => if At(s, a).Entered? then Move(s, a, Opening(At(s, a).key)) else s
    case OpenFails(a) => if At(s, a).Opening? then Move(s, a, Closing(At(s, a).key, false, false)) else s
    case Open(a) => if At(s, a).Opening? then Move(s, a, Opened(At(s, a).key)) else s
    case WriteFails(a) => if At(s, a).Opened? then Move(s, a, Closing(At(s, a).key, true, false)) else s
    case LockFile(a) =>
      if !At(s, a).Opened? then s
      else
        var key := At(s, a).key;
        if key in s.fileLocks then Move(s, a, Closing(key, true, false))
        else Move(s, a, Inside(key)).(fileLocks := s.fileLocks[key := a])
    case LeaveBody(a) => if At(s, a).Inside? then Move(s, a, Closing(At(s, a).key, true, true)) else s
    case Unlock(a) =>
      var p := At(s, a);
      if p.Closing? && p.locked then Move(s, a, Closing(p.key, true, false)).(fileLocks := s.fileLocks - {p.key}) else s
    case UnlockFails(a) => if At(s, a).Closing? && At(s, a).locked then Leak(s, a, At(s, a).key) else s
    case Close(a) =>
      var p := At(s, a);
      if p.Closing? && p.handle && !p.locked then Move(s, a, Closing(p.key, false, false)) else s
    case CloseFails(a) =>
      var p := At(s, a);
      if p.Closing? && p.handle && !p.locked then Leak(s, a, p.key) else s
    case Release(a) =>
      var p := At(s, a);
      if p.Closing? && !p.handle && !p.locked then Move(s, a, Idle).(threadLocks := s.threadLocks - {Lock(a, p.key)}) else s
    case CollectHandle(key) =>
      if key in s.fileLocks && !UsesFileLock(At(s, s.fileLocks[key]), key) then s.(fileLocks := s.fileLocks - {key}) else s
    case ProcessEnds(p) =>
      System(map a | a in s.points && a.process != p :: s.points[a],
             set l | l in s.threadLocks && l.process != p,
             map k | k in s.fileLocks && s.fileLocks[k].process != p :: s.fileLocks[k],
             set l | l in s.leaked && l.process != p)
  }

  const START := System(map[], {}, map[], {})

  function After(steps: seq<Step>): System {
    if steps == [] then START else Next(After(steps[..|steps| - 1]), steps[|steps| - 1])
  }

  /** A run goes on step by step, from nothing held and nobody there. */
  lemma RunsGoOn(steps: seq<Step>, step: Step)
    ensures After([]) == System(map[], {}, map[], {})
    ensures After(steps + [step]) == Next(After(steps), step)
  {
    assert (steps + [step])[..|steps|] == steps;
    hide Next;
  }

  /** Thread locks are held by exactly one live attempt each or leaked, never both; whoever uses
      a file lock owns it. */
  ghost predicate Sound(s: System) {
    && (forall a, b :: !At(s, a).Idle? && !At(s, b).Idle? && a.process == b.process && At(s, a).key == At(s, b).key ==> a == b)
    && (forall a :: !At(s, a).Idle? ==> Lock(a, At(s, a).key) in s.threadLocks && Lock(a, At(s, a).key) !in s.leaked)
    && s.leaked <= s.threadLocks
    && (forall l :: l in s.threadLocks && l !in s.leaked ==> HeldByAttempt(s, l))
    && (forall a :: At(s, a).Inside? ==> Owns(s, At(s, a).key, a))
    && (forall a :: At(s, a).Closing? && At(s, a).locked ==> Owns(s, At(s, a).key, a) && At(s, a).handle)
  }

  predicate Owns(s: System, key: string, a: Agent) { key in s.fileLocks && s.fileLocks[key] == a }

  ghost predicate HeldByAttempt(s: System, l: ThreadLock) {
    exists t :: !At(s, Agent(l.process, t)).Idle? && At(s, Agent(l.process, t)).key == l.key
  }

  /** Every file lock whose owner does not use it was left by a failed unlock. */
  ghost predicate StrayFileLocksAreLeaks(s: System) {
    forall k :: k in s.fileLocks && !UsesFileLock(At(s, s.fileLocks[k]), k) ==> Lock(s.fileLocks[k], k) in s.leaked
  }

  /** A step changes where at most its own agent stands, or ends one process. */
  lemma OnlyTheAgentMoves(s: System, step: Step, b: Agent)
    ensures step.ProcessEnds? ==> At(Next(s, step), b) == if b.process == step.process then Idle else At(s, b)
    ensures step.CollectHandle? ==> At(Next(s, step), b) == At(s, b)
    ensures !step.ProcessEnds? && !step.CollectHandle? && step.agent != b ==> At(Next(s, step), b) == At(s, b)
  {
  }

  /** A live attempt keeps its key until it ends. */
  lemma KeyIsKept(s: System, step: Step, b: Agent)
    ensures !At(s, b).Idle? && !At(Next(s, step), b).Idle? ==> At(Next(s, step), b).key == At(s, b).key
    ensures At(s, b).Idle? && !At(Next(s, step), b).Idle? ==>
              step.Try? && step.agent == b && At(Next(s, step), b).key == step.key && Lock(b, step.key) !in s.threadLocks
  {
  }

  lemma OneAttemptPerKey(s: System, step: Step, x: Agent, y: Agent)
    requires Sound(s)
    requires var t := Next(s, step);
             !At(t, x).Idle? && !At(t, y).Idle? && x.process == y.process && At(t, x).key == At(t, y).key
    ensures x == y
  {
    hide Next;
    KeyIsKept(s, step, x);
    KeyIsKept(s, step, y);
    OnlyTheAgentMoves(s, step, x);
    OnlyTheAgentMoves(s, step, y);
  }

  lemma LiveAttemptHoldsLock(s: System, step: Step, x: Agent)
    requires Sound(s) && !At(Next(s, step), x).Idle?
    ensures var t := Next(s, step);
            Lock(x, At(t, x).key) in t.threadLocks && Lock(x, At(t, x).key) !in t.leaked
  {
    KeyIsKept(s, step, x);
    OnlyTheAgentMoves(s, step, x);
    if !step.ProcessEnds? && !step.CollectHandle? && step.agent != x && !At(s, step.agent).Idle? {
      assert step.agent.process == x.process ==> At(s, step.agent).key != At(s, x).key;
    }
  }

  lemma LocksAreAccounted(s: System, step: Step, l: ThreadLock)
    requires Sound(s) && l in Next(s, step).threadLocks && l !in Next(s, step).leaked
    ensures HeldByAttempt(Next(s, step), l)
  {
    var t := Next(s, step);
    if l in s.threadLocks && l !in s.leaked {
      var n :| !At(s, Agent(l.process, n)).Idle? && At(s, Agent(l.process, n)).key == l.key;
      var x := Agent(l.process, n);
      OnlyTheAgentMoves(s, step, x);
      KeyIsKept(s, step, x);
      assert !At(t, x).Idle? && At(t, x).key == l.key;
    } else {
      assert step.Try? && l == Lock(step.agent, step.key);
      assert !At(t, Agent(l.process, step.agent.thread)).Idle?;
    }
  }

  lemma FileLocksAreOwned(s: System, step: Step, x: Agent)
    requires Sound(s)
    ensures var t := Next(s, step);
            (At(t, x).Inside? ==> Owns(t, At(t, x).key, x))
            && (At(t, x).Closing? && At(t, x).locked ==> Owns(t, At(t, x).key, x) && At(t, x).handle)
  {
    OnlyTheAgentMoves(s, step, x);
  }

  lemma SoundStep(s: System, step: Step)
    requires Sound(s)
    ensures Sound(Next(s, step))
  {
    hide Next;
    var t := Next(s, step);
    forall x, y | !At(t, x).Idle? && !At(t, y).Idle? && x.process == y.process && At(t, x).key == At(t, y).key ensures x == y {
      OneAttemptPerKey(s, step, x, y);
    }
    forall x | !At(t, x).Idle? ensures Lock(x, At(t, x).key) in t.threadLocks && Lock(x, At(t, x).key) !in t.leaked {
      LiveAttemptHoldsLock(s, step, x);
    }
    forall l | l in t.threadLocks && l !in t.leaked ensures HeldByAttempt(t, l) {
      LocksAreAccounted(s, step, l);
    }
    forall x
      ensures At(t, x).Inside? ==> Owns(t, At(t, x).key, x)
      ensures At(t, x).Closing? && At(t, x).locked ==> Owns(t, At(t, x).key, x) && At(t, x).handle
    {
      FileLocksAreOwned(s, step, x);
    }
    LeakedAreHeld(s, step);
  }

  lemma LeakedAreHeld(s: System, step: Step)
    requires Sound(s)
    ensures Next(s, step).leaked <= Next(s, step).threadLocks
  {
  }

  lemma StrayStep(s: System, step: Step)
    requires Sound(s) && StrayFileLocksAreLeaks(s)
    ensures StrayFileLocksAreLeaks(Next(s, step))
  {
    hide HeldByAttempt;
    var t := Next(s, step);
    forall k | k in t.fileLocks && !UsesFileLock(At(t, t.fileLocks[k]), k) ensures Lock(t.fileLocks[k], k) in t.leaked {
      OnlyTheAgentMoves(s, step, t.fileLocks[k]);
    }
  }

  lemma {:induction false} ReachableIsSound(steps: seq<Step>)
    ensures Sound(After(steps)) && StrayFileLocksAreLeaks(After(steps))
  {
    hide Next, Sound, StrayFileLocksAreLeaks;
    if steps == [] {
      StartIsSound();
    } else {
      ReachableIsSound(steps[..|steps| - 1]);
      SoundStep(After(steps[..|steps| - 1]), steps[|steps| - 1]);
      StrayStep(After(steps[..|steps| - 1]), steps[|steps| - 1]);
    }
  }

  lemma StartIsSound()
    ensures Sound(START) && StrayFileLocksAreLeaks(START)
  {
  }

  // ------------------------------------------------------------------ main results

  /** At most one thread of any process is inside the guarded body of a folder. */
  lemma MutualExclusion(steps: seq<Step>, key: string, a: Agent, b: Agent)
    requires At(After(steps), a) == Inside(key) && At(After(steps), b) == Inside(key)
    ensures a == b
  {
    ReachableIsSound(steps);
  }

  lemma NobodyHolds(s: System, l: ThreadLock)
    requires forall a :: At(s, a).Idle?
    ensures !HeldByAttempt(s, l)
  {
  }

  /** With no attempt in progress the thread locks held are exactly the leaked ones, and every
      file lock still held was left by a leaked attempt. */
  lemma QuiescentLocksAreTheLeaks(steps: seq<Step>)
    requires forall a :: At(After(steps), a).Idle?
    ensures After(steps).threadLocks == After(steps).leaked
    ensures forall k :: k in After(steps).fileLocks ==> Lock(After(steps).fileLocks[k], k) in After(steps).leaked
  {
    ReachableIsSound(steps);
    var s := After(steps);
    forall l ensures !HeldByAttempt(s, l) {
      NobodyHolds(s, l);
    }
  }

  /** The steps of one attempt, taken without interruption in these surroundings. A step that
      does not apply where the attempt stands changes nothing. */
  function Attempt(s: System, a: Agent, key: string, env: Surroundings): System {
    var tried := Next(s, Try(a, key));
    var ready := Next(tried, if env.setupWorks then SetUp(a) else SetupFails(a));
    var handled := Next(ready, if env.opens then Open(a) else OpenFails(a));
    var left := Next(Next(handled, if env.writes then LockFile(a) else WriteFails(a)), LeaveBody(a));
    var unlocked := Next(left, if env.unlocks then Unlock(a) else UnlockFails(a));
    Next(Next(unlocked, if env.closes then Close(a) else CloseFails(a)), Release(a))
  }

  /** The guard as a method and the guard as steps leave the same locks behind. */
  lemma GuardIsARun(s: System, a: Agent, key: string, env: Surroundings)
    requires At(s, a).Idle?
    ensures var (threadHeld, fileHeld) := (Lock(a, key) in s.threadLocks, key in s.fileLocks);
            var t := Attempt(s, a, key, env);
            && At(t, a).Idle?
            && t.threadLocks == (if ReturnsThreadLock(threadHeld, fileHeld, env) then s.threadLocks else s.threadLocks + {Lock(a, key)})
            && t.fileLocks == (if Enters(threadHeld, fileHeld, env) && !env.unlocks then s.fileLocks[key := a] else s.fileLocks)
            && t.leaked == (if ReturnsThreadLock(threadHeld, fileHeld, env) then s.leaked else s.leaked + {Lock(a, key)})
  {
    var tried := Next(s, Try(a, key));
    if Lock(a, key) in s.threadLocks || !env.setupWorks {
      var ready := Next(tried, if env.setupWorks then SetUp(a) else SetupFails(a));
      assert At(ready, a).Idle?;
      IdleStays(ready, a, env);
    } else {
      var handled := Next(Next(tried, SetUp(a)), if env.opens then Open(a) else OpenFails(a));
      assert handled.threadLocks == s.threadLocks + {Lock(a, key)} && handled.fileLocks == s.fileLocks && handled.leaked == s.leaked;
      assert At(handled, a) == if env.opens then Opened(key) else Closing(key, false, false);
      FromOpened(s, handled, a, key, env);
    }
  }

  lemma IdleStays(s: System, a: Agent, env: Surroundings)
    requires At(s, a).Idle?
    ensures var handled := Next(s, if env.opens then Open(a) else OpenFails(a));
            var left := Next(Next(handled, if env.writes then LockFile(a) else WriteFails(a)), LeaveBody(a));
            var unlocked := Next(left, if env.unlocks then Unlock(a) else UnlockFails(a));
            Next(Next(unlocked, if env.closes then Close(a) else CloseFails(a)), Release(a)) == s
  {
  }

  lemma FromOpened(s: System, handled: System, a: Agent, key: string, env: Surroundings)
    requires Lock(a, key) !in s.threadLocks && handled.threadLocks == s.threadLocks + {Lock(a, key)}
    requires handled.fileLocks == s.fileLocks && handled.leaked == s.leaked && env.setupWorks
    requires At(handled, a) == if env.opens then Opened(key) else Closing(key, false, false)
    ensures var left := Next(Next(handled, if env.writes then LockFile(a) else WriteFails(a)), LeaveBody(a));
            var unlocked := Next(left, if env.unlocks then Unlock(a) else UnlockFails(a));
            var t := Next(Next(unlocked, if env.closes then Close(a) else CloseFails(a)), Release(a));
            var fileHeld := key in s.fileLocks;
            && At(t, a).Idle?
            && t.threadLocks == (if ReturnsThreadLock(false, fileHeld, env) then s.threadLocks else s.threadLocks + {Lock(a, key)})
            && t.fileLocks == (if Enters(false, fileHeld, env) && !env.unlocks then s.fileLocks[key := a] else s.fileLocks)
            && t.leaked == (if ReturnsThreadLock(false, fileHeld, env) then s.leaked else s.leaked + {Lock(a, key)})
  {
    var left := Next(Next(handled, if env.writes then LockFile(a) else WriteFails(a)), LeaveBody(a));
    var entered := Enters(false, key in s.fileLocks, env);
    assert left.fileLocks == if entered then s.fileLocks[key := a] else s.fileLocks;
    assert At(left, a) == Closing(key, env.opens, entered) && left.threadLocks == handled.threadLocks && left.leaked == s.leaked;
    assert s.threadLocks + {Lock(a, key)} - {Lock(a, key)} == s.threadLocks;
    assert key !in s.fileLocks ==> s.fileLocks[key := a] - {key} == s.fileLocks;
    FromLeft(left, a, key, env);
  }

  lemma FromLeft(left: System, a: Agent, key: string, env: Surroundings)
    requires At(left, a).Closing? && At(left, a).key == key && (At(left, a).locked ==> At(left, a).handle)
    ensures var p := At(left, a);
            var unlocked := Next(left, if env.unlocks then Unlock(a) else UnlockFails(a));
            var t := Next(Next(unlocked, if env.closes then Close(a) else CloseFails(a)), Release(a));
            var released := (p.locked ==> env.unlocks) && (p.handle ==> env.closes);
            && At(t, a).Idle?
            && t.threadLocks == (if released then left.threadLocks - {Lock(a, key)} else left.threadLocks)
            && t.fileLocks == (if p.locked && env.unlocks then left.fileLocks - {key} else left.fileLocks)
            && t.leaked == (if released then left.leaked else left.leaked + {Lock(a, key)})
  {
  }

  /** A lone attempt up to the guarded body, and from the body back out. */
  function Enter(s: System, a: Agent, key: string): System { Next(Next(Next(Next(s, Try(a, key)), SetUp(a)), Open(a)), LockFile(a)) }

  function Leave(s: System, a: Agent): System { Next(Next(Next(Next(s, LeaveBody(a)), Unlock(a)), Close(a)), Release(a)) }

  lemma EnterAlone(s: System, a: Agent, key: string)
    requires At(s, a).Idle?
    ensures Lock(a, key) in s.threadLocks ==> Enter(s, a, key) == s
    ensures At(Enter(s, a, key), a) == Inside(key) <==> Lock(a, key) !in s.threadLocks && key !in s.fileLocks
    ensures At(Enter(s, a, key), a) == Inside(key) ==>
              Enter(s, a, key).threadLocks == s.threadLocks + {Lock(a, key)}
              && Enter(s, a, key).fileLocks == s.fileLocks[key := a]
  {
    var tried := Next(s, Try(a, key));
    if Lock(a, key) in s.threadLocks {
      assert tried == s;
    } else {
      assert At(tried, a) == Entered(key);
      var ready := Next(Next(tried, SetUp(a)), Open(a));
      assert At(ready, a) == Opened(key) && ready.fileLocks == s.fileLocks && ready.threadLocks == tried.threadLocks;
    }
  }

  lemma LeaveAlone(s: System, a: Agent, key: string)
    requires At(s, a) == Inside(key)
    ensures var left := Leave(s, a);
            At(left, a).Idle? && left.threadLocks == s.threadLocks - {Lock(a, key)} && left.fileLocks == s.fileLocks - {key}
  {
    var unlocked := Next(Next(s, LeaveBody(a)), Unlock(a));
    assert At(unlocked, a) == Closing(key, true, false) && unlocked.fileLocks == s.fileLocks - {key};
    assert unlocked.threadLocks == s.threadLocks;
  }

  /** A lone attempt from a quiescent state enters the body exactly when its thread lock was
      not leaked by its process and no stray file lock is left; then it returns every lock. */
  lemma NextAttemptEntersUnlessLeaked(steps: seq<Step>, a: Agent, key: string)
    requires forall b :: At(After(steps), b).Idle?
    ensures var s := After(steps);
            var inside := Enter(s, a, key);
            (At(inside, a) == Inside(key) <==> Lock(a, key) !in s.leaked && key !in s.fileLocks)
            && (At(inside, a) == Inside(key) ==>
                  At(Leave(inside, a), a).Idle?
                  && Leave(inside, a).threadLocks == s.threadLocks && Leave(inside, a).fileLocks == s.fileLocks)
  {
    hide Enter, Leave, Next;
    QuiescentLocksAreTheLeaks(steps);
    var s := After(steps);
    EnterAlone(s, a, key);
    if At(Enter(s, a, key), a) == Inside(key) {
      LeaveAlone(Enter(s, a, key), a, key);
      assert s.fileLocks[key := a] - {key} == s.fileLocks;
      assert s.threadLocks + {Lock(a, key)} - {Lock(a, key)} == s.threadLocks;
    }
  }

  /** The steps at which an attempt ends without returning its thread lock. */
  predicate Leaks(s: System, step: Step) {
    || (step.SetupFails? && At(s, step.agent).Entered?)
    || (step.UnlockFails? && At(s, step.agent).Closing? && At(s, step.agent).locked)
    || (step.CloseFails? && At(s, step.agent).Closing? && At(s, step.agent).handle && !At(s, step.agent).locked)
  }

  lemma LeakStays(s: System, l: ThreadLock, step: Step)
    requires Sound(s) && l in s.leaked && step != ProcessEnds(l.process)
    ensures l in Next(s, step).leaked
  {
  }

  /** Over any run in which its process does not end, a leaked lock stays leaked, and every
      attempt on its folder in that process is turned away with nothing changed. */
  lemma {:induction false} LeakIsPermanent(steps: seq<Step>, more: seq<Step>, l: ThreadLock)
    requires l in After(steps).leaked
    requires forall i :: 0 <= i < |more| ==> more[i] != ProcessEnds(l.process)
    ensures l in After(steps + more).leaked
    ensures forall a, key :: Lock(a, key) == l ==> Next(After(steps + more), Try(a, key)) == After(steps + more)
  {
    hide Next;
    if more == [] {
      assert steps + more == steps;
    } else {
      var n := |more| - 1;
      LeakIsPermanent(steps, more[..n], l);
      ReachableIsSound(steps + more[..n]);
      LeakStays(After(steps + more[..n]), l, more[n]);
      assert (steps + more)[..|steps + more| - 1] == steps + more[..n];
    }
    ReachableIsSound(steps + more);
    forall a, key | Lock(a, key) == l ensures Next(After(steps + more), Try(a, key)) == After(steps + more) {
      TurnedAway(After(steps + more), a, key);
    }
  }

  /** While its process lives, an attempt gives its thread lock back only as its last step, when
      it has neither a file lock nor an open handle any more. */
  lemma ReleasedLast(s: System, step: Step, a: Agent, key: string)
    requires Lock(a, key) in s.threadLocks && Lock(a, key) !in Next(s, step).threadLocks && step != ProcessEnds(a.process)
    ensures step.Release? && step.agent.process == a.process && At(s, step.agent) == Closing(key, false, false)
  {
  }

  /** A file lock that no attempt uses any more goes with the handle that holds it. */
  lemma StrayLocksGo(s: System, key: string)
    requires key in s.fileLocks && !UsesFileLock(At(s, s.fileLocks[key]), key)
    ensures Next(s, CollectHandle(key)).fileLocks == s.fileLocks - {key}
  {
  }

  lemma TurnedAway(s: System, a: Agent, key: string)
    requires Lock(a, key) in s.threadLocks
    ensures Next(s, Try(a, key)) == s
  {
  }

  lemma LeaksAreTheOnlySource(s: System, step: Step)
    requires !Leaks(s, step)
    ensures Next(s, step).leaked <= s.leaked
  {
  }

  /** Nothing leaks in a run without a failed set-up, unlock or close. */
  lemma {:induction false} NoLeakWithoutFailure(steps: seq<Step>)
    requires forall i :: 0 <= i < |steps| ==> !Leaks(After(steps[..i]), steps[i])
    ensures After(steps).leaked == {}
  {
    hide Next, Leaks;
    if steps != [] {
      var n := |steps| - 1;
      forall i | 0 <= i < n ensures !Leaks(After(steps[..n][..i]), steps[..n][i]) {
        assert steps[..n][..i] == steps[..i];
      }
      NoLeakWithoutFailure(steps[..n]);
      LeaksAreTheOnlySource(After(steps[..n]), steps[n]);
    }
  }
}
