/** Interceptions of several drivers on several processors, in any interleaving.

    The atomic steps are the accesses to a driver's hook state: its two fields are read one after
    the other and without a lock, every change is made under one. */
module Overlap {
  import opened Util
  import opened HookedDrivers
  import opened Callbacks

  /** Where an interception is. */
  datatype Pc =
    | Entered
    /** The first test has read that the driver is hooked. */
    | PreTested
    | PreCapturing
    | PreFailed
    /** In the driver's own routine. */
    | Calling
    /** After an error exception, before capture is switched off, and before the driver is flagged. */
    | Raising
    | Flagging
    | Called
    /** The second test has read that the driver is hooked. */
    | PostTested
    | PostCapturing
    | PostFailed
    | Pushing
    /** Pushed, the counter not yet raised. */
    | Counting
    | Pushed
    | Deleted

  datatype Thread = Thread(driver: nat, pc: Pc)

  /** `pushes` counts the IRPs pushed to the queue. */
  datatype Processors = Processors(hooks: seq<Hook>, threads: seq<Thread>, pushes: nat)

  datatype Step =
    | Enter(driver: nat)
    | ReadState(t: nat)
    | ReadCapturing(t: nat)
    | Capture(t: nat, ok: bool)
    /** The own routine returns, or raises an error exception. */
    | Return(t: nat, error: bool)
    | SwitchOff(t: nat)
    | Flag(t: nat)
    | Push(t: nat)
    | Count(t: nat)
    | Monitor(driver: nat, enable: bool)

  function Goto(w: Processors, t: nat, pc: Pc): Processors
    requires t < |w.threads|
  {
    w.(threads := w.threads[t := w.threads[t].(pc := pc)])
  }

  function Change(w: Processors, driver: nat, op: HookOp): Processors {
    if driver < |w.hooks| then w.(hooks := w.hooks[driver := ApplyHook(w.hooks[driver], op)]) else w
  }

  /** Where a thread goes, and what it does to its driver, in a step of its own. */
  function Move(h: Hook, pc: Pc, step: Step): (Pc, Option<HookOp>) {
    match step
    case ReadState(_) =>
      if pc.Entered? then (if h.state == Hooked then PreTested else Calling, None)
      else if pc.Called? then (if h.state == Hooked then PostTested else Deleted, None)
      else (pc, None)
    case ReadCapturing(_) =>
      if pc.PreTested? then (if h.capturing then PreCapturing else Calling, None)
      else if pc.PostTested? then (if h.capturing then PostCapturing else Deleted, None)
      else (pc, None)
    case Capture(_, ok) =>
      if pc.PreCapturing? then (if ok then Calling else PreFailed, None)
      else if pc.PostCapturing? then (if ok then Pushing else PostFailed, None)
      else (pc, None)
    case Return(_, error) => if pc.Calling? then (if error then Raising else Called, None) else (pc, None)
    case SwitchOff(_) =>
      if pc.PreFailed? then (Calling, Some(Disable))
      else if pc.PostFailed? then (Deleted, Some(Disable))
      else if pc.Raising? then (Flagging, Some(Disable))
      else (pc, None)
    case Flag(_) => if pc.Flagging? then (Called, Some(FlagInvalid)) else (pc, None)
    case Push(_) => if pc.Pushing? then (Counting, None) else (pc, None)
    case Count(_) => if pc.Counting? then (Pushed, Some(CountIrp)) else (pc, None)
    case _ => (pc, None)
  }

  /** A step of a thread that is not there changes nothing. */
  function Next(w: Processors, step: Step): Processors {
    match step
    case Enter(d) => if d < |w.hooks| then w.(threads := w.threads + [Thread(d, Entered)]) else w
    case Monitor(d, enable) => Change(w, d, if enable then Enable else Disable)
    case _ =>
      if step.t < |w.threads| && w.threads[step.t].driver < |w.hooks| then
        var thread := w.threads[step.t];
        var (pc, op) := Move(w.hooks[thread.driver], thread.pc, step);
        var moved := Goto(w, step.t, pc);
        var counted := if thread.pc.Pushing? && pc.Counting? then moved.(pushes := moved.pushes + 1) else moved;
        if op.Some? then Change(counted, thread.driver, op.value) else counted
      else w
  }

  function Run(w: Processors, steps: seq<Step>): Processors
    decreases |steps|
  {
    if steps == [] then w else Run(Next(w, steps[0]), steps[1..])
  }

  /** The steps written out: each test reads the state and then, of a hooked driver, the capture field;
      a capture that fails switches capture off, and an exception does so before it flags the driver. */
  lemma StepsOf(h: Hook, t: nat, ok: bool)
    ensures Move(h, Entered, ReadState(t)) == (if h.state == Hooked then PreTested else Calling, None)
    ensures Move(h, PreTested, ReadCapturing(t)) == (if h.capturing then PreCapturing else Calling, None)
    ensures Move(h, PreCapturing, Capture(t, ok)) == (if ok then Calling else PreFailed, None)
    ensures Move(h, PreFailed, SwitchOff(t)) == (Calling, Some(Disable))
    ensures Move(h, Calling, Return(t, ok)) == (if ok then Raising else Called, None)
    ensures Move(h, Raising, SwitchOff(t)) == (Flagging, Some(Disable))
    ensures Move(h, Flagging, Flag(t)) == (Called, Some(FlagInvalid))
    ensures Move(h, Called, ReadState(t)) == (if h.state == Hooked then PostTested else Deleted, None)
    ensures Move(h, PostTested, ReadCapturing(t)) == (if h.capturing then PostCapturing else Deleted, None)
    ensures Move(h, PostCapturing, Capture(t, ok)) == (if ok then Pushing else PostFailed, None)
    ensures Move(h, PostFailed, SwitchOff(t)) == (Deleted, Some(Disable))
    ensures Move(h, Pushing, Push(t)) == (Counting, None) && Move(h, Counting, Count(t)) == (Pushed, Some(CountIrp))
  {
  }

  /** Requests meanwhile change one driver's capture, and a new interception starts before the first test. */
  lemma OthersAre(w: Processors, d: nat, enable: bool)
    requires d < |w.hooks|
    ensures Next(w, Enter(d)) == w.(threads := w.threads + [Thread(d, Entered)])
    ensures var h := w.hooks[d];
            Next(w, Monitor(d, enable))
            == w.(hooks := w.hooks[d := h.(capturing := enable && (h.capturing || h.state == Hooked))])
  {
  }

  // ----- pushes and counters -----

  predicate HasPushed(pc: Pc) {
    pc.Counting? || pc.Pushed?
  }

  function PushedOne(thread: Thread): nat {
    if HasPushed(thread.pc) then 1 else 0
  }

  function CountingOne(thread: Thread): nat {
    if thread.pc.Counting? then 1 else 0
  }

  /** Every push is one interception's, and it is in its driver's counter unless that interception is
      about to raise it. */
  ghost predicate Tallied(w: Processors, before: nat) {
    && w.pushes == Sum(PushedOne, w.threads)
    && Sum(CountOf, w.hooks) + Sum(CountingOne, w.threads) == before + w.pushes
  }

  lemma MoveTallies(h: Hook, pc: Pc, step: Step)
    ensures var (q, op) := Move(h, pc, step);
            && (pc.Pushing? && q.Counting? <==> !HasPushed(pc) && HasPushed(q))
            && (HasPushed(pc) ==> HasPushed(q))
            && (op == Some(CountIrp) <==> pc.Counting? && !q.Counting?)
            && (!pc.Counting? && q.Counting? ==> pc.Pushing?)
  {
  }

  lemma ChangeCounts(w: Processors, driver: nat, op: HookOp)
    ensures Sum(CountOf, Change(w, driver, op).hooks)
         == Sum(CountOf, w.hooks) + if driver < |w.hooks| && op == CountIrp then 1 else 0
  {
    if driver < |w.hooks| {
      SumUpdate(CountOf, w.hooks, driver, ApplyHook(w.hooks[driver], op));
    }
  }

  lemma NextTallies(w: Processors, step: Step, before: nat)
    requires Tallied(w, before)
    ensures Tallied(Next(w, step), before)
  {
    hide ApplyHook;
    match step {
      case Enter(d) =>
        SumAppend(PushedOne, w.threads, [Thread(d, Entered)]);
        SumAppend(CountingOne, w.threads, [Thread(d, Entered)]);
      case Monitor(d, enable) => ChangeCounts(w, d, if enable then Enable else Disable);
      case _ =>
        if step.t < |w.threads| && w.threads[step.t].driver < |w.hooks| {
          ThreadTallies(w, step, before);
        }
    }
  }

  lemma ThreadTallies(w: Processors, step: Step, before: nat)
    requires Tallied(w, before) && !step.Enter? && !step.Monitor?
    requires step.t < |w.threads| && w.threads[step.t].driver < |w.hooks|
    ensures Tallied(Next(w, step), before)
  {
    hide Move, ApplyHook, Change, Sum;
    var thread := w.threads[step.t];
    var (pc, op) := Move(w.hooks[thread.driver], thread.pc, step);
    MoveTallies(w.hooks[thread.driver], thread.pc, step);
    SumUpdate(PushedOne, w.threads, step.t, thread.(pc := pc));
    SumUpdate(CountingOne, w.threads, step.t, thread.(pc := pc));
    if op.Some? {
      var moved := Goto(w, step.t, pc);
      ChangeCounts(moved, thread.driver, op.value);
      ChangeCounts(moved.(pushes := moved.pushes + 1), thread.driver, op.value);
      ChangeKeeps(moved, thread.driver, op.value);
      ChangeKeeps(moved.(pushes := moved.pushes + 1), thread.driver, op.value);
    }
  }

  lemma ChangeKeeps(w: Processors, driver: nat, op: HookOp)
    ensures Change(w, driver, op).threads == w.threads && Change(w, driver, op).pushes == w.pushes
  {
  }

  lemma {:induction false} RunTallies(w: Processors, steps: seq<Step>, before: nat)
    requires Tallied(w, before)
    ensures Tallied(Run(w, steps), before)
    decreases |steps|
  {
    hide Tallied, Next;
    if steps != [] {
      NextTallies(w, steps[0], before);
      RunTallies(Next(w, steps[0]), steps[1..], before);
    }
  }

  /** In every interleaving the pushes are the interceptions that pushed, and the counters of all
      drivers, with the interceptions between their push and their count, have risen by the pushes. */
  lemma CountersAndPushes(hooks: seq<Hook>, steps: seq<Step>)
    ensures var w := Run(Processors(hooks, [], 0), steps);
            && w.pushes == Sum(PushedOne, w.threads)
            && Sum(CountOf, w.hooks) + Sum(CountingOne, w.threads) == Sum(CountOf, hooks) + w.pushes
  {
    hide Run;
    RunTallies(Processors(hooks, [], 0), steps, Sum(CountOf, hooks));
  }

  // ----- pushes after a driver was flagged invalid -----

  predicate Of(w: Processors, t: nat, driver: nat) {
    t < |w.threads| && w.threads[t].driver == driver < |w.hooks|
  }

  /** The interception passed the second test, or has read that the driver is hooked and will find
      capture on. */
  predicate MayPush(w: Processors, t: nat, driver: nat)
    requires Of(w, t, driver)
  {
    var pc := w.threads[t].pc;
    pc.Pushing? || pc.PostCapturing? || (pc.PostTested? && w.hooks[driver].capturing)
  }

  predicate Pushes(w: Processors, t: nat, driver: nat)
    requires Of(w, t, driver)
  {
    HasPushed(w.threads[t].pc)
  }

  lemma NextKeepsThread(w: Processors, step: Step, t: nat, driver: nat)
    requires Of(w, t, driver)
    ensures Of(Next(w, step), t, driver)
  {
    hide Move, ApplyHook;
  }

  lemma {:induction false} RunKeepsThread(w: Processors, steps: seq<Step>, t: nat, driver: nat)
    requires Of(w, t, driver)
    ensures Of(Run(w, steps), t, driver)
    decreases |steps|
  {
    hide Next;
    if steps != [] {
      NextKeepsThread(w, steps[0], t, driver);
      RunKeepsThread(Next(w, steps[0]), steps[1..], t, driver);
    }
  }

  /** An invalid driver stays invalid, and capture is not turned on again. */
  lemma NextInvalid(w: Processors, step: Step, driver: nat)
    requires driver < |w.hooks| && w.hooks[driver].state == Invalid
    ensures driver < |Next(w, step).hooks| && Next(w, step).hooks[driver].state == Invalid
    ensures Next(w, step).hooks[driver].capturing ==> w.hooks[driver].capturing
  {
    hide Move;
  }

  lemma MoveInvalid(h: Hook, pc: Pc, step: Step)
    requires h.state == Invalid
    ensures var q := Move(h, pc, step).0;
            && (!HasPushed(pc) && HasPushed(q) ==> pc.Pushing?)
            && (q.Pushing? && q != pc ==> pc.PostCapturing?)
            && (q.PostCapturing? && q != pc ==> pc.PostTested? && h.capturing)
            && (q.PostTested? ==> pc.PostTested?)
  {
  }

  lemma NextThread(w: Processors, step: Step, t: nat, driver: nat)
    requires Of(w, t, driver)
    ensures Next(w, step).threads[t].pc
         == if !step.Enter? && !step.Monitor? && step.t == t then Move(w.hooks[driver], w.threads[t].pc, step).0
            else w.threads[t].pc
  {
    hide Move, ApplyHook;
  }

  lemma NextNever(w: Processors, step: Step, t: nat, driver: nat)
    requires Of(w, t, driver) && w.hooks[driver].state == Invalid && !MayPush(w, t, driver) && !Pushes(w, t, driver)
    ensures var n := Next(w, step); Of(n, t, driver) && !MayPush(n, t, driver) && !Pushes(n, t, driver)
  {
    hide Next, Move;
    NextKeepsThread(w, step, t, driver);
    NextInvalid(w, step, driver);
    NextThread(w, step, t, driver);
    MoveInvalid(w.hooks[driver], w.threads[t].pc, step);
  }

  lemma {:induction false} RunNever(w: Processors, steps: seq<Step>, t: nat, driver: nat)
    requires Of(w, t, driver) && w.hooks[driver].state == Invalid && !MayPush(w, t, driver) && !Pushes(w, t, driver)
    ensures Of(Run(w, steps), t, driver) && !Pushes(Run(w, steps), t, driver)
    decreases |steps|
  {
    hide Next, MayPush, Pushes;
    if steps != [] {
      NextNever(w, steps[0], t, driver);
      NextInvalid(w, steps[0], driver);
      RunNever(Next(w, steps[0]), steps[1..], t, driver);
    }
  }

  lemma RunOn(w: Processors, step: Step, more: seq<Step>)
    ensures Run(w, [step] + more) == Run(Next(w, step), more)
  {
    assert ([step] + more)[1..] == more;
  }

  /** The remaining steps of an interception that may push. */
  lemma PushesNow(w: Processors, t: nat, driver: nat) returns (steps: seq<Step>)
    requires Of(w, t, driver) && MayPush(w, t, driver)
    ensures Of(Run(w, steps), t, driver) && Pushes(Run(w, steps), t, driver)
    decreases if w.threads[t].pc.Pushing? then 0 else if w.threads[t].pc.PostCapturing? then 1 else 2
  {
    var pc := w.threads[t].pc;
    if pc.Pushing? {
      steps := [Push(t)];
      RunOn(w, Push(t), []);
      assert [Push(t)] + [] == [Push(t)];
    } else if pc.PostCapturing? {
      var rest := PushesNow(Next(w, Capture(t, true)), t, driver);
      RunOn(w, Capture(t, true), rest);
      steps := [Capture(t, true)] + rest;
    } else {
      var rest := PushesNow(Next(w, ReadCapturing(t)), t, driver);
      RunOn(w, ReadCapturing(t), rest);
      steps := [ReadCapturing(t)] + rest;
    }
  }

  /** The interception pushes in some continuation. */
  ghost predicate CanPush(w: Processors, t: nat, driver: nat)
    requires Of(w, t, driver)
  {
    exists steps :: Of(Run(w, steps), t, driver) && Pushes(Run(w, steps), t, driver)
  }

  /** Once a driver is flagged invalid, an interception of it that has not pushed can still push
      exactly if its own second test came before the flag: it has read that the driver was hooked,
      and capture as on, or still on when it reads it. */
  lemma LatePushExact(w: Processors, t: nat, driver: nat)
    requires Of(w, t, driver) && w.hooks[driver].state == Invalid && !Pushes(w, t, driver)
    ensures CanPush(w, t, driver) <==> MayPush(w, t, driver)
  {
    hide Run, MayPush, Pushes;
    if MayPush(w, t, driver) {
      var steps := PushesNow(w, t, driver);
    } else {
      forall steps ensures !(Of(Run(w, steps), t, driver) && Pushes(Run(w, steps), t, driver)) {
        RunNever(w, steps, t, driver);
      }
    }
  }

  /** An interception that begins after the flag never pushes. */
  lemma NewNever(w: Processors, driver: nat)
    requires driver < |w.hooks| && w.hooks[driver].state == Invalid
    ensures var n := Next(w, Enter(driver));
            Of(n, |w.threads|, driver) && !CanPush(n, |w.threads|, driver)
  {
    var n := Next(w, Enter(driver));
    LatePushExact(n, |w.threads|, driver);
  }

  // ----- one interception without others -----

  /** The processors with one thread and its driver changed. */
  function With(w: Processors, t: nat, pc: Pc, driver: nat, h: Hook): Processors
    requires Of(w, t, driver)
  {
    w.(hooks := w.hooks[driver := h], threads := w.threads[t := Thread(driver, pc)])
  }

  lemma {:induction false} RunAppend(w: Processors, a: seq<Step>, b: seq<Step>)
    ensures Run(w, a + b) == Run(Run(w, a), b)
    decreases |a|
  {
    hide Next;
    if a == [] {
      assert a + b == b;
    } else {
      assert (a + b)[0] == a[0] && (a + b)[1..] == a[1..] + b;
      RunAppend(Next(w, a[0]), a[1..], b);
    }
  }

  /** The steps of one thread, with capture requests for its driver in between. */
  predicate Own(steps: seq<Step>, t: nat, driver: nat) {
    forall i | 0 <= i < |steps| ::
      !steps[i].Enter? && if steps[i].Monitor? then steps[i].driver == driver else steps[i].t == t
  }

  /** Where they lead. */
  function Alone(h: Hook, pc: Pc, steps: seq<Step>): (Hook, Pc)
    decreases |steps|
  {
    if steps == [] then (h, pc)
    else if steps[0].Monitor? then
      Alone(ApplyHook(h, if steps[0].enable then Enable else Disable), pc, steps[1..])
    else
      var (q, op) := Move(h, pc, steps[0]);
      Alone(if op.Some? then ApplyHook(h, op.value) else h, q, steps[1..])
  }

  /** What the processors are then. */
  ghost function After(w: Processors, t: nat, driver: nat, steps: seq<Step>): Processors
    requires Of(w, t, driver)
  {
    var (h, pc) := Alone(w.hooks[driver], w.threads[t].pc, steps);
    With(w, t, pc, driver, h).(pushes := w.pushes + if HasPushed(pc) && !HasPushed(w.threads[t].pc) then 1 else 0)
  }

  lemma OwnStep(w: Processors, t: nat, driver: nat, step: Step)
    requires Of(w, t, driver) && Own([step], t, driver)
    ensures Next(w, step) == After(w, t, driver, [step])
  {
    hide Move, ApplyHook, HasPushed;
    var h, pc := w.hooks[driver], w.threads[t].pc;
    OneAlone(h, pc, step);
    assert [step][0] == step && w.threads[t] == Thread(driver, pc);
    assert w.hooks[driver := h] == w.hooks && w.threads[t := Thread(driver, pc)] == w.threads;
    if !step.Monitor? {
      MoveTallies(h, pc, step);
    }
  }

  lemma OneAlone(h: Hook, pc: Pc, step: Step)
    ensures Alone(h, pc, [step])
         == if step.Monitor? then (ApplyHook(h, if step.enable then Enable else Disable), pc)
            else var (q, op) := Move(h, pc, step); (if op.Some? then ApplyHook(h, op.value) else h, q)
  {
    hide Move, ApplyHook;
    assert [step][1..] == [];
  }

  lemma AloneFirst(h: Hook, pc: Pc, steps: seq<Step>)
    requires steps != []
    ensures var (g, q) := Alone(h, pc, [steps[0]]); Alone(h, pc, steps) == Alone(g, q, steps[1..])
  {
    hide Move, ApplyHook;
    assert [steps[0]][1..] == [];
  }

  lemma AloneKeepsPushed(h: Hook, pc: Pc, steps: seq<Step>)
    ensures HasPushed(pc) ==> HasPushed(Alone(h, pc, steps).1)
    decreases |steps|
  {
    hide Move, ApplyHook;
    if steps != [] {
      MoveTallies(h, pc, steps[0]);
      var (g, q) := Alone(h, pc, [steps[0]]);
      assert [steps[0]][1..] == [];
      AloneKeepsPushed(g, q, steps[1..]);
      AloneFirst(h, pc, steps);
    }
  }

  lemma {:induction false} AloneRuns(w: Processors, t: nat, driver: nat, steps: seq<Step>)
    requires Of(w, t, driver) && Own(steps, t, driver)
    ensures Run(w, steps) == After(w, t, driver, steps)
    decreases |steps|
  {
    hide Next, Alone, HasPushed;
    if steps == [] {
      NothingAlone(w, t, driver);
    } else {
      assert Own([steps[0]], t, driver) && Own(steps[1..], t, driver);
      OwnStep(w, t, driver, steps[0]);
      AloneRuns(Next(w, steps[0]), t, driver, steps[1..]);
      AloneFirst(w.hooks[driver], w.threads[t].pc, steps);
      var (g, q) := Alone(w.hooks[driver], w.threads[t].pc, [steps[0]]);
      AloneKeepsPushed(w.hooks[driver], w.threads[t].pc, [steps[0]]);
      AloneKeepsPushed(g, q, steps[1..]);
    }
  }

  lemma NothingAlone(w: Processors, t: nat, driver: nat)
    requires Of(w, t, driver)
    ensures After(w, t, driver, []) == w
  {
    assert w.hooks[driver := w.hooks[driver]] == w.hooks;
    assert w.threads[t := Thread(driver, w.threads[t].pc)] == w.threads;
  }

  lemma {:induction false} AloneAppend(h: Hook, pc: Pc, a: seq<Step>, b: seq<Step>)
    ensures var (g, q) := Alone(h, pc, a); Alone(h, pc, a + b) == Alone(g, q, b)
    decreases |a|
  {
    hide Move, ApplyHook, Alone;
    if a == [] {
      assert a + b == b;
      AloneEmpty(h, pc);
    } else {
      assert (a + b)[0] == a[0] && (a + b)[1..] == a[1..] + b;
      AloneFirst(h, pc, a + b);
      AloneFirst(h, pc, a);
      var (g, q) := Alone(h, pc, [a[0]]);
      AloneAppend(g, q, a[1..], b);
    }
  }

  lemma AloneEmpty(h: Hook, pc: Pc)
    ensures Alone(h, pc, []) == (h, pc)
  {
  }

  function PreSteps(h: Hook, ok: bool, t: nat): seq<Step> {
    if h.state != Hooked then [ReadState(t)]
    else if !h.capturing then [ReadState(t), ReadCapturing(t)]
    else if ok then [ReadState(t), ReadCapturing(t), Capture(t, true)]
    else [ReadState(t), ReadCapturing(t), Capture(t, false), SwitchOff(t)]
  }

  function MonitorSteps(toggles: seq<bool>, driver: nat): seq<Step> {
    if toggles == [] then [] else [Monitor(driver, toggles[0])] + MonitorSteps(toggles[1..], driver)
  }

  function ReturnSteps(outcome: Outcome, t: nat): seq<Step> {
    if Errs(outcome) then [Return(t, true), SwitchOff(t), Flag(t)] else [Return(t, false)]
  }

  function PostSteps(h: Hook, ok: bool, t: nat): seq<Step> {
    if h.state != Hooked then [ReadState(t)]
    else if !h.capturing then [ReadState(t), ReadCapturing(t)]
    else if ok then [ReadState(t), ReadCapturing(t), Capture(t, true), Push(t), Count(t)]
    else [ReadState(t), ReadCapturing(t), Capture(t, false), SwitchOff(t)]
  }

  lemma AloneTwo(h: Hook, pc: Pc, a: Step, b: Step)
    ensures var (g, q) := Alone(h, pc, [a]); Alone(h, pc, [a, b]) == Alone(g, q, [b])
  {
    hide Alone;
    assert [a, b] == [a] + [b];
    AloneAppend(h, pc, [a], [b]);
  }

  lemma AloneThree(h: Hook, pc: Pc, a: Step, b: Step, more: seq<Step>)
    ensures var (g, q) := Alone(h, pc, [a, b]); Alone(h, pc, [a, b] + more) == Alone(g, q, more)
  {
    AloneAppend(h, pc, [a, b], more);
  }

  lemma PreAlone(h: Hook, x: Interception, t: nat)
    ensures Alone(h, Entered, PreSteps(h, x.preOk, t)) == (AfterPre(h, x), Calling)
  {
    hide Alone;
    OneAlone(h, Entered, ReadState(t));
    if h.state == Hooked {
      AloneTwo(h, Entered, ReadState(t), ReadCapturing(t));
      OneAlone(h, PreTested, ReadCapturing(t));
      if h.capturing {
        if x.preOk {
          assert PreSteps(h, true, t) == [ReadState(t), ReadCapturing(t)] + [Capture(t, true)];
          AloneThree(h, Entered, ReadState(t), ReadCapturing(t), [Capture(t, true)]);
          OneAlone(h, PreCapturing, Capture(t, true));
        } else {
          assert PreSteps(h, false, t) == [ReadState(t), ReadCapturing(t)] + [Capture(t, false), SwitchOff(t)];
          AloneThree(h, Entered, ReadState(t), ReadCapturing(t), [Capture(t, false), SwitchOff(t)]);
          AloneTwo(h, PreCapturing, Capture(t, false), SwitchOff(t));
          OneAlone(h, PreCapturing, Capture(t, false));
          OneAlone(h, PreFailed, SwitchOff(t));
        }
      }
    }
  }

  lemma {:induction false} MonitorsAlone(h: Hook, toggles: seq<bool>, driver: nat)
    ensures Alone(h, Calling, MonitorSteps(toggles, driver)) == (RunHook(h, Toggles(toggles)), Calling)
    decreases |toggles|
  {
    hide Move, ApplyHook;
    if toggles != [] {
      var steps := MonitorSteps(toggles, driver);
      assert steps[0] == Monitor(driver, toggles[0]) && steps[1..] == MonitorSteps(toggles[1..], driver);
      assert Toggles(toggles)[1..] == Toggles(toggles[1..]);
      MonitorsAlone(ApplyHook(h, if toggles[0] then Enable else Disable), toggles[1..], driver);
    }
  }

  lemma ReturnAlone(h: Hook, outcome: Outcome, t: nat)
    ensures Alone(h, Calling, ReturnSteps(outcome, t))
         == (if Errs(outcome) then RunHook(h, [Disable, FlagInvalid]) else h, Called)
  {
    hide Alone;
    if Errs(outcome) {
      assert [Return(t, true), SwitchOff(t), Flag(t)] == [Return(t, true), SwitchOff(t)] + [Flag(t)];
      AloneThree(h, Calling, Return(t, true), SwitchOff(t), [Flag(t)]);
      AloneTwo(h, Calling, Return(t, true), SwitchOff(t));
      OneAlone(h, Calling, Return(t, true));
      OneAlone(h, Raising, SwitchOff(t));
      OneAlone(ApplyHook(h, Disable), Flagging, Flag(t));
      assert [Disable, FlagInvalid][1..] == [FlagInvalid] && [FlagInvalid][1..] == [];
      assert RunHook(ApplyHook(h, Disable), [FlagInvalid]) == ApplyHook(ApplyHook(h, Disable), FlagInvalid);
    } else {
      OneAlone(h, Calling, Return(t, false));
    }
  }

  lemma PostAlone(h: Hook, ok: bool, t: nat)
    ensures Alone(h, Called, PostSteps(h, ok, t))
         == (if !Captures(h) then h else ApplyHook(h, if ok then CountIrp else Disable),
             if Captures(h) && ok then Pushed else Deleted)
  {
    hide Alone;
    OneAlone(h, Called, ReadState(t));
    if h.state == Hooked {
      AloneTwo(h, Called, ReadState(t), ReadCapturing(t));
      OneAlone(h, PostTested, ReadCapturing(t));
      if h.capturing {
        if ok {
          assert PostSteps(h, true, t) == [ReadState(t), ReadCapturing(t)] + ([Capture(t, true), Push(t)] + [Count(t)]);
          AloneThree(h, Called, ReadState(t), ReadCapturing(t), [Capture(t, true), Push(t)] + [Count(t)]);
          AloneThree(h, PostCapturing, Capture(t, true), Push(t), [Count(t)]);
          AloneTwo(h, PostCapturing, Capture(t, true), Push(t));
          OneAlone(h, PostCapturing, Capture(t, true));
          OneAlone(h, Pushing, Push(t));
          OneAlone(h, Counting, Count(t));
        } else {
          assert PostSteps(h, false, t) == [ReadState(t), ReadCapturing(t)] + [Capture(t, false), SwitchOff(t)];
          AloneThree(h, Called, ReadState(t), ReadCapturing(t), [Capture(t, false), SwitchOff(t)]);
          AloneTwo(h, PostCapturing, Capture(t, false), SwitchOff(t));
          OneAlone(h, PostCapturing, Capture(t, false));
          OneAlone(h, PostFailed, SwitchOff(t));
        }
      }
    }
  }

  /** An interception that no other one overlaps takes its driver where the interception as one event
      does, whatever its captures, the requests meanwhile and its routine do. */
  lemma AloneIsInterception(w: Processors, t: nat, driver: nat, x: Interception) returns (steps: seq<Step>)
    requires Of(w, t, driver) && w.threads[t].pc == Entered
    ensures Own(steps, t, driver)
    ensures var h := w.hooks[driver];
            && Of(Run(w, steps), t, driver)
            && Run(w, steps).hooks == w.hooks[driver := AfterInterception(h, x)]
            && Run(w, steps).threads[t].pc == (if Callbacks.Pushes(h, x) then Pushed else Deleted)
            && Run(w, steps).pushes == w.pushes + if Callbacks.Pushes(h, x) then 1 else 0
  {
    hide Alone, Move, ApplyHook, RunHook, Run, PreSteps, PostSteps, ReturnSteps, MonitorSteps, Captures, Errs;
    var h := w.hooks[driver];
    var pre, monitor, ret := PreSteps(h, x.preOk, t), MonitorSteps(x.toggles, driver), ReturnSteps(x.outcome, t);
    PreAlone(h, x, t);
    MonitorsAlone(AfterPre(h, x), x.toggles, driver);
    var toggled := RunHook(AfterPre(h, x), Toggles(x.toggles));
    ReturnAlone(toggled, x.outcome, t);
    var called := AfterCall(h, x);
    var post := PostSteps(called, x.postOk, t);
    PostAlone(called, x.postOk, t);
    AloneAppend(h, Entered, pre, monitor);
    AloneAppend(h, Entered, pre + monitor, ret);
    AloneAppend(h, Entered, pre + monitor + ret, post);
    steps := pre + monitor + ret + post;
    OwnSteps(h, called, x, t, driver);
    AloneRuns(w, t, driver, steps);
  }

  lemma {:induction false} MonitorsOwn(toggles: seq<bool>, t: nat, driver: nat)
    ensures Own(MonitorSteps(toggles, driver), t, driver)
  {
    if toggles != [] {
      MonitorsOwn(toggles[1..], t, driver);
    }
  }

  lemma OwnSteps(h: Hook, called: Hook, x: Interception, t: nat, driver: nat)
    ensures Own(PreSteps(h, x.preOk, t) + MonitorSteps(x.toggles, driver) + ReturnSteps(x.outcome, t)
                + PostSteps(called, x.postOk, t), t, driver)
  {
    hide MonitorSteps;
    MonitorsOwn(x.toggles, t, driver);
    assert Own(PreSteps(h, x.preOk, t), t, driver) && Own(ReturnSteps(x.outcome, t), t, driver);
    assert Own(PostSteps(called, x.postOk, t), t, driver);
  }

  /** A driver can be flagged invalid while another interception of it is about to push. */
  lemma LatePushReachable(h: Hook)
    requires Captures(h)
    ensures exists steps :: var w := Run(Processors([h], [], 0), steps);
              Of(w, 0, 0) && w.hooks[0].state == Invalid && MayPush(w, 0, 0) && !Pushes(w, 0, 0)
  {
    hide Run, Alone, Move;
    var start := Processors([h], [], 0);
    var enter := [Enter(0), Enter(0)];
    BothEnter(h);
    var w := Run(start, enter);
    var pre0, pre1 := PreSteps(h, true, 0), PreSteps(h, true, 1);
    var x := Interception(true, [], Returned(0), true);
    PreAlone(h, x, 0);
    PreAlone(h, x, 1);
    var ret0, post := ReturnSteps(Returned(0), 0), [ReadState(0), ReadCapturing(0), Capture(0, true)];
    ReturnAlone(h, Returned(0), 0);
    AloneAppend(h, Entered, pre0, ret0);
    AloneAppend(h, Entered, pre0 + ret0, post);
    AboutToPush(h);
    AloneRuns(w, 0, 0, pre0 + ret0 + post);
    var w0 := Run(w, pre0 + ret0 + post);
    var raised := Raised(STATUS_UNSUCCESSFUL);
    var ret1 := ReturnSteps(raised, 1);
    ReturnAlone(h, raised, 1);
    AloneAppend(h, Entered, pre1, ret1);
    AloneRuns(w0, 1, 0, pre1 + ret1);
    FlaggedInvalid(h);
    RunAppend(start, enter, pre0 + ret0 + post);
    RunAppend(start, enter + (pre0 + ret0 + post), pre1 + ret1);
    var end := Run(start, enter + (pre0 + ret0 + post) + (pre1 + ret1));
    assert end.threads[0].pc == Pushing && end.hooks[0].state == Invalid;
  }

  lemma BothEnter(h: Hook)
    ensures Run(Processors([h], [], 0), [Enter(0), Enter(0)])
         == Processors([h], [Thread(0, Entered), Thread(0, Entered)], 0)
  {
    var w := Processors([h], [], 0);
    RunOn(w, Enter(0), [Enter(0)]);
    RunOn(Next(w, Enter(0)), Enter(0), []);
    assert [Enter(0)] + [Enter(0)] == [Enter(0), Enter(0)] && [Enter(0)] + [] == [Enter(0)];
  }

  lemma AboutToPush(h: Hook)
    requires Captures(h)
    ensures Alone(h, Called, [ReadState(0), ReadCapturing(0), Capture(0, true)]) == (h, Pushing)
  {
    hide Alone;
    assert [ReadState(0), ReadCapturing(0), Capture(0, true)] == [ReadState(0), ReadCapturing(0)] + [Capture(0, true)];
    AloneThree(h, Called, ReadState(0), ReadCapturing(0), [Capture(0, true)]);
    AloneTwo(h, Called, ReadState(0), ReadCapturing(0));
    OneAlone(h, Called, ReadState(0));
    OneAlone(h, PostTested, ReadCapturing(0));
    OneAlone(h, PostCapturing, Capture(0, true));
  }

  lemma FlaggedInvalid(h: Hook)
    ensures RunHook(h, [Disable, FlagInvalid]).state == Invalid
  {
    assert [Disable, FlagInvalid][1..] == [FlagInvalid] && [FlagInvalid][1..] == [];
    assert RunHook(ApplyHook(h, Disable), [FlagInvalid]) == ApplyHook(ApplyHook(h, Disable), FlagInvalid);
  }
}
