/**
 The stage loop of a run: when the next stage starts, and what a failed worker or a `stop()` does to it.

 The main thread's reads and writes of the shared flags are single steps, and between any two of them the
 environment may act: `stop()` is called, a worker exits, a worker fails.
 */
module StageControl {

  import opened Registers

  // ----- The deadline of a stage, in nanoseconds of a signed 64-bit clock

  const FOREVER: int := WORD / 2 - 1
  const HORIZON: int := 24 * 365 * 100 * 3600 * 1_000_000_000
  const LIMIT: int := FOREVER - HORIZON

  /** `duration` is in milliseconds; none is given where it is zero. */
  function StageEnd(now: int, duration: int, globalEnd: int): int {
    var end := Signed(now + Signed(duration * 1_000_000));
    var own := if duration <= 0 then FOREVER else if end > LIMIT then LIMIT else end;
    if globalEnd != FOREVER && globalEnd < own then globalEnd else own
  }

  /** No stage outlasts the cap of the run, and exactly the stages with neither duration nor cap have no deadline. */
  lemma StageEndCapped(now: int, duration: int, globalEnd: int)
    requires globalEnd <= FOREVER
    ensures StageEnd(now, duration, globalEnd) <= globalEnd
    ensures var own := StageEnd(now, duration, FOREVER);
            StageEnd(now, duration, globalEnd) == if own < globalEnd then own else globalEnd
    ensures StageEnd(now, duration, globalEnd) == FOREVER <==> duration <= 0 && globalEnd == FOREVER
  {
  }

  lemma SignedSum(a: int, b: int)
    ensures Signed(a + Signed(b)) == Signed(a + b)
  {
    LowAdd(a, Signed(b));
    LowAdd(a, b);
    assert Low(Signed(b)) == Low(b);
  }

  lemma SignedFits(n: int)
    requires 0 <= n <= FOREVER
    ensures Signed(n) == n
  {
  }

  /**
   A stage of its own duration ends at the time meant, or at the horizon if that is nearer, exactly when the sum fits
   64 bits or happens to wrap round beyond the horizon: the bound is applied after the addition.
   */
  lemma StageEndExact(now: int, duration: int)
    requires 0 <= now <= FOREVER && 0 < duration <= FOREVER
    ensures var meant := now + duration * 1_000_000;
            StageEnd(now, duration, FOREVER) == (if meant > LIMIT then LIMIT else meant) <==>
            meant <= FOREVER || Signed(meant) >= LIMIT
  {
    var meant := now + duration * 1_000_000;
    SignedSum(now, duration * 1_000_000);
    if meant <= FOREVER {
      SignedFits(meant);
    }
  }

  lemma LowShift(n: int, k: int)
    ensures Low(k * WORD + n) == Low(n)
  {
    LowAdd(k * WORD, n);
    assert k * WORD % WORD == 0;
  }

  lemma LongestInNanos()
    ensures FOREVER * 1_000_000 == 500_000 * WORD - 1_000_000
  {
  }

  /** A time plus the longest duration comes out a millisecond before that time. */
  lemma LongestSum(now: int)
    requires 1_000_000 <= now <= FOREVER
    ensures Signed(now + Signed(FOREVER * 1_000_000)) == now - 1_000_000
  {
    LongestInNanos();
    SignedSum(now, FOREVER * 1_000_000);
    LowShift(now - 1_000_000, 500_000);
    SignedFits(now - 1_000_000);
  }

  /** The longest duration that a configuration can ask for is over before it starts. */
  lemma LongestDurationIsOver(now: int)
    requires 1_000_000 <= now <= LIMIT
    ensures StageEnd(now, FOREVER, FOREVER) == now - 1_000_000
  {
    LongestSum(now);
  }

  // ----- The machine

  /** A stage: how many workers it starts, and whether it has a deadline. */
  datatype Stage = Stage(users: nat, finite: bool)

  /** `capped`: the run as a whole has a time limit, which gives every stage a deadline. */
  datatype Config = Config(stages: seq<Stage>, capped: bool)

  ghost predicate Proper(cfg: Config) {
    forall i :: 0 <= i < |cfg.stages| ==> cfg.stages[i].users >= 1 && (cfg.capped ==> cfg.stages[i].finite)
  }

  datatype Pc =
    | Guard       // the loop condition
    | Cap         // the global end is checked
    | Spawn       // the workers are started
    | ReadStop    // was it stopped from outside?
    | CheckStop   // is there a deadline, and no stop yet?
    | Wait        // the wait for the deadline
    | ReadOutcome // was it a stop, or a failure, that ended the wait?
    | SetStop     // the workers are told to stop
    | Join        // until every worker has exited
    | Decide      // does the run go on?
    | Resume      // the stop flag is taken back
    | Done

  datatype Start = Start(stage: nat, failures: nat)

  /**
   `live` workers have not exited. History: `gone` workers of the stage have, and `starts` are the stages started so
   far, with the failures known then.
   */
  datatype Control = Control(
    pc: Pc, stage: nat, stopped: bool, failures: nat, external: bool, live: nat, gone: nat, starts: seq<Start>)

  const INITIAL := Control(Guard, 0, false, 0, false, 0, 0, [])

  ghost predicate UpTo(starts: seq<Start>, k: nat) {
    forall i :: 0 <= i < |starts| ==> starts[i].stage <= k
  }

  predicate Staffed(pc: Pc) {
    pc.ReadStop? || pc.CheckStop? || pc.Wait? || pc.ReadOutcome? || pc.SetStop? || pc.Join?
  }

  /** The stages have been started in order, none left out. */
  ghost predicate InOrder(s: Control) {
    && (forall i :: 0 <= i < |s.starts| ==> s.starts[i].stage == i)
    && |s.starts| == (if Staffed(s.pc) || s.pc.Decide? || s.pc.Resume? then s.stage + 1 else s.stage)
  }

  /** The stage number is one, and no worker outlives its stage. */
  ghost predicate Sane(cfg: Config, s: Control) {
    && (s.pc.Guard? || s.pc.Done? || s.stage < |cfg.stages|)
    && (!Staffed(s.pc) ==> s.live == 0)
    && (Staffed(s.pc) || s.pc.Decide? || s.pc.Resume? ==> s.live + s.gone == cfg.stages[s.stage].users)
    && InOrder(s)
  }

  datatype Action = Main(late: bool) | Stop | Exit | Fail

  /** One step of the main thread; `late` says that the clock has reached the time it is compared with. */
  function MainStep(cfg: Config, s: Control, late: bool): Control
    requires Sane(cfg, s)
  {
    match s.pc
    case Guard => if s.stage < |cfg.stages| && !s.stopped then s.(pc := Cap) else s.(pc := Done)
    case Cap => if cfg.capped && late then s.(stopped := true, pc := Done) else s.(pc := Spawn)
    case Spawn =>
      s.(pc := ReadStop, live := cfg.stages[s.stage].users, gone := 0,
         starts := s.starts + [Start(s.stage, s.failures)])
    case ReadStop => s.(pc := CheckStop, external := s.stopped)
    case CheckStop => if cfg.stages[s.stage].finite && !s.stopped then s.(pc := Wait) else s.(pc := Join)
    case Wait => if !late && !s.stopped && s.failures == 0 then s else s.(pc := ReadOutcome)
    case ReadOutcome => s.(pc := SetStop, external := s.stopped || s.failures > 0)
    case SetStop => s.(pc := Join, stopped := true)
    case Join => if s.live == 0 then s.(pc := Decide) else s
    case Decide =>
      if s.stage + 1 < |cfg.stages| && !s.external && s.failures == 0 then s.(pc := Resume)
      else s.(pc := Guard, stage := s.stage + 1)
    case Resume => s.(pc := Guard, stage := s.stage + 1, stopped := false)
    case Done => s
  }

  /** Workers leave of their own accord only at a stop or a deadline. */
  function Step(cfg: Config, s: Control, a: Action): Control
    requires Sane(cfg, s)
  {
    match a
    case Main(late) => MainStep(cfg, s, late)
    case Stop => s.(stopped := true)
    case Exit =>
      if s.live > 0 && (s.stopped || cfg.stages[s.stage].finite) then s.(live := s.live - 1, gone := s.gone + 1) else s
    case Fail =>
      if s.live > 0 then s.(live := s.live - 1, gone := s.gone + 1, failures := s.failures + 1) else s
  }

  lemma StepSane(cfg: Config, s: Control, a: Action)
    requires Sane(cfg, s)
    ensures Sane(cfg, Step(cfg, s, a))
  {
  }

  function Run(cfg: Config, s: Control, actions: seq<Action>): (t: Control)
    requires Sane(cfg, s)
    ensures Sane(cfg, t)
    decreases |actions|
  {
    if actions == [] then s
    else
      StepSane(cfg, s, actions[0]);
      Run(cfg, Step(cfg, s, actions[0]), actions[1..])
  }

  // ----- A failed worker ends the run

  ghost predicate Clean(starts: seq<Start>) {
    forall i :: 0 <= i < |starts| ==> starts[i].failures == 0
  }

  /** Every stage that another one follows has a deadline. */
  ghost predicate Bounded(cfg: Config) {
    forall i :: 0 <= i < |cfg.stages| - 1 ==> cfg.stages[i].finite
  }

  ghost predicate Aborting(cfg: Config, s: Control) {
    && Sane(cfg, s) && Clean(s.starts)
    && (s.pc.Guard? ==> s.stage >= |cfg.stages| || s.stopped || s.failures == 0)
    && (s.pc.Cap? || s.pc.Spawn? || s.pc.Resume? ==> s.failures == 0)
    && (s.pc.Join? || s.pc.Decide? ==> s.stopped || s.stage + 1 >= |cfg.stages|)
  }

  lemma AbortingStep(cfg: Config, s: Control, a: Action)
    requires Bounded(cfg) && Aborting(cfg, s)
    ensures Aborting(cfg, Step(cfg, s, a))
  {
    StepSane(cfg, s, a);
  }

  lemma {:induction false} AbortingRun(cfg: Config, s: Control, actions: seq<Action>)
    requires Bounded(cfg) && Aborting(cfg, s)
    ensures Aborting(cfg, Run(cfg, s, actions))
    decreases |actions|
  {
    if actions != [] {
      AbortingStep(cfg, s, actions[0]);
      AbortingRun(cfg, Step(cfg, s, actions[0]), actions[1..]);
    }
  }

  /** The main thread runs alone, and no deadline has come. */
  function Alone(n: nat): seq<Action> {
    if n == 0 then [] else [Main(false)] + Alone(n - 1)
  }

  lemma AloneStep(cfg: Config, s: Control, n: nat)
    requires Sane(cfg, s) && n > 0
    ensures Sane(cfg, MainStep(cfg, s, false))
    ensures Run(cfg, s, Alone(n)) == Run(cfg, MainStep(cfg, s, false), Alone(n - 1))
  {
    StepSane(cfg, s, Main(false));
    assert Alone(n)[1..] == Alone(n - 1);
  }

  predicate Waiting(pc: Pc) {
    pc.ReadStop? || pc.CheckStop? || pc.Wait? || pc.ReadOutcome? || pc.SetStop?
  }

  /** A failed worker, like a stop, ends the wait of the stage at once: within five steps, and before its deadline. */
  lemma {:induction false} WaitEnds(cfg: Config, s: Control) returns (n: nat)
    requires Sane(cfg, s) && Waiting(s.pc) && (s.stopped || s.failures > 0)
    ensures n <= 5 && Run(cfg, s, Alone(n)).pc.Join?
    ensures n <= 4 || s.pc.ReadStop?
    ensures n <= 3 || s.pc.ReadStop? || s.pc.CheckStop?
    ensures n <= 2 || s.pc.ReadStop? || s.pc.CheckStop? || s.pc.Wait?
    ensures n <= 1 || !s.pc.SetStop?
    decreases if s.pc.ReadStop? then 5 else if s.pc.CheckStop? then 4 else if s.pc.Wait? then 3
              else if s.pc.ReadOutcome? then 2 else 1
  {
    StepSane(cfg, s, Main(false));
    var t := MainStep(cfg, s, false);
    if t.pc.Join? {
      n := 1;
      assert Run(cfg, t, Alone(0)) == t;
    } else {
      var m := WaitEnds(cfg, t);
      n := m + 1;
    }
    AloneStep(cfg, s, n);
  }

  // ----- How long a stage lasts

  /** The environment does what it likes, except that nobody stops the run and no worker fails. */
  ghost predicate Undisturbed(actions: seq<Action>) {
    forall i :: 0 <= i < |actions| ==> !actions[i].Stop? && !actions[i].Fail? && (actions[i].Main? ==> !actions[i].late)
  }

  /** The workers of a stage are at work: the main thread waits for the deadline, or for them. */
  predicate Working(cfg: Config, s: Control) {
    && !s.stopped && s.failures == 0 && s.stage < |cfg.stages|
    && if cfg.stages[s.stage].finite then s.pc.ReadStop? || s.pc.CheckStop? || s.pc.Wait?
       else (s.pc.ReadStop? || s.pc.CheckStop? || s.pc.Join?) && s.live > 0
  }

  lemma WorkingStep(cfg: Config, s: Control, a: Action)
    requires Sane(cfg, s) && Working(cfg, s) && !a.Stop? && !a.Fail? && (a.Main? ==> !a.late)
    ensures Working(cfg, Step(cfg, s, a)) && Step(cfg, s, a).stage == s.stage
  {
  }

  /**
   As long as its deadline has not come, nobody stops the run and no worker fails, a stage goes on: the main thread
   neither tells the workers to stop nor starts another stage.
   */
  lemma {:induction false} StageLasts(cfg: Config, s: Control, actions: seq<Action>)
    requires Sane(cfg, s) && Working(cfg, s) && Undisturbed(actions)
    ensures var t := Run(cfg, s, actions); Working(cfg, t) && t.stage == s.stage && t.starts == s.starts
    decreases |actions|
  {
    if actions != [] {
      WorkingStep(cfg, s, actions[0]);
      StepSane(cfg, s, actions[0]);
      assert Step(cfg, s, actions[0]).starts == s.starts;
      StageLasts(cfg, Step(cfg, s, actions[0]), actions[1..]);
    }
  }

  /** The clock has passed the end of the whole run. */
  ghost predicate Passed(actions: seq<Action>) {
    forall i :: 0 <= i < |actions| && actions[i].Main? ==> actions[i].late
  }

  /** Once the end of the whole run has passed, no stage starts but one that is being started already. */
  lemma {:induction false} PassedTheorem(cfg: Config, s: Control, actions: seq<Action>)
    requires Sane(cfg, s) && cfg.capped && !s.pc.Spawn? && Passed(actions)
    ensures Run(cfg, s, actions).starts == s.starts
    decreases |actions|
  {
    if actions != [] {
      StepSane(cfg, s, actions[0]);
      PassedTheorem(cfg, Step(cfg, s, actions[0]), actions[1..]);
    }
  }

  /**
   In every run the stages start in order, none left out; each has as many workers as it asks for, and the run goes on
   only when all of them have exited.
   */
  lemma StaffTheorem(cfg: Config, actions: seq<Action>)
    ensures var s := Run(cfg, INITIAL, actions);
            && (Staffed(s.pc) ==> s.live + s.gone == cfg.stages[s.stage].users)
            && (s.pc.Decide? || s.pc.Resume? ==> s.gone == cfg.stages[s.stage].users)
            && (forall i :: 0 <= i < |s.starts| ==> s.starts[i].stage == i)
  {
  }

  // ----- Schedules that reach a state

  ghost predicate Reaches(cfg: Config, s: Control, t: Control)
    requires Sane(cfg, s)
  {
    exists actions :: Run(cfg, s, actions) == t
  }

  lemma {:induction false} RunJoin(cfg: Config, s: Control, a: seq<Action>, b: seq<Action>)
    requires Sane(cfg, s)
    ensures Run(cfg, s, a + b) == Run(cfg, Run(cfg, s, a), b)
    decreases |a|
  {
    if a == [] {
      assert a + b == b;
    } else {
      StepSane(cfg, s, a[0]);
      RunJoin(cfg, Step(cfg, s, a[0]), a[1..], b);
      assert (a + b)[1..] == a[1..] + b;
    }
  }

  /** One step, then the rest. */
  lemma Then(cfg: Config, s: Control, a: Action, t: Control)
    requires Sane(cfg, s) && Sane(cfg, Step(cfg, s, a)) && Reaches(cfg, Step(cfg, s, a), t)
    ensures Reaches(cfg, s, t)
  {
    var actions :| Run(cfg, Step(cfg, s, a), actions) == t;
    assert ([a] + actions)[1..] == actions;
    assert Run(cfg, s, [a] + actions) == t;
  }

  lemma Here(cfg: Config, s: Control)
    requires Sane(cfg, s)
    ensures Reaches(cfg, s, s)
  {
    assert Run(cfg, s, []) == s;
  }

  lemma Joined(cfg: Config, s: Control, t: Control, u: Control)
    requires Sane(cfg, s) && Sane(cfg, t) && Reaches(cfg, s, t) && Reaches(cfg, t, u)
    ensures Reaches(cfg, s, u)
  {
    var a :| Run(cfg, s, a) == t;
    var b :| Run(cfg, t, b) == u;
    RunJoin(cfg, s, a, b);
  }

  function Emptied(s: Control): Control {
    s.(live := 0, gone := s.gone + s.live)
  }

  /** A stopped stage can end with all its workers gone. */
  lemma {:induction false} AllExit(cfg: Config, s: Control)
    requires Sane(cfg, s) && s.pc.Join? && s.stopped
    ensures Reaches(cfg, s, Emptied(s))
    decreases s.live
  {
    if s.live == 0 {
      Here(cfg, s);
    } else {
      var t := s.(live := s.live - 1, gone := s.gone + 1);
      AllExit(cfg, t);
      Then(cfg, s, Exit, Emptied(t));
    }
  }

  lemma {:induction false} AllFail(cfg: Config, s: Control)
    requires Sane(cfg, s) && s.pc.Join?
    ensures Reaches(cfg, s, Emptied(s).(failures := s.failures + s.live))
    decreases s.live
  {
    if s.live == 0 {
      Here(cfg, s);
    } else {
      var t := s.(live := s.live - 1, gone := s.gone + 1, failures := s.failures + 1);
      AllFail(cfg, t);
      Then(cfg, s, Fail, Emptied(t).(failures := t.failures + t.live));
    }
  }

  /** A stage at the loop condition of an unstopped run is started. */
  function Started(cfg: Config, s: Control): Control
    requires s.stage < |cfg.stages|
  {
    s.(pc := ReadStop, live := cfg.stages[s.stage].users, gone := 0,
       starts := s.starts + [Start(s.stage, s.failures)])
  }

  predicate Ready(cfg: Config, s: Control) {
    s.pc.Guard? && s.stage < |cfg.stages| && !s.stopped && s.live == 0
  }

  lemma Starts(cfg: Config, s: Control)
    requires Sane(cfg, s) && Ready(cfg, s)
    ensures Sane(cfg, Started(cfg, s)) && Reaches(cfg, s, Started(cfg, s))
  {
    var cap, spawn, started := s.(pc := Cap), s.(pc := Spawn), Started(cfg, s);
    StepSane(cfg, spawn, Main(false));
    Here(cfg, started);
    Then(cfg, spawn, Main(false), started);
    Then(cfg, cap, Main(false), started);
    Then(cfg, s, Main(false), started);
  }

  /** From the start of a stage to the wait for its workers. */
  lemma ToJoin(cfg: Config, s: Control)
    requires Sane(cfg, s) && s.pc.ReadStop? && !s.stopped
    ensures var finite := cfg.stages[s.stage].finite;
            finite ==> Reaches(cfg, s, s.(pc := Join, external := s.failures > 0, stopped := true))
    ensures !cfg.stages[s.stage].finite ==> Reaches(cfg, s, s.(pc := Join, external := false))
  {
    var check := s.(pc := CheckStop, external := false);
    if cfg.stages[s.stage].finite {
      var wait, read := check.(pc := Wait), check.(pc := ReadOutcome);
      var set' := check.(pc := SetStop, external := s.failures > 0);
      var join := set'.(pc := Join, stopped := true);
      Here(cfg, join);
      Then(cfg, set', Main(true), join);
      Then(cfg, read, Main(true), join);
      Then(cfg, wait, Main(true), join);
      Then(cfg, check, Main(true), join);
      Then(cfg, s, Main(true), join);
    } else {
      var join := check.(pc := Join);
      Here(cfg, join);
      Then(cfg, check, Main(true), join);
      Then(cfg, s, Main(true), join);
    }
  }

  function Next(s: Control): Control {
    Emptied(s).(pc := Guard, stage := s.stage + 1, stopped := false)
  }

  /** A stage whose decision is open can be followed by the next one, with the stop flag taken back. */
  predicate Open(cfg: Config, s: Control) {
    s.stage + 1 < |cfg.stages| && !s.external && s.failures == 0
  }

  lemma Resumes(cfg: Config, s: Control)
    requires Sane(cfg, s) && Open(cfg, s) && s.pc.Decide?
    ensures Reaches(cfg, s, Next(s))
  {
    var resume := s.(pc := Resume);
    Here(cfg, Next(s));
    Then(cfg, resume, Main(false), Next(s));
    Then(cfg, s, Main(false), Next(s));
  }

  lemma Passes(cfg: Config, s: Control)
    requires Sane(cfg, s) && Open(cfg, s) && s.pc.Join? && s.stopped
    ensures Reaches(cfg, s, Next(s))
  {
    var empty, decide := Emptied(s), Emptied(s).(pc := Decide);
    AllExit(cfg, s);
    Resumes(cfg, decide);
    Then(cfg, empty, Main(false), Next(s));
    Joined(cfg, s, empty, Next(s));
  }

  /** A run without a failure can reach every stage before which all have deadlines. */
  lemma {:induction false} ReachesStage(cfg: Config, k: nat) returns (s: Control)
    requires k < |cfg.stages| && forall i :: 0 <= i < k ==> cfg.stages[i].finite
    ensures Sane(cfg, s) && Ready(cfg, s) && s.stage == k && s.failures == 0 && Reaches(cfg, INITIAL, s)
  {
    if k == 0 {
      s := INITIAL;
      Here(cfg, s);
    } else {
      var r := ReachesStage(cfg, k - 1);
      var started := Started(cfg, r);
      var join := started.(pc := Join, external := false, stopped := true);
      Starts(cfg, r);
      ToJoin(cfg, started);
      Passes(cfg, join);
      s := Next(join);
      Joined(cfg, started, join, s);
      Joined(cfg, r, started, s);
      Joined(cfg, INITIAL, r, s);
    }
  }

  /** All workers of a stage without a deadline fail, and the next stage starts nevertheless. */
  lemma StartsAfterFailure(cfg: Config, s: Control) returns (t: Control)
    requires Proper(cfg) && Sane(cfg, s) && Ready(cfg, s) && s.stage + 1 < |cfg.stages| && s.failures == 0
    requires !cfg.stages[s.stage].finite
    ensures Reaches(cfg, s, t) && !Clean(t.starts)
  {
    var started := Started(cfg, s);
    Starts(cfg, s);
    var join := started.(pc := Join, external := false);
    ToJoin(cfg, started);
    var failed := Emptied(join).(failures := join.failures + join.live);
    AllFail(cfg, join);
    var next := failed.(pc := Guard, stage := s.stage + 1);
    t := Started(cfg, next);
    Starts(cfg, next);
    Then(cfg, failed.(pc := Decide), Main(false), t);
    Then(cfg, failed, Main(false), t);
    Joined(cfg, join, failed, t);
    Joined(cfg, started, join, t);
    Joined(cfg, s, started, t);
    assert t.starts[|t.starts| - 1].failures == join.live;
  }

  lemma FirstUnbounded(cfg: Config) returns (k: nat)
    requires !Bounded(cfg)
    ensures k < |cfg.stages| - 1 && !cfg.stages[k].finite
    ensures forall i :: 0 <= i < k ==> cfg.stages[i].finite
  {
    k := 0;
    while cfg.stages[k].finite
      invariant k < |cfg.stages| - 1
      invariant forall i :: 0 <= i < k ==> cfg.stages[i].finite
      decreases |cfg.stages| - k
    {
      k := k + 1;
    }
  }

  /**
   That no stage starts once a worker has failed holds of every interleaving exactly when every stage but the last
   has a deadline.
   */
  lemma AbortTheorem(cfg: Config)
    requires Proper(cfg)
    ensures (forall actions :: Clean(Run(cfg, INITIAL, actions).starts)) <==> Bounded(cfg)
  {
    if Bounded(cfg) {
      forall actions
        ensures Clean(Run(cfg, INITIAL, actions).starts)
      {
        AbortingRun(cfg, INITIAL, actions);
      }
    } else {
      var k := FirstUnbounded(cfg);
      var s := ReachesStage(cfg, k);
      var t := StartsAfterFailure(cfg, s);
      Joined(cfg, INITIAL, s, t);
      var actions :| Run(cfg, INITIAL, actions) == t;
      assert !Clean(Run(cfg, INITIAL, actions).starts);
    }
  }

  // ----- A stop ends the run, if the stage loop sees it

  /** The stop is seen: by a read still to come, or it no longer matters. */
  predicate Seen(cfg: Config, s: Control) {
    || s.stage + 1 >= |cfg.stages|
    || s.pc.Guard? || s.pc.Cap? || s.pc.Spawn? || s.pc.ReadStop? || s.pc.Wait? || s.pc.ReadOutcome? || s.pc.Done?
    || (!s.pc.Resume? && (s.external || s.failures > 0))
  }

  /** A stopped run that starts no stage after the `k`-th any more. */
  ghost predicate Ending(cfg: Config, s: Control, k: nat) {
    && Sane(cfg, s) && UpTo(s.starts, k)
    && (s.stage <= k || s.pc.Done? || (s.pc.Guard? && (s.stopped || s.stage >= |cfg.stages|)))
    && (s.stage == k && k + 1 < |cfg.stages| ==> s.stopped && Seen(cfg, s))
    && (s.stage < k ==> s.pc.Done?)
  }

  lemma EndingStep(cfg: Config, s: Control, k: nat, a: Action)
    requires Ending(cfg, s, k)
    ensures Ending(cfg, Step(cfg, s, a), k)
  {
    StepSane(cfg, s, a);
  }

  lemma {:induction false} EndingRun(cfg: Config, s: Control, k: nat, actions: seq<Action>)
    requires Ending(cfg, s, k)
    ensures UpTo(Run(cfg, s, actions).starts, k)
    decreases |actions|
  {
    if actions != [] {
      EndingStep(cfg, s, k, actions[0]);
      EndingRun(cfg, Step(cfg, s, actions[0]), k, actions[1..]);
    }
  }

  /** A stop that is not seen can be taken back, and the next stage starts. */
  lemma Unseen(cfg: Config, s: Control) returns (t: Control)
    requires Sane(cfg, s) && s.stopped && !Seen(cfg, s)
    ensures Reaches(cfg, s, t) && !UpTo(t.starts, s.stage)
  {
    var next := Next(s);
    t := Started(cfg, next);
    Starts(cfg, next);
    var join := s.(pc := Join);
    match s.pc {
      case Resume =>
        Then(cfg, s, Main(false), t);
        assert Reaches(cfg, s, t);
      case Decide =>
        Resumes(cfg, s);
        Joined(cfg, s, next, t);
      case Join =>
        Passes(cfg, s);
        Joined(cfg, s, next, t);
      case CheckStop =>
        Passes(cfg, join);
        Joined(cfg, join, next, t);
        Then(cfg, s, Main(false), t);
      case SetStop =>
        Passes(cfg, join);
        Joined(cfg, join, next, t);
        Then(cfg, s, Main(false), t);
    }
    assert t.starts[|t.starts| - 1].stage == s.stage + 1;
  }

  /**
   A `stop()` at any moment of a run: that no later stage starts, whatever happens next, holds exactly when one of
   the reads of the stop flag is still to come in the stage, or a stop or failure is known already.
   */
  lemma StopTheorem(cfg: Config, s: Control)
    requires Sane(cfg, s)
    ensures Sane(cfg, Step(cfg, s, Stop))
    ensures (forall actions :: UpTo(Run(cfg, Step(cfg, s, Stop), actions).starts, s.stage)) <==> Seen(cfg, s)
  {
    StepSane(cfg, s, Stop);
    var stopped := Step(cfg, s, Stop);
    if Seen(cfg, s) {
      forall actions
        ensures UpTo(Run(cfg, stopped, actions).starts, s.stage)
      {
        EndingRun(cfg, stopped, s.stage, actions);
      }
    } else {
      var t := Unseen(cfg, stopped);
      var actions :| Run(cfg, stopped, actions) == t;
      assert !UpTo(Run(cfg, stopped, actions).starts, s.stage);
    }
  }

  /** In every run of two stages or more there is a moment at which a stop goes unseen. */
  lemma UnseenHappens(cfg: Config) returns (s: Control)
    requires |cfg.stages| >= 2
    ensures Sane(cfg, s) && Reaches(cfg, INITIAL, s) && !Seen(cfg, s)
    ensures Sane(cfg, Step(cfg, s, Stop))
    ensures !forall actions :: UpTo(Run(cfg, Step(cfg, s, Stop), actions).starts, s.stage)
  {
    var started := Started(cfg, INITIAL);
    Starts(cfg, INITIAL);
    s := started.(pc := CheckStop, external := false);
    Here(cfg, s);
    Then(cfg, started, Main(false), s);
    Joined(cfg, INITIAL, started, s);
    StopTheorem(cfg, s);
  }
}
