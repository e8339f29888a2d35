/** The lock-step protocol between the tuning server, the PUT handler and an optimizer process
(analysis/engine/optimizer.py, analysis/engine/utils/save_data.py, analysis/optimizer/optimizer.py,
common/tuning/optimizer.go).

The server and the handler are one thread of control: the server waits for the answer of each
request. The optimizer process is another. They exchange messages over the two directions of a
pipe, each a queue. A run is any interleaving of their steps. */
module Protocol {
  import opened Prelude

  /** `evals` is how many parameter sets the engine evaluates. Some engines announce their budget
  first. After a restart the first request repeats the last iteration of the log, with an empty
  value. `fits` says whether the k-th suggestion satisfies the project's relations. */
  datatype Config = Config(evals: nat, announces: bool, restart: bool, lastIter: nat, fits: nat -> bool) {
    function FirstIter(): nat {
      if restart then lastIter else 0
    }
  }

  /** From the engine to the handler. */
  datatype Message = Announce | Suggest(k: nat) | Finished | Failed

  /** A benchmark value, by what it measures. */
  datatype Value = Baseline | Of(k: nat) | Empty

  datatype Engine = Announcing | Ready | Waiting | Ended

  /** Posting waits for the announced budget; Greeting is about to send the request of iteration -1;
  Putting is about to send a request; Receiving is in the handler, waiting for the engine. */
  datatype Tuner = Posting | Greeting | Putting(iter: nat, value: Value) | Receiving(iter: nat) | Done | Aborted

  /** `received` are the values the engine got, `suggested` how many parameter sets it sent. */
  datatype State = State(engine: Engine, tuner: Tuner, toHandler: seq<Message>, toEngine: seq<Value>,
                         received: seq<Value>, suggested: nat)

  datatype Action =
    | EngineAnnounces | EngineSuggests | EngineReceives | EngineFinishes | EngineFails
    | PostReturns | PutGreets | PutSends | PutReturns

  function Init(c: Config): State {
    State(if c.announces then Announcing else Ready, if c.announces then Posting else Greeting, [], [], [], 0)
  }

  /** save_tuning_data_file sends the value on unless the iteration is 0 or the value is empty. */
  predicate Forwards(iter: nat, value: Value) {
    iter != 0 && value != Empty
  }

  /** The state after an action, if it is possible. */
  function Step(c: Config, s: State, a: Action): Option<State> {
    match a
    case EngineAnnounces =>
      if s.engine == Announcing then Some(s.(engine := Ready, toHandler := s.toHandler + [Announce])) else None
    case EngineSuggests =>
      if s.engine == Ready && |s.received| < c.evals
      then Some(s.(engine := Waiting, toHandler := s.toHandler + [Suggest(s.suggested)], suggested := s.suggested + 1))
      else None
    case EngineReceives =>
      if s.engine == Waiting && s.toEngine != []
      then Some(s.(engine := Ready, toEngine := s.toEngine[1..], received := s.received + [s.toEngine[0]]))
      else None
    case EngineFinishes =>
      if s.engine == Ready && |s.received| == c.evals
      then Some(s.(engine := Ended, toHandler := s.toHandler + [Finished])) else None
    case EngineFails =>
      if s.engine == Announcing || s.engine == Ready
      then Some(s.(engine := Ended, toHandler := s.toHandler + [Failed])) else None
    case PostReturns =>
      if s.tuner != Posting || s.toHandler == [] then None
      else
        // A failure takes the place of the budget in the answer, which cannot be sent.
        Some(s.(tuner := if s.toHandler[0] == Failed then Aborted else Greeting, toHandler := s.toHandler[1..]))
    case PutGreets =>
      if s.tuner == Greeting
      then Some(s.(tuner := Putting(c.FirstIter(), if c.restart then Empty else Baseline))) else None
    case PutSends =>
      if !s.tuner.Putting? then None
      else if Forwards(s.tuner.iter, s.tuner.value)
      then Some(s.(tuner := Receiving(s.tuner.iter), toEngine := s.toEngine + [s.tuner.value]))
      else Some(s.(tuner := Receiving(s.tuner.iter)))
    case PutReturns =>
      if !s.tuner.Receiving? || s.toHandler == [] then None
      else
        var rest := s.(toHandler := s.toHandler[1..]);
        match s.toHandler[0]
        case Suggest(k) =>
          // DynamicTuned advances the iteration only when the suggestion satisfies the relations;
          // otherwise the threshold is put as the value of the same iteration.
          Some(rest.(tuner := Putting(s.tuner.iter + (if c.fits(k) then 1 else 0), Of(k))))
        case Finished => Some(rest.(tuner := Done))
        case _ => Some(rest.(tuner := Aborted))
  }

  /** The state after a run, if each of its actions is possible in turn. */
  function Run(c: Config, actions: seq<Action>): Option<State> {
    if actions == [] then Some(Init(c))
    else
      match Run(c, actions[..|actions| - 1])
      case None => None
      case Some(s) => Step(c, s, actions[|actions| - 1])
  }

  // ---- the invariant ----

  /** Values the engine received, in order: each for the suggestion of the same position. */
  ghost predicate InOrder(s: State) {
    forall i :: 0 <= i < |s.received| ==> s.received[i] == Of(i)
  }

  /** The engine's state says how suggestions and values balance. */
  ghost predicate EngineBalance(c: Config, s: State) {
    match s.engine
    case Announcing => c.announces && s.tuner == Posting && s.suggested == 0 && s.received == []
    case Ready => s.suggested == |s.received| <= c.evals
    case Waiting => s.suggested == |s.received| + 1 <= c.evals
    case Ended => s.suggested == |s.received| <= c.evals
  }

  /** What is on its way to the handler before the tuner reads: the budget, if still unread, and
  then at most one message. */
  ghost predicate Pending(c: Config, s: State, budget: seq<Message>) {
    && s.toEngine == []
    && match s.engine
       case Announcing => s.toHandler == []
       case Ready => s.toHandler == budget
       case Waiting => s.toHandler == budget + [Suggest(|s.received|)]
       case Ended => s.toHandler == budget + [Failed] || (|s.received| == c.evals && s.toHandler == budget + [Finished])
  }

  ghost predicate TunerBalance(c: Config, s: State) {
    match s.tuner
    case Posting =>
      c.announces && s.received == []
      && (Pending(c, s, [Announce]) || (s.engine == Ended && s.toEngine == [] && s.toHandler == [Failed]))
    case Greeting => s.received == [] && s.engine != Announcing && Pending(c, s, [])
    case Putting(iter, Of(k)) =>
      s.engine == Waiting && s.toHandler == [] && s.toEngine == [] && k == |s.received|
      && (iter == 0 <==> !Good(c)) && (k > 0 ==> Good(c))
    case Putting(iter, value) =>
      s.received == [] && s.engine != Announcing && Pending(c, s, []) && iter == c.FirstIter()
      && value == (if c.restart then Empty else Baseline)
    case Receiving(iter) =>
      s.engine != Announcing
      && ((Pending(c, s, []) && (if s.received == [] then iter == c.FirstIter() else iter != 0 && Good(c)))
          || (s.engine == Waiting && s.toHandler == [] && s.toEngine == [Of(|s.received|)] && iter != 0 && Good(c))
          || (s.engine == Waiting && s.toHandler == [] && s.toEngine == [] && s.received == [] && iter == 0 && !Good(c)))
    case Done => s.engine == Ended && s.toHandler == [] && s.toEngine == [] && |s.received| == c.evals && Good(c)
    case Aborted => s.engine == Ended && s.toHandler == [] && s.toEngine == []
  }

  /** The engine evaluates nothing, or the first value put is one the handler forwards: a run that
  starts at iteration 0 needs its first suggestion to satisfy the relations. */
  predicate Good(c: Config) {
    c.evals == 0 || c.FirstIter() != 0 || c.fits(0)
  }

  ghost predicate Inv(c: Config, s: State) {
    InOrder(s) && EngineBalance(c, s) && TunerBalance(c, s)
  }

  lemma InitInv(c: Config)
    ensures Inv(c, Init(c))
  {
  }

  predicate IsEngineAction(a: Action) {
    a.EngineAnnounces? || a.EngineSuggests? || a.EngineReceives? || a.EngineFinishes? || a.EngineFails?
  }

  lemma EngineStepInv(c: Config, s: State, a: Action)
    requires Inv(c, s) && Step(c, s, a).Some? && IsEngineAction(a)
    ensures Inv(c, Step(c, s, a).value)
  {
  }

  lemma TunerStepInv(c: Config, s: State, a: Action)
    requires Inv(c, s) && Step(c, s, a).Some? && !IsEngineAction(a)
    ensures Inv(c, Step(c, s, a).value)
  {
  }

  lemma StepInv(c: Config, s: State, a: Action)
    requires Inv(c, s) && Step(c, s, a).Some?
    ensures Inv(c, Step(c, s, a).value)
  {
    if IsEngineAction(a) {
      EngineStepInv(c, s, a);
    } else {
      TunerStepInv(c, s, a);
    }
  }

  lemma {:induction false} RunInv(c: Config, actions: seq<Action>)
    requires Run(c, actions).Some?
    ensures Inv(c, Run(c, actions).value)
  {
    if actions == [] {
      InitInv(c);
    } else {
      RunInv(c, actions[..|actions| - 1]);
      StepInv(c, Run(c, actions[..|actions| - 1]).value, actions[|actions| - 1]);
    }
  }

  // ---- safety over all runs ----

  /** In every run the k-th value the engine receives is the one put for the k-th suggestion it
  sent, and the pipe never holds more than two messages for the handler or one for the engine. */
  lemma LockStep(c: Config, actions: seq<Action>)
    requires Run(c, actions).Some?
    ensures var s := Run(c, actions).value;
      && (forall i :: 0 <= i < |s.received| ==> s.received[i] == Of(i))
      && |s.received| <= s.suggested <= |s.received| + 1 && s.suggested <= c.evals
      && |s.toHandler| <= 2 && |s.toEngine| <= 1
  {
    RunInv(c, actions);
  }

  /** The tuner learns that the search finished exactly when the engine has received the values of
  all its evaluations. */
  lemma FinishedAfterAllValues(c: Config, actions: seq<Action>)
    requires Run(c, actions).Some? && Run(c, actions).value.tuner == Done
    ensures var s := Run(c, actions).value;
      s.received == seq(c.evals, (i: nat) => Of(i)) && s.engine == Ended && s.toHandler == [] && s.toEngine == []
  {
    RunInv(c, actions);
  }

  /** How many of the first n suggestions satisfy the relations. */
  function Fitting(c: Config, n: nat): nat {
    if n == 0 then 0 else Fitting(c, n - 1) + if c.fits(n - 1) then 1 else 0
  }

  function Suggestions(messages: seq<Message>): nat {
    if messages == [] then 0
    else Suggestions(messages[..|messages| - 1]) + if messages[|messages| - 1].Suggest? then 1 else 0
  }

  /** The tuner's iteration is the first one and the number of suggestions it has read that fit. */
  ghost predicate IterationCounts(c: Config, s: State) {
    var first := if c.restart then c.lastIter else 0;
    match s.tuner
    case Putting(iter, Of(k)) => iter == first + Fitting(c, k + 1)
    case Putting(iter, _) => iter == first
    case Receiving(iter) =>
      Suggestions(s.toHandler) <= s.suggested
      && iter == first + Fitting(c, s.suggested - Suggestions(s.toHandler))
    case _ => true
  }

  lemma SuggestionsOf(queue: seq<Message>, m: Message)
    ensures Suggestions([m]) == if m.Suggest? then 1 else 0
    ensures Suggestions(queue + [m]) == Suggestions(queue) + Suggestions([m])
  {
    assert [m][..0] == [] && (queue + [m])[..|queue|] == queue;
  }

  /** The suggestion read is the last one sent. */
  lemma ReadsLast(c: Config, s: State)
    requires Inv(c, s) && s.tuner.Receiving? && s.toHandler != [] && s.toHandler[0].Suggest?
    ensures s.suggested > 0 && s.toHandler == [Suggest(s.suggested - 1)]
  {
  }

  /** Before a request nothing is left to read that was suggested before. */
  lemma SendCounts(c: Config, s: State)
    requires Inv(c, s) && IterationCounts(c, s) && s.tuner.Putting?
    ensures IterationCounts(c, Step(c, s, PutSends).value)
  {
    if s.tuner.value.Of? {
      assert s.toHandler == [] && s.suggested == s.tuner.value.k + 1;
    } else if s.engine == Waiting {
      assert s.toHandler == [] + [Suggest(0)];
      SuggestionsOf([], Suggest(0));
    } else if s.engine == Ended {
      assert s.toHandler == [] + [Failed] || s.toHandler == [] + [Finished];
      SuggestionsOf([], Failed);
      SuggestionsOf([], Finished);
    }
  }

  lemma ReturnCounts(c: Config, s: State)
    requires IterationCounts(c, s) && s.tuner.Receiving? && s.toHandler != []
    requires s.toHandler[0].Suggest? ==> s.suggested > 0 && s.toHandler == [Suggest(s.suggested - 1)]
    ensures IterationCounts(c, Step(c, s, PutReturns).value)
  {
    SuggestionsOf([], s.toHandler[0]);
  }

  lemma EngineCounts(c: Config, s: State, a: Action)
    requires IterationCounts(c, s) && Step(c, s, a).Some? && IsEngineAction(a)
    ensures IterationCounts(c, Step(c, s, a).value)
  {
    match a
    case EngineAnnounces => SuggestionsOf(s.toHandler, Announce);
    case EngineSuggests => SuggestionsOf(s.toHandler, Suggest(s.suggested));
    case EngineFinishes => SuggestionsOf(s.toHandler, Finished);
    case EngineFails => SuggestionsOf(s.toHandler, Failed);
    case _ =>
  }

  lemma StepCounts(c: Config, s: State, a: Action)
    requires Inv(c, s) && IterationCounts(c, s) && Step(c, s, a).Some?
    ensures IterationCounts(c, Step(c, s, a).value)
  {
    match a
    case PutSends => SendCounts(c, s);
    case PutReturns =>
      if s.toHandler[0].Suggest? {
        ReadsLast(c, s);
      }
      ReturnCounts(c, s);
    case PostReturns =>
    case PutGreets =>
    case _ => EngineCounts(c, s, a);
  }

  lemma {:induction false} IterationsAreCounted(c: Config, actions: seq<Action>)
    requires Run(c, actions).Some?
    ensures IterationCounts(c, Run(c, actions).value)
  {
    if actions != [] {
      var front := actions[..|actions| - 1];
      IterationsAreCounted(c, front);
      RunInv(c, front);
      StepCounts(c, Run(c, front).value, actions[|actions| - 1]);
    }
  }

  // ---- progress ----

  predicate Final(s: State) {
    s.tuner == Done || s.tuner == Aborted
  }

  ghost predicate Stuck(c: Config, s: State) {
    forall a :: Step(c, s, a).None?
  }

  /** Some action of the state, where there is one. */
  function NextAction(c: Config, s: State): Action {
    match s.engine
    case Announcing => EngineAnnounces
    case Ready => if |s.received| < c.evals then EngineSuggests else EngineFinishes
    case _ =>
      match s.tuner
      case Posting => PostReturns
      case Greeting => PutGreets
      case Putting(_, _) => PutSends
      case _ => if s.toHandler != [] then PutReturns else EngineReceives
  }

  lemma NextActionWorks(c: Config, s: State)
    requires Inv(c, s) && Good(c) && !Final(s)
    ensures Step(c, s, NextAction(c, s)).Some?
  {
  }

  /** A good configuration never deadlocks: whatever the interleaving, a run that has not ended can
  go on. */
  lemma NeverStuck(c: Config, actions: seq<Action>)
    requires Good(c) && Run(c, actions).Some? && !Final(Run(c, actions).value)
    ensures !Stuck(c, Run(c, actions).value)
  {
    RunInv(c, actions);
    NextActionWorks(c, Run(c, actions).value);
  }

  // ---- termination ----

  /** Messages the tuner has yet to read in the handler, sent or not. */
  ghost function Unread(c: Config, s: State): int {
    match s.engine
    case Announcing => c.evals + 1
    case Ready => c.evals - |s.received| + 1 + Answers(s)
    case Waiting => c.evals - |s.received| + Answers(s)
    case Ended => Answers(s)
  }

  ghost function Answers(s: State): int {
    if s.tuner == Posting && s.toHandler != [] then |s.toHandler| - 1 else |s.toHandler|
  }

  /** A measure that every step lowers. */
  ghost function Rank(c: Config, s: State): int {
    var engine := match s.engine
      case Announcing => 2 * c.evals + 2
      case Ready => 2 * (c.evals - |s.received|) + 1
      case Waiting => 2 * (c.evals - |s.received|)
      case Ended => 0;
    var tuner := match s.tuner
      case Posting => 3
      case Greeting => 2
      case Putting(_, _) => 1
      case _ => 0;
    engine + tuner + 2 * Unread(c, s)
  }

  lemma EngineStepLowersRank(c: Config, s: State, a: Action)
    requires Inv(c, s) && Step(c, s, a).Some? && IsEngineAction(a)
    ensures Rank(c, Step(c, s, a).value) < Rank(c, s)
  {
  }

  lemma TunerStepLowersRank(c: Config, s: State, a: Action)
    requires Inv(c, s) && Step(c, s, a).Some? && !IsEngineAction(a)
    ensures Rank(c, Step(c, s, a).value) < Rank(c, s)
  {
  }

  lemma StepLowersRank(c: Config, s: State, a: Action)
    requires Inv(c, s) && Step(c, s, a).Some?
    ensures 0 <= Rank(c, Step(c, s, a).value) < Rank(c, s)
  {
    StepInv(c, s, a);
    if IsEngineAction(a) {
      EngineStepLowersRank(c, s, a);
    } else {
      TunerStepLowersRank(c, s, a);
    }
  }

  /** No run is longer than this, so every run reaches a state where nothing more can happen. */
  lemma {:induction false} RunsEnd(c: Config, actions: seq<Action>)
    requires Run(c, actions).Some?
    ensures |actions| + Rank(c, Run(c, actions).value) <= 4 * c.evals + 7
    ensures |actions| <= 4 * c.evals + 7
  {
    RunInv(c, actions);
    if actions != [] {
      var front := actions[..|actions| - 1];
      RunsEnd(c, front);
      RunInv(c, front);
      StepLowersRank(c, Run(c, front).value, actions[|actions| - 1]);
    }
  }

  // ---- exactly when the search completes ----

  /** A run after which nothing more can happen. */
  ghost predicate Complete(c: Config, actions: seq<Action>) {
    Run(c, actions).Some? && Stuck(c, Run(c, actions).value)
  }

  /** Without a failure on its way the tuner does not abort, and a step other than a failure adds none. */
  lemma StepKeepsSound(c: Config, s: State, a: Action)
    requires Inv(c, s) && Step(c, s, a).Some? && a != EngineFails
    requires Failed !in s.toHandler && s.tuner != Aborted
    ensures var t := Step(c, s, a).value; Failed !in t.toHandler && t.tuner != Aborted
  {
    assert s.toHandler != [] ==> s.toHandler[0] in s.toHandler;
  }

  lemma {:induction false} NoFailureNoAbort(c: Config, actions: seq<Action>)
    requires Run(c, actions).Some? && EngineFails !in actions
    ensures Failed !in Run(c, actions).value.toHandler && Run(c, actions).value.tuner != Aborted
  {
    if actions != [] {
      var front, a := actions[..|actions| - 1], actions[|actions| - 1];
      assert a in actions;
      NoFailureNoAbort(c, front);
      RunInv(c, front);
      StepKeepsSound(c, Run(c, front).value, a);
    }
  }

  lemma Extend(c: Config, actions: seq<Action>, a: Action)
    ensures Run(c, actions + [a]) == match Run(c, actions) case None => None case Some(s) => Step(c, s, a)
  {
    assert (actions + [a])[..|actions|] == actions;
  }

  lemma OneMessage(m: Message)
    ensures [] + [m] == [m] && [m][1..] == []
  {
  }

  /** The engine has failed, and the tuner has aborted or the failure is the last message it will read. */
  ghost predicate FailureOnItsWay(s: State) {
    s.engine == Ended && (s.tuner == Aborted || (s.toHandler != [] && s.toHandler[|s.toHandler| - 1] == Failed))
  }

  lemma FailureStays(c: Config, s: State, a: Action)
    requires Inv(c, s) && Step(c, s, a).Some? && (FailureOnItsWay(s) || a == EngineFails)
    ensures FailureOnItsWay(Step(c, s, a).value)
  {
  }

  lemma {:induction false} FailureRemains(c: Config, actions: seq<Action>)
    requires Run(c, actions).Some? && EngineFails in actions
    ensures FailureOnItsWay(Run(c, actions).value)
  {
    var front, a := actions[..|actions| - 1], actions[|actions| - 1];
    assert actions == front + [a];
    if EngineFails in front {
      FailureRemains(c, front);
    }
    RunInv(c, front);
    FailureStays(c, Run(c, front).value, a);
  }

  lemma FailureGoesOn(c: Config, s: State)
    requires Inv(c, s) && FailureOnItsWay(s) && s.tuner != Aborted
    ensures !Stuck(c, s)
  {
    assert Step(c, s, NextAction(c, s)).Some?;
  }

  /** If the engine fails, the tuner aborts in the end. */
  lemma FailureAborts(c: Config, actions: seq<Action>)
    requires Complete(c, actions) && EngineFails in actions
    ensures Run(c, actions).value.tuner == Aborted
  {
    var s := Run(c, actions).value;
    RunInv(c, actions);
    FailureRemains(c, actions);
    if s.tuner != Aborted {
      FailureGoesOn(c, s);
    }
  }

  /** The engine may fail at once. */
  lemma FailsAtOnce(c: Config)
    ensures Run(c, [EngineFails]).Some? && EngineFails in [EngineFails]
  {
    assert [] + [EngineFails] == [EngineFails];
    Extend(c, [], EngineFails);
  }

  /** A run to the state in which the engine is about to suggest and the tuner about to greet. */
  lemma GreetingRun(c: Config) returns (actions: seq<Action>)
    ensures Run(c, actions) == Some(State(Ready, Greeting, [], [], [], 0)) && EngineFails !in actions
  {
    actions := [];
    assert Run(c, actions) == Some(Init(c));
    if c.announces {
      OneMessage(Announce);
      Extend(c, actions, EngineAnnounces);
      actions := actions + [EngineAnnounces];
      assert Run(c, actions) == Some(State(Ready, Posting, [Announce], [], [], 0));
      Extend(c, actions, PostReturns);
      actions := actions + [PostReturns];
    }
  }

  /** A run into the deadlock of a configuration that is not good: the handler does not forward
  the threshold put for the first suggestion, because it is put for iteration 0 again, and then
  both sides wait for each other. */
  lemma DeadlockRun(c: Config) returns (actions: seq<Action>)
    requires !Good(c)
    ensures Run(c, actions).Some? && EngineFails !in actions
    ensures Stuck(c, Run(c, actions).value) && !Final(Run(c, actions).value)
  {
    actions := GreetingRun(c);
    OneMessage(Suggest(0));
    Extend(c, actions, EngineSuggests);
    actions := actions + [EngineSuggests];
    Extend(c, actions, PutGreets);
    actions := actions + [PutGreets];
    var first: Value := if c.restart then Empty else Baseline;
    assert Run(c, actions) == Some(State(Waiting, Putting(0, first), [Suggest(0)], [], [], 1));
    Extend(c, actions, PutSends);
    actions := actions + [PutSends];
    assert Run(c, actions) == Some(State(Waiting, Receiving(0), [Suggest(0)], [], [], 1));
    Extend(c, actions, PutReturns);
    actions := actions + [PutReturns];
    assert Run(c, actions) == Some(State(Waiting, Putting(0, Of(0)), [], [], [], 1));
    Extend(c, actions, PutSends);
    actions := actions + [PutSends];
    assert Run(c, actions) == Some(State(Waiting, Receiving(0), [], [], [], 1));
  }

  /** Every complete run without an engine failure ends with the tuner told that the search
  finished exactly when the configuration is good. */
  lemma CompletesIffGood(c: Config)
    ensures Good(c) <==>
      forall actions :: Complete(c, actions) && EngineFails !in actions ==> Run(c, actions).value.tuner == Done
  {
    if Good(c) {
      forall actions | Complete(c, actions) && EngineFails !in actions ensures Run(c, actions).value.tuner == Done {
        NoFailureNoAbort(c, actions);
        if !Final(Run(c, actions).value) {
          NeverStuck(c, actions);
        }
      }
    } else {
      var actions := DeadlockRun(c);
      assert Complete(c, actions);
    }
  }
}
