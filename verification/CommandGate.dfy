/**
 * The gate that holds commands back until the server is ready. Callers, the signal, the
 * failure and the single queue worker interleave; reading the readiness state and offering to
 * the queue are separate steps, and so are the two halves of the signal and of the failure.
 */
module CommandGate {
  import opened Options

  datatype Readiness = Pending | Ready | Broken(error: string)

  /** The one-shot deferred the worker waits on. */
  datatype Gate = Unset | Opened | Rejected(error: string)

  datatype Exit = Completed(value: int) | EffectFailed(reason: string) | StartupError(error: string)

  datatype Caller = Asked | Saw(readiness: Readiness) | Waiting | Running | Returned(exit: Exit)

  datatype Worker = Idle | Awaiting(command: nat) | Executing(command: nat) | Finishing(command: nat, exit: Exit)

  datatype Mark = Begin(command: nat) | End(command: nat)

  /**
   * `offered`, `taken`, `settled` and `started` record commands in the order these things
   * happened to them; `marks` records when queued effects begin and end; `exits` the exit of
   * every effect that ended.
   */
  datatype State = State(
    readiness: Readiness, gate: Gate, opening: nat, failing: multiset<string>,
    callers: map<nat, Caller>, queue: seq<nat>, worker: Worker, results: map<nat, Exit>,
    signalled: bool, failures: set<string>, offered: seq<nat>, taken: seq<nat>, settled: seq<nat>,
    started: seq<nat>, marks: seq<Mark>, exits: map<nat, Exit>)

  datatype Event =
    | SignalState | SignalGate
    | FailState(error: string) | FailGate(error: string)
    | Call(c: nat) | ReadState(c: nat) | RunDirect(c: nat) | RejectDirect(c: nat) | Offer(c: nat)
    | EndDirect(c: nat, exit: Exit)
    | TakeCommand | Proceed | EndQueued(exit: Exit) | Settle
    | Wake(c: nat)

  function Start(): State {
    State(Pending, Unset, 0, multiset{}, map[], [], Idle, map[], false, {}, [], [], [], [], [], map[])
  }

  predicate In(s: State, c: nat, phase: Caller) {
    c in s.callers && s.callers[c] == phase
  }

  predicate Enabled(s: State, e: Event) {
    match e
    case SignalState => true
    case SignalGate => s.opening > 0
    case FailState(_) => true
    case FailGate(error) => error in s.failing
    case Call(c) => c !in s.callers
    case ReadState(c) => In(s, c, Asked)
    case RunDirect(c) => In(s, c, Saw(Ready))
    case RejectDirect(c) => c in s.callers && s.callers[c].Saw? && s.callers[c].readiness.Broken?
    case Offer(c) => In(s, c, Saw(Pending))
    case EndDirect(c, exit) => In(s, c, Running) && !exit.StartupError?
    case TakeCommand => s.worker.Idle? && s.queue != []
    case Proceed => s.worker.Awaiting? && !s.gate.Unset?
    case EndQueued(exit) => s.worker.Executing? && !exit.StartupError?
    case Settle => s.worker.Finishing?
    case Wake(c) => In(s, c, Waiting) && c in s.results
  }

  function Apply(s: State, e: Event): State
    requires Enabled(s, e)
  {
    match e
    case SignalState => s.(readiness := Ready, opening := s.opening + 1, signalled := true)
    case SignalGate => s.(opening := s.opening - 1, gate := if s.gate.Unset? then Opened else s.gate)
    case FailState(error) =>
      s.(readiness := Broken(error), failing := s.failing + multiset{error}, failures := s.failures + {error})
    case FailGate(error) =>
      s.(failing := s.failing - multiset{error}, gate := if s.gate.Unset? then Rejected(error) else s.gate)
    case Call(c) => s.(callers := s.callers[c := Asked])
    case ReadState(c) => s.(callers := s.callers[c := Saw(s.readiness)])
    case RunDirect(c) => s.(callers := s.callers[c := Running], started := s.started + [c])
    case RejectDirect(c) => s.(callers := s.callers[c := Returned(StartupError(s.callers[c].readiness.error))])
    case Offer(c) => s.(callers := s.callers[c := Waiting], queue := s.queue + [c], offered := s.offered + [c])
    case EndDirect(c, exit) => s.(callers := s.callers[c := Returned(exit)], exits := s.exits[c := exit])
    case TakeCommand => s.(queue := s.queue[1..], worker := Awaiting(s.queue[0]), taken := s.taken + [s.queue[0]])
    case Proceed =>
      var c := s.worker.command;
      if s.gate.Opened? then
        s.(worker := Executing(c), started := s.started + [c], marks := s.marks + [Begin(c)])
      else s.(worker := Finishing(c, StartupError(s.gate.error)))
    case EndQueued(exit) =>
      var c := s.worker.command;
      s.(worker := Finishing(c, exit), marks := s.marks + [End(c)], exits := s.exits[c := exit])
    case Settle =>
      var c := s.worker.command;
      s.(worker := Idle, settled := s.settled + [c],
         results := if c in s.results then s.results else s.results[c := s.worker.exit])
    case Wake(c) => s.(callers := s.callers[c := Returned(s.results[c])])
  }

  function Run(events: seq<Event>): State {
    if events == [] then Start()
    else
      var t := Run(events[..|events| - 1]);
      var e := events[|events| - 1];
      if Enabled(t, e) then Apply(t, e) else t
  }

  // ---------------------------------------------------------------- the invariant

  predicate Distinct(cs: seq<nat>) {
    forall i, j :: 0 <= i < j < |cs| ==> cs[i] != cs[j]
  }

  /** No command effect has begun, queued or direct, unless readiness was signalled. */
  predicate OnlyAfterSignal(s: State) {
    && (s.readiness.Ready? || s.gate.Opened? || s.opening > 0 ==> s.signalled)
    && (s.started != [] ==> s.signalled)
    && (forall c :: c in s.callers && s.callers[c] == Saw(Ready) ==> s.signalled)
  }

  /** Commands pass through the queue and the worker in offer order, and none is lost. */
  predicate InOrder(s: State) {
    && s.offered == s.taken + s.queue
    && s.taken == s.settled + (if s.worker.Idle? then [] else [s.worker.command])
    && Distinct(s.offered)
    && Placed(s)
    && s.results.Keys == (set c | c in s.settled)
  }

  /** Offered commands are those whose callers wait for a result or got one. */
  predicate Placed(s: State) {
    && (forall c :: c in s.offered ==> c in s.callers && (s.callers[c].Waiting? || s.callers[c].Returned?))
    && (forall c :: c in s.callers && s.callers[c].Waiting? ==> c in s.offered)
  }

  /** At most one queued effect is under way: begins and ends alternate, pairwise matching. */
  predicate OneAtATime(s: State) {
    && (forall i :: 0 <= i < |s.marks| ==> if i % 2 == 0 then s.marks[i].Begin? else s.marks[i].End?)
    && (forall i :: 0 <= i < |s.marks| && i % 2 == 1 ==> s.marks[i].command == s.marks[i - 1].command)
    && (|s.marks| % 2 == 1 <==> s.worker.Executing?)
    && (s.worker.Executing? ==> s.marks[|s.marks| - 1] == Begin(s.worker.command))
  }

  /** What a queued command settles with, given how the gate was decided. */
  function Verdict(s: State, c: nat): Exit {
    match s.gate
    case Rejected(error) => StartupError(error)
    case _ => if c in s.exits then s.exits[c] else StartupError("")
  }

  predicate GateOk(s: State) {
    && (s.gate.Rejected? ==> s.gate.error in s.failures && s.marks == [])
    && (forall error :: error in s.failing ==> error in s.failures)
    && (s.readiness.Broken? ==> s.readiness.error in s.failures)
    && (s.marks != [] || s.worker.Executing? || s.worker.Finishing? || s.settled != [] ==> !s.gate.Unset?)
    && (s.worker.Executing? ==> s.gate.Opened?)
  }

  /** Settled commands and the one being settled have the exit the gate's decision calls for. */
  predicate Verdicts(s: State) {
    FinishingVerdict(s) && ResultVerdicts(s)
  }

  predicate FinishingVerdict(s: State) {
    s.worker.Finishing? ==>
      s.worker.exit == Verdict(s, s.worker.command) && (s.gate.Opened? ==> s.worker.command in s.exits)
  }

  predicate ResultVerdicts(s: State) {
    forall c :: c in s.results ==> s.results[c] == Verdict(s, c) && (s.gate.Opened? ==> c in s.exits)
  }

  predicate ExitsOk(s: State) {
    forall c :: c in s.exits ==>
      && !s.exits[c].StartupError?
      && c in s.callers && (s.callers[c].Waiting? || s.callers[c].Returned?)
  }

  /** A caller that saw a broken server saw an error some failure really carried. */
  predicate Refused(s: State) {
    forall c :: c in s.callers && s.callers[c].Saw? && s.callers[c].readiness.Broken? ==>
      s.callers[c].readiness.error in s.failures
  }

  /** A caller whose command was queued returned with the result settled for it. */
  predicate Served(s: State) {
    forall c :: c in s.callers && s.callers[c].Returned? && c in s.offered ==>
      c in s.results && s.callers[c].exit == s.results[c]
  }

  /** A caller that went past the queue returned with its own effect's exit or a startup error. */
  predicate Bypassed(s: State) {
    forall c :: c in s.callers && s.callers[c].Returned? && c !in s.offered ==>
      if s.callers[c].exit.StartupError? then s.callers[c].exit.error in s.failures
      else c in s.exits && s.callers[c].exit == s.exits[c]
  }

  predicate ReturnsOk(s: State) {
    Refused(s) && Served(s) && Bypassed(s)
  }

  function Begins(marks: seq<Mark>): seq<nat> {
    if marks == [] then []
    else
      var m := marks[|marks| - 1];
      Begins(marks[..|marks| - 1]) + if m.Begin? then [m.command] else []
  }

  /** Through an open gate every taken command's effect begins, in the order of the offers. */
  predicate BeginsInOrder(s: State) {
    Begins(s.marks)
    == if s.gate.Opened?
       then s.settled + (if s.worker.Executing? || s.worker.Finishing? then [s.worker.command] else [])
       else []
  }

  predicate Inv(s: State) {
    && OnlyAfterSignal(s) && InOrder(s) && OneAtATime(s)
    && GateOk(s) && Verdicts(s) && ExitsOk(s) && ReturnsOk(s) && BeginsInOrder(s)
  }

  lemma SignalKept(s: State, e: Event)
    requires Inv(s) && Enabled(s, e)
    ensures OnlyAfterSignal(Apply(s, e))
  {
  }

  lemma OrderKept(s: State, e: Event)
    requires InOrder(s) && Enabled(s, e)
    ensures InOrder(Apply(s, e))
  {
    match e {
      case TakeCommand => TakeKeepsOrder(s);
      case Offer(c) => OfferKeepsOrder(s, c);
      case Settle => SettleKeepsOrder(s);
      case _ => CallerKeepsOrder(s, e);
    }
  }

  lemma TakeKeepsOrder(s: State)
    requires InOrder(s) && Enabled(s, TakeCommand)
    ensures InOrder(Apply(s, TakeCommand))
  {
    assert s.queue == [s.queue[0]] + s.queue[1..];
    assert s.taken + s.queue == (s.taken + [s.queue[0]]) + s.queue[1..];
  }

  lemma OfferKeepsOrder(s: State, c: nat)
    requires InOrder(s) && Enabled(s, Offer(c))
    ensures InOrder(Apply(s, Offer(c)))
  {
    var s' := Apply(s, Offer(c));
    assert c !in s.offered;
    assert s'.offered == s'.taken + s'.queue;
    assert forall d :: d in s'.offered <==> d in s.offered || d == c;
  }

  lemma SettleKeepsOrder(s: State)
    requires InOrder(s) && Enabled(s, Settle)
    ensures InOrder(Apply(s, Settle))
  {
    var s' := Apply(s, Settle);
    assert s'.taken == s'.settled + [];
    assert forall c :: c in s'.settled <==> c in s.settled || c == s.worker.command;
  }

  lemma CallerKeepsOrder(s: State, e: Event)
    requires InOrder(s) && Enabled(s, e) && !e.TakeCommand? && !e.Offer? && !e.Settle?
    ensures InOrder(Apply(s, e))
  {
    PlacedKept(s, e);
    QueueUntouched(s, e);
    WorkerUntouched(s, e);
  }

  lemma QueueUntouched(s: State, e: Event)
    requires Enabled(s, e) && !e.TakeCommand? && !e.Offer? && !e.Settle?
    ensures var s' := Apply(s, e); s'.offered == s.offered && s'.taken == s.taken && s'.queue == s.queue
  {
  }

  lemma WorkerUntouched(s: State, e: Event)
    requires Enabled(s, e) && !e.TakeCommand? && !e.Offer? && !e.Settle?
    ensures var s' := Apply(s, e);
            && s'.settled == s.settled && s'.results == s.results
            && s'.worker.Idle? == s.worker.Idle? && (!s.worker.Idle? ==> s'.worker.command == s.worker.command)
  {
  }

  lemma PlacedKept(s: State, e: Event)
    requires Placed(s) && Enabled(s, e) && !e.Offer?
    ensures Placed(Apply(s, e))
  {
  }

  lemma MarksKept(s: State, e: Event)
    requires OneAtATime(s) && Enabled(s, e)
    ensures OneAtATime(Apply(s, e))
  {
    match e {
      case Proceed => BeginKeepsMarks(s);
      case EndQueued(exit) => EndKeepsMarks(s, exit);
      case _ => assert Apply(s, e).marks == s.marks;
    }
  }

  lemma BeginKeepsMarks(s: State)
    requires OneAtATime(s) && Enabled(s, Proceed)
    ensures OneAtATime(Apply(s, Proceed))
  {
    if s.gate.Opened? {
      assert Apply(s, Proceed).marks == s.marks + [Begin(s.worker.command)];
    }
  }

  lemma EndKeepsMarks(s: State, exit: Exit)
    requires OneAtATime(s) && Enabled(s, EndQueued(exit))
    ensures OneAtATime(Apply(s, EndQueued(exit)))
  {
    assert Apply(s, EndQueued(exit)).marks == s.marks + [End(s.worker.command)];
  }

  lemma GateKept(s: State, e: Event)
    requires GateOk(s) && OneAtATime(s) && Enabled(s, e)
    ensures GateOk(Apply(s, e))
  {
    FailuresKept(s, e);
  }

  lemma FailuresKept(s: State, e: Event)
    requires GateOk(s) && Enabled(s, e)
    ensures s.failures <= Apply(s, e).failures
    ensures forall error :: error in Apply(s, e).failing ==> error in Apply(s, e).failures
  {
  }

  lemma ExitsKept(s: State, e: Event)
    requires ExitsOk(s) && Placed(s) && WorkerFresh(s) && Enabled(s, e)
    ensures ExitsOk(Apply(s, e))
  {
  }

  /** A command the worker holds was offered and has not been settled before. */
  predicate WorkerFresh(s: State) {
    !s.worker.Idle? ==> s.worker.command in s.offered && s.worker.command !in s.results
  }

  lemma WorkerIsFresh(s: State)
    requires InOrder(s)
    ensures WorkerFresh(s)
  {
    if s.worker.Idle? {
      return;
    }
    var last := |s.taken| - 1;
    assert s.taken[last] == s.worker.command && s.offered[last] == s.worker.command;
    forall i | 0 <= i < |s.settled| ensures s.settled[i] != s.worker.command {
      assert s.offered[i] == s.taken[i] == s.settled[i];
    }
  }

  lemma FinishingKept(s: State, e: Event)
    requires FinishingVerdict(s) && GateOk(s) && Placed(s) && WorkerFresh(s) && Enabled(s, e)
    ensures FinishingVerdict(Apply(s, e))
  {
  }

  lemma ResultsKept(s: State, e: Event)
    requires Verdicts(s) && GateOk(s) && Placed(s) && WorkerFresh(s) && Enabled(s, e)
    requires s.results.Keys == set c | c in s.settled
    requires forall c :: c in s.results ==> c in s.offered
    ensures ResultVerdicts(Apply(s, e))
  {
    if !e.Settle? {
      assert Apply(s, e).results == s.results;
    }
  }

  lemma SettledWasOffered(s: State)
    requires InOrder(s)
    ensures forall c :: c in s.results ==> c in s.offered
  {
    forall c | c in s.settled ensures c in s.offered {
      assert c in s.taken;
    }
  }

  lemma ReturnsKept(s: State, e: Event)
    requires ReturnsOk(s) && GateOk(s) && Placed(s) && WorkerFresh(s) && Enabled(s, e)
    ensures ReturnsOk(Apply(s, e))
  {
    RefusedKept(s, e);
    ServedKept(s, e);
    BypassedKept(s, e);
  }

  lemma RefusedKept(s: State, e: Event)
    requires Refused(s) && GateOk(s) && Enabled(s, e)
    ensures Refused(Apply(s, e))
  {
  }

  lemma ServedKept(s: State, e: Event)
    requires Served(s) && Placed(s) && WorkerFresh(s) && Enabled(s, e)
    ensures Served(Apply(s, e))
  {
  }

  lemma BypassedKept(s: State, e: Event)
    requires Refused(s) && Bypassed(s) && Placed(s) && WorkerFresh(s) && Enabled(s, e)
    ensures Bypassed(Apply(s, e))
  {
  }

  lemma BeginsKept(s: State, e: Event)
    requires BeginsInOrder(s) && GateOk(s) && Enabled(s, e)
    ensures BeginsInOrder(Apply(s, e))
  {
    match e {
      case Proceed => ProceedKeepsBegins(s);
      case EndQueued(exit) => EndKeepsBegins(s, exit);
      case SignalGate => assert s.gate.Unset? ==> s.settled == [];
      case FailGate(_) => assert s.gate.Unset? ==> s.marks == [];
      case _ => QueuedUntouched(s, e);
    }
  }

  lemma BeginsSnoc(marks: seq<Mark>, m: Mark)
    ensures Begins(marks + [m]) == Begins(marks) + if m.Begin? then [m.command] else []
  {
    assert (marks + [m])[..|marks|] == marks;
  }

  lemma ProceedKeepsBegins(s: State)
    requires BeginsInOrder(s) && Enabled(s, Proceed)
    ensures BeginsInOrder(Apply(s, Proceed))
  {
    if s.gate.Opened? {
      BeginsSnoc(s.marks, Begin(s.worker.command));
    }
  }

  lemma EndKeepsBegins(s: State, exit: Exit)
    requires BeginsInOrder(s) && Enabled(s, EndQueued(exit))
    ensures BeginsInOrder(Apply(s, EndQueued(exit)))
  {
    BeginsSnoc(s.marks, End(s.worker.command));
  }

  lemma QueuedUntouched(s: State, e: Event)
    requires Enabled(s, e) && !e.Proceed? && !e.EndQueued? && !e.SignalGate? && !e.FailGate?
    ensures var s' := Apply(s, e);
            && s'.marks == s.marks && s'.gate == s.gate
            && s'.settled + (if s'.worker.Executing? || s'.worker.Finishing? then [s'.worker.command] else [])
               == s.settled + (if s.worker.Executing? || s.worker.Finishing? then [s.worker.command] else [])
  {
  }

  lemma StepKeeps(s: State, e: Event)
    requires Inv(s) && Enabled(s, e)
    ensures Inv(Apply(s, e))
  {
    SignalKept(s, e);
    OrderKept(s, e);
    MarksKept(s, e);
    GateKept(s, e);
    WorkerIsFresh(s);
    ExitsKept(s, e);
    SettledWasOffered(s);
    FinishingKept(s, e);
    ResultsKept(s, e);
    ReturnsKept(s, e);
    BeginsKept(s, e);
  }

  /** Over every interleaving of every run the invariant holds. */
  lemma {:induction false} RunKeeps(events: seq<Event>)
    ensures Inv(Run(events))
  {
    if events != [] {
      RunKeeps(events[..|events| - 1]);
      var t, e := Run(events[..|events| - 1]), events[|events| - 1];
      if Enabled(t, e) {
        StepKeeps(t, e);
      }
    }
  }

  // ---------------------------------------------------------------- who decides the gate

  /** A signal or a failure under way has yet to perform its second half; a finished one has decided. */
  predicate Undecided(s: State) {
    s.gate.Unset? ==>
      && (s.signalled ==> s.opening > 0)
      && forall error :: error in s.failures ==> error in s.failing
  }

  lemma UndecidedKept(s: State, e: Event)
    requires Undecided(s) && Enabled(s, e)
    ensures Undecided(Apply(s, e))
  {
  }

  lemma GateAfter(s: State, e: Event)
    requires Enabled(s, e)
    ensures Apply(s, e).gate == if !s.gate.Unset? then s.gate else DecisionOf(e)
  {
  }

  lemma ReadinessAfter(s: State, e: Event)
    requires Enabled(s, e)
    ensures Apply(s, e).readiness == ReadinessOf(e, s.readiness)
  {
  }

  /** How often this event has been performed. */
  function Count(events: seq<Event>, what: Event): nat {
    if events == [] then 0
    else
      var front, e := events[..|events| - 1], events[|events| - 1];
      Count(front, what) + if e == what && Enabled(Run(front), e) then 1 else 0
  }

  lemma OpeningAfter(s: State, e: Event)
    requires Enabled(s, e)
    ensures Apply(s, e).opening == s.opening + (if e.SignalState? then 1 else 0) - (if e.SignalGate? then 1 else 0)
    ensures forall error :: Apply(s, e).failing[error]
              == s.failing[error] + (if e == FailState(error) then 1 else 0) - (if e == FailGate(error) then 1 else 0)
  {
  }

  /** The signals under way are those begun and not finished. */
  lemma {:induction false} SignalsUnderWay(events: seq<Event>)
    ensures Run(events).opening == Count(events, SignalState) - Count(events, SignalGate)
  {
    if events != [] {
      var t, e := Run(events[..|events| - 1]), events[|events| - 1];
      SignalsUnderWay(events[..|events| - 1]);
      if Enabled(t, e) {
        OpeningAfter(t, e);
      }
    }
  }

  /** And so are the failures, error by error. */
  lemma {:induction false} FailuresUnderWay(events: seq<Event>, error: string)
    ensures Run(events).failing[error] == Count(events, FailState(error)) - Count(events, FailGate(error))
  {
    if events != [] {
      var t, e := Run(events[..|events| - 1]), events[|events| - 1];
      FailuresUnderWay(events[..|events| - 1], error);
      if Enabled(t, e) {
        OpeningAfter(t, e);
      }
    }
  }

  /** In every run a gate is undecided only while each signal and each failure is half done. */
  lemma {:induction false} FinishedSignalsDecide(events: seq<Event>)
    ensures Undecided(Run(events))
  {
    if events != [] {
      var t, e := Run(events[..|events| - 1]), events[|events| - 1];
      FinishedSignalsDecide(events[..|events| - 1]);
      if Enabled(t, e) {
        UndecidedKept(t, e);
      }
    }
  }

  function DecisionOf(e: Event): Gate {
    match e
    case SignalGate => Opened
    case FailGate(error) => Rejected(error)
    case _ => Unset
  }

  /** The decision made by the first second half of a signal or a failure that is performed. */
  function FirstDecision(events: seq<Event>): Gate {
    if events == [] then Unset
    else
      var front, e := events[..|events| - 1], events[|events| - 1];
      if FirstDecision(front).Unset? && Enabled(Run(front), e) then DecisionOf(e) else FirstDecision(front)
  }

  /** The gate is decided by whichever of the two halves comes first, and never again. */
  lemma {:induction false} FirstHalfDecides(events: seq<Event>)
    ensures Run(events).gate == FirstDecision(events)
  {
    if events != [] {
      var t, e := Run(events[..|events| - 1]), events[|events| - 1];
      FirstHalfDecides(events[..|events| - 1]);
      if Enabled(t, e) {
        GateAfter(t, e);
      }
    }
  }

  function ReadinessOf(e: Event, before: Readiness): Readiness {
    match e
    case SignalState => Ready
    case FailState(error) => Broken(error)
    case _ => before
  }

  /** What a caller reads is the latest signal or failure. */
  function LatestReadiness(events: seq<Event>): Readiness {
    if events == [] then Pending
    else ReadinessOf(events[|events| - 1], LatestReadiness(events[..|events| - 1]))
  }

  lemma {:induction false} ReadinessIsLatest(events: seq<Event>)
    ensures Run(events).readiness == LatestReadiness(events)
  {
    if events != [] {
      var t, e := Run(events[..|events| - 1]), events[|events| - 1];
      ReadinessIsLatest(events[..|events| - 1]);
      if Enabled(t, e) {
        ReadinessAfter(t, e);
      }
    }
  }

  // ---------------------------------------------------------------- what it guarantees

  /** No effect of any command, queued or direct, begins before readiness has been signalled. */
  lemma NoEffectBeforeSignal(events: seq<Event>)
    ensures !Run(events).signalled ==> Run(events).started == [] && Run(events).marks == []
  {
    RunKeeps(events);
    var s := Run(events);
    if s.marks != [] {
      assert s.gate.Opened? || s.gate.Rejected?;
    }
  }

  /** Queued effects begin and settle in the order of the offers, each command at most once. */
  lemma QueueIsServedInOrder(events: seq<Event>)
    ensures var s := Run(events);
            && Begins(s.marks) <= s.offered && s.settled <= s.offered
            && Distinct(s.settled) && Distinct(Begins(s.marks)) && OneAtATime(s)
  {
    RunKeeps(events);
    var s := Run(events);
    assert s.settled <= s.taken <= s.offered;
    assert forall i :: 0 <= i < |s.settled| ==> s.settled[i] == s.offered[i];
    assert Begins(s.marks) <= s.offered;
    assert forall i :: 0 <= i < |Begins(s.marks)| ==> Begins(s.marks)[i] == s.offered[i];
  }

  /**
   * What a settled queued command settled with: the startup error when the gate was rejected,
   * the exit of its own effect when it was opened; and its caller returns with just that.
   */
  lemma SettledWithVerdict(events: seq<Event>, c: nat)
    requires c in Run(events).results
    ensures var s := Run(events);
            && c in s.settled && !s.gate.Unset?
            && (s.gate.Opened? ==> c in s.exits && s.results[c] == s.exits[c] && !s.results[c].StartupError?)
            && (s.gate.Rejected? ==> s.results[c] == StartupError(s.gate.error) && s.gate.error in s.failures)
            && c in s.callers
            && (s.callers[c].Returned? ==> s.callers[c].exit == s.results[c])
  {
    RunKeeps(events);
    var s := Run(events);
    assert c in s.taken;
    assert c in s.offered;
  }

  /** A gate that failed and was never signalled runs nothing and fails every queued command. */
  lemma FailedGateRunsNothing(events: seq<Event>)
    requires Run(events).gate.Rejected? && !Run(events).signalled
    ensures var s := Run(events);
            && s.started == [] && s.marks == []
            && forall c :: c in s.results ==> s.results[c] == StartupError(s.gate.error)
  {
    RunKeeps(events);
  }

  lemma DecisionStep(s: State, e: Event)
    requires Enabled(s, e)
    ensures !s.gate.Unset? ==> Apply(s, e).gate == s.gate
    ensures forall c :: c in s.results ==> c in Apply(s, e).results && Apply(s, e).results[c] == s.results[c]
  {
  }

  /** However a run goes on, neither the gate's decision nor a settled result ever changes again. */
  lemma {:induction false} DecisionsAreFinal(events: seq<Event>, more: seq<Event>)
    ensures var s, s' := Run(events), Run(events + more);
            && (!s.gate.Unset? ==> s'.gate == s.gate)
            && (forall c :: c in s.results ==> c in s'.results && s'.results[c] == s.results[c])
  {
    if more == [] {
      assert events + more == events;
    } else {
      var front, e := more[..|more| - 1], more[|more| - 1];
      DecisionsAreFinal(events, front);
      assert (events + more)[..|events + more| - 1] == events + front;
      if Enabled(Run(events + front), e) {
        DecisionStep(Run(events + front), e);
      }
    }
  }

  /** Once the gate is decided the worker can always make progress while a command is unsettled. */
  lemma NoStall(events: seq<Event>, c: nat, exit: Exit)
    requires var s := Run(events); !s.gate.Unset? && c in s.offered && c !in s.settled
    requires !exit.StartupError?
    ensures var s := Run(events);
            Enabled(s, TakeCommand) || Enabled(s, Proceed) || Enabled(s, EndQueued(exit)) || Enabled(s, Settle)
  {
    RunKeeps(events);
    WorkerCanMove(Run(events), c, exit);
  }

  lemma WorkerCanMove(s: State, c: nat, exit: Exit)
    requires InOrder(s) && !s.gate.Unset? && c in s.offered && c !in s.settled && !exit.StartupError?
    ensures Enabled(s, TakeCommand) || Enabled(s, Proceed) || Enabled(s, EndQueued(exit)) || Enabled(s, Settle)
  {
    if s.worker.Idle? {
      assert s.taken == s.settled;
      assert c in s.queue;
    }
  }

  // ---------------------------------------------------------------- every call can return

  function RunFrom(s: State, events: seq<Event>): State {
    if events == [] then s
    else
      var t := RunFrom(s, events[..|events| - 1]);
      var e := events[|events| - 1];
      if Enabled(t, e) then Apply(t, e) else t
  }

  lemma {:induction false} RunInParts(events: seq<Event>, more: seq<Event>)
    ensures Run(events + more) == RunFrom(Run(events), more)
  {
    if more == [] {
      assert events + more == events;
    } else {
      assert (events + more)[..|events + more| - 1] == events + more[..|more| - 1];
      RunInParts(events, more[..|more| - 1]);
    }
  }

  lemma {:induction false} FromFirst(s: State, e: Event, more: seq<Event>)
    requires Enabled(s, e)
    ensures RunFrom(s, [e] + more) == RunFrom(Apply(s, e), more)
  {
    var all := [e] + more;
    if more == [] {
      assert all[..0] == [];
      assert RunFrom(s, all) == Apply(s, e);
    } else {
      assert all[..|all| - 1] == [e] + more[..|more| - 1];
      FromFirst(s, e, more[..|more| - 1]);
    }
  }

  /** How far the worker is from settling its next command. */
  function WorkerSteps(s: State): nat {
    match s.worker
    case Idle => 4
    case Awaiting(_) => 3
    case Executing(_) => 2
    case Finishing(_, _) => 1
  }

  function WorkerEvent(s: State, exit: Exit): Event {
    match s.worker
    case Idle => TakeCommand
    case Awaiting(_) => Proceed
    case Executing(_) => EndQueued(exit)
    case Finishing(_, _) => Settle
  }

  /** While the gate is decided and a command unsettled, the worker's step is enabled and gets nearer. */
  lemma WorkerAdvances(s: State, c: nat, exit: Exit)
    requires InOrder(s) && !s.gate.Unset? && In(s, c, Waiting) && c !in s.results && !exit.StartupError?
    ensures var e, s' := WorkerEvent(s, exit), Apply(s, WorkerEvent(s, exit));
            && Enabled(s, e) && !s'.gate.Unset? && s'.offered == s.offered && In(s', c, Waiting)
            && (|s'.settled| == |s.settled| + 1 || (|s'.settled| == |s.settled| && WorkerSteps(s') < WorkerSteps(s)))
  {
    assert c in s.offered;
    WorkerCanMove(s, c, exit);
  }

  /** The worker can go on until the command is settled, and then its caller wakes. */
  lemma {:induction false} WaitingCanReturn(s: State, c: nat, exit: Exit) returns (more: seq<Event>)
    requires Inv(s) && !s.gate.Unset? && In(s, c, Waiting) && !exit.StartupError?
    ensures c in RunFrom(s, more).callers && RunFrom(s, more).callers[c].Returned?
    decreases |s.offered| - |s.settled|, WorkerSteps(s)
  {
    if c in s.results {
      FromFirst(s, Wake(c), []);
      more := [Wake(c)] + [];
    } else {
      var e := WorkerEvent(s, exit);
      WorkerAdvances(s, c, exit);
      StepKeeps(s, e);
      assert |Apply(s, e).settled| <= |Apply(s, e).offered|;
      var rest := WaitingCanReturn(Apply(s, e), c, exit);
      FromFirst(s, e, rest);
      more := [e] + rest;
    }
  }

  lemma NextCaller(s: State, c: nat, exit: Exit) returns (e: Event)
    requires c in s.callers && !s.callers[c].Returned? && !s.callers[c].Waiting? && !exit.StartupError?
    ensures Enabled(s, e) && Apply(s, e).gate == s.gate
    ensures var s' := Apply(s, e);
            c in s'.callers && CallerSteps(s'.callers[c]) < CallerSteps(s.callers[c])
  {
    match s.callers[c] {
      case Asked => e := ReadState(c);
      case Saw(r) => e := if r.Pending? then Offer(c) else if r.Ready? then RunDirect(c) else RejectDirect(c);
      case Running => e := EndDirect(c, exit);
    }
  }

  function CallerSteps(p: Caller): nat {
    match p
    case Asked => 4
    case Saw(_) => 3
    case Running => 2
    case Waiting => 1
    case Returned(_) => 0
  }

  lemma {:induction false} CallerCanReturn(s: State, c: nat, exit: Exit) returns (more: seq<Event>)
    requires Inv(s) && !s.gate.Unset? && c in s.callers && !exit.StartupError?
    ensures c in RunFrom(s, more).callers && RunFrom(s, more).callers[c].Returned?
    decreases CallerSteps(s.callers[c])
  {
    if s.callers[c].Returned? {
      more := [];
    } else if s.callers[c].Waiting? {
      more := WaitingCanReturn(s, c, exit);
    } else {
      var e := NextCaller(s, c, exit);
      StepKeeps(s, e);
      var rest := CallerCanReturn(Apply(s, e), c, exit);
      FromFirst(s, e, rest);
      more := [e] + rest;
    }
  }

  /**
   * No call hangs: in every run whose gate is decided there are further steps after which the
   * caller has returned, whatever its command's effect ends with.
   */
  lemma EveryCallCanReturn(events: seq<Event>, c: nat, exit: Exit)
    requires !Run(events).gate.Unset? && c in Run(events).callers && !exit.StartupError?
    ensures exists more: seq<Event> :: ReturnedIn(Run(events + more), c)
  {
    RunKeeps(events);
    var more := CallerCanReturn(Run(events), c, exit);
    RunInParts(events, more);
    assert ReturnedIn(Run(events + more), c);
  }

  predicate ReturnedIn(s: State, c: nat) {
    c in s.callers && s.callers[c].Returned?
  }

  // ---------------------------------------------------------------- what has started

  function Queued(s: State, started: seq<nat>): seq<nat> {
    if started == [] then []
    else
      var c := started[|started| - 1];
      Queued(s, started[..|started| - 1]) + if c in s.offered then [c] else []
  }

  /** Commands started past the queue never come into it, and the others started in its order. */
  predicate StartedOk(s: State) {
    && (forall c :: c in s.started ==>
          c in s.callers && (c in s.offered || s.callers[c].Running? || s.callers[c].Returned?))
    && Queued(s, s.started) == Begins(s.marks)
  }

  lemma {:induction false} QueuedKept(s: State, s': State, started: seq<nat>)
    requires forall c :: c in started ==> (c in s.offered <==> c in s'.offered)
    ensures Queued(s, started) == Queued(s', started)
  {
    if started != [] {
      QueuedKept(s, s', started[..|started| - 1]);
    }
  }

  lemma DirectStartKept(s: State, c: nat)
    requires Inv(s) && StartedOk(s) && Enabled(s, RunDirect(c))
    ensures StartedOk(Apply(s, RunDirect(c)))
  {
    var s' := Apply(s, RunDirect(c));
    QueuedKept(s, s', s.started);
    assert s'.started[..|s.started|] == s.started;
  }

  lemma QueuedStartKept(s: State)
    requires Inv(s) && StartedOk(s) && Enabled(s, Proceed)
    ensures StartedOk(Apply(s, Proceed))
  {
    var s', c := Apply(s, Proceed), s.worker.command;
    QueuedKept(s, s', s.started);
    WorkerIsFresh(s);
    if s.gate.Opened? {
      assert s'.started[..|s.started|] == s.started;
      BeginsSnoc(s.marks, Begin(c));
    }
  }

  lemma StartedSame(s: State, e: Event)
    requires Inv(s) && StartedOk(s) && Enabled(s, e) && !e.Proceed? && !e.RunDirect?
    ensures StartedOk(Apply(s, e))
  {
    var s' := Apply(s, e);
    assert s'.started == s.started;
    forall c | c in s.started ensures c in s.offered <==> c in s'.offered {
      assert e != Offer(c);
    }
    QueuedKept(s, s', s.started);
    if e.EndQueued? {
      BeginsSnoc(s.marks, End(s.worker.command));
    }
  }

  /** In every run the queued commands among those started are those whose effects have begun. */
  lemma {:induction false} StartedExactly(events: seq<Event>)
    ensures StartedOk(Run(events))
  {
    if events != [] {
      var front, e := events[..|events| - 1], events[|events| - 1];
      StartedExactly(front);
      RunKeeps(front);
      if Enabled(Run(front), e) {
        match e {
          case Proceed => QueuedStartKept(Run(front));
          case RunDirect(c) => DirectStartKept(Run(front), c);
          case _ => StartedSame(Run(front), e);
        }
      }
    }
  }

  // ---------------------------------------------------------------- overtaking

  /** A queued command that has neither begun nor settled. */
  predicate Unserved(s: State, d: nat) {
    d in s.offered && d !in Begins(s.marks) && d !in s.settled
  }

  /** `c` was offered, and no later than at the given place. */
  predicate OfferedBy(s: State, c: nat, i: nat) {
    exists j :: 0 <= j <= i && j < |s.offered| && s.offered[j] == c
  }

  /** Starting `c` now overtakes an unserved command: it has no place in the queue before it. */
  predicate Overtakes(s: State, c: nat) {
    exists i :: 0 <= i < |s.offered| && Unserved(s, s.offered[i]) && !OfferedBy(s, c, i)
  }

  predicate Starts(s: State, e: Event, c: nat) {
    Enabled(s, e) && Apply(s, e).started == s.started + [c]
  }

  lemma StartsExactly(s: State, e: Event, c: nat)
    requires Starts(s, e, c)
    ensures e == RunDirect(c) || (e.Proceed? && s.gate.Opened? && s.worker.command == c)
  {
    assert |Apply(s, e).started| == |s.started| + 1;
    assert Apply(s, e).started[|s.started|] == c;
  }

  lemma NotInPrefix(cs: seq<nat>, p: seq<nat>, i: nat)
    requires Distinct(cs) && p <= cs && i < |cs|
    ensures cs[i] in p <==> i < |p|
  {
    if cs[i] in p {
      var j :| 0 <= j < |p| && p[j] == cs[i];
      assert cs[j] == cs[i];
    }
  }

  lemma UnservedExactly(s: State, i: nat)
    requires Distinct(s.offered) && Begins(s.marks) <= s.offered && s.settled <= s.offered && i < |s.offered|
    ensures Unserved(s, s.offered[i]) <==> |Begins(s.marks)| <= i && |s.settled| <= i
  {
    NotInPrefix(s.offered, Begins(s.marks), i);
    NotInPrefix(s.offered, s.settled, i);
  }

  /** Some queued command has neither begun nor settled. */
  predicate Backlog(s: State) {
    |Begins(s.marks)| < |s.offered| && |s.settled| < |s.offered|
  }

  lemma DirectOvertakes(s: State, c: nat)
    requires Inv(s) && Enabled(s, RunDirect(c))
    requires Begins(s.marks) <= s.offered && s.settled <= s.offered
    ensures Overtakes(s, c) <==> Backlog(s)
  {
    assert c !in s.offered;
    if Backlog(s) {
      var last := |s.offered| - 1;
      UnservedExactly(s, last);
      assert !OfferedBy(s, c, last);
    }
    if i :| 0 <= i < |s.offered| && Unserved(s, s.offered[i]) && !OfferedBy(s, c, i) {
      UnservedExactly(s, i);
    }
  }

  lemma QueuedDoesNotOvertake(s: State)
    requires Inv(s) && Enabled(s, Proceed) && s.gate.Opened?
    requires Begins(s.marks) <= s.offered && s.settled <= s.offered
    ensures !Overtakes(s, s.worker.command)
  {
    var k := |s.settled|;
    assert s.taken[k] == s.worker.command;
    assert s.offered[k] == s.taken[k];
    forall i | 0 <= i < |s.offered| && Unserved(s, s.offered[i]) ensures OfferedBy(s, s.worker.command, i) {
      UnservedExactly(s, i);
      assert k <= i;
    }
  }

  /**
   * In every run the start of a command overtakes a queued one exactly when it is a direct
   * start while some queued command has neither begun nor settled.
   */
  lemma OvertakesExactly(events: seq<Event>, e: Event, c: nat)
    requires Starts(Run(events), e, c)
    ensures Overtakes(Run(events), c) <==> e.RunDirect? && Backlog(Run(events))
  {
    var s := Run(events);
    RunKeeps(events);
    QueueIsServedInOrder(events);
    StartsExactly(s, e, c);
    if e.RunDirect? {
      DirectOvertakes(s, c);
    } else {
      QueuedDoesNotOvertake(s);
    }
  }

  lemma RunOne(events: seq<Event>, e: Event)
    requires Enabled(Run(events), e)
    ensures Run(events + [e]) == Apply(Run(events), e)
  {
    assert (events + [e])[..|events + [e]| - 1] == events;
  }

  lemma OneIsQueued() returns (events: seq<Event>)
    ensures Run(events) == Start().(callers := map[0 := Waiting], queue := [0], offered := [0],
                                    readiness := Ready, opening := 1, signalled := true)
  {
    var e0: seq<Event> := [];
    RunOne(e0, Call(0));
    var e1 := e0 + [Call(0)];
    RunOne(e1, ReadState(0));
    var e2 := e1 + [ReadState(0)];
    RunOne(e2, Offer(0));
    var e3 := e2 + [Offer(0)];
    RunOne(e3, SignalState);
    events := e3 + [SignalState];
    assert Run(events).callers == map[0 := Waiting];
  }

  lemma OneOvertakes() returns (events: seq<Event>)
    ensures In(Run(events), 1, Saw(Ready)) && Run(events).offered == [0]
    ensures Run(events).marks == [] && Run(events).settled == []
  {
    var e4 := OneIsQueued();
    RunOne(e4, Call(1));
    var e5 := e4 + [Call(1)];
    assert In(Run(e5), 1, Asked) && Run(e5).readiness == Ready && Run(e5).offered == [0];
    RunOne(e5, ReadState(1));
    events := e5 + [ReadState(1)];
  }

  /** And it happens: a command enqueued after readiness overtakes one that was queued before it. */
  lemma DirectCommandsOvertake()
    ensures exists events :: Starts(Run(events), RunDirect(1), 1) && Overtakes(Run(events), 1)
  {
    var events := OneOvertakes();
    OvertakesExactly(events, RunDirect(1), 1);
  }
}
