/**
 * The service launcher: it starts one server child, and stops it on a signal. Its handlers
 * run to their first `await`; what follows an `await` is a step of its own, so stops, child
 * events and the spawn interleave.
 */
module ServiceLauncher {
  import opened Options

  /** How far starting the child has come. */
  datatype Phase = NotStarted | Checking | Spawning | Running | Abandoned | Skipped | Threw

  datatype Process = NotSpawned | Alive | Exited

  datatype Completion = Unsettled | Resolved | Rejected

  /**
   * `child` says whether the launcher holds the child; `told` whether the child has been told
   * to terminate; `stops` and `fatals` count handlers waiting for the child to exit.
   */
  datatype State = State(
    phase: Phase, process: Process, child: bool, told: bool, stopping: bool, done: bool,
    completion: Completion, stops: nat, fatals: nat)

  datatype Event =
    | Run | EntryMissing | EntryFound | SpawnFails | Spawned
    | ChildExits | ChildErrors
    | Stop | ResumeStop | ResumeFatal

  function Initial(): State {
    State(NotStarted, NotSpawned, false, false, false, false, Unsettled, 0, 0)
  }

  predicate Enabled(s: State, e: Event) {
    match e
    case Run => s.phase.NotStarted?
    case EntryMissing => s.phase.Checking?
    case EntryFound => s.phase.Checking?
    case SpawnFails => s.phase.Spawning? && s.process.Alive?
    case Spawned => s.phase.Spawning? && s.process.Alive?
    case ChildExits => s.process.Alive? && (s.phase.Running? || s.phase.Abandoned?)
    case ChildErrors => s.phase.Running? || s.phase.Abandoned?
    case Stop => true
    case ResumeStop => s.stops > 0 && s.process.Exited?
    case ResumeFatal => s.fatals > 0 && s.process.Exited?
  }

  /** A promise takes its first settlement and ignores later ones. */
  function Settle(c: Completion, to: Completion): Completion {
    if c.Unsettled? then to else c
  }

  /** Telling a live child to terminate; an exited one needs nothing. */
  function Terminate(s: State): State {
    if s.process.Alive? then s.(told := true) else s
  }

  function Fatal(s: State): State {
    if s.done then s
    else
      var t := s.(done := true, stopping := true, child := false);
      if s.child then Terminate(t).(fatals := s.fatals + 1)
      else t.(completion := Settle(s.completion, Rejected))
  }

  function StopNow(s: State): State {
    if s.done then s
    else
      var t := s.(stopping := true, child := false);
      if s.child then Terminate(t).(stops := s.stops + 1)
      else t.(done := true, completion := Settle(s.completion, Resolved))
  }

  function ChildExited(s: State): State {
    var t := s.(process := Exited);
    if !s.child || s.stopping then t else Fatal(t.(child := false))
  }

  function FinishSpawn(s: State): State {
    if s.stopping then Terminate(s.(phase := Abandoned)) else s.(phase := Running, child := true)
  }

  function Apply(s: State, e: Event): State
    requires Enabled(s, e)
  {
    match e
    case Run => s.(phase := Checking)
    case EntryMissing => s.(phase := Threw)
    case EntryFound => if s.stopping then s.(phase := Skipped) else s.(phase := Spawning, process := Alive)
    case SpawnFails => s.(phase := Threw, process := NotSpawned)
    case Spawned => FinishSpawn(s)
    case ChildExits => ChildExited(s)
    case ChildErrors => Fatal(s)
    case Stop => StopNow(s)
    case ResumeStop => s.(stops := s.stops - 1, done := true, completion := Settle(s.completion, Resolved))
    case ResumeFatal => s.(fatals := s.fatals - 1, completion := Settle(s.completion, Rejected))
  }

  function RunAll(events: seq<Event>): State {
    if events == [] then Initial()
    else
      var t, e := RunAll(events[..|events| - 1]), events[|events| - 1];
      if Enabled(t, e) then Apply(t, e) else t
  }

  // ---------------------------------------------------------------- the invariant

  predicate Inv(s: State) {
    && (s.done ==> s.stopping)
    && (s.stopping ==> !s.child)
    && (s.child ==> s.phase.Running? && s.process.Alive?)
    && (s.phase.Running? && !s.child ==> s.stopping)
    && (s.phase.Abandoned? ==> s.stopping)
    && (s.phase.Running? || s.phase.Abandoned? || s.phase.Spawning? <==> !s.process.NotSpawned?)
    && (s.phase.Spawning? ==> s.process.Alive?)
    && (s.stops > 0 || s.fatals > 0 ==> s.stopping && s.phase.Running?)
    && (s.fatals > 0 ==> s.done && s.completion.Unsettled?)
    && s.stops + s.fatals <= 1
    && (s.told ==> s.stopping && (s.phase.Running? || s.phase.Abandoned?))
    && (!s.completion.Unsettled? ==> s.done)
    && (s.done ==> !s.completion.Unsettled? || s.fatals > 0)
    // every live child of a stopping launcher has been told, or will be when its spawn ends
    && (s.stopping && s.process.Alive? && !s.phase.Spawning? ==> s.told)
    // a stopping launcher is settled, or some handler is still waiting to settle it
    && (s.stopping ==> !s.completion.Unsettled? || s.stops > 0 || s.fatals > 0)
  }

  lemma StepKeeps(s: State, e: Event)
    requires Inv(s) && Enabled(s, e)
    ensures Inv(Apply(s, e))
  {
  }

  lemma {:induction false} RunKeeps(events: seq<Event>)
    ensures Inv(RunAll(events))
  {
    if events != [] {
      RunKeeps(events[..|events| - 1]);
      var t := RunAll(events[..|events| - 1]);
      if Enabled(t, events[|events| - 1]) {
        StepKeeps(t, events[|events| - 1]);
      }
    }
  }

  // ---------------------------------------------------------------- starting the child

  lemma Extended(start: seq<Event>, after: seq<Event>)
    requires after != []
    ensures var t, e := RunAll(start + after[..|after| - 1]), after[|after| - 1];
            RunAll(start + after) == if Enabled(t, e) then Apply(t, e) else t
  {
    assert (start + after)[..|start + after| - 1] == start + after[..|after| - 1];
  }

  /** An event that makes starting the child throw: the entry is missing or the spawn fails. */
  predicate ThrowsAt(events: seq<Event>, i: nat) {
    && i < |events| && Enabled(RunAll(events[..i]), events[i])
    && (events[i].EntryMissing? || events[i].SpawnFails?)
  }

  lemma ThrowStep(s: State, e: Event)
    requires Inv(s) && Enabled(s, e)
    ensures Apply(s, e).phase.Threw? <==> s.phase.Threw? || e.EntryMissing? || e.SpawnFails?
  {
  }

  lemma ThrowsBefore(events: seq<Event>)
    requires events != []
    ensures var front := events[..|events| - 1];
            (exists i: nat :: ThrowsAt(events, i)) <==> (exists i: nat :: ThrowsAt(front, i)) || ThrowsAt(events, |front|)
  {
    var front := events[..|events| - 1];
    assert forall i: nat :: i < |front| ==> front[..i] == events[..i];
    if i: nat :| ThrowsAt(front, i) {
      assert ThrowsAt(events, i);
    }
    if i: nat :| ThrowsAt(events, i) {
      assert i == |front| || ThrowsAt(front, i);
    }
  }

  /** Starting throws exactly if the entry is missing or the spawn fails, and then no child is there. */
  lemma {:induction false} ThrowsExactly(events: seq<Event>)
    ensures RunAll(events).phase.Threw? <==> exists i: nat :: ThrowsAt(events, i)
    ensures RunAll(events).phase.Threw? ==> RunAll(events).process.NotSpawned? && !RunAll(events).child
  {
    RunKeeps(events);
    if events != [] {
      var front, e := events[..|events| - 1], events[|events| - 1];
      ThrowsExactly(front);
      RunKeeps(front);
      ThrowsBefore(events);
      if Enabled(RunAll(front), e) {
        ThrowStep(RunAll(front), e);
      }
    }
  }

  lemma UnspawnedStep(s: State, e: Event)
    requires Inv(s) && s.stopping && s.process.NotSpawned? && Enabled(s, e)
    ensures Apply(s, e).process.NotSpawned? && Apply(s, e).stopping
  {
  }

  /** A stop that comes before the spawn keeps the child from ever being started. */
  lemma {:induction false} StopPreventsSpawn(before: seq<Event>, after: seq<Event>)
    requires RunAll(before).stopping && RunAll(before).process.NotSpawned?
    ensures RunAll(before + after).stopping && RunAll(before + after).process.NotSpawned?
  {
    if after == [] {
      assert before + after == before;
    } else {
      var front := after[..|after| - 1];
      StopPreventsSpawn(before, front);
      Extended(before, after);
      RunKeeps(before + front);
      if Enabled(RunAll(before + front), after[|after| - 1]) {
        UnspawnedStep(RunAll(before + front), after[|after| - 1]);
      }
    }
  }

  /**
   * Without a stop or a failure an entry that is there is spawned, and a spawned child is
   * recorded; with one the spawned child is told to end and not recorded.
   */
  lemma SpawnIsRecordedExactly(events: seq<Event>)
    ensures var s := RunAll(events);
            && (Enabled(s, EntryFound) ==> (Apply(s, EntryFound).process.Alive? <==> !s.stopping))
            && (Enabled(s, Spawned) ==>
                  var s' := Apply(s, Spawned);
                  (s'.child <==> !s.stopping) && (s'.told <==> s.stopping) && !s'.phase.Spawning?)
  {
    RunKeeps(events);
  }

  /** Who tells a live child to end: a stop or an error that finds it recorded, or the end of a late spawn. */
  lemma TellsExactly(events: seq<Event>, e: Event)
    requires Enabled(RunAll(events), e)
    ensures var s, s' := RunAll(events), Apply(RunAll(events), e);
            s'.told && !s.told <==>
              s.process.Alive? && (((e.Stop? || e.ChildErrors?) && s.child) || (e.Spawned? && s.stopping))
  {
    RunKeeps(events);
  }

  // ---------------------------------------------------------------- what it guarantees

  lemma StepMonotone(s: State, e: Event)
    requires Inv(s) && Enabled(s, e)
    ensures s.stopping ==> Apply(s, e).stopping
    ensures s.done ==> Apply(s, e).done
    ensures !s.completion.Unsettled? ==> Apply(s, e).completion == s.completion
  {
  }

  /** Once stopping, always stopping, and no child is held again; a settlement is final. */
  lemma {:induction false} Continues(events: seq<Event>, more: seq<Event>)
    ensures var from, to := RunAll(events), RunAll(events + more);
            && (from.stopping ==> to.stopping && !to.child)
            && (from.done ==> to.done)
            && (!from.completion.Unsettled? ==> to.completion == from.completion)
  {
    RunKeeps(events + more);
    if more == [] {
      assert events + more == events;
      RunKeeps(events);
    } else {
      assert (events + more)[..|events + more| - 1] == events + more[..|more| - 1];
      Continues(events, more[..|more| - 1]);
      var t := RunAll(events + more[..|more| - 1]);
      RunKeeps(events + more[..|more| - 1]);
      if Enabled(t, more[|more| - 1]) {
        StepMonotone(t, more[|more| - 1]);
      }
    }
  }

  /** A stop clears the way for good: nothing is recorded again and the child is told to end. */
  lemma StoppedChildIsTold(events: seq<Event>)
    ensures var s := RunAll(events);
            s.stopping && s.process.Alive? ==> s.told || (s.phase.Spawning? && Apply(s, Spawned).told)
  {
    RunKeeps(events);
  }

  /** A child exit is fatal exactly when no stop or failure came first. */
  lemma ExitIsFatalExactly(events: seq<Event>)
    requires Enabled(RunAll(events), ChildExits)
    ensures var s, s' := RunAll(events), Apply(RunAll(events), ChildExits);
            && (s.stopping ==> s' == s.(process := Exited))
            && (!s.stopping ==> s'.completion.Rejected? && s'.done)
  {
    RunKeeps(events);
  }

  /** A handler that waited for the child goes on once, and then none waits. */
  lemma HandlersResumeOnce(events: seq<Event>, e: Event)
    requires Enabled(RunAll(events), e) && (e.ResumeStop? || e.ResumeFatal?)
    ensures var s' := Apply(RunAll(events), e);
            s'.done && !s'.completion.Unsettled? && s'.stops == 0 && s'.fatals == 0
  {
    RunKeeps(events);
  }

  /** A stop that finds no child recorded ends the launcher at once, unless it was ending already. */
  lemma StopWithoutChild(events: seq<Event>)
    requires !RunAll(events).child
    ensures var s, s' := RunAll(events), Apply(RunAll(events), Stop);
            && s'.stopping && s'.done
            && s'.completion == if s.completion.Unsettled? && !s.done then Resolved else s.completion
  {
    RunKeeps(events);
  }

  /** The way a stopping launcher settles: its child exits, and the handler that waits goes on. */
  lemma NextToSettle(events: seq<Event>) returns (e: Event)
    requires var s := RunAll(events); s.stopping && s.completion.Unsettled?
    ensures var s := RunAll(events);
            && Enabled(s, e) && Apply(s, e).stopping
            && if s.process.Exited? then !Apply(s, e).completion.Unsettled? else Apply(s, e).process.Exited?
  {
    RunKeeps(events);
    var s := RunAll(events);
    e := if s.process.Alive? then ChildExits else if s.stops > 0 then ResumeStop else ResumeFatal;
  }

  /**
   * A stopping launcher never hangs: in every run it has settled, or it does after the exit of
   * its child and the resumption of the handler that waits for it.
   */
  lemma StopSettles(events: seq<Event>) returns (more: seq<Event>)
    requires RunAll(events).stopping
    ensures |more| <= 2 && !RunAll(events + more).completion.Unsettled?
  {
    if RunAll(events).completion.Unsettled? {
      var e := NextToSettle(events);
      RunOne(events, e);
      if RunAll(events).process.Exited? {
        more := [e];
      } else {
        var f := NextToSettle(events + [e]);
        RunOne(events + [e], f);
        more := [e, f];
        assert events + more == events + [e] + [f];
      }
    } else {
      more := [];
      assert events + more == events;
    }
  }

  lemma RunOne(events: seq<Event>, e: Event)
    requires Enabled(RunAll(events), e)
    ensures RunAll(events + [e]) == Apply(RunAll(events), e)
  {
    assert (events + [e])[..|events + [e]| - 1] == events;
  }

  /** A second stop signal completes the launcher although the child is still running. */
  lemma SecondStopDoesNotWait()
    ensures exists events :: RunAll(events).completion.Resolved? && RunAll(events).process.Alive?
  {
    var e0: seq<Event> := [];
    RunOne(e0, Run);
    var e1 := e0 + [Run];
    RunOne(e1, EntryFound);
    var e2 := e1 + [EntryFound];
    RunOne(e2, Spawned);
    var e3 := e2 + [Spawned];
    RunOne(e3, Stop);
    var e4 := e3 + [Stop];
    RunOne(e4, Stop);
    assert RunAll(e4 + [Stop]).completion.Resolved? && RunAll(e4 + [Stop]).process.Alive?;
  }

  /** One stop, arriving when the child has been recorded, does wait for it. */
  lemma {:induction false} SingleStopWaits(before: seq<Event>, after: seq<Event>)
    requires RunAll(before).child
    requires forall i :: 0 <= i < |after| ==> !Hurries(after[i])
    ensures var s := RunAll(before + [Stop] + after);
            s.completion.Resolved? ==> s.process.Exited?
    ensures var s := RunAll(before + [Stop] + after);
            s.stopping && s.phase.Running? && s.fatals == 0
            && (s.process.Alive? ==> s.completion.Unsettled? && s.stops == 1 && s.told && !s.done)
  {
    RunKeeps(before);
    if after == [] {
      assert before + [Stop] + after == before + [Stop];
      RunOne(before, Stop);
      FreshLauncher(before);
    } else {
      var front := after[..|after| - 1];
      SingleStopWaits(before, front);
      var events := before + [Stop] + after;
      assert events[..|events| - 1] == before + [Stop] + front;
      assert !Hurries(after[|after| - 1]);
    }
  }

  /** A second stop, or an error of the child, settles the launcher at once. */
  predicate Hurries(e: Event) {
    e.Stop? || e.ChildErrors?
  }

  lemma HurrySettles(s: State, e: Event)
    requires Inv(s) && s.stopping && s.phase.Running? && s.fatals == 0 && Hurries(e)
    ensures Enabled(s, e) && !Apply(s, e).completion.Unsettled?
  {
  }

  lemma {:induction false} SettledStays(events: seq<Event>, more: seq<Event>)
    requires !RunAll(events).completion.Unsettled?
    ensures !RunAll(events + more).completion.Unsettled?
  {
    Continues(events, more);
  }

  /** The first event of that kind settles a launcher that is waiting for its child. */
  lemma HurriedSettles(before: seq<Event>, after: seq<Event>, i: nat)
    requires RunAll(before).child && i < |after| && Hurries(after[i])
    requires forall j :: 0 <= j < i ==> !Hurries(after[j])
    ensures !RunAll(before + [Stop] + after).completion.Unsettled?
  {
    var waiting := before + [Stop] + after[..i];
    SingleStopWaits(before, after[..i]);
    RunKeeps(waiting);
    HurrySettles(RunAll(waiting), after[i]);
    RunOne(waiting, after[i]);
    SettledStays(waiting + [after[i]], after[i + 1..]);
    Regroup(before + [Stop], after, i);
  }

  lemma Regroup(a: seq<Event>, b: seq<Event>, i: nat)
    requires i < |b|
    ensures a + b[..i] + [b[i]] + b[i + 1..] == a + b
  {
    assert b == b[..i] + [b[i]] + b[i + 1..];
  }

  function FirstHurry(after: seq<Event>): (r: Option<nat>)
    ensures r.None? ==> forall i :: 0 <= i < |after| ==> !Hurries(after[i])
    ensures r.Some? ==> r.value < |after| && Hurries(after[r.value])
    ensures r.Some? ==> forall j :: 0 <= j < r.value ==> !Hurries(after[j])
  {
    if after == [] then None
    else if Hurries(after[0]) then Some(0)
    else
      match FirstHurry(after[1..])
      case None => None
      case Some(i) => Some(i + 1)
  }

  /**
   * Exactly when a stop waits: as long as the child it found recorded is alive, the launcher is
   * unsettled if and only if no further stop and no error of the child has come in.
   */
  lemma {:induction false} StopWaitsExactly(before: seq<Event>, after: seq<Event>)
    requires RunAll(before).child
    ensures var s := RunAll(before + [Stop] + after);
            s.process.Alive? ==>
              (s.completion.Unsettled? <==> forall i :: 0 <= i < |after| ==> !Hurries(after[i]))
  {
    match FirstHurry(after) {
      case Some(i) => HurriedSettles(before, after, i);
      case None => SingleStopWaits(before, after);
    }
  }

  // ---------------------------------------------------------------- which way it settles

  /** An error of the child, or its exit while the launcher was neither stopping nor failing. */
  predicate IsFault(s: State, e: Event) {
    Enabled(s, e) && (e.ChildErrors? || (e.ChildExits? && !s.stopping))
  }

  predicate FaultAt(events: seq<Event>, i: nat) {
    i < |events| && IsFault(RunAll(events[..i]), events[i])
  }

  /** Settling as a failure, at once or after the child's exit, takes a fault; resolving takes a stop. */
  lemma OutcomeStep(s: State, e: Event)
    requires Inv(s) && Enabled(s, e)
    ensures var s' := Apply(s, e);
            && (s'.completion.Rejected? || s'.fatals > 0 ==> s.completion.Rejected? || s.fatals > 0 || IsFault(s, e))
            && (s'.completion.Resolved? || s'.stops > 0 ==> s.completion.Resolved? || s.stops > 0 || e.Stop?)
  {
  }

  /** In every run the launcher fails only after a fault of the child. */
  lemma {:induction false} FailsOnlyByFault(events: seq<Event>) returns (i: nat)
    requires RunAll(events).completion.Rejected? || RunAll(events).fatals > 0
    ensures FaultAt(events, i)
  {
    var last := |events| - 1;
    var s, e := RunAll(events[..last]), events[last];
    RunKeeps(events[..last]);
    if Enabled(s, e) {
      OutcomeStep(s, e);
    }
    if Enabled(s, e) && IsFault(s, e) {
      i := last;
    } else {
      i := FailsOnlyByFault(events[..last]);
      assert events[..last][..i] == events[..i];
    }
  }

  /** And it resolves only after a stop. */
  lemma {:induction false} ResolvesOnlyByStop(events: seq<Event>) returns (i: nat)
    requires RunAll(events).completion.Resolved? || RunAll(events).stops > 0
    ensures i < |events| && events[i].Stop?
  {
    var last := |events| - 1;
    var s, e := RunAll(events[..last]), events[last];
    RunKeeps(events[..last]);
    if Enabled(s, e) {
      OutcomeStep(s, e);
    }
    if e.Stop? {
      i := last;
    } else {
      i := ResolvesOnlyByStop(events[..last]);
    }
  }

  /** Stopping in order: nothing has failed, and the child that was recorded is let go. */
  predicate Orderly(s: State) {
    Inv(s) && s.stopping && s.fatals == 0 && !s.completion.Rejected? && s.phase.Running?
  }

  lemma OrderlyKept(s: State, e: Event)
    requires Orderly(s) && !e.ChildErrors? && Enabled(s, e)
    ensures Orderly(Apply(s, e))
  {
    StepKeeps(s, e);
  }

  lemma StopIsOrderly(before: seq<Event>)
    requires RunAll(before).child
    ensures Orderly(RunAll(before + [Stop]))
  {
    RunKeeps(before);
    FreshLauncher(before);
    RunOne(before, Stop);
    StepKeeps(RunAll(before), Stop);
  }

  lemma {:induction false} OrderlyStop(before: seq<Event>, after: seq<Event>)
    requires RunAll(before).child
    requires forall i :: 0 <= i < |after| ==> !after[i].ChildErrors?
    ensures Orderly(RunAll(before + [Stop] + after))
  {
    if after == [] {
      assert before + [Stop] + after == before + [Stop];
      StopIsOrderly(before);
    } else {
      var front, e := after[..|after| - 1], after[|after| - 1];
      OrderlyStop(before, front);
      Extended(before + [Stop], after);
      if Enabled(RunAll(before + [Stop] + front), e) {
        OrderlyKept(RunAll(before + [Stop] + front), e);
      }
    }
  }

  /**
   * A stop that finds the child recorded and is followed by no error of the child never ends in
   * a failure: once the child has exited the launcher has resolved, or resuming the stop
   * resolves it.
   */
  lemma {:induction false} OrderlyStopResolves(before: seq<Event>, after: seq<Event>)
    requires RunAll(before).child
    requires forall i :: 0 <= i < |after| ==> !after[i].ChildErrors?
    ensures var s := RunAll(before + [Stop] + after);
            && !s.completion.Rejected?
            && (s.process.Exited? && s.completion.Unsettled? ==>
                  Enabled(s, ResumeStop) && Apply(s, ResumeStop).completion.Resolved?)
  {
    OrderlyStop(before, after);
  }

  /**
   * A fault that finds the child recorded ends in failure and in nothing else, whatever comes
   * after it, and not before the child has exited.
   */
  lemma FaultFails(before: seq<Event>, e: Event, after: seq<Event>)
    requires RunAll(before).child && IsFault(RunAll(before), e)
    ensures var s := RunAll(before + [e] + after);
            && s.done
            && (s.completion.Rejected? || s.fatals > 0)
            && (s.process.Alive? ==> s.completion.Unsettled?)
            && (s.process.Exited? && s.completion.Unsettled? ==>
                  Enabled(s, ResumeFatal) && Apply(s, ResumeFatal).completion.Rejected?)
  {
    FaultIsKept(before, e, after);
  }

  /** Failing: rejected, or a handler waits to reject it and nothing can resolve it. */
  predicate Failing(s: State) {
    && Inv(s) && s.done && s.stops == 0
    && (s.completion.Rejected? || (s.fatals > 0 && s.completion.Unsettled?))
    && (s.process.Alive? ==> s.completion.Unsettled?)
  }

  lemma FailingKept(s: State, e: Event)
    requires Failing(s) && Enabled(s, e)
    ensures Failing(Apply(s, e))
  {
    StepKeeps(s, e);
  }

  lemma FaultIsFailing(before: seq<Event>, e: Event)
    requires RunAll(before).child && IsFault(RunAll(before), e)
    ensures Failing(RunAll(before + [e]))
  {
    RunKeeps(before);
    FreshLauncher(before);
    RunOne(before, e);
    StepKeeps(RunAll(before), e);
  }

  lemma {:induction false} FaultIsKept(before: seq<Event>, e: Event, after: seq<Event>)
    requires RunAll(before).child && IsFault(RunAll(before), e)
    ensures Failing(RunAll(before + [e] + after))
  {
    if after == [] {
      assert before + [e] + after == before + [e];
      FaultIsFailing(before, e);
    } else {
      var front, f := after[..|after| - 1], after[|after| - 1];
      FaultIsKept(before, e, front);
      Extended(before + [e], after);
      if Enabled(RunAll(before + [e] + front), f) {
        FailingKept(RunAll(before + [e] + front), f);
      }
    }
  }

  /** While the child is held, nothing has been stopped, failed or settled. */
  lemma {:induction false} FreshLauncher(events: seq<Event>)
    requires RunAll(events).child
    ensures var s := RunAll(events);
            !s.stopping && !s.done && s.completion.Unsettled? && s.stops == 0 && s.fatals == 0
  {
    RunKeeps(events);
  }

  // ---------------------------------------------------------------- the launcher

  class Launcher {
    var phase: Phase
    var process: Process
    var child: bool
    var told: bool
    var stopping: bool
    var done: bool
    var completion: Completion
    var stops: nat
    var fatals: nat

    constructor ()
      ensures Snapshot() == Initial()
    {
      phase, process := NotStarted, NotSpawned;
      child, told, stopping, done := false, false, false, false;
      completion, stops, fatals := Unsettled, 0, 0;
    }

    function Snapshot(): State
      reads this
    {
      State(phase, process, child, told, stopping, done, completion, stops, fatals)
    }

    method TerminateChild()
      modifies this`told
      ensures Snapshot() == Terminate(old(Snapshot()))
    {
      if process.Alive? {
        told := true;
      }
    }

    /** A signal handler, up to waiting for the child. */
    method HandleStop()
      modifies this
      ensures Snapshot() == StopNow(old(Snapshot()))
    {
      if done {
        return;
      }
      stopping := true;
      var held := child;
      child := false;
      if held {
        TerminateChild();
        stops := stops + 1;
      } else {
        done := true;
        completion := Settle(completion, Resolved);
      }
    }

    method HandleFatal()
      modifies this
      ensures Snapshot() == Fatal(old(Snapshot()))
    {
      if done {
        return;
      }
      done := true;
      stopping := true;
      var held := child;
      child := false;
      if held {
        TerminateChild();
        fatals := fatals + 1;
      } else {
        completion := Settle(completion, Rejected);
      }
    }

    method HandleExit()
      modifies this
      ensures Snapshot() == ChildExited(old(Snapshot()))
    {
      process := Exited;
      if !child || stopping {
        return;
      }
      child := false;
      HandleFatal();
    }

    /** The end of starting the child: record it, or terminate it when a stop came meanwhile. */
    method HandleSpawned()
      modifies this
      ensures Snapshot() == FinishSpawn(old(Snapshot()))
    {
      if stopping {
        phase := Abandoned;
        TerminateChild();
        return;
      }
      child := true;
      phase := Running;
    }
  }
}
