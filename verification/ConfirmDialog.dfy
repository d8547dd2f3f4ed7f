/**
 * The themed confirmation dialog: one request is presented at a time, others wait in a queue,
 * and requests left without a host are cancelled.
 */
module ConfirmDialog {

  /** A request; the number identifies the promise its caller waits on. */
  datatype Pending = Pending(ticket: nat, message: string, variant: string)

  datatype View = Idle | Confirming(message: string, variant: string) | Closing(message: string, variant: string)

  datatype Active = NoActive | Active(pending: Pending)

  datatype Answer = Answer(ticket: nat, confirmed: bool)

  /**
   * `requested` and `presented` list accepted and presented requests in order; `answers` lists
   * every resolution of a promise.
   */
  datatype State = State(
    view: View, active: Active, queue: seq<Pending>, hosts: nat,
    requested: seq<Pending>, presented: seq<Pending>, answers: seq<Answer>)

  datatype Event =
    | RegisterHost
    | UnregisterHost
    | Request(message: string, variant: string)
    | Respond(confirmed: bool)
    | CompleteClose

  function Initial(): State {
    State(Idle, NoActive, [], 0, [], [], [])
  }

  function AnswersTo(queue: seq<Pending>, confirmed: bool): (r: seq<Answer>)
    ensures |r| == |queue| && forall i :: 0 <= i < |queue| ==> r[i] == Answer(queue[i].ticket, confirmed)
  {
    seq(|queue|, i requires 0 <= i < |queue| => Answer(queue[i].ticket, confirmed))
  }

  function Cancelled(queue: seq<Pending>): (r: seq<Answer>)
    ensures |r| == |queue| && forall i :: 0 <= i < |queue| ==> r[i] == Answer(queue[i].ticket, false)
  {
    AnswersTo(queue, false)
  }

  function ActiveList(a: Active): seq<Pending> {
    match a
    case NoActive => []
    case Active(p) => [p]
  }

  function Present(s: State, p: Pending): State {
    s.(active := Active(p), view := Confirming(p.message, p.variant), presented := s.presented + [p])
  }

  /** A host is unregistered at most once, so a host exists. */
  function Unregistered(s: State): State
    requires s.hosts > 0
  {
    if s.hosts > 1 then s.(hosts := s.hosts - 1)
    else
      s.(hosts := 0, view := Idle, active := NoActive, queue := [],
         answers := s.answers + Cancelled(ActiveList(s.active)) + Cancelled(s.queue))
  }

  function Requested(s: State, message: string, variant: string): State {
    if s.hosts == 0 then s
    else
      var p := Pending(|s.requested|, message, variant);
      var t := s.(requested := s.requested + [p]);
      if s.active.Active? || s.view.Closing? then t.(queue := s.queue + [p]) else Present(t, p)
  }

  function Responded(s: State, confirmed: bool): State {
    if !s.view.Confirming? || s.active.NoActive? then s
    else
      s.(active := NoActive, view := Closing(s.view.message, s.view.variant),
         answers := s.answers + [Answer(s.active.pending.ticket, confirmed)])
  }

  function Closed(s: State): State {
    if !s.view.Closing? then s
    else if s.queue == [] then s.(view := Idle)
    else Present(s.(queue := s.queue[1..]), s.queue[0])
  }

  function Apply(s: State, e: Event): State {
    match e
    case RegisterHost => s.(hosts := s.hosts + 1)
    case UnregisterHost => if s.hosts == 0 then s else Unregistered(s)
    case Request(message, variant) => Requested(s, message, variant)
    case Respond(confirmed) => Responded(s, confirmed)
    case CompleteClose => Closed(s)
  }

  function Run(events: seq<Event>): State {
    if events == [] then Initial() else Apply(Run(events[..|events| - 1]), events[|events| - 1])
  }

  // ---------------------------------------------------------------- the invariant

  predicate Shape(s: State) {
    && (s.view.Confirming? <==> s.active.Active?)
    && (s.active.Active? ==> s.view == Confirming(s.active.pending.message, s.active.pending.variant))
    && (s.view.Closing? ==>
          && s.presented != []
          && var last := s.presented[|s.presented| - 1]; s.view == Closing(last.message, last.variant))
    && (s.view.Idle? ==> s.queue == [])
    && (s.hosts == 0 ==> s.view.Idle?)
  }

  /** Tickets number the accepted requests; the queue holds the latest ones, in order. */
  predicate Tickets(s: State) {
    && (forall k :: 0 <= k < |s.requested| ==> s.requested[k].ticket == k)
    && |s.queue| <= |s.requested|
    && s.queue == s.requested[|s.requested| - |s.queue|..]
    && (s.active.Active? ==>
          |s.queue| < |s.requested| && s.active.pending == s.requested[|s.requested| - |s.queue| - 1])
  }

  /** Presented requests are accepted ones in the order they came in. */
  predicate Fifo(s: State) {
    && (forall i :: 0 <= i < |s.presented| ==>
          && s.presented[i].ticket < |s.requested| - |s.queue|
          && s.presented[i] == s.requested[s.presented[i].ticket])
    && (forall i, j :: 0 <= i < j < |s.presented| ==> s.presented[i].ticket < s.presented[j].ticket)
    && (s.active.Active? ==> s.presented != [] && s.presented[|s.presented| - 1] == s.active.pending)
  }

  /**
   * Requests are answered in the order they came in: the answers are to the oldest ones, and
   * every request is answered, presented or queued.
   */
  predicate Balanced(s: State) {
    && (forall i :: 0 <= i < |s.answers| ==> s.answers[i].ticket == i)
    && |s.answers| + |ActiveList(s.active)| + |s.queue| == |s.requested|
  }

  predicate Inv(s: State) {
    Shape(s) && Tickets(s) && Fifo(s) && Balanced(s)
  }

  lemma CancelledTickets(s: State, i: nat)
    requires Tickets(s) && Balanced(s) && s.hosts == 1 && i < |Unregistered(s).answers|
    ensures Unregistered(s).answers[i].ticket == i
  {
    var a, q, n := ActiveList(s.active), s.queue, |s.answers|;
    var s' := Unregistered(s);
    if n <= i < n + |a| {
      assert s'.answers[i] == Cancelled(a)[i - n];
    } else if n <= i {
      assert s'.answers[i] == Cancelled(q)[i - n - |a|];
      assert q[i - n - |a|] == s.requested[|s.requested| - |q| + (i - n - |a|)];
    }
  }

  lemma UnregisterKeeps(s: State)
    requires Inv(s) && s.hosts > 0
    ensures Inv(Unregistered(s))
  {
    if s.hosts == 1 {
      forall i: nat | i < |Unregistered(s).answers| ensures Unregistered(s).answers[i].ticket == i {
        CancelledTickets(s, i);
      }
    }
  }

  lemma RequestTickets(s: State, message: string, variant: string)
    requires Shape(s) && Tickets(s)
    ensures var s' := Requested(s, message, variant); Shape(s') && Tickets(s')
  {
  }

  lemma RequestFifo(s: State, message: string, variant: string)
    requires Shape(s) && Tickets(s) && Fifo(s)
    ensures Fifo(Requested(s, message, variant))
  {
  }

  lemma RequestBalanced(s: State, message: string, variant: string)
    requires Shape(s) && Balanced(s)
    ensures Balanced(Requested(s, message, variant))
  {
  }

  lemma RespondKeeps(s: State, confirmed: bool)
    requires Inv(s)
    ensures Inv(Responded(s, confirmed))
  {
  }

  lemma CloseShape(s: State)
    requires Shape(s) && Balanced(s)
    ensures Shape(Closed(s)) && Balanced(Closed(s))
  {
  }

  lemma CloseTickets(s: State)
    requires Shape(s) && Tickets(s)
    ensures Tickets(Closed(s))
  {
  }

  lemma CloseFifo(s: State)
    requires Shape(s) && Tickets(s) && Fifo(s)
    ensures Fifo(Closed(s))
  {
    if s.view.Closing? && s.queue != [] {
      assert s.queue[0] == s.requested[|s.requested| - |s.queue|];
    }
  }

  lemma CloseKeeps(s: State)
    requires Inv(s)
    ensures Inv(Closed(s))
  {
    CloseShape(s);
    CloseTickets(s);
    CloseFifo(s);
  }

  lemma {:induction false} StepKeeps(s: State, e: Event)
    requires Inv(s)
    ensures Inv(Apply(s, e))
  {
    match e {
      case RegisterHost =>
      case UnregisterHost => if s.hosts > 0 { UnregisterKeeps(s); }
      case Request(message, variant) =>
        RequestTickets(s, message, variant);
        RequestFifo(s, message, variant);
        RequestBalanced(s, message, variant);
      case Respond(confirmed) => RespondKeeps(s, confirmed);
      case CompleteClose => CloseKeeps(s);
    }
  }

  /** The invariant holds over every run. */
  lemma {:induction false} RunKeeps(events: seq<Event>)
    ensures Inv(Run(events))
  {
    if events != [] {
      RunKeeps(events[..|events| - 1]);
      StepKeeps(Run(events[..|events| - 1]), events[|events| - 1]);
    }
  }

  /**
   * Over every run the `k`-th request accepted is the `k`-th answered, if it is answered at all;
   * until then it is the presented one or at its own place in the queue.
   */
  lemma AnsweredInOrder(events: seq<Event>, k: nat)
    requires k < |Run(events).requested|
    ensures var s := Run(events);
            if k < |s.answers| then s.answers[k].ticket == k == s.requested[k].ticket
            else if s.active.Active? && k == |s.answers| then s.active.pending == s.requested[k]
            else var place := k - |s.answers| - |ActiveList(s.active)|;
                 0 <= place < |s.queue| && s.queue[place] == s.requested[k]
  {
    RunKeeps(events);
    var s := Run(events);
    var place := k - |s.answers| - |ActiveList(s.active)|;
    if place >= 0 {
      assert s.queue[place] == s.requested[|s.requested| - |s.queue| + place];
    }
  }

  /**
   * Unless the dialog is just closing, the oldest unanswered request is on the screen; while it
   * is closing it still shows the one answered before.
   */
  lemma OldestIsPresented(events: seq<Event>)
    ensures var s := Run(events);
            match s.view
            case Idle => |s.answers| == |s.requested|
            case Confirming(message, variant) =>
              && |s.answers| < |s.requested| && s.active == Active(s.requested[|s.answers|])
              && message == s.requested[|s.answers|].message && variant == s.requested[|s.answers|].variant
            case Closing(message, variant) =>
              && 0 < |s.answers| <= |s.requested| && s.active.NoActive?
              && message == s.requested[|s.answers| - 1].message && variant == s.requested[|s.answers| - 1].variant
  {
    RunKeeps(events);
    ClosingIsLatest(events);
  }

  /** While the dialog closes, the request presented last is the one answered last. */
  predicate Latest(s: State) {
    s.view.Closing? ==>
      s.presented != [] && s.presented[|s.presented| - 1].ticket == |s.answers| - 1 && |s.answers| <= |s.requested|
  }

  lemma LatestKept(s: State, e: Event)
    requires Inv(s) && Latest(s)
    ensures Latest(Apply(s, e))
  {
  }

  lemma {:induction false} ClosingIsLatest(events: seq<Event>)
    ensures Latest(Run(events))
  {
    if events != [] {
      ClosingIsLatest(events[..|events| - 1]);
      RunKeeps(events[..|events| - 1]);
      LatestKept(Run(events[..|events| - 1]), events[|events| - 1]);
    }
  }

  /** The requests made while a host was there, in order. */
  function Made(events: seq<Event>): seq<(string, string)> {
    if events == [] then []
    else
      var front, e := events[..|events| - 1], events[|events| - 1];
      Made(front) + if e.Request? && Hosts(front) > 0 then [(e.message, e.variant)] else []
  }

  /** Hosts registered and not unregistered since. */
  function Hosts(events: seq<Event>): nat {
    if events == [] then 0
    else
      var before := Hosts(events[..|events| - 1]);
      match events[|events| - 1]
      case RegisterHost => before + 1
      case UnregisterHost => if before > 0 then before - 1 else 0
      case _ => before
  }

  /** In every run exactly the requests made while a host was there are accepted, as they were made. */
  lemma {:induction false} AcceptedExactly(events: seq<Event>)
    ensures var s, made := Run(events), Made(events);
            && s.hosts == Hosts(events)
            && |s.requested| == |made|
            && forall k :: 0 <= k < |made| ==> s.requested[k] == Pending(k, made[k].0, made[k].1)
  {
    if events != [] {
      var front := events[..|events| - 1];
      AcceptedExactly(front);
      AcceptStep(Run(front), events[|events| - 1]);
    }
  }

  lemma AcceptStep(s: State, e: Event)
    ensures var s' := Apply(s, e);
            && s'.hosts == (match e
                            case RegisterHost => s.hosts + 1
                            case UnregisterHost => if s.hosts > 0 then s.hosts - 1 else 0
                            case _ => s.hosts)
            && s'.requested == s.requested + (if e.Request? && s.hosts > 0
                                              then [Pending(|s.requested|, e.message, e.variant)] else [])
  {
  }

  /** The end of closing is the end of it: the next request, if any, is on the screen. */
  lemma {:induction false} CloseCompletes(events: seq<Event>)
    ensures !Run(events + [CompleteClose]).view.Closing?
    ensures !Run(events).view.Closing? ==> Run(events + [CompleteClose]) == Run(events)
  {
    assert (events + [CompleteClose])[..|events|] == events;
  }

  /** The answer is given by a response to the presented request, or by the last host's leaving. */
  predicate AnswersAt(events: seq<Event>, n: nat, answer: Answer) {
    && n < |events|
    && var s := Run(events[..n]);
       || (events[n] == Respond(answer.confirmed) && s.active.Active? && s.active.pending.ticket == answer.ticket)
       || (events[n].UnregisterHost? && s.hosts == 1 && !answer.confirmed)
  }

  /** In every run a request is answered only in one of these two ways. */
  lemma {:induction false} AnsweredOnlySo(events: seq<Event>, i: nat) returns (n: nat)
    requires i < |Run(events).answers|
    ensures AnswersAt(events, n, Run(events).answers[i])
  {
    var last := |events| - 1;
    var s, e := Run(events[..last]), events[last];
    AnswersGrow(s, e);
    if i < |s.answers| {
      n := AnsweredOnlySo(events[..last], i);
      assert events[..last][..n] == events[..n];
    } else {
      n := last;
      NewAnswer(s, e, i);
    }
  }

  lemma NewAnswer(s: State, e: Event, i: nat)
    requires |s.answers| <= i < |Apply(s, e).answers|
    ensures var answer := Apply(s, e).answers[i];
            || (e == Respond(answer.confirmed) && s.active.Active? && s.active.pending.ticket == answer.ticket)
            || (e.UnregisterHost? && s.hosts == 1 && !answer.confirmed)
  {
  }

  /** Without a host nothing is pending: every accepted request has been answered. */
  lemma NoHostNothingPending(events: seq<Event>)
    requires Run(events).hosts == 0
    ensures Run(events).active.NoActive? && Run(events).queue == []
    ensures |Run(events).answers| == |Run(events).requested|
  {
    RunKeeps(events);
  }

  lemma ConfirmingStep(s: State, e: Event, i: nat)
    requires Shape(s) && |s.answers| <= i < |Apply(s, e).answers| && Apply(s, e).answers[i].confirmed
    ensures e == Respond(true) && s.active.Active?
    ensures Apply(s, e).answers[i].ticket == s.active.pending.ticket
    ensures s.view == Confirming(s.active.pending.message, s.active.pending.variant)
  {
  }

  lemma AnswersGrow(s: State, e: Event)
    ensures s.answers <= Apply(s, e).answers
  {
  }

  /** The `n`-th event is a positive response while the request with this ticket is on the screen. */
  predicate ConfirmsTicket(events: seq<Event>, n: nat, ticket: nat) {
    && n < |events| && events[n] == Respond(true)
    && var s := Run(events[..n]);
       && s.active.Active? && s.active.pending.ticket == ticket
       && s.view == Confirming(s.active.pending.message, s.active.pending.variant)
  }

  /** In every run a request is confirmed only by a positive response given while it is presented. */
  lemma {:induction false} ConfirmedOnlyByResponse(events: seq<Event>, i: nat) returns (n: nat)
    requires i < |Run(events).answers| && Run(events).answers[i].confirmed
    ensures ConfirmsTicket(events, n, Run(events).answers[i].ticket)
  {
    var last := |events| - 1;
    var s, e := Run(events[..last]), events[last];
    AnswersGrow(s, e);
    if i < |s.answers| {
      n := ConfirmedOnlyByResponse(events[..last], i);
      assert events[..last][..n] == events[..n];
    } else {
      RunKeeps(events[..last]);
      ConfirmingStep(s, e, i);
      n := last;
    }
  }

  lemma {:induction false} LaterAnswersAgree(events: seq<Event>, n: nat)
    requires n <= |events|
    ensures Run(events[..n]).answers <= Run(events).answers
    decreases |events|
  {
    var last := |events| - 1;
    if n < |events| {
      assert events[..last][..n] == events[..n];
      LaterAnswersAgree(events[..last], n);
      AnswersGrow(Run(events[..last]), events[last]);
    } else {
      assert events[..n] == events;
    }
  }

  /** A response while a request is presented is that request's answer, for the rest of the run. */
  lemma {:induction false} ResponseAnswers(events: seq<Event>, n: nat, confirmed: bool)
    requires n < |events| && events[n] == Respond(confirmed) && Run(events[..n]).active.Active?
    ensures var ticket := Run(events[..n]).active.pending.ticket;
            ticket < |Run(events).answers| && Run(events).answers[ticket] == Answer(ticket, confirmed)
  {
    var s, done := Run(events[..n]), events[..n + 1];
    RunKeeps(events[..n]);
    assert done[..n] == events[..n] && done[n] == events[n];
    assert Run(done).answers == s.answers + [Answer(s.active.pending.ticket, confirmed)];
    LaterAnswersAgree(events, n + 1);
  }

  /** In every run a request is confirmed exactly by a positive response given while it is presented. */
  lemma {:induction false} ConfirmedExactly(events: seq<Event>, i: nat)
    requires i < |Run(events).answers|
    ensures Run(events).answers[i].confirmed <==> exists n: nat :: ConfirmsTicket(events, n, i)
  {
    RunKeeps(events);
    if Run(events).answers[i].confirmed {
      var n := ConfirmedOnlyByResponse(events, i);
      assert ConfirmsTicket(events, n, i);
    }
    if n: nat :| ConfirmsTicket(events, n, i) {
      ResponseAnswers(events, n, true);
    }
  }

  // ---------------------------------------------------------------- the module state

  class Dialog {
    var state: View
    var activeConfirmation: Active
    var queuedConfirmations: seq<Pending>
    var registeredHostCount: nat
    var requested: seq<Pending>
    var presented: seq<Pending>
    var answers: seq<Answer>

    constructor ()
      ensures Snapshot() == Initial()
    {
      state, activeConfirmation, queuedConfirmations := Idle, NoActive, [];
      registeredHostCount, requested, presented, answers := 0, [], [], [];
    }

    function Snapshot(): State
      reads this
    {
      State(state, activeConfirmation, queuedConfirmations, registeredHostCount, requested, presented, answers)
    }

    method Register()
      modifies this
      ensures Snapshot() == Apply(old(Snapshot()), RegisterHost)
    {
      registeredHostCount := registeredHostCount + 1;
    }

    method ResolvePending(confirmed: bool)
      modifies this
      ensures Snapshot() == old(Snapshot()).(active := NoActive, queue := [],
                answers := old(answers) + AnswersTo(ActiveList(old(activeConfirmation)), confirmed)
                           + AnswersTo(old(queuedConfirmations), confirmed))
    {
      if activeConfirmation.Active? {
        answers := answers + [Answer(activeConfirmation.pending.ticket, confirmed)];
      }
      ghost var start := answers;
      assert start == old(answers) + AnswersTo(ActiveList(activeConfirmation), confirmed);
      for i := 0 to |queuedConfirmations|
        invariant queuedConfirmations == old(queuedConfirmations) && activeConfirmation == old(activeConfirmation)
        invariant answers == start + AnswersTo(queuedConfirmations[..i], confirmed)
        invariant Snapshot() == old(Snapshot()).(answers := answers)
      {
        assert AnswersTo(queuedConfirmations[..i + 1], confirmed)
            == AnswersTo(queuedConfirmations[..i], confirmed) + [Answer(queuedConfirmations[i].ticket, confirmed)];
        answers := answers + [Answer(queuedConfirmations[i].ticket, confirmed)];
      }
      assert queuedConfirmations[..|queuedConfirmations|] == queuedConfirmations;
      activeConfirmation := NoActive;
      queuedConfirmations := [];
    }

    method Unregister()
      requires registeredHostCount > 0
      modifies this
      ensures Snapshot() == Apply(old(Snapshot()), UnregisterHost)
    {
      registeredHostCount := registeredHostCount - 1;
      if registeredHostCount == 0 {
        ResolvePending(false);
        state := Idle;
      }
    }

    /** The ticket of the accepted request; no promise is handed out without a host. */
    method RequestConfirmation(message: string, variant: string) returns (accepted: bool, ticket: nat)
      modifies this
      ensures Snapshot() == Apply(old(Snapshot()), Request(message, variant))
      ensures accepted <==> old(registeredHostCount) > 0
      ensures accepted ==> ticket == |old(requested)|
    {
      ticket := |requested|;
      if registeredHostCount == 0 {
        return false, ticket;
      }
      accepted := true;
      var pending := Pending(ticket, message, variant);
      requested := requested + [pending];
      if activeConfirmation.Active? || state.Closing? {
        queuedConfirmations := queuedConfirmations + [pending];
        return;
      }
      activeConfirmation := Active(pending);
      presented := presented + [pending];
      state := Confirming(message, variant);
    }

    method RespondTo(confirmed: bool)
      modifies this
      ensures Snapshot() == Apply(old(Snapshot()), Respond(confirmed))
    {
      if !state.Confirming? || activeConfirmation.NoActive? {
        return;
      }
      var confirmation := activeConfirmation.pending;
      activeConfirmation := NoActive;
      answers := answers + [Answer(confirmation.ticket, confirmed)];
      state := Closing(state.message, state.variant);
    }

    method FinishClosing()
      modifies this
      ensures Snapshot() == Apply(old(Snapshot()), CompleteClose)
    {
      if !state.Closing? {
        return;
      }
      if queuedConfirmations == [] {
        state := Idle;
        return;
      }
      var next := queuedConfirmations[0];
      queuedConfirmations := queuedConfirmations[1..];
      activeConfirmation := Active(next);
      presented := presented + [next];
      state := Confirming(next.message, next.variant);
    }
  }
}
