/**
 * The replay agent: it plays one side of a recorded JSON-RPC conversation, checking what the
 * client sends against the transcript and emitting what the recorded agent sent.
 */
module ReplayMachine {
  import opened Options
  import opened JsValues
  import opened ReplayMatching

  // ---------------------------------------------------------------- frames and messages

  datatype Id = NumberId(n: int) | TextId(s: string)

  datatype Message = Message(id: Option<Id>, method_: Option<string>, params: Value, result: Value, error: Value)

  datatype Kind = Notification | Request | Response

  datatype Frame = Frame(kind: Kind, method_: string, params: Value, result: Value, error: Value)

  datatype Status = Success | Cancelled | Failed | Unknown

  /** `EmitInbound(None)` is an entry whose frame is not a logical frame. */
  datatype Entry =
    | EmitInbound(frame: Option<Frame>)
    | ExpectOutbound(expected: Value)
    | RuntimeExit(status: Status)

  function KindText(k: Kind): string {
    match k
    case Notification => "notification"
    case Request => "request"
    case Response => "response"
  }

  function Present(key: string, v: Value): map<string, Value> {
    if v.Undefined? then map[] else map[key := v]
  }

  /** The frame as the value the matcher compares. */
  function FrameValue(f: Frame): Value {
    Record(map["kind" := Text(KindText(f.kind)), "method" := Text(f.method_)]
           + Present("params", f.params) + Present("result", f.result) + Present("error", f.error))
  }

  function Digits(n: nat): (text: string)
    ensures |text| > 0
  {
    if n < 10 then [('0' as int + n) as char] else Digits(n / 10) + [('0' as int + n % 10) as char]
  }

  /** `String(id)`, the key under which a request of the agent is remembered. */
  function Key(id: Id): string {
    match id
    case NumberId(n) => if n < 0 then "-" + Digits(-n) else Digits(n)
    case TextId(s) => s
  }

  function ReadDigits(text: string): int {
    if text == "" then 0 else 10 * ReadDigits(text[..|text| - 1]) + (text[|text| - 1] as int - '0' as int)
  }

  /** The number a decimal text stands for. */
  function ReadNumber(text: string): int {
    if text != "" && text[0] == '-' then -ReadDigits(text[1..]) else ReadDigits(text)
  }

  lemma {:induction false} DigitsRead(n: nat)
    ensures ReadDigits(Digits(n)) == n && '-' !in Digits(n)
  {
    if n >= 10 {
      DigitsRead(n / 10);
      assert Digits(n)[..|Digits(n)| - 1] == Digits(n / 10);
    } else {
      assert Digits(n)[..0] == [];
    }
  }

  /** The key of a number is its decimal text, with a sign if it is negative. */
  lemma NumberKeyReads(n: int)
    ensures ReadNumber(Key(NumberId(n))) == n && (n < 0 <==> Key(NumberId(n))[0] == '-')
  {
    DigitsRead(if n < 0 then -n else n);
  }

  // ---------------------------------------------------------------- the machine

  /** What happened on the wire: frames taken from the client and messages sent to it. */
  datatype Event = Accepted(message: Message, frame: Frame) | Emitted(message: Message, frame: Frame) | Refused(id: Id)

  datatype State = State(
    cursor: nat, stopped: bool, nextId: nat,
    pendingClient: map<string, Id>, pendingAgent: map<string, string>, log: seq<Event>)

  datatype Setup = Setup(entries: seq<Entry>, workspace: string)

  function Initial(): State {
    State(0, false, 1, map[], map[], [])
  }

  function Incoming(s: State, m: Message): Option<Frame> {
    match m.method_
    case Some(name) =>
      Some(Frame(if m.id.None? || m.id == Some(TextId("")) then Notification else Request,
                 name, m.params, Undefined, Undefined))
    case None =>
      if m.id.None? then None
      else
        match Lookup(s.pendingAgent, Key(m.id.value))
        case None => None
        case Some(name) => Some(Frame(Response, name, Undefined, m.result, m.error))
  }

  function Stop(s: State): State {
    s.(stopped := true)
  }

  function Emit(s: State, f: Frame): State {
    match f.kind
    case Notification =>
      s.(log := s.log + [Emitted(Message(None, Some(f.method_), f.params, Undefined, Undefined), f)])
    case Request =>
      var id := NumberId(s.nextId);
      s.(nextId := s.nextId + 1,
         pendingAgent := s.pendingAgent[Key(id) := f.method_],
         log := s.log + [Emitted(Message(Some(id), Some(f.method_), f.params, Undefined, Undefined), f)])
    case Response =>
      match Lookup(s.pendingClient, f.method_)
      case None => Stop(s)
      case Some(id) =>
        s.(pendingClient := s.pendingClient - {f.method_},
           log := s.log + [Emitted(Message(Some(id), None, Undefined, f.result, f.error), f)])
  }

  function Advance(s: State): State {
    s.(cursor := s.cursor + 1)
  }

  predicate AtExpectation(setup: Setup, s: State) {
    s.cursor >= |setup.entries| || setup.entries[s.cursor].ExpectOutbound?
  }

  /** One turn of the flushing loop. */
  function FlushStep(setup: Setup, s: State): State
    requires !AtExpectation(setup, s)
  {
    match setup.entries[s.cursor]
    case RuntimeExit(status) => if status.Success? || status.Cancelled? then Advance(s) else Stop(s)
    case EmitInbound(None) => Stop(s)
    case EmitInbound(Some(f)) =>
      var s' := Emit(s, f);
      if s'.stopped then s' else Advance(s')
    case ExpectOutbound(_) => s
  }

  /** Play recorded agent frames until the transcript waits for the client. */
  function Flush(setup: Setup, s: State): State
    decreases |setup.entries| - s.cursor, if s.stopped then 0 else 1
  {
    if s.stopped || AtExpectation(setup, s) then s else Flush(setup, FlushStep(setup, s))
  }

  function Took(s: State, m: Message, f: Frame): State {
    var s' := s.(log := s.log + [Accepted(m, f)]);
    if f.kind.Request? && m.id.Some? then s'.(pendingClient := s.pendingClient[f.method_ := m.id.value])
    else if f.kind.Response? && m.id.Some? then s'.(pendingAgent := s.pendingAgent - {Key(m.id.value)})
    else s'
  }

  predicate Expected(setup: Setup, s: State, f: Frame) {
    && s.cursor < |setup.entries|
    && setup.entries[s.cursor].ExpectOutbound?
    && Matches(setup.entries[s.cursor].expected, FrameValue(f), setup.workspace)
  }

  function Handle(setup: Setup, s: State, m: Message): State {
    if s.stopped then s
    else
      match Incoming(s, m)
      case None => Stop(s)
      case Some(f) =>
        if !Expected(setup, s, f) then
          Stop(if f.kind.Request? && m.id.Some? then s.(log := s.log + [Refused(m.id.value)]) else s)
        else Flush(setup, Advance(Took(s, m, f)))
  }

  /** A line of input: a decoded message, or text that is not JSON. */
  datatype Line = Decoded(message: Message) | Garbage

  function HandleLine(setup: Setup, s: State, line: Line): State {
    match line
    case Decoded(m) => Handle(setup, s, m)
    case Garbage => if s.stopped then s else Stop(s)
  }

  function Close(setup: Setup, s: State): State {
    if !s.stopped && s.cursor != |setup.entries| then Stop(s) else s
  }

  function Run(setup: Setup, lines: seq<Line>): State {
    if lines == [] then Flush(setup, Initial())
    else HandleLine(setup, Run(setup, lines[..|lines| - 1]), lines[|lines| - 1])
  }

  // ---------------------------------------------------------------- what the log must look like

  /** The message carries the frame's content. */
  predicate Carries(m: Message, f: Frame) {
    match f.kind
    case Notification => m == Message(None, Some(f.method_), f.params, Undefined, Undefined)
    case Request => m.id.Some? && m == Message(m.id, Some(f.method_), f.params, Undefined, Undefined)
    case Response => m.id.Some? && m == Message(m.id, None, Undefined, f.result, f.error)
  }

  /** The frame is what the message says: a method makes it a request or a notification. */
  predicate Reads(m: Message, f: Frame) {
    match f.kind
    case Notification =>
      && m.method_ == Some(f.method_) && (m.id.None? || m.id == Some(TextId("")))
      && f.params == m.params && f.result.Undefined? && f.error.Undefined?
    case Request =>
      && m.method_ == Some(f.method_) && m.id.Some? && m.id != Some(TextId(""))
      && f.params == m.params && f.result.Undefined? && f.error.Undefined?
    case Response =>
      && m.method_.None? && m.id.Some?
      && f.params.Undefined? && f.result == m.result && f.error == m.error
  }

  /** The log is exactly what this stretch of the transcript prescribes, in order. */
  predicate Follows(entries: seq<Entry>, workspace: string, log: seq<Event>) {
    if entries == [] then log == []
    else
      var front := entries[..|entries| - 1];
      match entries[|entries| - 1]
      case RuntimeExit(status) => (status.Success? || status.Cancelled?) && Follows(front, workspace, log)
      case EmitInbound(frame) =>
        && frame.Some? && log != []
        && log[|log| - 1].Emitted? && log[|log| - 1].frame == frame.value
        && Carries(log[|log| - 1].message, frame.value)
        && Follows(front, workspace, log[..|log| - 1])
      case ExpectOutbound(expected) =>
        && log != []
        && log[|log| - 1].Accepted?
        && Reads(log[|log| - 1].message, log[|log| - 1].frame)
        && Matches(expected, FrameValue(log[|log| - 1].frame), workspace)
        && Follows(front, workspace, log[..|log| - 1])
  }

  /** The id of the latest client request of a method that no response has answered since. */
  function OpenClient(log: seq<Event>, name: string): Option<Id> {
    if log == [] then None
    else
      match log[|log| - 1]
      case Accepted(m, f) =>
        if f.kind.Request? && f.method_ == name then m.id else OpenClient(log[..|log| - 1], name)
      case Emitted(_, f) =>
        if f.kind.Response? && f.method_ == name then None else OpenClient(log[..|log| - 1], name)
      case Refused(_) => OpenClient(log[..|log| - 1], name)
  }

  /** The method of the agent request with this id, while the client has not answered it. */
  function OpenAgent(log: seq<Event>, key: string): Option<string> {
    if log == [] then None
    else
      match log[|log| - 1]
      case Emitted(m, f) =>
        if f.kind.Request? && m.id.Some? && Key(m.id.value) == key then Some(f.method_)
        else OpenAgent(log[..|log| - 1], key)
      case Accepted(m, f) =>
        if f.kind.Response? && m.id.Some? && Key(m.id.value) == key then None
        else OpenAgent(log[..|log| - 1], key)
      case Refused(_) => OpenAgent(log[..|log| - 1], key)
  }

  function RequestsEmitted(log: seq<Event>): nat {
    if log == [] then 0
    else
      var e := log[|log| - 1];
      RequestsEmitted(log[..|log| - 1]) + if e.Emitted? && e.frame.kind.Request? then 1 else 0
  }

  /** Every id on the wire is the right one. */
  predicate IdsCorrect(log: seq<Event>) {
    forall k :: 0 <= k < |log| ==> IdCorrect(log[..k], log[k])
  }

  predicate IdCorrect(before: seq<Event>, e: Event) {
    match e
    case Emitted(m, f) =>
      && (f.kind.Response? ==> m.id.Some? && OpenClient(before, f.method_) == m.id)
      && (f.kind.Request? ==> m.id == Some(NumberId(RequestsEmitted(before) + 1)))
    case Accepted(m, f) =>
      && (f.kind.Response? ==> m.id.Some? && OpenAgent(before, Key(m.id.value)) == Some(f.method_))
      && (f.kind.Request? ==> m.id.Some? && m.method_ == Some(f.method_))
    case Refused(_) => true
  }

  // ---------------------------------------------------------------- the invariant

  ghost predicate Bookkeeping(s: State) {
    && (forall name :: Lookup(s.pendingClient, name) == OpenClient(s.log, name))
    && (forall key :: Lookup(s.pendingAgent, key) == OpenAgent(s.log, key))
    && s.nextId == RequestsEmitted(s.log) + 1
    && IdsCorrect(s.log)
  }

  ghost predicate Inv(setup: Setup, s: State) {
    && s.cursor <= |setup.entries|
    && Follows(setup.entries[..s.cursor], setup.workspace, s.log)
    && Bookkeeping(s)
  }

  lemma LogGrows(log: seq<Event>, e: Event)
    requires IdsCorrect(log) && IdCorrect(log, e)
    ensures IdsCorrect(log + [e])
    ensures (log + [e])[..|log|] == log
  {
    assert (log + [e])[..|log|] == log;
    forall k | 0 <= k < |log + [e]| ensures IdCorrect((log + [e])[..k], (log + [e])[k]) {
      if k < |log| {
        assert (log + [e])[..k] == log[..k];
      }
    }
  }

  lemma EmitKeeps(s: State, f: Frame)
    requires Bookkeeping(s) && !Emit(s, f).stopped
    ensures Bookkeeping(Emit(s, f))
    ensures var log := Emit(s, f).log;
            log != [] && log[..|log| - 1] == s.log && log[|log| - 1].Emitted?
            && log[|log| - 1].frame == f && Carries(log[|log| - 1].message, f)
  {
    var s' := Emit(s, f);
    EmitIsCorrect(s, f);
    forall name ensures Lookup(s'.pendingClient, name) == OpenClient(s'.log, name) {
      EmitKeepsClient(s, f, name);
    }
    forall key ensures Lookup(s'.pendingAgent, key) == OpenAgent(s'.log, key) {
      EmitKeepsAgent(s, f, key);
    }
  }

  lemma EmitIsCorrect(s: State, f: Frame)
    requires !s.stopped && !Emit(s, f).stopped
    requires s.nextId == RequestsEmitted(s.log) + 1 && IdsCorrect(s.log)
    requires Lookup(s.pendingClient, f.method_) == OpenClient(s.log, f.method_)
    ensures Emit(s, f).nextId == RequestsEmitted(Emit(s, f).log) + 1 && IdsCorrect(Emit(s, f).log)
    ensures var log := Emit(s, f).log;
            log != [] && log[..|log| - 1] == s.log && log[|log| - 1].Emitted?
            && log[|log| - 1].frame == f && Carries(log[|log| - 1].message, f)
  {
    var e := EmitLogs(s, f);
    LogGrows(s.log, e);
    RequestsSnoc(s.log, e);
  }

  lemma EmitLogs(s: State, f: Frame) returns (e: Event)
    requires !s.stopped && !Emit(s, f).stopped
    ensures Emit(s, f).log == s.log + [e] && Emit(s, f).log[..|s.log|] == s.log
    ensures e.Emitted? && e.frame == f && Carries(e.message, f)
    ensures f.kind.Request? ==> e.message.id == Some(NumberId(s.nextId))
    ensures f.kind.Response? ==> e.message.id == Lookup(s.pendingClient, f.method_)
    ensures Emit(s, f).nextId == s.nextId + if f.kind.Request? then 1 else 0
  {
    var log := Emit(s, f).log;
    e := log[|log| - 1];
    assert log == s.log + [e];
  }

  lemma RequestsSnoc(log: seq<Event>, e: Event)
    ensures RequestsEmitted(log + [e]) == RequestsEmitted(log) + if e.Emitted? && e.frame.kind.Request? then 1 else 0
  {
    assert (log + [e])[..|log|] == log;
  }

  lemma EmitKeepsClient(s: State, f: Frame, name: string)
    requires !s.stopped && !Emit(s, f).stopped && Lookup(s.pendingClient, name) == OpenClient(s.log, name)
    ensures Lookup(Emit(s, f).pendingClient, name) == OpenClient(Emit(s, f).log, name)
  {
    var e := EmitLogs(s, f);
  }

  lemma EmitKeepsAgent(s: State, f: Frame, key: string)
    requires !s.stopped && !Emit(s, f).stopped && Lookup(s.pendingAgent, key) == OpenAgent(s.log, key)
    ensures Lookup(Emit(s, f).pendingAgent, key) == OpenAgent(Emit(s, f).log, key)
  {
    var e := EmitLogs(s, f);
  }

  lemma RecordKeeps(s: State, m: Message, f: Frame)
    requires Bookkeeping(s) && Incoming(s, m) == Some(f)
    ensures Bookkeeping(Took(s, m, f))
    ensures Took(s, m, f).log == s.log + [Accepted(m, f)]
  {
    var s', e := Took(s, m, f), Accepted(m, f);
    if f.kind.Response? {
      assert Lookup(s.pendingAgent, Key(m.id.value)) == OpenAgent(s.log, Key(m.id.value));
    }
    LogGrows(s.log, e);
    RequestsSnoc(s.log, e);
    forall name ensures Lookup(s'.pendingClient, name) == OpenClient(s'.log, name) {
      TookKeepsClient(s, m, f, name);
    }
    forall key ensures Lookup(s'.pendingAgent, key) == OpenAgent(s'.log, key) {
      TookKeepsAgent(s, m, f, key);
    }
  }

  lemma TookKeepsClient(s: State, m: Message, f: Frame, name: string)
    requires Incoming(s, m) == Some(f) && Lookup(s.pendingClient, name) == OpenClient(s.log, name)
    ensures Lookup(Took(s, m, f).pendingClient, name) == OpenClient(Took(s, m, f).log, name)
  {
    assert (s.log + [Accepted(m, f)])[..|s.log|] == s.log;
  }

  lemma TookKeepsAgent(s: State, m: Message, f: Frame, key: string)
    requires Incoming(s, m) == Some(f) && Lookup(s.pendingAgent, key) == OpenAgent(s.log, key)
    ensures Lookup(Took(s, m, f).pendingAgent, key) == OpenAgent(Took(s, m, f).log, key)
  {
    assert (s.log + [Accepted(m, f)])[..|s.log|] == s.log;
  }

  lemma FollowsExtends(setup: Setup, s: State, s': State)
    requires s.cursor < |setup.entries| && s'.cursor == s.cursor + 1
    requires Follows(setup.entries[..s.cursor], setup.workspace, s.log)
    requires match setup.entries[s.cursor]
             case RuntimeExit(status) => (status.Success? || status.Cancelled?) && s'.log == s.log
             case EmitInbound(frame) =>
               frame.Some? && exists m :: Carries(m, frame.value) && s'.log == s.log + [Emitted(m, frame.value)]
             case ExpectOutbound(expected) =>
               exists m, f ::
                 Reads(m, f) && Matches(expected, FrameValue(f), setup.workspace) && s'.log == s.log + [Accepted(m, f)]
    ensures Follows(setup.entries[..s'.cursor], setup.workspace, s'.log)
  {
    var entries := setup.entries[..s'.cursor];
    assert entries[..|entries| - 1] == setup.entries[..s.cursor];
    if !setup.entries[s.cursor].RuntimeExit? {
      assert s'.log[..|s'.log| - 1] == s.log;
    }
  }

  lemma {:induction false} FlushStepKeeps(setup: Setup, s: State)
    requires Inv(setup, s) && !s.stopped && !AtExpectation(setup, s) && !FlushStep(setup, s).stopped
    ensures Inv(setup, FlushStep(setup, s))
  {
    if setup.entries[s.cursor].EmitInbound? {
      EmitKeeps(s, setup.entries[s.cursor].frame.value);
    }
    FlushStepFollows(setup, s);
  }

  lemma FlushStepFollows(setup: Setup, s: State)
    requires !s.stopped && !AtExpectation(setup, s) && !FlushStep(setup, s).stopped
    requires Follows(setup.entries[..s.cursor], setup.workspace, s.log)
    ensures Follows(setup.entries[..s.cursor + 1], setup.workspace, FlushStep(setup, s).log)
  {
    if setup.entries[s.cursor].EmitInbound? {
      var f := setup.entries[s.cursor].frame.value;
      var e := EmitLogs(s, f);
      assert FlushStep(setup, s).log == s.log + [Emitted(e.message, f)];
    }
    FollowsExtends(setup, s, FlushStep(setup, s));
  }

  lemma {:induction false} FlushKeeps(setup: Setup, s: State)
    requires Inv(setup, s) && !s.stopped && !Flush(setup, s).stopped
    ensures Inv(setup, Flush(setup, s)) && AtExpectation(setup, Flush(setup, s))
    decreases |setup.entries| - s.cursor
  {
    if !AtExpectation(setup, s) {
      FlushStepKeeps(setup, s);
      FlushKeeps(setup, FlushStep(setup, s));
    }
  }

  lemma IncomingReads(s: State, m: Message, f: Frame)
    ensures Incoming(s, m) == Some(f)
            <==> Reads(m, f) && (f.kind.Response? ==> Lookup(s.pendingAgent, Key(m.id.value)) == Some(f.method_))
  {
  }

  lemma HandleKeeps(setup: Setup, s: State, m: Message)
    requires Inv(setup, s) && !s.stopped && !Handle(setup, s, m).stopped
    ensures Inv(setup, Handle(setup, s, m)) && AtExpectation(setup, Handle(setup, s, m))
  {
    var f := Incoming(s, m).value;
    RecordKeeps(s, m, f);
    IncomingReads(s, m, f);
    FollowsExtends(setup, s, Advance(Took(s, m, f)));
    FlushKeeps(setup, Advance(Took(s, m, f)));
  }

  /**
   * Whenever control returns unstopped, what was accepted and emitted is exactly the
   * transcript up to the cursor, the transcript waits for the client or is finished, and
   * every id on the wire is the right one.
   */
  lemma {:induction false} RunReplaysTranscript(setup: Setup, lines: seq<Line>)
    requires !Run(setup, lines).stopped
    ensures Inv(setup, Run(setup, lines)) && AtExpectation(setup, Run(setup, lines))
  {
    if lines == [] {
      assert setup.entries[..0] == [];
      FlushKeeps(setup, Initial());
    } else {
      RunReplaysTranscript(setup, lines[..|lines| - 1]);
      HandleKeeps(setup, Run(setup, lines[..|lines| - 1]), lines[|lines| - 1].message);
    }
  }

  // ---------------------------------------------------------------- stopped runs

  /** The log without the refusal a stop may have ended it with. */
  function Answered(log: seq<Event>): seq<Event> {
    if log != [] && log[|log| - 1].Refused? then log[..|log| - 1] else log
  }

  ghost predicate Kept(setup: Setup, s: State) {
    && s.cursor <= |setup.entries|
    && Follows(setup.entries[..s.cursor], setup.workspace, Answered(s.log))
    && Bookkeeping(s)
  }

  lemma {:induction false} FollowedHasNoRefusal(entries: seq<Entry>, workspace: string, log: seq<Event>)
    requires Follows(entries, workspace, log)
    ensures Answered(log) == log
  {
    if entries != [] && entries[|entries| - 1].RuntimeExit? {
      FollowedHasNoRefusal(entries[..|entries| - 1], workspace, log);
    }
  }

  lemma StopKeeps(setup: Setup, s: State)
    requires Inv(setup, s)
    ensures Kept(setup, s) && Kept(setup, Stop(s))
  {
    FollowedHasNoRefusal(setup.entries[..s.cursor], setup.workspace, s.log);
  }

  lemma RefusalKeeps(setup: Setup, s: State, id: Id)
    requires Inv(setup, s)
    ensures Kept(setup, Stop(s.(log := s.log + [Refused(id)])))
  {
    var s' := Stop(s.(log := s.log + [Refused(id)]));
    LogGrows(s.log, Refused(id));
    RequestsSnoc(s.log, Refused(id));
    assert Answered(s'.log) == s.log;
    forall name ensures Lookup(s'.pendingClient, name) == OpenClient(s'.log, name) {
      assert OpenClient(s'.log, name) == OpenClient(s.log, name);
    }
    forall key ensures Lookup(s'.pendingAgent, key) == OpenAgent(s'.log, key) {
      assert OpenAgent(s'.log, key) == OpenAgent(s.log, key);
    }
  }

  lemma {:induction false} FlushEnds(setup: Setup, s: State)
    requires Inv(setup, s) && !s.stopped
    ensures Kept(setup, Flush(setup, s))
    decreases |setup.entries| - s.cursor
  {
    StopKeeps(setup, s);
    if !AtExpectation(setup, s) {
      if FlushStep(setup, s).stopped {
        assert FlushStep(setup, s) == Stop(s);
      } else {
        FlushStepKeeps(setup, s);
        FlushEnds(setup, FlushStep(setup, s));
      }
    }
  }

  lemma HandleEnds(setup: Setup, s: State, m: Message)
    requires Inv(setup, s) && !s.stopped
    ensures Kept(setup, Handle(setup, s, m))
  {
    StopKeeps(setup, s);
    if Incoming(s, m).Some? {
      var f := Incoming(s, m).value;
      if Expected(setup, s, f) {
        RecordKeeps(s, m, f);
        IncomingReads(s, m, f);
        FollowsExtends(setup, s, Advance(Took(s, m, f)));
        FlushEnds(setup, Advance(Took(s, m, f)));
      } else if f.kind.Request? && m.id.Some? {
        RefusalKeeps(setup, s, m.id.value);
      }
    }
  }

  /**
   * In every run, stopped or not, the frames accepted and emitted are exactly the transcript
   * up to the cursor, with at most one refusal after them, and every id on the wire is right.
   */
  lemma {:induction false} EveryRunFollows(setup: Setup, lines: seq<Line>)
    ensures Kept(setup, Run(setup, lines))
  {
    if lines == [] {
      assert setup.entries[..0] == [];
      FlushEnds(setup, Initial());
    } else {
      var front, line := lines[..|lines| - 1], lines[|lines| - 1];
      EveryRunFollows(setup, front);
      if !Run(setup, front).stopped {
        RunReplaysTranscript(setup, front);
        StopKeeps(setup, Run(setup, front));
        if line.Decoded? {
          HandleEnds(setup, Run(setup, front), line.message);
        }
      }
    }
  }

  // ---------------------------------------------------------------- what is accepted, and why a run stops

  /** What the matcher sees of a frame: its kind, its method and the parts it has, nothing else. */
  lemma FrameParts(f: Frame)
    ensures var fields := FrameValue(f).fields;
            && Property(fields, "kind") == Text(match f.kind
                                                case Notification => "notification"
                                                case Request => "request"
                                                case Response => "response")
            && Property(fields, "method") == Text(f.method_)
            && Property(fields, "params") == f.params
            && Property(fields, "result") == f.result && Property(fields, "error") == f.error
            && fields.Keys <= {"kind", "method", "params", "result", "error"}
            && Undefined !in fields.Values
  {
  }

  /** What the message means to the agent after this log: an answer belongs to an open request. */
  predicate ReadsAfter(log: seq<Event>, m: Message, f: Frame) {
    Reads(m, f) && (f.kind.Response? ==> OpenAgent(log, Key(m.id.value)) == Some(f.method_))
  }

  /** The transcript waits for this frame. */
  predicate Awaits(setup: Setup, s: State, f: Frame) {
    && s.cursor < |setup.entries|
    && setup.entries[s.cursor].ExpectOutbound?
    && Matches(setup.entries[s.cursor].expected, FrameValue(f), setup.workspace)
  }

  lemma {:induction false} FlushAppends(setup: Setup, s: State)
    ensures s.log <= Flush(setup, s).log && s.cursor <= Flush(setup, s).cursor
    decreases |setup.entries| - s.cursor, if s.stopped then 0 else 1
  {
    if !s.stopped && !AtExpectation(setup, s) {
      FlushAppends(setup, FlushStep(setup, s));
    }
  }

  lemma RefusedIsNotAccepted(setup: Setup, s: State, m: Message, f: Frame)
    requires !s.stopped && Incoming(s, m).Some? && !Expected(setup, s, Incoming(s, m).value)
    ensures !(s.log + [Accepted(m, f)] <= Handle(setup, s, m).log)
  {
    var log' := Handle(setup, s, m).log;
    if |log'| > |s.log| {
      assert log'[|s.log|].Refused?;
      assert (s.log + [Accepted(m, f)])[|s.log|].Accepted?;
    }
  }

  lemma HandleMeans(setup: Setup, s: State, m: Message, f: Frame)
    requires !s.stopped && Bookkeeping(s)
    ensures var s' := Handle(setup, s, m);
            if ReadsAfter(s.log, m, f) && Awaits(setup, s, f)
            then s.log + [Accepted(m, f)] <= s'.log && s'.cursor > s.cursor
            else !(s.log + [Accepted(m, f)] <= s'.log)
  {
    IncomingReads(s, m, f);
    if m.id.Some? {
      assert Lookup(s.pendingAgent, Key(m.id.value)) == OpenAgent(s.log, Key(m.id.value));
    }
    if Incoming(s, m).Some? {
      var g := Incoming(s, m).value;
      IncomingReads(s, m, g);
      if Expected(setup, s, g) {
        FlushAppends(setup, Advance(Took(s, m, g)));
        var log' := Handle(setup, s, m).log;
        assert Took(s, m, g).log == s.log + [Accepted(m, g)];
        assert log'[|s.log|] == Accepted(m, g);
      } else {
        RefusedIsNotAccepted(setup, s, m, f);
      }
    }
  }

  lemma RunSnoc(setup: Setup, lines: seq<Line>, line: Line)
    ensures Run(setup, lines + [line]) == HandleLine(setup, Run(setup, lines), line)
  {
    assert (lines + [line])[..|lines|] == lines;
  }

  /**
   * In every run that has not stopped, the next message is accepted as a frame exactly when it
   * means that frame and the transcript waits for it.
   */
  lemma AcceptsExactly(setup: Setup, lines: seq<Line>, m: Message, f: Frame)
    requires !Run(setup, lines).stopped
    ensures var s, s' := Run(setup, lines), Run(setup, lines + [Decoded(m)]);
            s.log + [Accepted(m, f)] <= s'.log <==> ReadsAfter(s.log, m, f) && Awaits(setup, s, f)
  {
    RunReplaysTranscript(setup, lines);
    RunSnoc(setup, lines, Decoded(m));
    HandleMeans(setup, Run(setup, lines), m, f);
  }

  /** A recorded entry that cannot be played: a failed exit, no frame, or an answer to nothing. */
  predicate Unplayable(log: seq<Event>, entry: Entry) {
    match entry
    case RuntimeExit(status) => !status.Success? && !status.Cancelled?
    case EmitInbound(None) => true
    case EmitInbound(Some(f)) => f.kind.Response? && OpenClient(log, f.method_).None?
    case ExpectOutbound(_) => false
  }

  /** The run has come to an entry that cannot be played. */
  predicate Stuck(setup: Setup, s: State) {
    s.cursor < |setup.entries| && Unplayable(s.log, setup.entries[s.cursor])
  }

  lemma {:induction false} FlushStopsExactly(setup: Setup, s: State)
    requires Inv(setup, s) && !s.stopped
    ensures Flush(setup, s).stopped <==> Stuck(setup, Flush(setup, s))
    decreases |setup.entries| - s.cursor
  {
    if !AtExpectation(setup, s) {
      var entry := setup.entries[s.cursor];
      if entry.EmitInbound? && entry.frame.Some? {
        assert Lookup(s.pendingClient, entry.frame.value.method_) == OpenClient(s.log, entry.frame.value.method_);
      }
      if FlushStep(setup, s).stopped {
        assert FlushStep(setup, s) == Stop(s);
      } else {
        FlushStepKeeps(setup, s);
        FlushStopsExactly(setup, FlushStep(setup, s));
      }
    }
  }

  /** The line is a message that means a frame the transcript waits for. */
  ghost predicate Welcome(setup: Setup, s: State, line: Line) {
    line.Decoded? && exists f :: ReadsAfter(s.log, line.message, f) && Awaits(setup, s, f)
  }

  /** What a refused line leaves: the cursor stays, and only a request is told. */
  predicate RefusedAt(s: State, s': State, line: Line) {
    && s'.stopped && s'.cursor == s.cursor
    && s'.log == s.log + if line.Decoded? && line.message.method_.Some? && line.message.id.Some?
                            && line.message.id != Some(TextId(""))
                         then [Refused(line.message.id.value)] else []
  }

  lemma HandleStopsExactly(setup: Setup, s: State, m: Message)
    requires Inv(setup, s) && !s.stopped
    ensures var s' := Handle(setup, s, m);
            if Welcome(setup, s, Decoded(m)) then s'.stopped <==> Stuck(setup, s')
            else RefusedAt(s, s', Decoded(m))
  {
    if m.id.Some? {
      assert Lookup(s.pendingAgent, Key(m.id.value)) == OpenAgent(s.log, Key(m.id.value));
    }
    if f :| ReadsAfter(s.log, m, f) && Awaits(setup, s, f) {
      IncomingReads(s, m, f);
      RecordKeeps(s, m, f);
      FollowsExtends(setup, s, Advance(Took(s, m, f)));
      FlushStopsExactly(setup, Advance(Took(s, m, f)));
    } else if Incoming(s, m).Some? {
      IncomingReads(s, m, Incoming(s, m).value);
      assert !Awaits(setup, s, Incoming(s, m).value);
    }
  }

  /**
   * Why a run stops: the next line is refused exactly when it is no message the transcript
   * waits for, and otherwise the run stops exactly at an entry that cannot be played.
   */
  lemma StopsExactly(setup: Setup, lines: seq<Line>, line: Line)
    requires !Run(setup, lines).stopped
    ensures var s, s' := Run(setup, lines), Run(setup, lines + [line]);
            if Welcome(setup, s, line) then s'.stopped <==> Stuck(setup, s') else RefusedAt(s, s', line)
    ensures Run(setup, []).stopped <==> Stuck(setup, Run(setup, []))
  {
    assert setup.entries[..0] == [];
    FlushStopsExactly(setup, Initial());
    RunReplaysTranscript(setup, lines);
    RunSnoc(setup, lines, line);
    if line.Decoded? {
      HandleStopsExactly(setup, Run(setup, lines), line.message);
    }
  }

  /** After a stop nothing moves, whatever input follows. */
  lemma {:induction false} NothingMovesAfterStop(setup: Setup, lines: seq<Line>, more: seq<Line>)
    requires Run(setup, lines).stopped
    ensures Run(setup, lines + more) == Run(setup, lines)
    ensures Close(setup, Run(setup, lines)) == Run(setup, lines)
  {
    if more == [] {
      assert lines + more == lines;
    } else {
      assert (lines + more)[..|lines + more| - 1] == lines + more[..|more| - 1];
      NothingMovesAfterStop(setup, lines, more[..|more| - 1]);
    }
  }

  /** How many frames a stretch of the transcript puts on the wire. */
  function Frames(entries: seq<Entry>): nat {
    if entries == [] then 0
    else Frames(entries[..|entries| - 1]) + if entries[|entries| - 1].RuntimeExit? then 0 else 1
  }

  lemma {:induction false} FollowedFrames(entries: seq<Entry>, workspace: string, log: seq<Event>)
    requires Follows(entries, workspace, log)
    ensures |log| == Frames(entries)
  {
    if entries != [] {
      var front := entries[..|entries| - 1];
      FollowedFrames(front, workspace, if entries[|entries| - 1].RuntimeExit? then log else log[..|log| - 1]);
    }
  }

  lemma {:induction false} FramesGrow(entries: seq<Entry>, i: nat)
    requires i < |entries| && !entries[i].RuntimeExit?
    ensures Frames(entries[..i]) < Frames(entries)
    decreases |entries|
  {
    var last := |entries| - 1;
    if i < last {
      assert entries[..last][..i] == entries[..i];
      FramesGrow(entries[..last], i);
    }
  }

  /** Closing the input ends without a stop exactly when the whole transcript has been replayed. */
  lemma CleanCloseIsComplete(setup: Setup, lines: seq<Line>)
    ensures var s := Run(setup, lines);
            !Close(setup, s).stopped <==> !s.stopped && Follows(setup.entries, setup.workspace, s.log)
  {
    var s := Run(setup, lines);
    if !s.stopped {
      RunReplaysTranscript(setup, lines);
      assert setup.entries[..|setup.entries|] == setup.entries;
      if s.cursor < |setup.entries| && Follows(setup.entries, setup.workspace, s.log) {
        FollowedFrames(setup.entries, setup.workspace, s.log);
        FollowedFrames(setup.entries[..s.cursor], setup.workspace, s.log);
        FramesGrow(setup.entries, s.cursor);
      }
    }
  }

  predicate EmitsRequest(e: Event) {
    e.Emitted? && e.frame.kind.Request?
  }

  lemma {:induction false} RequestsEmittedGrows(log: seq<Event>, j: nat, k: nat)
    requires j < k <= |log| && EmitsRequest(log[j])
    ensures RequestsEmitted(log[..j]) < RequestsEmitted(log[..k])
    decreases k
  {
    assert log[..k][..k - 1] == log[..k - 1];
    if j < k - 1 {
      RequestsEmittedGrows(log, j, k - 1);
    }
  }

  /** Two agent requests of a run never carry ids that read alike, so no answer can be ambiguous. */
  lemma AgentIdsAreFresh(setup: Setup, lines: seq<Line>, j: nat, k: nat)
    requires var log := Run(setup, lines).log;
             j < k < |log| && EmitsRequest(log[j]) && EmitsRequest(log[k])
    ensures var log := Run(setup, lines).log;
            && log[j].message.id.Some? && log[k].message.id.Some?
            && Key(log[j].message.id.value) != Key(log[k].message.id.value)
  {
    var log := Run(setup, lines).log;
    EveryRunFollows(setup, lines);
    assert IdCorrect(log[..j], log[j]) && IdCorrect(log[..k], log[k]);
    RequestsEmittedGrows(log, j, k);
    NumberKeyReads(RequestsEmitted(log[..j]) + 1);
    NumberKeyReads(RequestsEmitted(log[..k]) + 1);
  }

  // ---------------------------------------------------------------- the agent

  class ReplayAgent {
    const setup: Setup
    var cursor: nat
    var stopped: bool
    var nextAgentRequestId: nat
    var pendingClientRequestIds: map<string, Id>
    var pendingAgentRequestMethods: map<string, string>
    var log: seq<Event>

    constructor (setup: Setup)
      ensures this.setup == setup && Snapshot() == Flush(setup, Initial())
    {
      this.setup := setup;
      cursor, stopped, nextAgentRequestId := 0, false, 1;
      pendingClientRequestIds, pendingAgentRequestMethods, log := map[], map[], [];
      new;
      FlushInbound();
    }

    function Snapshot(): State
      reads this
    {
      State(cursor, stopped, nextAgentRequestId, pendingClientRequestIds, pendingAgentRequestMethods, log)
    }

    method EmitInboundFrame(frame: Frame)
      modifies this
      ensures Snapshot() == Emit(old(Snapshot()), frame)
    {
      match frame.kind {
        case Notification =>
          log := log + [Emitted(Message(None, Some(frame.method_), frame.params, Undefined, Undefined), frame)];
        case Request =>
          var id := NumberId(nextAgentRequestId);
          nextAgentRequestId := nextAgentRequestId + 1;
          pendingAgentRequestMethods := pendingAgentRequestMethods[Key(id) := frame.method_];
          log := log + [Emitted(Message(Some(id), Some(frame.method_), frame.params, Undefined, Undefined), frame)];
        case Response =>
          if frame.method_ !in pendingClientRequestIds {
            stopped := true;
            return;
          }
          var id := pendingClientRequestIds[frame.method_];
          pendingClientRequestIds := pendingClientRequestIds - {frame.method_};
          log := log + [Emitted(Message(Some(id), None, Undefined, frame.result, frame.error), frame)];
      }
    }

    method FlushInbound()
      modifies this
      ensures Snapshot() == Flush(setup, old(Snapshot()))
    {
      while !stopped
        invariant Flush(setup, Snapshot()) == Flush(setup, old(Snapshot()))
        decreases |setup.entries| - cursor, if stopped then 0 else 1
      {
        if cursor >= |setup.entries| {
          return;
        }
        match setup.entries[cursor] {
          case ExpectOutbound(_) =>
            return;
          case RuntimeExit(status) =>
            if !status.Success? && !status.Cancelled? {
              stopped := true;
              return;
            }
            cursor := cursor + 1;
          case EmitInbound(frame) =>
            if frame.None? {
              stopped := true;
              return;
            }
            EmitInboundFrame(frame.value);
            if stopped {
              return;
            }
            cursor := cursor + 1;
        }
      }
    }

    method HandleMessage(message: Message)
      modifies this
      ensures Snapshot() == Handle(setup, old(Snapshot()), message)
    {
      if stopped {
        return;
      }
      var actual := Incoming(Snapshot(), message);
      if actual.None? {
        stopped := true;
        return;
      }
      var frame := actual.value;
      if cursor >= |setup.entries| || !setup.entries[cursor].ExpectOutbound?
         || !Matches(setup.entries[cursor].expected, FrameValue(frame), setup.workspace) {
        if frame.kind.Request? && message.id.Some? {
          log := log + [Refused(message.id.value)];
        }
        stopped := true;
        return;
      }
      log := log + [Accepted(message, frame)];
      if frame.kind.Request? && message.id.Some? {
        pendingClientRequestIds := pendingClientRequestIds[frame.method_ := message.id.value];
      } else if frame.kind.Response? && message.id.Some? {
        pendingAgentRequestMethods := pendingAgentRequestMethods - {Key(message.id.value)};
      }
      cursor := cursor + 1;
      FlushInbound();
    }
  }
}
