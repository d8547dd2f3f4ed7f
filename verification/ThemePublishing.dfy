/**
 * The publisher of environment themes. Any number of refreshes, directory changes and
 * subscribers interleave; a refresh is split into the steps between which others may run:
 * taking the semaphore, reading the directory, updating the published set, announcing a
 * change to the one-slot sliding queues, and releasing the semaphore. A refresh may be
 * interrupted up to the end of its directory read; what follows the read is synchronous.
 */
module ThemePublishing {
  import opened Options
  import ThemeFiles

  type Themes = seq<ThemeFiles.Theme>

  datatype Published = Published(number: nat, themes: Themes)

  /** The refresh holding the semaphore; `who` is the subscriber it takes the snapshot for. */
  datatype Holder =
    | Free
    | Entered(who: Option<nat>, since: nat)
    | Observed(who: Option<nat>, since: nat, at: nat, themes: Themes)
    | Committed(who: Option<nat>, since: nat, at: nat, changed: bool, next: Published)
    | Announced(who: Option<nat>, since: nat, at: nat, next: Published)

  datatype Phase = Subscribed | Joined(snapshot: Published) | Live(from: nat)

  /** `dropped` records the numbers of the sets that left the slot because a newer one took it. */
  datatype Subscriber = Subscriber(
    slot: Option<Published>, phase: Phase, delivered: seq<Published>, dropped: set<nat>)

  /**
   * `directory` lists every content the directory has had, the last one being the present
   * one; `sets` and `observedAt` record each published set and when it was read.
   */
  datatype State = State(
    directory: seq<Themes>, published: Published, holder: Holder, subscribers: map<nat, Subscriber>,
    sets: seq<Themes>, observedAt: seq<nat>)

  datatype Event =
    | ChangeDirectory(content: Themes)
    | Subscribe(id: nat)
    | Unsubscribe(id: nat)
    | Enter(for_: Option<nat>)
    | Observe
    | Interrupt
    | Commit
    | Announce
    | Leave
    | DeliverSnapshot(id: nat)
    | Take(id: nat)

  function Start(content: Themes): State {
    State([content], Published(0, []), Free, map[], [[]], [0])
  }

  /** The subscriber a refresh runs for is still waiting for its snapshot. */
  predicate JoinerWaits(s: State) {
    !s.holder.Free? && s.holder.who.Some? ==>
      s.holder.who.value in s.subscribers && s.subscribers[s.holder.who.value].phase.Subscribed?
  }

  predicate Enabled(s: State, e: Event) {
    match e
    case ChangeDirectory(_) => true
    case Subscribe(id) => id !in s.subscribers
    case Unsubscribe(id) =>
      id in s.subscribers && (s.holder.Free? || s.holder.who != Some(id))
    case Enter(who) =>
      s.holder.Free? && (who.Some? ==> who.value in s.subscribers && s.subscribers[who.value].phase.Subscribed?)
    case Observe => s.holder.Entered? && s.directory != []
    case Interrupt => s.holder.Entered? || s.holder.Observed?
    case Commit => s.holder.Observed?
    case Announce => s.holder.Committed?
    case Leave => s.holder.Announced? && JoinerWaits(s)
    case DeliverSnapshot(id) => id in s.subscribers && s.subscribers[id].phase.Joined?
    case Take(id) => id in s.subscribers && s.subscribers[id].phase.Live? && s.subscribers[id].slot.Some?
  }

  /** A sliding queue of one slot keeps only the newest set. */
  function Offer(subscribers: map<nat, Subscriber>, p: Published): map<nat, Subscriber> {
    map id | id in subscribers :: Offered(subscribers[id], p)
  }

  function Offered(sub: Subscriber, p: Published): Subscriber {
    sub.(slot := Some(p), dropped := sub.dropped + if sub.slot.Some? then {sub.slot.value.number} else {})
  }

  function Delivered(sub: Subscriber): Subscriber
    requires sub.phase.Joined?
  {
    sub.(phase := Live(sub.phase.snapshot.number), delivered := [sub.phase.snapshot])
  }

  function Taken(sub: Subscriber): Subscriber
    requires sub.phase.Live? && sub.slot.Some?
  {
    var update := sub.slot.value;
    sub.(slot := None, delivered := if update.number > sub.phase.from then sub.delivered + [update] else sub.delivered)
  }

  function Apply(s: State, e: Event): State
    requires Enabled(s, e)
  {
    match e
    case ChangeDirectory(content) => s.(directory := s.directory + [content])
    case Subscribe(id) => s.(subscribers := s.subscribers[id := Subscriber(None, Subscribed, [], {})])
    case Unsubscribe(id) => s.(subscribers := s.subscribers - {id})
    case Enter(who) => s.(holder := Entered(who, |s.directory|))
    case Observe =>
      var at := |s.directory| - 1;
      s.(holder := Observed(s.holder.who, s.holder.since, at, s.directory[at]))
    case Interrupt =>
      var who := s.holder.who;
      s.(holder := Free, subscribers := if who.Some? then s.subscribers - {who.value} else s.subscribers)
    case Commit =>
      var h := s.holder;
      if s.published.themes == h.themes then
        s.(holder := Committed(h.who, h.since, h.at, false, s.published))
      else
        var updated := Published(s.published.number + 1, h.themes);
        s.(published := updated, holder := Committed(h.who, h.since, h.at, true, updated),
           sets := s.sets + [h.themes], observedAt := s.observedAt + [h.at])
    case Announce =>
      var h := s.holder;
      s.(subscribers := if h.changed then Offer(s.subscribers, h.next) else s.subscribers,
         holder := Announced(h.who, h.since, h.at, h.next))
    case Leave =>
      var h := s.holder;
      s.(holder := Free,
         subscribers := if h.who.None? then s.subscribers
                        else s.subscribers[h.who.value := s.subscribers[h.who.value].(phase := Joined(h.next))])
    case DeliverSnapshot(id) =>
      var sub := s.subscribers[id];
      s.(subscribers := s.subscribers[id := Delivered(sub)])
    case Take(id) => s.(subscribers := s.subscribers[id := Taken(s.subscribers[id])])
  }

  /** A run performs the enabled events and skips the others. */
  function Run(s: State, events: seq<Event>): State {
    if events == [] then s
    else
      var t := Run(s, events[..|events| - 1]);
      var e := events[|events| - 1];
      if Enabled(t, e) then Apply(t, e) else t
  }

  // ---------------------------------------------------------------- the invariant

  /** The published sets: each was in the directory when it was read, later ones were read later. */
  predicate History(s: State) {
    && |s.directory| > 0
    && |s.sets| == |s.observedAt| == s.published.number + 1
    && s.sets[s.published.number] == s.published.themes
    && (forall i :: 0 <= i < |s.sets| ==> s.observedAt[i] < |s.directory|)
    && (forall i :: 0 < i < |s.sets| ==> s.sets[i] == s.directory[s.observedAt[i]])
    && (forall i :: 0 < i < |s.sets| ==> s.sets[i] != s.sets[i - 1])
    && (forall i, j :: 0 <= i < j < |s.sets| ==> s.observedAt[i] <= s.observedAt[j])
  }

  predicate Known(s: State, p: Published) {
    p.number < |s.sets| && s.sets[p.number] == p.themes
  }

  /** The newest number anyone but the holder can have seen. */
  function Newest(s: State): int {
    if s.holder.Committed? && s.holder.changed then s.published.number - 1 else s.published.number
  }

  predicate Last(s: State, at: nat)
    requires |s.observedAt| > 0
  {
    at < |s.directory| && s.observedAt[|s.observedAt| - 1] <= at
  }

  predicate HolderOk(s: State)
    requires History(s)
  {
    match s.holder
    case Free => true
    case Entered(_, since) => since <= |s.directory|
    case Observed(_, since, at, themes) => since <= at + 1 && Last(s, at) && themes == s.directory[at]
    case Committed(_, since, at, _, next) =>
      since <= at + 1 && Last(s, at) && next == s.published && next.themes == s.directory[at]
    case Announced(_, since, at, next) =>
      since <= at + 1 && Last(s, at) && next == s.published && next.themes == s.directory[at]
  }

  predicate Increasing(delivered: seq<Published>) {
    forall i, j :: 0 <= i < j < |delivered| ==> delivered[i].number < delivered[j].number
  }

  predicate SubscriberOk(s: State, sub: Subscriber) {
    && (forall i :: 0 <= i < |sub.delivered| ==> Known(s, sub.delivered[i]) && sub.delivered[i].number <= Newest(s))
    && (sub.slot.Some? ==> Known(s, sub.slot.value) && sub.slot.value.number <= Newest(s))
    && Increasing(sub.delivered)
    && match sub.phase
       case Subscribed => sub.delivered == []
       case Joined(snapshot) =>
         sub.delivered == [] && Known(s, snapshot) && snapshot.number <= Newest(s) && UpToDate(s, sub, snapshot)
       case Live(from) =>
         && sub.delivered != [] && sub.delivered[0].number == from
         && var last := sub.delivered[|sub.delivered| - 1];
            UpToDate(s, sub, last)
            && (sub.slot.Some? ==> sub.slot.value.number <= from || sub.slot.value.number > last.number)
  }

  /** Nothing newer is lost: the newest set has been seen or waits in the slot. */
  predicate UpToDate(s: State, sub: Subscriber, seen: Published) {
    seen.number == Newest(s) || (sub.slot.Some? && sub.slot.value.number == Newest(s))
  }

  /** The number up to which the snapshot covers a subscriber. */
  function Since(phase: Phase): nat {
    match phase
    case Subscribed => 0
    case Joined(snapshot) => snapshot.number
    case Live(from) => from
  }

  predicate Received(sub: Subscriber, n: nat) {
    exists i :: 0 <= i < |sub.delivered| && sub.delivered[i].number == n
  }

  /** Every later set the subscriber was offered was dropped, waits in the slot, or was received. */
  predicate Accounted(s: State, sub: Subscriber) {
    !sub.phase.Subscribed? ==>
      forall n: nat :: Since(sub.phase) < n <= Newest(s) ==>
        n in sub.dropped || (sub.slot.Some? && sub.slot.value.number == n) || Received(sub, n)
  }

  predicate Inv(s: State) {
    && History(s)
    && HolderOk(s)
    && JoinerWaits(s)
    && forall id :: id in s.subscribers ==> SubscriberOk(s, s.subscribers[id]) && Accounted(s, s.subscribers[id])
  }

  // ---------------------------------------------------------------- steps keep it

  /** A step that changes no set numbered so far and leaves the newest alone. */
  predicate SameView(s: State, s': State) {
    && Newest(s') == Newest(s)
    && |s.sets| <= |s'.sets|
    && s'.sets[..|s.sets|] == s.sets
  }

  lemma ViewKept(s: State, s': State, sub: Subscriber)
    requires SameView(s, s') && SubscriberOk(s, sub)
    ensures SubscriberOk(s', sub)
  {
    forall p: Published | Known(s, p) ensures Known(s', p) {
      assert s'.sets[p.number] == s'.sets[..|s.sets|][p.number];
    }
  }

  lemma OfferKeeps(s: State, s': State, sub: Subscriber)
    requires SubscriberOk(s, sub) && s'.sets == s.sets && Newest(s') == Newest(s) + 1
    requires Known(s, s.published) && s.published.number == Newest(s')
    ensures SubscriberOk(s', Offered(sub, s.published))
  {
  }

  lemma OfferAccounts(s: State, s': State, sub: Subscriber)
    requires Accounted(s, sub) && Newest(s') == Newest(s) + 1 == s.published.number
    ensures Accounted(s', Offered(sub, s.published))
  {
    var sub' := Offered(sub, s.published);
    forall n: nat ensures Received(sub, n) ==> Received(sub', n) {
      if i :| 0 <= i < |sub.delivered| && sub.delivered[i].number == n {
        assert sub'.delivered[i].number == n;
      }
    }
  }

  lemma AccountCarries(s: State, s': State, sub: Subscriber)
    requires Newest(s') == Newest(s) && Accounted(s, sub)
    ensures Accounted(s', sub)
  {
  }

  lemma JoinAccounts(s: State, sub: Subscriber, snapshot: Published)
    requires snapshot.number == Newest(s)
    ensures Accounted(s, sub.(phase := Joined(snapshot)))
  {
  }

  lemma SnapshotAccounts(s: State, sub: Subscriber)
    requires Accounted(s, sub) && sub.phase.Joined? && sub.delivered == []
    ensures Accounted(s, Delivered(sub))
  {
  }

  lemma TakeAccounts(s: State, sub: Subscriber)
    requires Accounted(s, sub) && sub.phase.Live? && sub.slot.Some?
    ensures Accounted(s, Taken(sub))
  {
    var sub', d := Taken(sub), sub.delivered;
    forall n: nat | sub.phase.from < n && (sub.slot.value.number == n || Received(sub, n)) ensures Received(sub', n) {
      if i :| 0 <= i < |d| && d[i].number == n {
        assert sub'.delivered[i] == d[i];
      } else {
        assert sub'.delivered[|d|].number == n;
      }
    }
  }

  lemma JoinKeeps(s: State, sub: Subscriber, snapshot: Published)
    requires SubscriberOk(s, sub) && sub.phase.Subscribed?
    requires Known(s, snapshot) && snapshot.number == Newest(s)
    ensures SubscriberOk(s, sub.(phase := Joined(snapshot)))
  {
  }

  lemma SnapshotKeeps(s: State, sub: Subscriber)
    requires SubscriberOk(s, sub) && sub.phase.Joined?
    ensures SubscriberOk(s, Delivered(sub))
  {
  }

  lemma TakeKeeps(s: State, sub: Subscriber)
    requires SubscriberOk(s, sub) && sub.phase.Live? && sub.slot.Some?
    ensures SubscriberOk(s, Taken(sub))
  {
    var d, d' := sub.delivered, Taken(sub).delivered;
    assert forall i :: 0 <= i < |d| ==> d[i].number <= d[|d| - 1].number;
    assert d[0].number == sub.phase.from;
  }

  lemma CommitHistory(s: State)
    requires History(s) && HolderOk(s) && s.holder.Observed?
    ensures History(Apply(s, Commit))
  {
    var s' := Apply(s, Commit);
    if s'.published != s.published {
      assert s'.sets[|s.sets|] == s.holder.themes && s'.observedAt[|s.sets|] == s.holder.at;
    }
  }

  lemma CommitHolder(s: State)
    requires History(s) && HolderOk(s) && s.holder.Observed? && History(Apply(s, Commit))
    ensures HolderOk(Apply(s, Commit))
  {
    var s' := Apply(s, Commit);
    assert s'.observedAt[|s'.observedAt| - 1] <= s.holder.at;
  }

  lemma HistoryKept(s: State, e: Event)
    requires History(s) && HolderOk(s) && Enabled(s, e)
    ensures History(Apply(s, e)) && HolderOk(Apply(s, e))
  {
    match e {
      case Commit =>
        CommitHistory(s);
        CommitHolder(s);
      case ChangeDirectory(content) => ChangeKeepsHistory(s, content);
      case _ => SameHistory(s, e);
    }
  }

  lemma ChangeKeepsHistory(s: State, content: Themes)
    requires History(s) && HolderOk(s)
    ensures History(Apply(s, ChangeDirectory(content))) && HolderOk(Apply(s, ChangeDirectory(content)))
  {
    assert forall i :: 0 <= i < |s.directory| ==> Apply(s, ChangeDirectory(content)).directory[i] == s.directory[i];
  }

  lemma SameHistory(s: State, e: Event)
    requires History(s) && HolderOk(s) && Enabled(s, e) && !e.Commit? && !e.ChangeDirectory?
    ensures History(Apply(s, e)) && HolderOk(Apply(s, e))
  {
    var s' := Apply(s, e);
    assert s'.directory == s.directory && s'.sets == s.sets && s'.observedAt == s.observedAt;
    assert s'.published == s.published;
  }

  lemma JoinerKept(s: State, e: Event)
    requires Inv(s) && Enabled(s, e)
    ensures JoinerWaits(Apply(s, e))
  {
  }

  lemma ViewOf(s: State, e: Event)
    requires Inv(s) && Enabled(s, e) && !(e.Announce? && s.holder.changed)
    ensures SameView(s, Apply(s, e))
  {
  }

  lemma SubscriberAfter(s: State, e: Event, id: nat)
    requires Enabled(s, e) && id in s.subscribers && id in Apply(s, e).subscribers
    ensures var sub := s.subscribers[id];
            Apply(s, e).subscribers[id]
            == if e.Announce? && s.holder.changed then Offered(sub, s.holder.next)
               else if e.Leave? && s.holder.who == Some(id) then sub.(phase := Joined(s.holder.next))
               else if e == DeliverSnapshot(id) then Delivered(sub)
               else if e == Take(id) then Taken(sub)
               else sub
  {
  }

  lemma SubscriberStep(s: State, e: Event, id: nat)
    requires Inv(s) && Enabled(s, e)
    requires id in s.subscribers && id in Apply(s, e).subscribers
    ensures SubscriberOk(Apply(s, e), Apply(s, e).subscribers[id])
  {
    var s', sub := Apply(s, e), s.subscribers[id];
    SubscriberAfter(s, e, id);
    assert SubscriberOk(s, sub);
    if e.Announce? && s.holder.changed {
      OfferKeeps(s, s', sub);
    } else {
      ViewOf(s, e);
      ViewKept(s, s', sub);
      if e.Leave? && s.holder.who == Some(id) {
        JoinKeeps(s', sub, s.holder.next);
      } else if e == DeliverSnapshot(id) {
        SnapshotKeeps(s', sub);
      } else if e == Take(id) {
        TakeKeeps(s', sub);
      }
    }
  }

  lemma AccountStep(s: State, e: Event, id: nat)
    requires Inv(s) && Enabled(s, e)
    requires id in s.subscribers && id in Apply(s, e).subscribers
    ensures Accounted(Apply(s, e), Apply(s, e).subscribers[id])
  {
    var s', sub := Apply(s, e), s.subscribers[id];
    SubscriberAfter(s, e, id);
    assert SubscriberOk(s, sub) && Accounted(s, sub);
    if e.Announce? && s.holder.changed {
      OfferAccounts(s, s', sub);
    } else {
      ViewOf(s, e);
      AccountCarries(s, s', sub);
      if e.Leave? && s.holder.who == Some(id) {
        JoinAccounts(s', sub, s.holder.next);
      } else if e == DeliverSnapshot(id) {
        SnapshotAccounts(s', sub);
      } else if e == Take(id) {
        TakeAccounts(s', sub);
      }
    }
  }

  lemma StepKeeps(s: State, e: Event)
    requires Inv(s) && Enabled(s, e)
    ensures Inv(Apply(s, e))
  {
    var s' := Apply(s, e);
    HistoryKept(s, e);
    JoinerKept(s, e);
    forall id | id in s'.subscribers
      ensures SubscriberOk(s', s'.subscribers[id]) && Accounted(s', s'.subscribers[id])
    {
      if id in s.subscribers {
        SubscriberStep(s, e, id);
        AccountStep(s, e, id);
      } else {
        assert s'.subscribers[id] == Subscriber(None, Subscribed, [], {});
      }
    }
  }

  /** The invariant holds over every interleaving of every run. */
  lemma {:induction false} RunKeeps(content: Themes, events: seq<Event>)
    ensures Inv(Run(Start(content), events))
  {
    if events != [] {
      RunKeeps(content, events[..|events| - 1]);
      var t := Run(Start(content), events[..|events| - 1]);
      if Enabled(t, events[|events| - 1]) {
        StepKeeps(t, events[|events| - 1]);
      }
    }
  }

  // ---------------------------------------------------------------- what it guarantees

  /** How often the published set changed, counted by comparing the sets before and after each step. */
  function SetChanges(content: Themes, events: seq<Event>): nat {
    if events == [] then 0
    else
      var front := events[..|events| - 1];
      SetChanges(content, front)
      + if Run(Start(content), events).published.themes != Run(Start(content), front).published.themes then 1 else 0
  }

  lemma NumberStep(s: State, e: Event)
    requires Enabled(s, e)
    ensures var s' := Apply(s, e);
            && s'.published.number == s.published.number + (if s'.published.themes != s.published.themes then 1 else 0)
            && (s'.published != s.published <==> e.Commit? && s.holder.themes != s.published.themes)
  {
  }

  /**
   * Over every run the sequence number counts the changes of the published set: it grows by one
   * exactly when a refresh finds a different set, and never otherwise.
   */
  lemma {:induction false} NumberCountsChanges(content: Themes, events: seq<Event>)
    ensures Run(Start(content), events).published.number == SetChanges(content, events)
  {
    if events != [] {
      var front := events[..|events| - 1];
      NumberCountsChanges(content, front);
      var t := Run(Start(content), front);
      if Enabled(t, events[|events| - 1]) {
        NumberStep(t, events[|events| - 1]);
      }
    }
  }

  /** Later numbers carry strictly later observations of the directory. */
  lemma LaterNumbersAreLaterObservations(content: Themes, events: seq<Event>, i: nat, j: nat)
    requires 0 < i < j < |Run(Start(content), events).sets|
    ensures |Run(Start(content), events).observedAt| == |Run(Start(content), events).sets|
    ensures Run(Start(content), events).observedAt[i] < Run(Start(content), events).observedAt[j]
  {
    RunKeeps(content, events);
    LaterIsLater(Run(Start(content), events), i, j);
  }

  lemma LaterIsLater(s: State, i: nat, j: nat)
    requires History(s) && 0 < i < j < |s.sets|
    ensures s.observedAt[i] < s.observedAt[j]
  {
    assert s.sets[i + 1] != s.sets[i] && s.observedAt[i] <= s.observedAt[i + 1];
    assert i + 1 == j || s.observedAt[i + 1] <= s.observedAt[j];
  }

  /**
   * A subscriber is never walked backwards: every set it receives was read from the directory
   * strictly later than the ones before it.
   */
  lemma DeliveriesMoveForward(content: Themes, events: seq<Event>, id: nat, i: nat, j: nat)
    requires id in Run(Start(content), events).subscribers
    requires i < j < |Run(Start(content), events).subscribers[id].delivered|
    ensures var s := Run(Start(content), events);
            var d := s.subscribers[id].delivered;
            && d[i].number < d[j].number
            && Known(s, d[i]) && Known(s, d[j]) && |s.observedAt| == |s.sets|
            && (d[i].number > 0 ==> s.observedAt[d[i].number] < s.observedAt[d[j].number])
            && (d[j].number == d[i].number + 1 ==> d[j].themes != d[i].themes)
  {
    RunKeeps(content, events);
    var s := Run(Start(content), events);
    var d := s.subscribers[id].delivered;
    assert SubscriberOk(s, s.subscribers[id]);
    assert d[i].number < d[j].number;
    if d[i].number > 0 {
      LaterNumbersAreLaterObservations(content, events, d[i].number, d[j].number);
    }
  }

  /**
   * Two sets received one after the other have consecutive numbers, and so differ, exactly
   * when no set numbered between them was dropped from the slot.
   */
  lemma ConsecutiveUnlessDropped(content: Themes, events: seq<Event>, id: nat, i: nat)
    requires id in Run(Start(content), events).subscribers
    requires i + 1 < |Run(Start(content), events).subscribers[id].delivered|
    ensures var sub := Run(Start(content), events).subscribers[id];
            var a, b := sub.delivered[i].number, sub.delivered[i + 1].number;
            b == a + 1 <==> forall n :: n in sub.dropped ==> !(a < n < b)
  {
    RunKeeps(content, events);
    var s := Run(Start(content), events);
    SkippedWasDropped(s, s.subscribers[id], i);
  }

  lemma SkippedWasDropped(s: State, sub: Subscriber, i: nat)
    requires SubscriberOk(s, sub) && Accounted(s, sub) && i + 1 < |sub.delivered|
    ensures var a, b := sub.delivered[i].number, sub.delivered[i + 1].number;
            a < b && (a + 1 < b ==> a + 1 in sub.dropped)
  {
    var d := sub.delivered;
    var n := d[i].number + 1;
    assert d[0].number <= d[i].number < d[i + 1].number <= d[|d| - 1].number;
    if Received(sub, n) {
      var k :| 0 <= k < |d| && d[k].number == n;
      assert i < k <= i + 1;
    }
  }

  /**
   * Nothing is lost: a subscriber with an empty slot has last received exactly the published
   * set, except just while a refresh that changed the set has still to announce it.
   */
  lemma QuietSubscriberIsCurrent(content: Themes, events: seq<Event>, id: nat)
    requires var s := Run(Start(content), events);
             id in s.subscribers && s.subscribers[id].phase.Live? && s.subscribers[id].slot.None?
    ensures var s := Run(Start(content), events);
            var d := s.subscribers[id].delivered;
            d != [] && (d[|d| - 1] == s.published <==> !(s.holder.Committed? && s.holder.changed))
  {
    RunKeeps(content, events);
    var s := Run(Start(content), events);
    assert SubscriberOk(s, s.subscribers[id]);
  }

  /** The `n`-th event took the semaphore for the refresh that still holds it. */
  predicate EnteredAt(content: Themes, events: seq<Event>, n: nat) {
    && n < |events| && events[n].Enter? && Enabled(Run(Start(content), events[..n]), events[n])
    && forall m: nat :: n < m < |events| && events[m].Enter? ==> !Enabled(Run(Start(content), events[..m]), events[m])
  }

  function EntryOf(h: Holder): nat
    requires !h.Free?
  {
    match h
    case Entered(_, since) => since
    case Observed(_, since, _, _) => since
    case Committed(_, since, _, _, _) => since
    case Announced(_, since, _, _) => since
  }

  lemma HolderStep(s: State, e: Event)
    requires Enabled(s, e) && !Apply(s, e).holder.Free?
    ensures if e.Enter? then Apply(s, e).holder == Entered(e.for_, |s.directory|)
            else !s.holder.Free? && EntryOf(Apply(s, e).holder) == EntryOf(s.holder) && Apply(s, e).holder.who == s.holder.who
  {
  }

  lemma EnteredLater(content: Themes, events: seq<Event>, n: nat)
    requires events != [] && EnteredAt(content, events[..|events| - 1], n)
    requires var last := |events| - 1; !(events[last].Enter? && Enabled(Run(Start(content), events[..last]), events[last]))
    ensures EnteredAt(content, events, n) && events[n] == events[..|events| - 1][n]
    ensures events[..|events| - 1][..n] == events[..n]
  {
    var front := events[..|events| - 1];
    assert forall m: nat :: m <= |front| ==> front[..m] == events[..m];
  }

  /** A refresh remembers the length of the directory's history when it took the semaphore. */
  lemma {:induction false} HolderEntered(content: Themes, events: seq<Event>) returns (n: nat)
    requires !Run(Start(content), events).holder.Free?
    ensures EnteredAt(content, events, n)
    ensures Run(Start(content), events).holder.who == events[n].for_
    ensures EntryOf(Run(Start(content), events).holder) == |Run(Start(content), events[..n]).directory|
  {
    var last := |events| - 1;
    var front, e := events[..last], events[last];
    var t := Run(Start(content), front);
    if Enabled(t, e) {
      HolderStep(t, e);
    }
    if Enabled(t, e) && e.Enter? {
      n := last;
    } else {
      n := HolderEntered(content, front);
      EnteredLater(content, events, n);
    }
  }

  /**
   * What a refresh hands out was in the directory at some moment since that refresh took the
   * semaphore.
   */
  lemma RefreshReadsThePresent(content: Themes, events: seq<Event>) returns (n: nat, at: nat)
    requires Run(Start(content), events).holder.Announced?
    ensures var s := Run(Start(content), events);
            && EnteredAt(content, events, n) && s.holder.who == events[n].for_
            && |Run(Start(content), events[..n]).directory| - 1 <= at < |s.directory|
            && s.directory[at] == s.holder.next.themes
  {
    RunKeeps(content, events);
    n := HolderEntered(content, events);
    at := Run(Start(content), events).holder.at;
  }

  // ---------------------------------------------------------------- who is subscribed

  predicate SubscribesAt(content: Themes, events: seq<Event>, id: nat, n: nat) {
    n < |events| && events[n] == Subscribe(id) && Enabled(Run(Start(content), events[..n]), events[n])
  }

  /** The subscriber goes, or the refresh it waits for is interrupted, and it with it. */
  predicate Removes(s: State, e: Event, id: nat) {
    && Enabled(s, e)
    && (e == Unsubscribe(id) || (e.Interrupt? && s.holder.who == Some(id)))
  }

  ghost predicate StaysFrom(content: Themes, events: seq<Event>, id: nat, n: nat) {
    && SubscribesAt(content, events, id, n)
    && forall m: nat :: n < m < |events| ==> !Removes(Run(Start(content), events[..m]), events[m], id)
  }

  lemma MemberStep(s: State, e: Event, id: nat)
    requires Inv(s) && Enabled(s, e)
    ensures id in Apply(s, e).subscribers
            <==> e == Subscribe(id) || (id in s.subscribers && !Removes(s, e, id))
  {
  }

  lemma StaysLonger(content: Themes, events: seq<Event>, id: nat, n: nat)
    requires events != []
    ensures var last := |events| - 1;
            StaysFrom(content, events, id, n)
            <==> if n == last then SubscribesAt(content, events, id, n)
                 else StaysFrom(content, events[..last], id, n)
                      && !Removes(Run(Start(content), events[..last]), events[last], id)
  {
    var last := |events| - 1;
    assert forall m: nat :: m <= last ==> events[..last][..m] == events[..m];
  }

  /** In every run a subscriber is there exactly if it has come and has not been removed since. */
  lemma {:induction false} SubscribedExactly(content: Themes, events: seq<Event>, id: nat)
    ensures id in Run(Start(content), events).subscribers <==> exists n: nat :: StaysFrom(content, events, id, n)
  {
    if events != [] {
      var last := |events| - 1;
      var s, e := Run(Start(content), events[..last]), events[last];
      SubscribedExactly(content, events[..last], id);
      RunKeeps(content, events[..last]);
      if Enabled(s, e) {
        MemberStep(s, e, id);
      }
      SubscribedSnoc(content, events, id);
    }
  }

  lemma SubscribedSnoc(content: Themes, events: seq<Event>, id: nat)
    requires events != []
    ensures var last := |events| - 1;
            var s, e := Run(Start(content), events[..last]), events[last];
            (exists n: nat :: StaysFrom(content, events, id, n))
            <==> || (e == Subscribe(id) && Enabled(s, e))
                 || ((exists n: nat :: StaysFrom(content, events[..last], id, n)) && !Removes(s, e, id))
  {
    var last := |events| - 1;
    if n: nat :| StaysFrom(content, events, id, n) {
      StaysLonger(content, events, id, n);
    }
    if n: nat :| StaysFrom(content, events[..last], id, n) {
      StaysLonger(content, events, id, n);
    }
    StaysLonger(content, events, id, last);
  }

  /** Up to the end of its read a refresh can be interrupted; it frees the semaphore and publishes nothing. */
  lemma InterruptLeavesNothing(content: Themes, events: seq<Event>)
    requires var s := Run(Start(content), events); s.holder.Entered? || s.holder.Observed?
    ensures Enabled(Run(Start(content), events), Interrupt)
    ensures var s, s' := Run(Start(content), events), Apply(Run(Start(content), events), Interrupt);
            && s'.holder.Free? && s'.published == s.published && s'.sets == s.sets && s'.directory == s.directory
            && forall id :: id in s'.subscribers ==> id in s.subscribers && s'.subscribers[id] == s.subscribers[id]
  {
  }

  // ---------------------------------------------------------------- every subscriber can catch up

  lemma {:induction false} RunConcat(s: State, a: seq<Event>, b: seq<Event>)
    ensures Run(s, a + b) == Run(Run(s, a), b)
  {
    if b == [] {
      assert a + b == a;
    } else {
      assert (a + b)[..|a + b| - 1] == a + b[..|b| - 1];
      RunConcat(s, a, b[..|b| - 1]);
    }
  }

  lemma RunOne(s: State, e: Event)
    requires Enabled(s, e)
    ensures Run(s, [e]) == Apply(s, e)
  {
    assert [e][..0] == [];
  }

  lemma RunSnoc(s: State, events: seq<Event>, e: Event)
    requires Enabled(Run(s, events), e)
    ensures Run(s, events + [e]) == Apply(Run(s, events), e)
  {
    assert (events + [e])[..|events|] == events;
  }

  /** How many steps the refresh still has to take. */
  function HolderSteps(h: Holder): nat {
    match h
    case Free => 0
    case Entered(_, _) => 4
    case Observed(_, _, _, _) => 3
    case Committed(_, _, _, _, _) => 2
    case Announced(_, _, _, _) => 1
  }

  function HolderEvent(h: Holder): Event
    requires !h.Free?
  {
    match h
    case Entered(_, _) => Observe
    case Observed(_, _, _, _) => Commit
    case Committed(_, _, _, _, _) => Announce
    case Announced(_, _, _, _) => Leave
  }

  /** The refresh has not read the directory yet, or has read and will publish its present content. */
  predicate ReadsPresent(s: State) {
    && |s.directory| > 0
    && var present := s.directory[|s.directory| - 1];
       match s.holder
       case Free => s.published.themes == present
       case Entered(_, _) => true
       case Observed(_, _, _, themes) => themes == present
       case Committed(_, _, _, _, _) => s.published.themes == present
       case Announced(_, _, _, _) => s.published.themes == present
  }

  lemma RefreshStep(s: State)
    requires Inv(s) && !s.holder.Free?
    ensures var e := HolderEvent(s.holder);
            && Enabled(s, e) && HolderSteps(Apply(s, e).holder) < HolderSteps(s.holder)
            && Apply(s, e).directory == s.directory
            && (ReadsPresent(s) ==> ReadsPresent(Apply(s, e)))
  {
  }

  lemma RefreshStepFor(s: State, id: nat)
    requires Inv(s) && !s.holder.Free? && id in s.subscribers
    ensures var s' := Apply(s, HolderEvent(s.holder));
            && Enabled(s, HolderEvent(s.holder)) && id in s'.subscribers
            && (s.holder.who != Some(id) ==>
                  s'.subscribers[id].phase == s.subscribers[id].phase
                  && (s'.holder.Free? || s'.holder.who != Some(id)))
            && (s.holder.who == Some(id) ==>
                  if s'.holder.Free? then s'.subscribers[id].phase.Joined? else s'.holder.who == Some(id))
  {
  }

  lemma RunFirst(s: State, e: Event, more: seq<Event>)
    requires Enabled(s, e)
    ensures Run(s, [e] + more) == Run(Apply(s, e), more)
  {
    RunConcat(s, [e], more);
    RunOne(s, e);
  }

  /** A refresh can always finish, with nothing else happening meanwhile. */
  lemma {:induction false} RefreshCanFinish(s: State, id: nat) returns (more: seq<Event>)
    requires Inv(s) && id in s.subscribers
    ensures var s' := Run(s, more);
            && Inv(s') && s'.holder.Free? && s'.directory == s.directory && id in s'.subscribers
            && (ReadsPresent(s) ==> ReadsPresent(s'))
            && (!s.holder.Free? && s.holder.who == Some(id) ==> s'.subscribers[id].phase.Joined?)
            && (s.holder.Free? || s.holder.who != Some(id) ==>
                  s'.subscribers[id].phase == s.subscribers[id].phase)
    decreases HolderSteps(s.holder)
  {
    if s.holder.Free? {
      more := [];
    } else {
      var e := HolderEvent(s.holder);
      RefreshStep(s);
      RefreshStepFor(s, id);
      StepKeeps(s, e);
      var rest := RefreshCanFinish(Apply(s, e), id);
      RunFirst(s, e, rest);
      more := [e] + rest;
    }
  }

  lemma CanGoLive(s: State, id: nat) returns (more: seq<Event>)
    requires Inv(s) && id in s.subscribers && s.holder.Free?
    ensures var s' := Run(s, more);
            && Inv(s') && s'.holder.Free? && s'.directory == s.directory
            && id in s'.subscribers && s'.subscribers[id].phase.Live?
  {
    var join: seq<Event>, t := [], s;
    if s.subscribers[id].phase.Subscribed? {
      var e := Enter(Some(id));
      StepKeeps(s, e);
      var rest := RefreshCanFinish(Apply(s, e), id);
      RunFirst(s, e, rest);
      join, t := [e] + rest, Run(Apply(s, e), rest);
    }
    if t.subscribers[id].phase.Live? {
      more := join;
    } else {
      StepKeeps(t, DeliverSnapshot(id));
      RunSnoc(s, join, DeliverSnapshot(id));
      more := join + [DeliverSnapshot(id)];
    }
  }

  lemma CanRefresh(s: State, id: nat) returns (more: seq<Event>)
    requires Inv(s) && id in s.subscribers && s.holder.Free? && s.subscribers[id].phase.Live?
    ensures var s' := Run(s, more);
            && Inv(s') && s'.holder.Free? && s'.directory == s.directory && ReadsPresent(s')
            && id in s'.subscribers && s'.subscribers[id].phase.Live?
  {
    var e := Enter(None);
    StepKeeps(s, e);
    assert ReadsPresent(Apply(s, e));
    var rest := RefreshCanFinish(Apply(s, e), id);
    RunFirst(s, e, rest);
    more := [e] + rest;
  }

  lemma TakeEmpties(s: State, id: nat)
    requires Inv(s) && Enabled(s, Take(id)) && s.holder.Free? && ReadsPresent(s)
    ensures var s' := Apply(s, Take(id));
            && Inv(s') && s'.holder.Free? && ReadsPresent(s') && s'.directory == s.directory
            && id in s'.subscribers && s'.subscribers[id].phase.Live? && s'.subscribers[id].slot.None?
  {
    StepKeeps(s, Take(id));
  }

  lemma CanEmptySlot(s: State, id: nat) returns (more: seq<Event>)
    requires Inv(s) && id in s.subscribers && s.holder.Free? && s.subscribers[id].phase.Live? && ReadsPresent(s)
    ensures CaughtUp(Run(s, more), id, s.directory)
  {
    if s.subscribers[id].slot.None? {
      more := [];
      CaughtUpWhenEmpty(s, id);
    } else {
      TakeEmpties(s, id);
      RunOne(s, Take(id));
      more := [Take(id)];
      CaughtUpWhenEmpty(Apply(s, Take(id)), id);
    }
  }

  /** The subscriber has last received the present content of the directory and has nothing waiting. */
  predicate CaughtUp(s: State, id: nat, directory: seq<Themes>) {
    && s.directory == directory && directory != []
    && id in s.subscribers && s.subscribers[id].slot.None?
    && var d := s.subscribers[id].delivered;
       d != [] && d[|d| - 1].themes == directory[|directory| - 1]
  }

  lemma CaughtUpWhenEmpty(s: State, id: nat)
    requires Inv(s) && id in s.subscribers && s.holder.Free? && s.subscribers[id].phase.Live? && ReadsPresent(s)
    requires s.subscribers[id].slot.None?
    ensures CaughtUp(s, id, s.directory)
  {
    var sub := s.subscribers[id];
    assert SubscriberOk(s, sub);
    assert UpToDate(s, sub, sub.delivered[|sub.delivered| - 1]);
  }

  /**
   * Nothing ever hangs: in every run, whatever refresh is under way and however far the
   * subscriber has come, there are further steps after which it has received exactly the
   * present content of the directory.
   */
  lemma EverySubscriberCanCatchUp(content: Themes, events: seq<Event>, id: nat) returns (more: seq<Event>)
    requires id in Run(Start(content), events).subscribers
    ensures CaughtUp(Run(Start(content), events + more), id, Run(Start(content), events).directory)
  {
    var s := Run(Start(content), events);
    RunKeeps(content, events);
    var a := RefreshCanFinish(s, id);
    var s1 := Run(s, a);
    var b := CanGoLive(s1, id);
    var s2 := Run(s1, b);
    var c := CanRefresh(s2, id);
    var s3 := Run(s2, c);
    var d := CanEmptySlot(s3, id);
    RunConcat(s, a, b);
    RunConcat(s, a + b, c);
    RunConcat(s, a + b + c, d);
    more := a + b + c + d;
    RunConcat(Start(content), events, more);
  }

  /** And it can always leave, after the refresh it may be waiting for. */
  lemma EverySubscriberCanLeave(content: Themes, events: seq<Event>, id: nat) returns (more: seq<Event>)
    requires id in Run(Start(content), events).subscribers
    ensures id !in Run(Start(content), events + more).subscribers
  {
    var s := Run(Start(content), events);
    RunKeeps(content, events);
    var finish := RefreshCanFinish(s, id);
    RunSnoc(s, finish, Unsubscribe(id));
    more := finish + [Unsubscribe(id)];
    RunConcat(Start(content), events, more);
  }

  // ---------------------------------------------------------------- what it does not guarantee

  lemma RefreshUpToLeaving(s: State, who: Option<nat>) returns (events: seq<Event>, t: State)
    requires Inv(s) && Enabled(s, Enter(who)) && s.directory[|s.directory| - 1] != s.published.themes
    ensures t == Run(s, events)
    ensures var next := Published(s.published.number + 1, s.directory[|s.directory| - 1]);
            && t.holder == Announced(who, |s.directory|, |s.directory| - 1, next)
            && t.directory == s.directory && t.published == next && t.subscribers == Offer(s.subscribers, next)
  {
    RunOne(s, Enter(who));
    RunSnoc(s, [Enter(who)], Observe);
    RunSnoc(s, [Enter(who)] + [Observe], Commit);
    RunSnoc(s, [Enter(who)] + [Observe] + [Commit], Announce);
    events := [Enter(who)] + [Observe] + [Commit] + [Announce];
    t := Run(s, events);
  }

  /** A refresh that nobody interleaves with, from a free semaphore. */
  lemma WholeRefresh(s: State, who: Option<nat>) returns (events: seq<Event>)
    requires Inv(s) && Enabled(s, Enter(who)) && s.directory[|s.directory| - 1] != s.published.themes
    ensures var next := Published(s.published.number + 1, s.directory[|s.directory| - 1]);
            var s' := Run(s, events);
            && s'.directory == s.directory && s'.holder.Free? && s'.published == next
            && s'.subscribers.Keys == s.subscribers.Keys
            && forall id :: id in s.subscribers ==>
                 s'.subscribers[id] == if who == Some(id) then Offered(s.subscribers[id], next).(phase := Joined(next))
                                       else Offered(s.subscribers[id], next)
  {
    var before, t := RefreshUpToLeaving(s, who);
    RunSnoc(s, before, Leave);
    events := before + [Leave];
  }

  lemma RunKeepsFrom(s: State, events: seq<Event>)
    requires Inv(s)
    ensures Inv(Run(s, events))
  {
    if events != [] {
      RunKeepsFrom(s, events[..|events| - 1]);
      var t := Run(s, events[..|events| - 1]);
      if Enabled(t, events[|events| - 1]) {
        StepKeeps(t, events[|events| - 1]);
      }
    }
  }

  /**
   * A slow subscriber may receive the same set twice in a row: the set between was dropped
   * from its slot. Only sets with consecutive numbers are sure to differ.
   */
  lemma SkippedSetCanRepeat(a: Themes, b: Themes)
    requires a != [] && a != b
    ensures exists events :: var s := Run(Start(a), events);
              0 in s.subscribers && s.subscribers[0].delivered == [Published(1, a), Published(3, a)]
  {
    var e3, s3 := JoinFirst(a);
    var e5, s5 := PublishOne(Start(a), e3, s3, b);
    var e7, s7 := PublishOne(Start(a), e5, s5, a);
    RunSnoc(Start(a), e7, Take(0));
    assert Run(Start(a), e7 + [Take(0)]).subscribers[0].delivered == [Published(1, a)] + [Published(3, a)];
  }

  lemma FirstRefresh(a: Themes) returns (events: seq<Event>, s: State)
    requires a != []
    ensures s == Run(Start(a), events) && Inv(s) && s.holder.Free? && s.published == Published(1, a)
    ensures 0 in s.subscribers
    ensures s.subscribers[0] == Subscriber(Some(Published(1, a)), Joined(Published(1, a)), [], {})
  {
    RunOne(Start(a), Subscribe(0));
    var s1 := Run(Start(a), [Subscribe(0)]);
    RunKeeps(a, [Subscribe(0)]);
    var join := WholeRefresh(s1, Some(0));
    RunKeepsFrom(s1, join);
    RunConcat(Start(a), [Subscribe(0)], join);
    events := [Subscribe(0)] + join;
    s := Run(Start(a), events);
  }

  /** A subscriber connects and receives the first set. */
  lemma JoinFirst(a: Themes) returns (events: seq<Event>, s: State)
    requires a != []
    ensures s == Run(Start(a), events) && Inv(s) && s.holder.Free? && s.published == Published(1, a)
    ensures 0 in s.subscribers
    ensures s.subscribers[0] == Subscriber(Some(Published(1, a)), Live(1), [Published(1, a)], {})
  {
    var before, t := FirstRefresh(a);
    RunSnoc(Start(a), before, DeliverSnapshot(0));
    StepKeeps(t, DeliverSnapshot(0));
    events := before + [DeliverSnapshot(0)];
    s := Run(Start(a), events);
  }

  /** The directory changes and the watcher refreshes. */
  lemma PublishOne(s0: State, before: seq<Event>, s: State, content: Themes)
    returns (events: seq<Event>, s': State)
    requires s == Run(s0, before) && Inv(s) && s.holder.Free? && s.published.themes != content
    requires 0 in s.subscribers
    ensures s' == Run(s0, events) && Inv(s') && s'.holder.Free?
    ensures s'.published == Published(s.published.number + 1, content)
    ensures 0 in s'.subscribers
    ensures s'.subscribers[0] == Offered(s.subscribers[0], s'.published)
  {
    var t := Apply(s, ChangeDirectory(content));
    StepKeeps(s, ChangeDirectory(content));
    RunSnoc(s0, before, ChangeDirectory(content));
    var refresh := WholeRefresh(t, None);
    s' := Run(t, refresh);
    RunKeepsFrom(t, refresh);
    RunConcat(s0, before + [ChangeDirectory(content)], refresh);
    events := before + [ChangeDirectory(content)] + refresh;
  }
}
