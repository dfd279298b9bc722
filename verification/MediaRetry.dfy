/**
 The media-retry protocol: any number of callers of requestAndWaitForMediaRetry and any number
 of MediaRetry events, interleaved one map, channel or cache operation at a time.

 A caller that wins LoadOrStore is the leader of its message. Its channel has one slot and is
 named after the caller.
 */
module MediaRetry {
  import opened Types

  type MessageId = string

  datatype Event = Event(messageId: MessageId, body: int)

  /** Where a caller stands. Leaving: its result is fixed and the deferred Delete is still to run. */
  datatype CallerPoint =
    | Checking
    | Registering
    | Polling
    | Sending
    | Waiting
    | Leaving(result: Option<Event>)
    | Returned(final: Option<Event>)

  datatype Caller = Caller(message: MessageId, at: CallerPoint, registered: bool, receipts: nat)

  /** Where an event handler stands: before Set, before Load, before the send, after it. */
  datatype HandlerPoint =
    | Arrived
    | Cached
    | Loaded(target: Option<nat>)
    | Finished(tried: Option<nat>)

  datatype Handler = Handler(event: Event, at: HandlerPoint)

  datatype State = State(
    callers: map<nat, Caller>,
    handlers: map<nat, Handler>,
    waiters: map<MessageId, nat>,
    channels: map<nat, seq<Event>>,
    cache: map<MessageId, Event>)

  datatype Action =
    | Call(c: nat, message: MessageId)
    | CacheGet(c: nat)
    | LoadOrStore(c: nat)
    | PollTick(c: nat)
    | PollTimeout(c: nat)
    | SendReceipt(c: nat, ok: bool)
    | Receive(c: nat)
    | WaitTimeout(c: nat)
    | Delete(c: nat)
    | Arrive(h: nat, event: Event)
    | CacheSet(h: nat)
    | LoadWaiter(h: nat)
    | TrySend(h: nat)
    | Evict(key: MessageId)   // the TTL, or a caller whose event proved useless

  predicate CallerAt(s: State, c: nat, at: CallerPoint) {
    c in s.callers && s.callers[c].at == at
  }

  predicate Enabled(s: State, a: Action) {
    match a
    case Call(c, _) => c !in s.callers
    case CacheGet(c) => CallerAt(s, c, Checking)
    case LoadOrStore(c) => CallerAt(s, c, Registering)
    case PollTick(c) => CallerAt(s, c, Polling)
    case PollTimeout(c) => CallerAt(s, c, Polling)
    case SendReceipt(c, _) => CallerAt(s, c, Sending)
    case Receive(c) => CallerAt(s, c, Waiting) && c in s.channels && s.channels[c] != []
    case WaitTimeout(c) => CallerAt(s, c, Waiting)
    case Delete(c) => c in s.callers && s.callers[c].at.Leaving?
    case Arrive(h, _) => h !in s.handlers
    case CacheSet(h) => h in s.handlers && s.handlers[h].at.Arrived?
    case LoadWaiter(h) => h in s.handlers && s.handlers[h].at.Cached?
    case TrySend(h) => h in s.handlers && s.handlers[h].at.Loaded?
    case Evict(_) => true
  }

  function Move(s: State, c: nat, at: CallerPoint): State
    requires c in s.callers
  {
    s.(callers := s.callers[c := s.callers[c].(at := at)])
  }

  function Advance(s: State, h: nat, at: HandlerPoint): State
    requires h in s.handlers
  {
    s.(handlers := s.handlers[h := s.handlers[h].(at := at)])
  }

  function Lookup(s: State, m: MessageId): Option<Event> {
    if m in s.cache then Some(s.cache[m]) else None
  }

  function Step(s: State, a: Action): State
    requires Enabled(s, a)
  {
    match a
    case Call(c, m) => s.(callers := s.callers[c := Caller(m, Checking, false, 0)])
    case CacheGet(c) =>
      var hit := Lookup(s, s.callers[c].message);
      Move(s, c, if hit.Some? then Returned(hit) else Registering)
    case LoadOrStore(c) =>
      var m := s.callers[c].message;
      if m in s.waiters then Move(s, c, Polling)
      else s.(callers := s.callers[c := s.callers[c].(at := Sending, registered := true)],
              waiters := s.waiters[m := c],
              channels := s.channels[c := []])
    case PollTick(c) =>
      var hit := Lookup(s, s.callers[c].message);
      if hit.Some? then Move(s, c, Returned(hit)) else s
    case PollTimeout(c) => Move(s, c, Returned(None))
    case SendReceipt(c, ok) =>
      var caller := s.callers[c];
      var sent := caller.(at := if ok then Waiting else Leaving(None), receipts := caller.receipts + 1);
      s.(callers := s.callers[c := sent])
    case Receive(c) => Move(s, c, Leaving(Some(s.channels[c][0]))).(channels := s.channels[c := s.channels[c][1..]])
    case WaitTimeout(c) => Move(s, c, Leaving(None))
    case Delete(c) =>
      Move(s, c, Returned(s.callers[c].at.result)).(waiters := s.waiters - {s.callers[c].message})
    case Arrive(h, e) => s.(handlers := s.handlers[h := Handler(e, Arrived)])
    case CacheSet(h) =>
      var e := s.handlers[h].event;
      Advance(s, h, Cached).(cache := s.cache[e.messageId := e])
    case LoadWaiter(h) =>
      var m := s.handlers[h].event.messageId;
      Advance(s, h, Loaded(if m in s.waiters then Some(s.waiters[m]) else None))
    case TrySend(h) =>
      var target := s.handlers[h].at.target;
      var t := Advance(s, h, Finished(target));
      if target.Some? && target.value in s.channels && |s.channels[target.value]| < 1
      then t.(channels := s.channels[target.value := s.channels[target.value] + [s.handlers[h].event]])
      else t
    case Evict(m) => s.(cache := s.cache - {m})
  }

  function Apply(s: State, a: Action): State {
    if Enabled(s, a) then Step(s, a) else s
  }

  function Run(s: State, actions: seq<Action>): State {
    if actions == [] then s else Apply(Run(s, actions[..|actions| - 1]), actions[|actions| - 1])
  }

  const IDLE := State(map[], map[], map[], map[], map[])

  // ---------------------------------------------------------------- what every interleaving keeps

  predicate IsLeader(caller: Caller) {
    caller.at.Sending? || caller.at.Waiting? || caller.at.Leaving?
  }

  /** The leader has its answer, or none, and no longer reads its channel. */
  predicate HasLeft(caller: Caller) {
    caller.at.Leaving? || caller.at.Returned?
  }

  /** The entry for `m` is a live leader of `m`. */
  ghost predicate EntryOk(s: State, m: MessageId)
    requires m in s.waiters
  {
    var c := s.waiters[m];
    c in s.callers && s.callers[c].message == m && IsLeader(s.callers[c])
  }

  ghost predicate HoldsEntry(s: State, c: nat)
    requires c in s.callers
  {
    s.callers[c].message in s.waiters && s.waiters[s.callers[c].message] == c
  }

  /** Each waiter entry is one live leader of that message, and each live leader holds its entry. */
  ghost predicate OneLeaderPerEntry(s: State) {
    && (forall m | m in s.waiters :: EntryOk(s, m))
    && (forall c | c in s.callers && IsLeader(s.callers[c]) :: HoldsEntry(s, c))
  }

  ghost predicate CallerOk(s: State, c: nat)
    requires c in s.callers
  {
    (s.callers[c].registered <==> c in s.channels) && CallerFits(s.callers[c])
  }

  /** Leaders are registered, a receipt follows registration, and results carry the caller's message. */
  ghost predicate CallerFits(caller: Caller) {
    && (IsLeader(caller) ==> caller.registered)
    && (caller.registered ==> IsLeader(caller) || caller.at.Returned?)
    && caller.receipts <= 1
    && (!caller.registered || caller.at.Sending? ==> caller.receipts == 0)
    && (caller.at.Waiting? ==> caller.receipts == 1)
    && (caller.at.Leaving? && caller.at.result.Some? ==> caller.at.result.value.messageId == caller.message)
    && (caller.at.Returned? && caller.at.final.Some? ==> caller.at.final.value.messageId == caller.message)
  }

  ghost predicate ChannelOk(s: State, c: nat)
    requires c in s.channels
  {
    && c in s.callers && |s.channels[c]| <= 1
    && forall e | e in s.channels[c] :: e.messageId == s.callers[c].message
  }

  ghost predicate ChannelsOk(s: State) {
    forall c | c in s.channels :: ChannelOk(s, c)
  }

  /** A handler aims at a leader of its own message; once it has tried, the slot is full or the leader is gone. */
  ghost predicate HandlerOk(s: State, h: nat)
    requires h in s.handlers
  {
    var handler := s.handlers[h];
    match handler.at
    case Loaded(Some(c)) => Aims(s, handler, c)
    case Finished(Some(c)) => Aims(s, handler, c) && HandedOff(s, c)
    case _ => true
  }

  ghost predicate HandedOff(s: State, c: nat)
    requires c in s.callers && c in s.channels
  {
    |s.channels[c]| == 1 || HasLeft(s.callers[c])
  }

  ghost predicate Aims(s: State, handler: Handler, c: nat) {
    c in s.callers && c in s.channels && s.callers[c].message == handler.event.messageId
  }

  ghost predicate Inv(s: State) {
    && OneLeaderPerEntry(s)
    && (forall c | c in s.callers :: CallerOk(s, c))
    && ChannelsOk(s)
    && (forall h | h in s.handlers :: HandlerOk(s, h))
    && CacheOk(s)
  }

  ghost predicate CacheOk(s: State) {
    forall m | m in s.cache :: s.cache[m].messageId == m
  }

  lemma StepKeepsEntry(s: State, a: Action, m: MessageId)
    requires m in s.waiters ==> EntryOk(s, m)
    requires m in Apply(s, a).waiters
    ensures EntryOk(Apply(s, a), m)
  {
  }

  lemma StepKeepsHolder(s: State, a: Action, c: nat)
    requires forall d | d in s.callers && IsLeader(s.callers[d]) :: HoldsEntry(s, d)
    requires c in Apply(s, a).callers && IsLeader(Apply(s, a).callers[c])
    ensures HoldsEntry(Apply(s, a), c)
  {
  }

  lemma StepKeepsFit(s: State, a: Action, c: nat)
    requires c in s.callers ==> CallerFits(s.callers[c])
    requires ChannelsOk(s) && CacheOk(s) && c in Apply(s, a).callers
    ensures CallerFits(Apply(s, a).callers[c])
  {
  }

  lemma StepKeepsRegistration(s: State, a: Action, c: nat)
    requires c in s.channels ==> c in s.callers
    requires c in s.callers ==> (s.callers[c].registered <==> c in s.channels)
    requires c in s.callers && s.callers[c].at.Registering? ==> !s.callers[c].registered
    requires c in Apply(s, a).callers
    ensures Apply(s, a).callers[c].registered <==> c in Apply(s, a).channels
  {
  }

  lemma StepKeepsCaller(s: State, a: Action, c: nat)
    requires c in s.callers ==> CallerOk(s, c)
    requires ChannelsOk(s) && CacheOk(s) && c in Apply(s, a).callers
    ensures CallerOk(Apply(s, a), c)
  {
    StepKeepsFit(s, a, c);
    StepKeepsRegistration(s, a, c);
  }

  lemma StepKeepsChannel(s: State, a: Action, c: nat)
    requires c in s.channels ==> ChannelOk(s, c)
    requires forall h | h in s.handlers :: HandlerOk(s, h)
    requires c in Apply(s, a).channels
    ensures ChannelOk(Apply(s, a), c)
  {
  }

  lemma StepKeepsAim(s: State, a: Action, handler: Handler, c: nat)
    requires Aims(s, handler, c)
    ensures Aims(Apply(s, a), handler, c)
  {
  }

  lemma StepKeepsHandOff(s: State, a: Action, c: nat)
    requires c in s.callers && c in s.channels && CallerOk(s, c) && |s.channels[c]| <= 1
    requires HandedOff(s, c)
    ensures c in Apply(s, a).callers && c in Apply(s, a).channels && HandedOff(Apply(s, a), c)
  {
  }

  lemma LoadAims(s: State, h: nat)
    requires Enabled(s, LoadWaiter(h))
    requires OneLeaderPerEntry(s) && forall c | c in s.callers :: CallerOk(s, c)
    ensures HandlerOk(Apply(s, LoadWaiter(h)), h)
  {
  }

  lemma SendHandsOff(s: State, h: nat)
    requires Enabled(s, TrySend(h)) && HandlerOk(s, h) && ChannelsOk(s)
    ensures HandlerOk(Apply(s, TrySend(h)), h)
  {
  }

  lemma OthersKeepHandler(s: State, a: Action, h: nat)
    requires h in s.handlers && HandlerOk(s, h) && ChannelsOk(s) && forall c | c in s.callers :: CallerOk(s, c)
    requires a != CacheSet(h) && a != LoadWaiter(h) && a != TrySend(h)
    ensures h in Apply(s, a).handlers && HandlerOk(Apply(s, a), h)
  {
    hide HandedOff, Aims, CallerOk, ChannelsOk;
    var handler := s.handlers[h];
    assert h in Apply(s, a).handlers && Apply(s, a).handlers[h] == handler;
    match handler.at
    case Loaded(Some(c)) =>
      StepKeepsAim(s, a, handler, c);
    case Finished(Some(c)) =>
      AimsAtCaller(s, handler, c);
      StepKeepsAim(s, a, handler, c);
      StepKeepsHandOff(s, a, c);
    case _ =>
  }

  lemma AimsAtCaller(s: State, handler: Handler, c: nat)
    requires Aims(s, handler, c) && ChannelsOk(s)
    ensures c in s.callers && c in s.channels && |s.channels[c]| <= 1
  {
  }

  lemma StepKeepsHandler(s: State, a: Action, h: nat)
    requires Inv(s) && h in Apply(s, a).handlers
    ensures HandlerOk(Apply(s, a), h)
  {
    if h in s.handlers && Enabled(s, a) {
      if a == LoadWaiter(h) {
        LoadAims(s, h);
      } else if a == TrySend(h) {
        SendHandsOff(s, h);
      } else if a != CacheSet(h) {
        OthersKeepHandler(s, a, h);
      }
    }
  }

  lemma StepKeepsInv(s: State, a: Action)
    requires Inv(s)
    ensures Inv(Apply(s, a))
  {
    forall m | m in Apply(s, a).waiters ensures EntryOk(Apply(s, a), m) {
      StepKeepsEntry(s, a, m);
    }
    forall c | c in Apply(s, a).callers && IsLeader(Apply(s, a).callers[c]) ensures HoldsEntry(Apply(s, a), c) {
      StepKeepsHolder(s, a, c);
    }
    forall c | c in Apply(s, a).channels ensures ChannelOk(Apply(s, a), c) {
      StepKeepsChannel(s, a, c);
    }
    forall c | c in Apply(s, a).callers ensures CallerOk(Apply(s, a), c) {
      StepKeepsCaller(s, a, c);
    }
    forall h | h in Apply(s, a).handlers ensures HandlerOk(Apply(s, a), h) {
      StepKeepsHandler(s, a, h);
    }
  }

  lemma {:induction false} RunKeepsInv(s: State, actions: seq<Action>)
    requires Inv(s)
    ensures Inv(Run(s, actions))
  {
    if actions != [] {
      RunKeepsInv(s, actions[..|actions| - 1]);
      StepKeepsInv(Run(s, actions[..|actions| - 1]), actions[|actions| - 1]);
    }
  }

  // ---------------------------------------------------------------- main results

  /** In every interleaving: at most one live leader per message, so at most one receipt in flight for it. */
  lemma OneLeaderPerMessage(actions: seq<Action>, c: nat, d: nat)
    requires var s := Run(IDLE, actions);
             && c in s.callers && d in s.callers && s.callers[c].message == s.callers[d].message
             && IsLeader(s.callers[c]) && IsLeader(s.callers[d])
    ensures c == d && HoldsEntry(Run(IDLE, actions), c)
  {
    RunKeepsInv(IDLE, actions);
    assert HoldsEntry(Run(IDLE, actions), c) && HoldsEntry(Run(IDLE, actions), d);
  }

  /** A caller sends at most one receipt, and only as a leader; what it returns is an event of its own message. */
  lemma CallersAreServedCorrectly(actions: seq<Action>, c: nat)
    requires c in Run(IDLE, actions).callers
    ensures var caller := Run(IDLE, actions).callers[c];
            && caller.receipts <= 1 && (caller.receipts == 1 ==> caller.registered)
            && (caller.at.Returned? && caller.at.final.Some? ==> caller.at.final.value.messageId == caller.message)
  {
    RunKeepsInv(IDLE, actions);
    assert CallerOk(Run(IDLE, actions), c);
  }

  /** The deferred Delete, whenever it runs, removes the leader's own entry and no other. */
  lemma DeleteRemovesOwnEntry(actions: seq<Action>, c: nat)
    requires Enabled(Run(IDLE, actions), Delete(c))
    ensures var s := Run(IDLE, actions);
            var m := s.callers[c].message;
            m in s.waiters && s.waiters[m] == c
    ensures var s, t := Run(IDLE, actions), Apply(Run(IDLE, actions), Delete(c));
            forall m | m in s.waiters && s.waiters[m] != c :: m in t.waiters && t.waiters[m] == s.waiters[m]
  {
    RunKeepsInv(IDLE, actions);
    assert HoldsEntry(Run(IDLE, actions), c);
  }

  /** No lost hand-off: after the send was tried the slot is full, or the leader has its answer or has left. */
  lemma NoLostHandOff(actions: seq<Action>, h: nat, c: nat)
    requires h in Run(IDLE, actions).handlers && Run(IDLE, actions).handlers[h].at == Finished(Some(c))
    ensures var s := Run(IDLE, actions);
            && c in s.callers && c in s.channels
            && s.callers[c].message == s.handlers[h].event.messageId
            && (|s.channels[c]| == 1 || s.callers[c].at.Leaving? || s.callers[c].at.Returned?)
  {
    RunKeepsInv(IDLE, actions);
    assert HandlerOk(Run(IDLE, actions), h);
  }

  /** A waiter channel never holds more than one event. */
  lemma ChannelsHoldAtMostOne(actions: seq<Action>, c: nat)
    requires c in Run(IDLE, actions).channels
    ensures |Run(IDLE, actions).channels[c]| <= 1
  {
    RunKeepsInv(IDLE, actions);
  }

  // ---------------------------------------------------------------- when a leader is served

  /** Some handler that loaded the entry of `c` has tried its send. */
  ghost predicate Fed(s: State, c: nat) {
    exists h :: h in s.handlers && s.handlers[h].at == Finished(Some(c))
  }

  lemma StepKeepsFed(s: State, a: Action, c: nat)
    requires c in s.channels && s.channels[c] != [] ==> Fed(s, c)
    ensures c in Apply(s, a).channels && Apply(s, a).channels[c] != [] ==> Fed(Apply(s, a), c)
  {
    hide Apply;
    if c in Apply(s, a).channels && Apply(s, a).channels[c] != [] {
      ChannelFills(s, a, c);
      if Fed(s, c) {
        var h :| h in s.handlers && s.handlers[h].at == Finished(Some(c));
        FinishedStays(s, a, h);
      }
    }
  }

  /** Only a handler's send puts an event into an empty channel. */
  lemma ChannelFills(s: State, a: Action, c: nat)
    requires c in Apply(s, a).channels && Apply(s, a).channels[c] != []
    ensures (c in s.channels && s.channels[c] != []) || Fed(Apply(s, a), c)
  {
    if a.TrySend? && Enabled(s, a) && s.handlers[a.h].at.target == Some(c) {
      assert Apply(s, a).handlers[a.h].at == Finished(Some(c));
    }
  }

  lemma FinishedStays(s: State, a: Action, h: nat)
    requires h in s.handlers && s.handlers[h].at.Finished?
    ensures h in Apply(s, a).handlers && Apply(s, a).handlers[h] == s.handlers[h]
  {
  }

  lemma {:induction false} FullMeansFed(actions: seq<Action>, c: nat)
    requires c in Run(IDLE, actions).channels && Run(IDLE, actions).channels[c] != []
    ensures Fed(Run(IDLE, actions), c)
  {
    if actions != [] {
      var init, last := actions[..|actions| - 1], actions[|actions| - 1];
      var s := Run(IDLE, init);
      if c in s.channels && s.channels[c] != [] {
        FullMeansFed(init, c);
      }
      StepKeepsFed(s, last, c);
    }
  }

  predicate IsWaiting(s: State, c: nat) {
    c in s.callers && (s.callers[c].at.Sending? || s.callers[c].at.Waiting?)
  }

  /**
   In every interleaving: a leader still to be answered has an event exactly when a handler that
   found its entry has tried.
   */
  lemma LeaderHasEventIff(actions: seq<Action>, c: nat)
    requires IsWaiting(Run(IDLE, actions), c)
    ensures var s := Run(IDLE, actions);
            c in s.channels && (s.channels[c] != [] <==> Fed(s, c))
  {
    hide Run;
    RunKeepsInv(IDLE, actions);
    var s := Run(IDLE, actions);
    assert CallerOk(s, c);
    if s.channels[c] != [] {
      FullMeansFed(actions, c);
    }
    if Fed(s, c) {
      var h :| h in s.handlers && s.handlers[h].at == Finished(Some(c));
      NoLostHandOff(actions, h, c);
    }
  }

  /** Step `i` is the one in which `c` became the leader of its message. */
  ghost predicate IsRegistration(actions: seq<Action>, i: nat, c: nat) {
    && i < |actions| && actions[i] == LoadOrStore(c)
    && var s := Run(IDLE, actions[..i]); CallerAt(s, c, Registering) && s.callers[c].message !in s.waiters
  }

  /** Step `n` is the one in which `h` looked for a waiter. */
  ghost predicate IsLoad(actions: seq<Action>, n: nat, h: nat) {
    n < |actions| && actions[n] == LoadWaiter(h) && Enabled(Run(IDLE, actions[..n]), LoadWaiter(h))
  }

  predicate IsRegistered(s: State, c: nat) {
    c in s.callers && s.callers[c].registered
  }

  lemma RegistersIff(s: State, a: Action, c: nat)
    ensures IsRegistered(Apply(s, a), c) <==>
              IsRegistered(s, c)
              || (a == LoadOrStore(c) && CallerAt(s, c, Registering) && s.callers[c].message !in s.waiters)
  {
  }

  lemma {:induction false} RegisteredOnce(actions: seq<Action>, c: nat)
    ensures IsRegistered(Run(IDLE, actions), c) <==> exists i: nat :: IsRegistration(actions, i, c)
  {
    if actions != [] {
      hide Apply;
      var init, last := actions[..|actions| - 1], actions[|actions| - 1];
      RegisteredOnce(init, c);
      RegistersIff(Run(IDLE, init), last, c);
      assert forall i: nat | i < |init| :: actions[..i] == init[..i];
      assert forall i: nat | i < |init| :: IsRegistration(actions, i, c) <==> IsRegistration(init, i, c);
      if exists i: nat :: IsRegistration(init, i, c) {
        var i: nat :| IsRegistration(init, i, c);
        assert IsRegistration(actions, i, c);
      } else if IsRegistered(Run(IDLE, actions), c) {
        assert IsRegistration(actions, |init|, c);
      }
    }
  }

  lemma StepKeepsMessage(s: State, a: Action, c: nat)
    requires c in s.callers
    ensures c in Apply(s, a).callers && Apply(s, a).callers[c].message == s.callers[c].message
    ensures s.callers[c].at.Returned? ==> Apply(s, a).callers[c] == s.callers[c]
  {
  }

  lemma {:induction false} RunKeepsMessage(s: State, actions: seq<Action>, c: nat)
    requires c in s.callers
    ensures c in Run(s, actions).callers && Run(s, actions).callers[c].message == s.callers[c].message
    ensures s.callers[c].at.Returned? ==> Run(s, actions).callers[c] == s.callers[c]
  {
    if actions != [] {
      RunKeepsMessage(s, actions[..|actions| - 1], c);
      StepKeepsMessage(Run(s, actions[..|actions| - 1]), actions[|actions| - 1], c);
    }
  }

  /** What a handler loaded stays what it aims at. */
  ghost predicate AimsFor(s: State, h: nat, e: Event, target: Option<nat>) {
    h in s.handlers && s.handlers[h].event == e && s.handlers[h].at in {Loaded(target), Finished(target)}
  }

  lemma StepKeepsTarget(s: State, a: Action, h: nat, e: Event, target: Option<nat>)
    requires AimsFor(s, h, e, target)
    ensures AimsFor(Apply(s, a), h, e, target)
  {
  }

  lemma {:induction false} RunKeepsTarget(s: State, actions: seq<Action>, h: nat, e: Event, target: Option<nat>)
    requires AimsFor(s, h, e, target)
    ensures AimsFor(Run(s, actions), h, e, target)
  {
    if actions != [] {
      RunKeepsTarget(s, actions[..|actions| - 1], h, e, target);
      StepKeepsTarget(Run(s, actions[..|actions| - 1]), actions[|actions| - 1], h, e, target);
    }
  }

  predicate HasLoaded(s: State, h: nat) {
    h in s.handlers && (s.handlers[h].at.Loaded? || s.handlers[h].at.Finished?)
  }

  lemma LoadsIff(s: State, a: Action, h: nat)
    ensures HasLoaded(Apply(s, a), h) <==> HasLoaded(s, h) || (a == LoadWaiter(h) && Enabled(s, a))
  {
  }

  lemma {:induction false} LoadedOnce(actions: seq<Action>, h: nat)
    requires HasLoaded(Run(IDLE, actions), h)
    ensures exists n: nat :: IsLoad(actions, n, h)
  {
    if actions != [] {
      var init, last := actions[..|actions| - 1], actions[|actions| - 1];
      LoadsIff(Run(IDLE, init), last, h);
      if HasLoaded(Run(IDLE, init), h) {
        LoadedOnce(init, h);
        var n: nat :| IsLoad(init, n, h);
        assert actions[..n] == init[..n];
        assert IsLoad(actions, n, h);
      } else {
        assert IsLoad(actions, |init|, h);
      }
    }
  }

  /** What a load finds, in a state every run keeps to: a live leader exactly when that leader has registered. */
  lemma LoadFindsIff(s: State, h: nat, c: nat)
    requires Inv(s) && Enabled(s, LoadWaiter(h))
    requires IsRegistered(s, c) ==>
               IsLeader(s.callers[c]) && s.callers[c].message == s.handlers[h].event.messageId
    ensures exists target :: AimsFor(Apply(s, LoadWaiter(h)), h, s.handlers[h].event, target)
                             && (target == Some(c) <==> IsRegistered(s, c))
  {
    var m := s.handlers[h].event.messageId;
    var target := if m in s.waiters then Some(s.waiters[m]) else None;
    assert AimsFor(Apply(s, LoadWaiter(h)), h, s.handlers[h].event, target);
    if IsRegistered(s, c) {
      assert HoldsEntry(s, c);
    } else if m in s.waiters {
      assert EntryOk(s, m) && CallerOk(s, s.waiters[m]);
    }
  }

  /** The ordering form: the load of a handler found the leader exactly when it came after the leader's registration. */
  lemma FindsLeaderIff(actions: seq<Action>, n: nat, h: nat, c: nat)
    requires IsLoad(actions, n, h) && IsWaiting(Run(IDLE, actions), c)
    requires h in Run(IDLE, actions).handlers
    requires Run(IDLE, actions).handlers[h].event.messageId == Run(IDLE, actions).callers[c].message
    ensures var at := Run(IDLE, actions).handlers[h].at;
            (at == Loaded(Some(c)) || at == Finished(Some(c))) <==>
                exists i: nat :: i < n && IsRegistration(actions, i, c)
  {
    hide Run, Apply, Inv, IsRegistration;
    var before, after := actions[..n], actions[n + 1..];
    var s := Run(IDLE, before);
    RunKeepsInv(IDLE, before);
    RunSnoc(IDLE, before, LoadWaiter(h));
    assert before + [LoadWaiter(h)] + after == actions;
    RunConcat(IDLE, before + [LoadWaiter(h)], after);
    RunConcat(IDLE, before, [LoadWaiter(h)] + after);
    assert before + ([LoadWaiter(h)] + after) == actions;
    EventStays(s, [LoadWaiter(h)] + after, h);
    if IsRegistered(s, c) {
      RegisteredIsLeader(s, [LoadWaiter(h)] + after, c);
    }
    LoadFindsIff(s, h, c);
    var target :| AimsFor(Apply(s, LoadWaiter(h)), h, s.handlers[h].event, target)
                  && (target == Some(c) <==> IsRegistered(s, c));
    RunKeepsTarget(Apply(s, LoadWaiter(h)), after, h, s.handlers[h].event, target);
    RegisteredOnce(before, c);
    PrefixRegistration(actions, n, c);
  }

  lemma PrefixRegistration(actions: seq<Action>, n: nat, c: nat)
    requires n <= |actions|
    ensures (exists i: nat :: IsRegistration(actions[..n], i, c)) <==>
              exists i: nat :: i < n && IsRegistration(actions, i, c)
  {
    forall i: nat ensures IsRegistration(actions[..n], i, c) <==> i < n && IsRegistration(actions, i, c) {
      if i < n {
        assert actions[..n][..i] == actions[..i];
      }
    }
  }

  lemma StepKeepsEvent(s: State, a: Action, h: nat)
    requires h in s.handlers
    ensures h in Apply(s, a).handlers && Apply(s, a).handlers[h].event == s.handlers[h].event
  {
  }

  lemma {:induction false} EventStays(s: State, actions: seq<Action>, h: nat)
    requires h in s.handlers
    ensures h in Run(s, actions).handlers && Run(s, actions).handlers[h].event == s.handlers[h].event
  {
    if actions != [] {
      EventStays(s, actions[..|actions| - 1], h);
      StepKeepsEvent(Run(s, actions[..|actions| - 1]), actions[|actions| - 1], h);
    }
  }

  /** A caller that is a leader at the end and had registered before has been one all along. */
  lemma RegisteredIsLeader(s: State, actions: seq<Action>, c: nat)
    requires Inv(s) && IsRegistered(s, c) && IsWaiting(Run(s, actions), c)
    ensures IsLeader(s.callers[c]) && s.callers[c].message == Run(s, actions).callers[c].message
  {
    hide Run;
    RunKeepsMessage(s, actions, c);
    assert CallerOk(s, c);
  }

  /** `h` has tried its send of an event of `m`, after a load at step `n`, later than the registration of `c`. */
  ghost predicate Serves(actions: seq<Action>, h: nat, n: nat, c: nat, m: MessageId) {
    && h in Run(IDLE, actions).handlers
    && Run(IDLE, actions).handlers[h].event.messageId == m && Run(IDLE, actions).handlers[h].at.Finished?
    && IsLoad(actions, n, h) && exists i: nat :: i < n && IsRegistration(actions, i, c)
  }

  /**
   Exactly when a leader gets its answer. In every interleaving, a leader that is sending or waiting
   has an event in its channel if and only if some handler of its message looked for a waiter after
   the leader had registered, and has tried its send. An event handled earlier is in the cache only.
   */
  lemma LeaderServedIff(actions: seq<Action>, c: nat)
    requires IsWaiting(Run(IDLE, actions), c)
    ensures var s := Run(IDLE, actions);
            c in s.channels && (s.channels[c] != [] <==>
                                exists h: nat, n: nat :: Serves(actions, h, n, c, s.callers[c].message))
  {
    hide Run, IsLoad, IsRegistration;
    var s := Run(IDLE, actions);
    LeaderHasEventIff(actions, c);
    if Fed(s, c) {
      var h :| h in s.handlers && s.handlers[h].at == Finished(Some(c));
      NoLostHandOff(actions, h, c);
      LoadedOnce(actions, h);
      var n: nat :| IsLoad(actions, n, h);
      FindsLeaderIff(actions, n, h, c);
      assert Serves(actions, h, n, c, s.callers[c].message);
    }
    if h: nat, n: nat :| Serves(actions, h, n, c, s.callers[c].message) {
      FindsLeaderIff(actions, n, h, c);
    }
  }

  // ---------------------------------------------------------------- when a follower is served

  /** Step `n` is `a`, and it was taken. */
  ghost predicate TakenAt(actions: seq<Action>, n: nat, a: Action) {
    n < |actions| && actions[n] == a && Enabled(Run(IDLE, actions[..n]), a)
  }

  /**
   In every interleaving: a caller's first look and each poll tick of a follower answer it with the
   cached event of its message, exactly when there is one.
   */
  lemma LookAnswersIff(actions: seq<Action>, c: nat)
    requires CallerAt(Run(IDLE, actions), c, Polling) || CallerAt(Run(IDLE, actions), c, Checking)
    ensures var s := Run(IDLE, actions);
            var m := s.callers[c].message;
            var look := if s.callers[c].at == Polling then PollTick(c) else CacheGet(c);
            var t := Run(IDLE, actions + [look]);
            && c in t.callers
            && (m in s.cache ==> t.callers[c].at == Returned(Some(s.cache[m])))
            && (m !in s.cache ==> t.callers[c].at == if s.callers[c].at == Polling then Polling else Registering)
  {
    hide Run;
    RunSnoc(IDLE, actions, PollTick(c));
    RunSnoc(IDLE, actions, CacheGet(c));
  }

  /** A follower that has timed out had found no event of its message in the cache at any of its ticks. */
  ghost predicate PolledInVain(actions: seq<Action>, c: nat) {
    forall k: nat, n: nat | k < n && TakenAt(actions, k, PollTick(c)) && TakenAt(actions, n, PollTimeout(c)) ::
      var s := Run(IDLE, actions[..k]); s.callers[c].message !in s.cache
  }

  lemma FollowersTimeOutInVain(actions: seq<Action>, c: nat)
    ensures PolledInVain(actions, c)
  {
    hide Run;
    forall k: nat, n: nat | k < n && TakenAt(actions, k, PollTick(c)) && TakenAt(actions, n, PollTimeout(c))
      ensures Run(IDLE, actions[..k]).callers[c].message !in Run(IDLE, actions[..k]).cache
    {
      LookAnswersIff(actions[..k], c);
      var middle := actions[k + 1..n];
      assert actions[..k] + [PollTick(c)] + middle == actions[..n];
      RunConcat(IDLE, actions[..k] + [PollTick(c)], middle);
      RunKeepsMessage(Run(IDLE, actions[..k] + [PollTick(c)]), middle, c);
    }
  }

  /** In every interleaving: a sending leader waits for an answer exactly when its receipt went out. */
  lemma ReceiptIsAwaitedIff(actions: seq<Action>, c: nat, ok: bool)
    requires CallerAt(Run(IDLE, actions), c, Sending)
    ensures var t := Run(IDLE, actions + [SendReceipt(c, ok)]);
            && c in t.callers && t.callers[c].receipts == 1
            && t.callers[c].at == if ok then Waiting else Leaving(None)
  {
    hide Run;
    RunKeepsInv(IDLE, actions);
    assert CallerOk(Run(IDLE, actions), c);
    RunSnoc(IDLE, actions, SendReceipt(c, ok));
  }

  /** In every interleaving: a waiting leader with an event in its channel takes it, and leaves with it. */
  lemma ReceiveTakesEvent(actions: seq<Action>, c: nat, e: Event)
    requires CallerAt(Run(IDLE, actions), c, Waiting)
    requires c in Run(IDLE, actions).channels && Run(IDLE, actions).channels[c] == [e]
    ensures var t := Run(IDLE, actions + [Receive(c)]);
            c in t.callers && t.callers[c].at == Leaving(Some(e)) && c in t.channels && t.channels[c] == []
  {
    hide Run;
    RunSnoc(IDLE, actions, Receive(c));
  }

  /** In every interleaving: a leader that leaves returns what it left with. */
  lemma LeavingReturnsResult(actions: seq<Action>, c: nat, result: Option<Event>)
    requires CallerAt(Run(IDLE, actions), c, Leaving(result))
    ensures CallerAt(Run(IDLE, actions + [Delete(c)]), c, Returned(result))
  {
    hide Run;
    RunSnoc(IDLE, actions, Delete(c));
  }

  // ---------------------------------------------------------------- where events come from

  /** The event came with some handler. */
  ghost predicate Came(s: State, e: Event) {
    exists h :: h in s.handlers && s.handlers[h].event == e
  }

  ghost predicate CallerGenuine(s: State, c: nat)
    requires c in s.callers
  {
    match s.callers[c].at
    case Leaving(Some(e)) => Came(s, e)
    case Returned(Some(e)) => Came(s, e)
    case _ => true
  }

  ghost predicate Genuine(s: State) {
    && (forall m | m in s.cache :: Came(s, s.cache[m]))
    && (forall c | c in s.channels :: forall e | e in s.channels[c] :: Came(s, e))
    && (forall c | c in s.callers :: CallerGenuine(s, c))
  }

  lemma StepKeepsCame(s: State, a: Action, e: Event)
    requires Came(s, e)
    ensures Came(Apply(s, a), e)
  {
    var h :| h in s.handlers && s.handlers[h].event == e;
    StepKeepsEvent(s, a, h);
  }

  /** Every event in the cache or a channel after a step had come before it. */
  lemma StepCachesNoNewEvent(s: State, a: Action, m: MessageId)
    requires Genuine(s) && m in Apply(s, a).cache
    ensures Came(s, Apply(s, a).cache[m])
  {
    hide Came;
    HandlersCame(s);
  }

  lemma StepSendsNoNewEvent(s: State, a: Action, c: nat, e: Event)
    requires Genuine(s) && c in Apply(s, a).channels && e in Apply(s, a).channels[c]
    ensures Came(s, e)
  {
    hide Came;
    HandlersCame(s);
  }

  lemma HandlersCame(s: State)
    ensures forall h | h in s.handlers :: Came(s, s.handlers[h].event)
  {
  }

  lemma StepKeepsCallerGenuine(s: State, a: Action, c: nat)
    requires Genuine(s) && c in Apply(s, a).callers
    ensures match Apply(s, a).callers[c].at
            case Leaving(Some(e)) => Came(s, e)
            case Returned(Some(e)) => Came(s, e)
            case _ => true
  {
    hide Came;
    assert c in s.callers ==> CallerGenuine(s, c);
  }

  lemma StepKeepsGenuine(s: State, a: Action)
    requires Genuine(s)
    ensures Genuine(Apply(s, a))
  {
    hide Apply, Came;
    var t := Apply(s, a);
    forall e | Came(s, e) ensures Came(t, e) {
      StepKeepsCame(s, a, e);
    }
    forall m | m in t.cache ensures Came(t, t.cache[m]) {
      StepCachesNoNewEvent(s, a, m);
    }
    forall c, e | c in t.channels && e in t.channels[c] ensures Came(t, e) {
      StepSendsNoNewEvent(s, a, c, e);
    }
    forall c | c in t.callers ensures CallerGenuine(t, c) {
      StepKeepsCallerGenuine(s, a, c);
    }
  }

  lemma {:induction false} RunKeepsGenuine(actions: seq<Action>)
    ensures Genuine(Run(IDLE, actions))
  {
    if actions != [] {
      hide Genuine, Apply;
      RunKeepsGenuine(actions[..|actions| - 1]);
      StepKeepsGenuine(Run(IDLE, actions[..|actions| - 1]), actions[|actions| - 1]);
    } else {
      IdleIsGenuine();
    }
  }

  lemma IdleIsGenuine()
    ensures Genuine(IDLE)
  {
  }

  /** No result is made up: in every interleaving, what a caller returns is an event that some handler was given. */
  lemma ReturnedEventCame(actions: seq<Action>, c: nat, e: Event)
    requires CallerAt(Run(IDLE, actions), c, Returned(Some(e)))
    ensures Came(Run(IDLE, actions), e)
  {
    hide Run;
    RunKeepsGenuine(actions);
    assert CallerGenuine(Run(IDLE, actions), c);
  }

  /** The event of `m` that was cached last and not evicted since. */
  ghost function LastCached(actions: seq<Action>, m: MessageId): Option<Event> {
    if actions == [] then None
    else
      var init := actions[..|actions| - 1];
      var s, rest := Run(IDLE, init), LastCached(init, m);
      match actions[|actions| - 1]
      case CacheSet(h) =>
        if h in s.handlers && s.handlers[h].at == Arrived && s.handlers[h].event.messageId == m
        then Some(s.handlers[h].event) else rest
      case Evict(k) => if k == m then None else rest
      case _ => rest
  }

  lemma {:induction false} CacheHoldsLast(actions: seq<Action>, m: MessageId)
    ensures var s := Run(IDLE, actions);
            LastCached(actions, m) == if m in s.cache then Some(s.cache[m]) else None
  {
    if actions != [] {
      CacheHoldsLast(actions[..|actions| - 1], m);
    }
  }

  // ---------------------------------------------------------------- the cache

  /** A caller that is about to look at the cache, or has returned an event, and never asked the phone. */
  ghost predicate Answered(caller: Caller) {
    && !caller.registered && caller.receipts == 0
    && (caller.at.Checking? || (caller.at.Returned? && caller.at.final.Some?))
  }

  /** Every caller of `m` outside `earlier` is answered. */
  ghost predicate AnsweredFromCache(s: State, m: MessageId, earlier: set<nat>) {
    && m in s.cache
    && forall c | c in s.callers && c !in earlier && s.callers[c].message == m :: Answered(s.callers[c])
  }

  lemma StepAnswersFromCache(s: State, a: Action, m: MessageId, earlier: set<nat>)
    requires AnsweredFromCache(s, m, earlier) && a != Evict(m) && earlier <= s.callers.Keys
    ensures AnsweredFromCache(Apply(s, a), m, earlier) && earlier <= Apply(s, a).callers.Keys
  {
    var t := Apply(s, a);
    forall c | c in t.callers && c !in earlier && t.callers[c].message == m ensures Answered(t.callers[c]) {
    }
  }

  /**
   Once an event of `m` is cached and until `m` is evicted, every caller of `m` that starts
   later is answered with an event at once, without registering and without a receipt.
   */
  lemma {:induction false} CachedEventAnswersLaterCallers(s: State, actions: seq<Action>, m: MessageId)
    requires m in s.cache && Evict(m) !in actions
    ensures AnsweredFromCache(Run(s, actions), m, s.callers.Keys)
    ensures s.callers.Keys <= Run(s, actions).callers.Keys
  {
    if actions != [] {
      var init, last := actions[..|actions| - 1], actions[|actions| - 1];
      assert actions == init + [last];
      CachedEventAnswersLaterCallers(s, init, m);
      StepAnswersFromCache(Run(s, init), last, m, s.callers.Keys);
    }
  }

  /**
   A leader never looks at the cache again after registering. If the event was handled between
   its cache miss and its registration, it sends a receipt all the same and can time out although
   the answer is cached.
   */
  lemma LeaderMayMissCachedEvent(m: MessageId, e: Event)
    requires e.messageId == m
    ensures var s := Run(IDLE, [Call(0, m), CacheGet(0), Arrive(1, e), CacheSet(1)]
                               + [LoadWaiter(1), LoadOrStore(0), SendReceipt(0, true), WaitTimeout(0)]);
            m in s.cache && s.cache[m] == e && s.callers == map[0 := Caller(m, Leaving(None), true, 1)]
  {
    hide Run;
    MissThenHandle(m, e);
    RegisterTooLate(m, e);
    RunConcat(IDLE, [Call(0, m), CacheGet(0), Arrive(1, e), CacheSet(1)],
              [LoadWaiter(1), LoadOrStore(0), SendReceipt(0, true), WaitTimeout(0)]);
  }

  lemma MissThenHandle(m: MessageId, e: Event)
    requires e.messageId == m
    ensures Run(IDLE, [Call(0, m), CacheGet(0), Arrive(1, e), CacheSet(1)])
         == State(map[0 := Caller(m, Registering, false, 0)], map[1 := Handler(e, Cached)], map[], map[], map[m := e])
  {
    hide Run;
    RunFour(IDLE, Call(0, m), CacheGet(0), Arrive(1, e), CacheSet(1));
    var missed := map[0 := Caller(m, Registering, false, 0)];
    assert Apply(Apply(IDLE, Call(0, m)), CacheGet(0)) == State(missed, map[], map[], map[], map[]);
    assert Apply(Apply(State(missed, map[], map[], map[], map[]), Arrive(1, e)), CacheSet(1))
        == State(missed, map[1 := Handler(e, Cached)], map[], map[], map[m := e]);
  }

  lemma RegisterTooLate(m: MessageId, e: Event)
    requires e.messageId == m
    ensures Run(State(map[0 := Caller(m, Registering, false, 0)], map[1 := Handler(e, Cached)],
                      map[], map[], map[m := e]),
                [LoadWaiter(1), LoadOrStore(0), SendReceipt(0, true), WaitTimeout(0)])
         == State(map[0 := Caller(m, Leaving(None), true, 1)], map[1 := Handler(e, Loaded(None))],
                  map[m := 0], map[0 := []], map[m := e])
  {
    hide Run;
    var s := State(map[0 := Caller(m, Registering, false, 0)], map[1 := Handler(e, Cached)], map[], map[], map[m := e]);
    RunFour(s, LoadWaiter(1), LoadOrStore(0), SendReceipt(0, true), WaitTimeout(0));
    LeadTooLate(m, e, s);
  }

  lemma LeadTooLate(m: MessageId, e: Event, s: State)
    requires s.callers == map[0 := Caller(m, Registering, false, 0)] && s.handlers == map[1 := Handler(e, Cached)]
    requires s.waiters == map[] && s.channels == map[] && e.messageId == m
    ensures Apply(Apply(Apply(Apply(s, LoadWaiter(1)), LoadOrStore(0)), SendReceipt(0, true)), WaitTimeout(0))
         == State(map[0 := Caller(m, Leaving(None), true, 1)], map[1 := Handler(e, Loaded(None))],
                  map[m := 0], map[0 := []], s.cache)
  {
    var s1 := s.(handlers := map[1 := Handler(e, Loaded(None))]);
    assert Apply(s, LoadWaiter(1)) == s1;
    LeadAlone(m, s1);
  }

  lemma LeadAlone(m: MessageId, s: State)
    requires s.callers == map[0 := Caller(m, Registering, false, 0)] && s.waiters == map[] && s.channels == map[]
    ensures Apply(Apply(Apply(s, LoadOrStore(0)), SendReceipt(0, true)), WaitTimeout(0))
         == s.(callers := map[0 := Caller(m, Leaving(None), true, 1)], waiters := map[m := 0], channels := map[0 := []])
  {
  }

  lemma {:induction false} RunConcat(s: State, a: seq<Action>, b: seq<Action>)
    ensures Run(s, a + b) == Run(Run(s, a), b)
  {
    if b == [] {
      assert a + b == a;
    } else {
      assert (a + b)[..|a + b| - 1] == a + b[..|b| - 1];
      RunConcat(s, a, b[..|b| - 1]);
    }
  }

  lemma RunFour(s: State, a: Action, b: Action, c: Action, d: Action)
    ensures Run(s, [a, b, c, d]) == Apply(Apply(Apply(Apply(s, a), b), c), d)
  {
    assert [a, b, c, d][..3] == [a, b, c] && [a, b, c][..2] == [a, b] && [a, b][..1] == [a] && [a][..0] == [];
    assert Run(s, [a]) == Apply(Run(s, [a][..0]), a);
    assert Run(s, [a, b]) == Apply(Run(s, [a]), b);
    assert Run(s, [a, b, c]) == Apply(Run(s, [a, b]), c);
  }

  // ---------------------------------------------------------------- one goroutine among others

  /** Whose step an action is. */
  datatype Actor = OfCaller(c: nat) | OfHandler(h: nat) | OfNobody

  function ActorOf(a: Action): Actor {
    match a
    case Call(c, _) => OfCaller(c)
    case CacheGet(c) => OfCaller(c)
    case LoadOrStore(c) => OfCaller(c)
    case PollTick(c) => OfCaller(c)
    case PollTimeout(c) => OfCaller(c)
    case SendReceipt(c, _) => OfCaller(c)
    case Receive(c) => OfCaller(c)
    case WaitTimeout(c) => OfCaller(c)
    case Delete(c) => OfCaller(c)
    case Arrive(h, _) => OfHandler(h)
    case CacheSet(h) => OfHandler(h)
    case LoadWaiter(h) => OfHandler(h)
    case TrySend(h) => OfHandler(h)
    case Evict(_) => OfNobody
  }

  ghost predicate Foreign(actions: seq<Action>, x: Actor) {
    forall a | a in actions :: ActorOf(a) != x
  }

  /** The steps of one goroutine in a run. */
  function Own(actions: seq<Action>, x: Actor): seq<Action> {
    if actions == [] then []
    else
      var rest, last := Own(actions[..|actions| - 1], x), actions[|actions| - 1];
      if ActorOf(last) == x then rest + [last] else rest
  }

  /** The program text of requestAndWaitForMediaRetry, as the steps it may take and the result they give. */
  ghost predicate IsRequest(own: seq<Action>, c: nat, m: MessageId, ticks: nat, receiptWorks: bool,
                            result: Option<Event>) {
    || (own == [Call(c, m), CacheGet(c)] && result.Some?)
    || (exists n :: 0 <= n <= ticks && own == Opening(c, m) + Polls(c, n, result.None?)
          && (result.None? ==> n == ticks))
    || own == Opening(c, m) + [SendReceipt(c, receiptWorks)] + Ending(c, receiptWorks, result)
  }

  function Opening(c: nat, m: MessageId): seq<Action> {
    [Call(c, m), CacheGet(c), LoadOrStore(c)]
  }

  function Polls(c: nat, n: nat, timedOut: bool): seq<Action> {
    seq(n, _ => PollTick(c)) + if timedOut then [PollTimeout(c)] else []
  }

  function Ending(c: nat, receiptWorks: bool, result: Option<Event>): seq<Action> {
    if !receiptWorks then [Delete(c)] else if result.Some? then [Receive(c), Delete(c)] else [WaitTimeout(c), Delete(c)]
  }

  lemma {:induction false} OthersKeepCaller(s: State, actions: seq<Action>, c: nat)
    requires Foreign(actions, OfCaller(c)) && c in s.callers
    ensures c in Run(s, actions).callers && Run(s, actions).callers[c] == s.callers[c]
  {
    if actions != [] {
      var init, last := actions[..|actions| - 1], actions[|actions| - 1];
      assert last in actions && forall a | a in init :: a in actions;
      OthersKeepCaller(s, init, c);
      OneOtherKeepsCaller(Run(s, init), last, c);
    }
  }

  lemma OneOtherKeepsCaller(s: State, a: Action, c: nat)
    requires ActorOf(a) != OfCaller(c) && c in s.callers
    ensures c in Apply(s, a).callers && Apply(s, a).callers[c] == s.callers[c]
  {
  }

  ghost predicate Absent(s: State, x: Actor) {
    match x
    case OfCaller(c) => c !in s.callers
    case OfHandler(h) => h !in s.handlers
    case OfNobody => true
  }

  lemma {:induction false} OthersKeepAbsence(s: State, actions: seq<Action>, x: Actor)
    requires Foreign(actions, x) && Absent(s, x)
    ensures Absent(Run(s, actions), x)
  {
    if actions != [] {
      var init, last := actions[..|actions| - 1], actions[|actions| - 1];
      assert last in actions && forall a | a in init :: a in actions;
      OthersKeepAbsence(s, init, x);
      OneOtherKeepsAbsence(Run(s, init), last, x);
    }
  }

  lemma OneOtherKeepsAbsence(s: State, a: Action, x: Actor)
    requires ActorOf(a) != x && Absent(s, x)
    ensures Absent(Apply(s, a), x)
  {
  }

  lemma {:induction false} OthersKeepHandlerPoint(s: State, actions: seq<Action>, h: nat)
    requires Foreign(actions, OfHandler(h)) && h in s.handlers
    ensures h in Run(s, actions).handlers && Run(s, actions).handlers[h] == s.handlers[h]
  {
    if actions != [] {
      var init, last := actions[..|actions| - 1], actions[|actions| - 1];
      assert last in actions && forall a | a in init :: a in actions;
      OthersKeepHandlerPoint(s, init, h);
      OneOtherKeepsHandlerPoint(Run(s, init), last, h);
    }
  }

  lemma OneOtherKeepsHandlerPoint(s: State, a: Action, h: nat)
    requires ActorOf(a) != OfHandler(h) && h in s.handlers
    ensures h in Apply(s, a).handlers && Apply(s, a).handlers[h] == s.handlers[h]
  {
  }

  lemma {:induction false} OthersAreNotOwn(trace: seq<Action>, actions: seq<Action>, x: Actor)
    requires Foreign(actions, x)
    ensures Own(trace + actions, x) == Own(trace, x)
  {
    if actions == [] {
      assert trace + actions == trace;
    } else {
      var init, last := actions[..|actions| - 1], actions[|actions| - 1];
      assert last in actions && forall a | a in init :: a in actions;
      assert (trace + actions)[..|trace + actions| - 1] == trace + init;
      OthersAreNotOwn(trace, init, x);
    }
  }

  lemma RunSnoc(s: State, actions: seq<Action>, a: Action)
    ensures Run(s, actions + [a]) == Apply(Run(s, actions), a)
    ensures Own(actions + [a], ActorOf(a)) == Own(actions, ActorOf(a)) + [a]
  {
  }

  lemma FastPath(c: nat, m: MessageId, ticks: nat, receiptWorks: bool, result: Option<Event>)
    requires result.Some?
    ensures IsRequest([Call(c, m), CacheGet(c)], c, m, ticks, receiptWorks, result)
  {
  }

  lemma NoPollYet(c: nat, m: MessageId)
    ensures Opening(c, m) + Polls(c, 0, false) == Opening(c, m)
  {
  }

  lemma OpeningDone(c: nat, m: MessageId)
    ensures [Call(c, m), CacheGet(c)] + [LoadOrStore(c)] == Opening(c, m)
  {
  }

  lemma OnePollMore(c: nat, m: MessageId, n: nat)
    ensures Opening(c, m) + Polls(c, n, false) + [PollTick(c)] == Opening(c, m) + Polls(c, n + 1, false)
  {
  }

  lemma LastPoll(c: nat, m: MessageId, n: nat)
    ensures Opening(c, m) + Polls(c, n, false) + [PollTimeout(c)] == Opening(c, m) + Polls(c, n, true)
  {
  }

  lemma FollowerEnds(c: nat, m: MessageId, ticks: nat, n: nat, receiptWorks: bool, result: Option<Event>)
    requires n <= ticks && (result.None? ==> n == ticks)
    ensures IsRequest(Opening(c, m) + Polls(c, n, result.None?), c, m, ticks, receiptWorks, result)
    ensures WaitTimeout(c) !in Opening(c, m) + Polls(c, n, result.None?)
  {
  }

  lemma LeaderEnds(c: nat, m: MessageId, ticks: nat, receiptWorks: bool, result: Option<Event>)
    requires result.Some? ==> receiptWorks
    ensures var sent := Opening(c, m) + [SendReceipt(c, receiptWorks)];
            var own := if !receiptWorks then sent + [Delete(c)]
                       else sent + [if result.Some? then Receive(c) else WaitTimeout(c), Delete(c)];
            && IsRequest(own, c, m, ticks, receiptWorks, result)
            && WaitTimeout(c) !in sent && (WaitTimeout(c) in own <==> receiptWorks && result.None?)
  {
    var sent := Opening(c, m) + [SendReceipt(c, receiptWorks)];
    if receiptWorks {
      var step := if result.Some? then Receive(c) else WaitTimeout(c);
      assert [step, Delete(c)] == Ending(c, receiptWorks, result);
    }
  }

  /** A leader that gave up in time found its channel empty. */
  ghost predicate GaveUpFairly(actions: seq<Action>, c: nat, late: bool) {
    late || forall n | 0 <= n < |actions| && actions[n] == WaitTimeout(c) :: FoundNothing(actions[..n], c)
  }

  ghost predicate FoundNothing(actions: seq<Action>, c: nat) {
    c in Run(IDLE, actions).channels ==> Run(IDLE, actions).channels[c] == []
  }

  lemma {:induction false} OwnHasAll(actions: seq<Action>, x: Actor)
    ensures forall a | a in actions && ActorOf(a) == x :: a in Own(actions, x)
  {
    if actions != [] {
      assert actions == actions[..|actions| - 1] + [actions[|actions| - 1]];
      OwnHasAll(actions[..|actions| - 1], x);
    }
  }

  lemma NeverGaveUp(actions: seq<Action>, c: nat, late: bool)
    requires WaitTimeout(c) !in Own(actions, OfCaller(c))
    ensures GaveUpFairly(actions, c, late)
  {
    OwnHasAll(actions, OfCaller(c));
  }

  lemma GaveUpOnce(before: seq<Action>, more: seq<Action>, c: nat, late: bool)
    requires GaveUpFairly(before, c, late) && (late || FoundNothing(before, c)) && Foreign(more, OfCaller(c))
    ensures GaveUpFairly(before + [WaitTimeout(c)] + more + [Delete(c)], c, late)
  {
    var all := before + [WaitTimeout(c)] + more + [Delete(c)];
    forall n | |before| < n < |all| ensures all[n] != WaitTimeout(c) {
      if n < |all| - 1 {
        assert all[n] == more[n - |before| - 1] && all[n] in more;
      }
    }
    forall n | 0 <= n < |all| && all[n] == WaitTimeout(c) ensures late || FoundNothing(all[..n], c) {
      assert all[..n] == before[..n];
      assert before[..|before|] == before;
    }
  }

  lemma {:induction false} NoOwnStepIsForeign(actions: seq<Action>, x: Actor)
    requires Own(actions, x) == []
    ensures Foreign(actions, x)
  {
    if actions != [] {
      assert actions == actions[..|actions| - 1] + [actions[|actions| - 1]];
      NoOwnStepIsForeign(actions[..|actions| - 1], x);
    }
  }

  /**
   The session's retry maps, its waiter channels, and where each goroutine stands. `history` lists
   every step taken, whoever took it.
   */
  class GoWS {
    var mediaRetryEvents: map<MessageId, Event>
    var mediaRetryWaiters: map<MessageId, nat>
    var channels: map<nat, seq<Event>>
    var callers: map<nat, Caller>
    var handlers: map<nat, Handler>
    ghost var history: seq<Action>

    ghost function View(): State
      reads this
    {
      State(callers, handlers, mediaRetryWaiters, channels, mediaRetryEvents)
    }

    ghost predicate Valid()
      reads this
    {
      View() == Run(IDLE, history)
    }

    constructor ()
      ensures Valid() && history == []
    {
      mediaRetryEvents, mediaRetryWaiters, channels, callers, handlers := map[], map[], map[], map[], map[];
      history := [];
    }

    /** What other goroutines do before the next step of this one. */
    method Elsewhere(actions: seq<Action>, ghost x: Actor)
      requires Valid() && Foreign(actions, x)
      modifies this
      ensures Valid() && history == old(history) + actions && View() == Run(old(View()), actions)
      ensures Own(history, x) == Own(old(history), x)
    {
      hide Apply, Own;
      for i := 0 to |actions|
        invariant View() == Run(old(View()), actions[..i]) && history == old(history)
      {
        RunSnoc(old(View()), actions[..i], actions[i]);
        assert actions[..i + 1] == actions[..i] + [actions[i]];
        var s := Apply(State(callers, handlers, mediaRetryWaiters, channels, mediaRetryEvents), actions[i]);
        callers, handlers, mediaRetryWaiters := s.callers, s.handlers, s.waiters;
        channels, mediaRetryEvents := s.channels, s.cache;
      }
      assert actions[..|actions|] == actions;
      RunConcat(IDLE, history, actions);
      OthersAreNotOwn(history, actions, x);
      history := history + actions;
    }

    /** Between two steps of a caller the others cannot move it. */
    method Yield(c: nat, actions: seq<Action>)
      requires Valid() && Foreign(actions, OfCaller(c)) && c in callers
      modifies this
      ensures Valid() && c in callers && callers[c] == old(callers[c])
      ensures history == old(history) + actions
      ensures Own(history, OfCaller(c)) == Own(old(history), OfCaller(c))
    {
      hide Run, Own, Foreign;
      OthersKeepCaller(View(), actions, c);
      Elsewhere(actions, OfCaller(c));
    }

    method Begin(c: nat, m: MessageId)
      requires Valid() && c !in callers
      modifies `callers, `history
      ensures Valid() && View() == Apply(old(View()), Call(c, m))
      ensures Logged(old(history), Call(c, m)) && CallerIs(c, m, Checking)
    {
      hide Run, Own;
      callers := callers[c := Caller(m, Checking, false, 0)];
      RunSnoc(IDLE, history, Call(c, m));
      history := history + [Call(c, m)];
    }

    method GetCached(c: nat) returns (hit: Option<Event>)
      requires Valid() && c in callers && callers[c].at == Checking
      modifies `callers, `history
      ensures Valid() && View() == Apply(old(View()), CacheGet(c))
      ensures hit == if old(callers[c].message) in mediaRetryEvents
                     then Some(mediaRetryEvents[old(callers[c].message)]) else None
      ensures Logged(old(history), CacheGet(c))
      ensures CallerIs(c, old(callers[c].message), if hit.Some? then Returned(hit) else Registering)
    {
      hide Run, Own;
      var id := callers[c].message;
      hit := if id in mediaRetryEvents then Some(mediaRetryEvents[id]) else None;
      callers := callers[c := callers[c].(at := if hit.Some? then Returned(hit) else Registering)];
      RunSnoc(IDLE, history, CacheGet(c));
      history := history + [CacheGet(c)];
    }

    method LoadOrStoreWaiter(c: nat) returns (alreadyWaiting: bool)
      requires Valid() && c in callers && callers[c].at == Registering
      modifies `callers, `history, `mediaRetryWaiters, `channels
      ensures Valid() && View() == Apply(old(View()), LoadOrStore(c))
      ensures Logged(old(history), LoadOrStore(c))
      ensures CallerIs(c, old(callers[c].message), if alreadyWaiting then Polling else Sending)
    {
      hide Run, Own;
      var id := callers[c].message;
      alreadyWaiting := id in mediaRetryWaiters;
      if alreadyWaiting {
        callers := callers[c := callers[c].(at := Polling)];
      } else {
        mediaRetryWaiters, channels := mediaRetryWaiters[id := c], channels[c := []];
        callers := callers[c := callers[c].(at := Sending, registered := true)];
      }
      RunSnoc(IDLE, history, LoadOrStore(c));
      history := history + [LoadOrStore(c)];
    }

    method Poll(c: nat) returns (hit: Option<Event>)
      requires Valid() && c in callers && callers[c].at == Polling
      modifies `callers, `history
      ensures Valid() && View() == Apply(old(View()), PollTick(c))
      ensures hit == if old(callers[c].message) in mediaRetryEvents
                     then Some(mediaRetryEvents[old(callers[c].message)]) else None
      ensures Logged(old(history), PollTick(c))
      ensures CallerIs(c, old(callers[c].message), if hit.Some? then Returned(hit) else Polling)
    {
      hide Run, Own;
      var id := callers[c].message;
      hit := None;
      if id in mediaRetryEvents {
        hit := Some(mediaRetryEvents[id]);
        callers := callers[c := callers[c].(at := Returned(hit))];
      }
      RunSnoc(IDLE, history, PollTick(c));
      history := history + [PollTick(c)];
    }

    method StopPolling(c: nat)
      requires Valid() && c in callers && callers[c].at == Polling
      modifies `callers, `history
      ensures Valid() && View() == Apply(old(View()), PollTimeout(c))
      ensures Logged(old(history), PollTimeout(c)) && CallerIs(c, old(callers[c].message), Returned(None))
    {
      hide Run, Own;
      callers := callers[c := callers[c].(at := Returned(None))];
      RunSnoc(IDLE, history, PollTimeout(c));
      history := history + [PollTimeout(c)];
    }

    method SendMediaRetryReceipt(c: nat, works: bool)
      requires Valid() && c in callers && callers[c].at == Sending
      modifies `callers, `history
      ensures Valid() && View() == Apply(old(View()), SendReceipt(c, works))
      ensures Logged(old(history), SendReceipt(c, works))
      ensures CallerIs(c, old(callers[c].message), if works then Waiting else Leaving(None))
    {
      hide Run, Own;
      var caller := callers[c];
      callers := callers[c := caller.(at := if works then Waiting else Leaving(None), receipts := caller.receipts + 1)];
      RunSnoc(IDLE, history, SendReceipt(c, works));
      history := history + [SendReceipt(c, works)];
    }

    /** The select of a leader: its channel, or the timeout when that came first or nothing arrived. */
    method AwaitEvent(c: nat, late: bool) returns (result: Option<Event>)
      requires Valid() && c in callers && callers[c].at == Waiting && c in channels
      modifies `callers, `history, `channels
      ensures result.Some? <==> !late && old(channels[c]) != []
      ensures Valid() && View() == Apply(old(View()), if result.Some? then Receive(c) else WaitTimeout(c))
      ensures Logged(old(history), if result.Some? then Receive(c) else WaitTimeout(c))
      ensures CallerIs(c, old(callers[c].message), Leaving(result))
    {
      hide Run, Own;
      result := None;
      if !late && channels[c] != [] {
        result := Some(channels[c][0]);
        channels := channels[c := channels[c][1..]];
      }
      callers := callers[c := callers[c].(at := Leaving(result))];
      ghost var step := if result.Some? then Receive(c) else WaitTimeout(c);
      RunSnoc(IDLE, history, step);
      history := history + [step];
    }

    method DeleteWaiter(c: nat, ghost result: Option<Event>)
      requires Valid() && c in callers && callers[c].at == Leaving(result)
      modifies `callers, `history, `mediaRetryWaiters
      ensures Valid() && View() == Apply(old(View()), Delete(c))
      ensures Logged(old(history), Delete(c)) && CallerIs(c, old(callers[c].message), Returned(result))
    {
      hide Run, Own;
      mediaRetryWaiters := mediaRetryWaiters - {callers[c].message};
      callers := callers[c := callers[c].(at := Returned(callers[c].at.result))];
      RunSnoc(IDLE, history, Delete(c));
      history := history + [Delete(c)];
    }

    lemma WaiterHasChannel(c: nat)
      requires Valid() && c in callers && callers[c].at == Waiting
      ensures c in channels
    {
      RunKeepsInv(IDLE, history);
      assert CallerOk(View(), c);
    }

    lemma NothingFound(c: nat)
      requires Valid() && c in channels
      ensures FoundNothing(history, c) <==> channels[c] == []
    {
    }

    lemma ReturnsOwnMessage(c: nat, e: Event)
      requires Valid() && c in callers && callers[c].at == Returned(Some(e))
      ensures e.messageId == callers[c].message
    {
      RunKeepsInv(IDLE, history);
      assert CallerOk(View(), c);
    }

    lemma NotCalledYet(c: nat)
      requires Valid() && Own(history, OfCaller(c)) == []
      ensures c !in callers
    {
      NoOwnStepIsForeign(history, OfCaller(c));
      OthersKeepAbsence(IDLE, history, OfCaller(c));
    }

    /** One step of its actor was taken. */
    ghost predicate Logged(past: seq<Action>, a: Action)
      reads this
    {
      history == past + [a] && Own(history, ActorOf(a)) == Own(past, ActorOf(a)) + [a]
    }

    ghost predicate CallerIs(c: nat, m: MessageId, at: CallerPoint)
      reads this
    {
      c in callers && callers[c].message == m && callers[c].at == at
    }

    /**
     requestAndWaitForMediaRetry by the caller `c`, with any steps `meanwhile(n)` of others before
     its n-th one. At most `ticks` ticks come before a follower's timeout; `late` is whether a
     leader's timeout comes before its event.
     */
    method RequestAndWaitForMediaRetry(c: nat, m: MessageId, ticks: nat, receiptWorks: bool, late: bool,
                                       meanwhile: nat -> seq<Action>) returns (result: Option<Event>)
      requires Valid() && Own(history, OfCaller(c)) == []
      requires forall n: nat :: Foreign(meanwhile(n), OfCaller(c))
      modifies this
      ensures Valid() && old(history) <= history && CallerIs(c, m, Returned(result))
      ensures IsRequest(Own(history, OfCaller(c)), c, m, ticks, receiptWorks, result)
      ensures GaveUpFairly(history, c, late) && PolledInVain(history, c)
      ensures result.Some? ==> result.value.messageId == m && Came(View(), result.value)
    {
      result := Request(c, m, ticks, receiptWorks, late, meanwhile);
      FollowersTimeOutInVain(history, c);
      if result.Some? {
        ReturnedEventCame(history, c, result.value);
      }
    }

    /** The body of RequestAndWaitForMediaRetry. */
    method Request(c: nat, m: MessageId, ticks: nat, receiptWorks: bool, late: bool,
                   meanwhile: nat -> seq<Action>) returns (result: Option<Event>)
      requires Valid() && Own(history, OfCaller(c)) == []
      requires forall n: nat :: Foreign(meanwhile(n), OfCaller(c))
      modifies this
      ensures Valid() && old(history) <= history && CallerIs(c, m, Returned(result))
      ensures IsRequest(Own(history, OfCaller(c)), c, m, ticks, receiptWorks, result)
      ensures GaveUpFairly(history, c, late) && (result.Some? ==> result.value.messageId == m)
    {
      hide Run, Own, Foreign, Apply, IsRequest, Opening, Valid, View, GaveUpFairly;
      result := LookFirst(c, m, meanwhile(0));
      if result.Some? {
        FastPath(c, m, ticks, receiptWorks, result);
        NeverGaveUp(history, c, late);
        return;
      }
      Yield(c, meanwhile(1));
      var alreadyWaiting := LoadOrStoreWaiter(c);
      OpeningDone(c, m);
      if alreadyWaiting {
        result := PollForEvent(c, m, ticks, receiptWorks, meanwhile);
        NeverGaveUp(history, c, late);
      } else {
        result := LeadRetry(c, m, ticks, receiptWorks, late, meanwhile);
      }
    }

    /** The fast path: an event still in the cache. */
    method LookFirst(c: nat, m: MessageId, others: seq<Action>) returns (hit: Option<Event>)
      requires Valid() && Own(history, OfCaller(c)) == [] && Foreign(others, OfCaller(c))
      modifies this
      ensures Valid() && old(history) <= history && CallerIs(c, m, if hit.Some? then Returned(hit) else Registering)
      ensures Own(history, OfCaller(c)) == [Call(c, m), CacheGet(c)]
      ensures hit.Some? ==> hit.value.messageId == m
    {
      hide Run, Own, Foreign, Apply, Valid, View;
      NotCalledYet(c);
      Begin(c, m);
      Yield(c, others);
      hit := GetCached(c);
      if hit.Some? {
        ReturnsOwnMessage(c, hit.value);
      }
    }

    /** The loop of a follower. */
    method PollForEvent(c: nat, m: MessageId, ticks: nat, ghost receiptWorks: bool, meanwhile: nat -> seq<Action>)
      returns (result: Option<Event>)
      requires Valid() && CallerIs(c, m, Polling) && Own(history, OfCaller(c)) == Opening(c, m)
      requires forall n: nat :: Foreign(meanwhile(n), OfCaller(c))
      modifies this
      ensures Valid() && old(history) <= history && CallerIs(c, m, Returned(result))
      ensures IsRequest(Own(history, OfCaller(c)), c, m, ticks, receiptWorks, result)
      ensures WaitTimeout(c) !in Own(history, OfCaller(c)) && (result.Some? ==> result.value.messageId == m)
    {
      hide Run, Own, Foreign, Apply, IsRequest, Polls, Valid, View;
      NoPollYet(c, m);
      for n := 0 to ticks
        invariant Valid() && old(history) <= history && CallerIs(c, m, Polling)
        invariant Own(history, OfCaller(c)) == Opening(c, m) + Polls(c, n, false)
      {
        Yield(c, meanwhile(n + 2));
        result := Poll(c);
        OnePollMore(c, m, n);
        if result.Some? {
          FollowerEnds(c, m, ticks, n + 1, receiptWorks, result);
          ReturnsOwnMessage(c, result.value);
          return;
        }
      }
      StopPolling(c);
      LastPoll(c, m, ticks);
      FollowerEnds(c, m, ticks, ticks, receiptWorks, None);
      return None;
    }

    /** The rest of a leader, with its deferred Delete. */
    method LeadRetry(c: nat, m: MessageId, ghost ticks: nat, receiptWorks: bool, late: bool,
                     meanwhile: nat -> seq<Action>)
      returns (result: Option<Event>)
      requires Valid() && CallerIs(c, m, Sending) && Own(history, OfCaller(c)) == Opening(c, m)
      requires forall n: nat :: Foreign(meanwhile(n), OfCaller(c))
      modifies this
      ensures Valid() && old(history) <= history && CallerIs(c, m, Returned(result))
      ensures IsRequest(Own(history, OfCaller(c)), c, m, ticks, receiptWorks, result)
      ensures GaveUpFairly(history, c, late) && (result.Some? ==> result.value.messageId == m)
    {
      hide Run, Own, Foreign, Apply, IsRequest, Opening, Valid, View, GaveUpFairly, FoundNothing;
      Yield(c, meanwhile(2));
      SendMediaRetryReceipt(c, receiptWorks);
      Yield(c, meanwhile(3));
      LeaderEnds(c, m, ticks, receiptWorks, None);
      if !receiptWorks {
        DeleteWaiter(c, None);
        NeverGaveUp(history, c, late);
        return None;
      }
      result := AwaitAndLeave(c, m, late, meanwhile(4));
      LeaderEnds(c, m, ticks, receiptWorks, result);
    }

    /** The select of a leader and then its deferred Delete. */
    method AwaitAndLeave(c: nat, m: MessageId, late: bool, others: seq<Action>) returns (result: Option<Event>)
      requires Valid() && CallerIs(c, m, Waiting) && Foreign(others, OfCaller(c))
      requires WaitTimeout(c) !in Own(history, OfCaller(c))
      modifies this
      ensures Valid() && old(history) <= history && CallerIs(c, m, Returned(result))
      ensures Own(history, OfCaller(c))
           == Own(old(history), OfCaller(c)) + [if result.Some? then Receive(c) else WaitTimeout(c), Delete(c)]
      ensures GaveUpFairly(history, c, late) && (result.Some? ==> result.value.messageId == m)
    {
      hide Run, Own, Foreign, Apply, Valid, View, GaveUpFairly, FoundNothing;
      WaiterHasChannel(c);
      NothingFound(c);
      NeverGaveUp(history, c, late);
      result := AwaitEvent(c, late);
      Yield(c, others);
      DeleteWaiter(c, result);
      if result.Some? {
        NeverGaveUp(history, c, late);
        ReturnsOwnMessage(c, result.value);
      } else {
        GaveUpOnce(old(history), others, c, late);
      }
    }

    // -------------------------------------------------------------- the event handler

    ghost predicate HandlerIs(h: nat, e: Event, at: HandlerPoint)
      reads this
    {
      h in handlers && handlers[h] == Handler(e, at)
    }

    lemma NotArrivedYet(h: nat)
      requires Valid() && Own(history, OfHandler(h)) == []
      ensures h !in handlers
    {
      NoOwnStepIsForeign(history, OfHandler(h));
      OthersKeepAbsence(IDLE, history, OfHandler(h));
    }

    method YieldHandler(h: nat, e: Event, at: HandlerPoint, actions: seq<Action>)
      requires Valid() && Foreign(actions, OfHandler(h)) && HandlerIs(h, e, at)
      modifies this
      ensures Valid() && HandlerIs(h, e, at)
      ensures history == old(history) + actions
      ensures Own(history, OfHandler(h)) == Own(old(history), OfHandler(h))
    {
      hide Run, Own, Foreign;
      OthersKeepHandlerPoint(View(), actions, h);
      Elsewhere(actions, OfHandler(h));
    }

    method CacheEvent(h: nat, e: Event)
      requires Valid() && h !in handlers
      modifies `handlers, `history, `mediaRetryEvents
      ensures Valid() && HandlerIs(h, e, Cached)
      ensures View() == Apply(Apply(old(View()), Arrive(h, e)), CacheSet(h))
      ensures history == old(history) + [Arrive(h, e)] + [CacheSet(h)]
      ensures Own(history, OfHandler(h)) == Own(old(history), OfHandler(h)) + [Arrive(h, e)] + [CacheSet(h)]
    {
      hide Run, Own;
      handlers := handlers[h := Handler(e, Cached)];
      mediaRetryEvents := mediaRetryEvents[e.messageId := e];
      RunSnoc(IDLE, history, Arrive(h, e));
      RunSnoc(IDLE, history + [Arrive(h, e)], CacheSet(h));
      history := history + [Arrive(h, e)] + [CacheSet(h)];
    }

    method LoadChannel(h: nat, e: Event) returns (target: Option<nat>)
      requires Valid() && HandlerIs(h, e, Cached)
      modifies `handlers, `history
      ensures Valid() && HandlerIs(h, e, Loaded(target)) && View() == Apply(old(View()), LoadWaiter(h))
      ensures Logged(old(history), LoadWaiter(h))
    {
      hide Run, Own;
      target := if e.messageId in mediaRetryWaiters then Some(mediaRetryWaiters[e.messageId]) else None;
      handlers := handlers[h := Handler(e, Loaded(target))];
      RunSnoc(IDLE, history, LoadWaiter(h));
      history := history + [LoadWaiter(h)];
    }

    /** The non-blocking send, skipped when there was no waiter. */
    method SendIfRoom(h: nat, e: Event, target: Option<nat>)
      requires Valid() && HandlerIs(h, e, Loaded(target)) && (target.Some? ==> target.value in channels)
      modifies `handlers, `history, `channels
      ensures Valid() && HandlerIs(h, e, Finished(target)) && View() == Apply(old(View()), TrySend(h))
      ensures Logged(old(history), TrySend(h))
    {
      hide Run, Own;
      if target.Some? && |channels[target.value]| < 1 {
        channels := channels[target.value := channels[target.value] + [e]];
      }
      handlers := handlers[h := Handler(e, Finished(target))];
      RunSnoc(IDLE, history, TrySend(h));
      history := history + [TrySend(h)];
    }

    lemma TargetHasChannel(h: nat, e: Event, c: nat)
      requires Valid() && HandlerIs(h, e, Loaded(Some(c)))
      ensures c in channels
    {
      RunKeepsInv(IDLE, history);
      assert HandlerOk(View(), h);
    }

    lemma AfterTheSend(h: nat, e: Event, c: nat)
      requires Valid() && HandlerIs(h, e, Finished(Some(c)))
      ensures c in callers && callers[c].message == e.messageId && c in channels
      ensures |channels[c]| == 1 || HasLeft(callers[c])
    {
      NoLostHandOff(history, h, c);
    }

    /**
     The MediaRetry case of reissueEvent, with the steps `first` and `second` of others between its
     own. Whatever they are, the waiter it found has the event or an earlier one in its channel, or
     no longer needs one.
     */
    method ReissueMediaRetry(h: nat, e: Event, first: seq<Action>, second: seq<Action>) returns (target: Option<nat>)
      requires Valid() && Own(history, OfHandler(h)) == []
      requires Foreign(first, OfHandler(h)) && Foreign(second, OfHandler(h))
      modifies this
      ensures Valid() && old(history) <= history && HandlerIs(h, e, Finished(target))
      ensures Own(history, OfHandler(h)) == [Arrive(h, e), CacheSet(h), LoadWaiter(h), TrySend(h)]
      ensures target.Some? ==>
                && target.value in callers && callers[target.value].message == e.messageId && target.value in channels
                && (|channels[target.value]| == 1 || HasLeft(callers[target.value]))
    {
      hide Run, Own, Foreign, Apply, Valid, View;
      NotArrivedYet(h);
      CacheEvent(h, e);
      YieldHandler(h, e, Cached, first);
      target := LoadChannel(h, e);
      YieldHandler(h, e, Loaded(target), second);
      if target.Some? {
        TargetHasChannel(h, e, target.value);
      }
      SendIfRoom(h, e, target);
      if target.Some? {
        AfterTheSend(h, e, target.value);
      }
    }
  }
}
