/**
 The event fan-out: each listener of a session has a bounded buffer, a counter of drops in a
 row and a poison flag. The buffer size and the drop limit are positive parameters.
 */
module EventFanout {
  import opened Types

  datatype Limits = Limits(buffer: nat, drops: nat)

  ghost predicate Positive(lim: Limits) {
    lim.buffer > 0 && lim.drops > 0
  }

  /** `json` is empty when the event cannot be marshalled. */
  datatype Event = Event(typeName: string, json: string)

  datatype Outcome = Accepted(event: Event) | Dropped(dropped: Event)

  /** A listener: its channel and flags, and as history what was read from it and what came of each offer. */
  datatype Listener = Listener(
    exclude: set<string>,
    buffer: seq<Event>,
    drops: nat,
    poisoned: bool,
    taken: seq<Event>,
    log: seq<Outcome>)

  datatype Address = Address(session: string, id: string)

  type Listeners = map<Address, Listener>

  datatype Action =
    | Send(session: string, event: Event)
    | Read(reader: Address)
    | Add(added: Address, exclude: set<string>)
    | Remove(removed: Address)

  function Fresh(exclude: set<string>): Listener {
    Listener(exclude, [], 0, false, [], [])
  }

  function Offer(lim: Limits, l: Listener, e: Event): Listener {
    if e.typeName in l.exclude then l
    else if |l.buffer| < lim.buffer then l.(buffer := l.buffer + [e], drops := 0, log := l.log + [Accepted(e)])
    else l.(drops := l.drops + 1, poisoned := l.poisoned || l.drops + 1 >= lim.drops, log := l.log + [Dropped(e)])
  }

  function ReadOne(l: Listener): Listener {
    if l.buffer == [] then l else l.(buffer := l.buffer[1..], taken := l.taken + [l.buffer[0]])
  }

  function Apply(lim: Limits, ls: Listeners, a: Action): Listeners {
    match a
    case Send(s, e) => map x | x in ls :: if x.session == s then Offer(lim, ls[x], e) else ls[x]
    case Read(x) => if x in ls then ls[x := ReadOne(ls[x])] else ls
    case Add(x, exclude) => ls[x := Fresh(exclude)]
    case Remove(x) => ls - {x}
  }

  function Run(lim: Limits, ls: Listeners, actions: seq<Action>): Listeners {
    if actions == [] then ls else Apply(lim, Run(lim, ls, actions[..|actions| - 1]), actions[|actions| - 1])
  }

  // ---------------------------------------------------------------- what a run says about one listener

  /** Whether the address is registered after the actions, and with which exclusions. */
  function Registration(x: Address, actions: seq<Action>): Option<set<string>> {
    if actions == [] then None
    else
      match actions[|actions| - 1]
      case Add(y, exclude) => if x == y then Some(exclude) else Registration(x, actions[..|actions| - 1])
      case Remove(y) => if x == y then None else Registration(x, actions[..|actions| - 1])
      case _ => Registration(x, actions[..|actions| - 1])
  }

  /** The events sent to the session since the address was last registered, without the excluded types. */
  function Wanted(x: Address, actions: seq<Action>): seq<Event> {
    if actions == [] then []
    else
      var init := actions[..|actions| - 1];
      match actions[|actions| - 1]
      case Add(y, _) => if x == y then [] else Wanted(x, init)
      case Send(s, e) =>
        if x.session == s && Registration(x, init).Some? && e.typeName !in Registration(x, init).value
        then Wanted(x, init) + [e] else Wanted(x, init)
      case _ => Wanted(x, init)
  }

  function EventsOf(log: seq<Outcome>): seq<Event> {
    if log == [] then []
    else
      var last := log[|log| - 1];
      EventsOf(log[..|log| - 1]) + [if last.Accepted? then last.event else last.dropped]
  }

  function AcceptedOf(log: seq<Outcome>): seq<Event> {
    if log == [] then []
    else
      var last := log[|log| - 1];
      AcceptedOf(log[..|log| - 1]) + if last.Accepted? then [last.event] else []
  }

  /** How many offers in a row were dropped at the end of the log. */
  function TrailingDrops(log: seq<Outcome>): nat {
    if log == [] || log[|log| - 1].Accepted? then 0 else TrailingDrops(log[..|log| - 1]) + 1
  }

  lemma {:induction false} TrailingDropsMeaning(log: seq<Outcome>, n: nat)
    ensures TrailingDrops(log) >= n <==> n <= |log| && forall i | |log| - n <= i < |log| :: log[i].Dropped?
  {
    if log != [] && n > 0 {
      TrailingDropsMeaning(log[..|log| - 1], n - 1);
    }
  }

  /** At some moment a run of drops reached the limit. */
  ghost predicate ReachedLimit(lim: Limits, log: seq<Outcome>) {
    exists n :: 0 <= n <= |log| && TrailingDrops(log[..n]) >= lim.drops
  }

  ghost predicate Faithful(lim: Limits, l: Listener) {
    && l.taken + l.buffer == AcceptedOf(l.log)
    && |l.buffer| <= lim.buffer
    && l.drops == TrailingDrops(l.log)
    && (l.poisoned <==> ReachedLimit(lim, l.log))
  }

  lemma FreshIsFaithful(lim: Limits, exclude: set<string>)
    requires Positive(lim)
    ensures Faithful(lim, Fresh(exclude))
  {
  }

  lemma LimitAfter(lim: Limits, log: seq<Outcome>, o: Outcome)
    ensures ReachedLimit(lim, log + [o]) <==> ReachedLimit(lim, log) || TrailingDrops(log + [o]) >= lim.drops
  {
    var more := log + [o];
    assert more[..|more|] == more;
    assert forall n | 0 <= n <= |log| :: more[..n] == log[..n];
    if ReachedLimit(lim, more) {
      var n :| 0 <= n <= |more| && TrailingDrops(more[..n]) >= lim.drops;
      if n <= |log| {
        assert TrailingDrops(log[..n]) >= lim.drops;
      }
    }
    if ReachedLimit(lim, log) {
      var n :| 0 <= n <= |log| && TrailingDrops(log[..n]) >= lim.drops;
      assert TrailingDrops(more[..n]) >= lim.drops;
    }
  }

  lemma OfferIsFaithful(lim: Limits, l: Listener, e: Event)
    requires Positive(lim) && Faithful(lim, l)
    ensures Faithful(lim, Offer(lim, l, e))
    ensures EventsOf(Offer(lim, l, e).log) == if e.typeName in l.exclude then EventsOf(l.log) else EventsOf(l.log) + [e]
  {
    if e.typeName !in l.exclude {
      var o := if |l.buffer| < lim.buffer then Accepted(e) else Dropped(e);
      assert (l.log + [o])[..|l.log|] == l.log;
      LimitAfter(lim, l.log, o);
      assert l.taken + (l.buffer + [e]) == l.taken + l.buffer + [e];
    }
  }

  lemma ReadIsFaithful(lim: Limits, l: Listener)
    requires Faithful(lim, l)
    ensures Faithful(lim, ReadOne(l))
  {
    if l.buffer != [] {
      assert l.taken + l.buffer == l.taken + [l.buffer[0]] + l.buffer[1..];
    }
  }

  /**
   Over every run, for every listener: it is there exactly while registered; what was read from
   it and then what is buffered are its accepted events in order; accepted and dropped events
   together, in order, are the wanted ones sent since it was registered; the counter is the
   current run of drops; and it is poisoned exactly when some run reached the limit.
   */
  lemma {:induction false} EveryListenerIsFaithful(lim: Limits, actions: seq<Action>, x: Address)
    requires Positive(lim)
    ensures var ls := Run(lim, map[], actions);
            && (x in ls <==> Registration(x, actions).Some?)
            && (x in ls ==>
                  && ls[x].exclude == Registration(x, actions).value
                  && Faithful(lim, ls[x])
                  && EventsOf(ls[x].log) == Wanted(x, actions))
  {
    if actions != [] {
      var init, last := actions[..|actions| - 1], actions[|actions| - 1];
      EveryListenerIsFaithful(lim, init, x);
      var ls := Run(lim, map[], init);
      match last
      case Send(s, e) =>
        if x in ls {
          OfferIsFaithful(lim, ls[x], e);
        }
      case Read(y) =>
        if x in ls {
          ReadIsFaithful(lim, ls[x]);
        }
      case Add(y, exclude) =>
        FreshIsFaithful(lim, exclude);
      case Remove(y) =>
    }
  }

  // ---------------------------------------------------------------- which events are dropped, and which are read

  /** How many events the address has been sent and has not read, by counting alone; at most `size` wait. */
  function Unread(size: nat, x: Address, actions: seq<Action>): nat {
    if actions == [] then 0
    else
      var init := actions[..|actions| - 1];
      var n := Unread(size, x, init);
      match actions[|actions| - 1]
      case Add(y, _) => if x == y then 0 else n
      case Remove(y) => if x == y then 0 else n
      case Read(y) => if x == y && n > 0 then n - 1 else n
      case Send(s, e) =>
        if x.session == s && Registration(x, init).Some? && e.typeName !in Registration(x, init).value && n < size
        then n + 1 else n
  }

  lemma {:induction false} UnreadIsBuffered(lim: Limits, actions: seq<Action>, x: Address)
    requires Positive(lim)
    ensures x in Run(lim, map[], actions) ==> |Run(lim, map[], actions)[x].buffer| == Unread(lim.buffer, x, actions)
    ensures x !in Run(lim, map[], actions) ==> Unread(lim.buffer, x, actions) == 0
  {
    if actions != [] {
      UnreadIsBuffered(lim, actions[..|actions| - 1], x);
      EveryListenerIsFaithful(lim, actions[..|actions| - 1], x);
    }
  }

  lemma RunSnoc(lim: Limits, ls: Listeners, actions: seq<Action>, a: Action)
    ensures Run(lim, ls, actions + [a]) == Apply(lim, Run(lim, ls, actions), a)
  {
    assert (actions + [a])[..|actions|] == actions;
  }

  /**
   Over every run: a wanted event is dropped if and only if, at that send, exactly as many accepted
   events as the buffer holds had not been read. That number follows from the actions by counting.
   */
  lemma DroppedIffFull(lim: Limits, actions: seq<Action>, x: Address, e: Event)
    requires Positive(lim) && Registration(x, actions).Some? && e.typeName !in Registration(x, actions).value
    ensures var ls, after := Run(lim, map[], actions), Run(lim, map[], actions + [Send(x.session, e)]);
            && x in ls && x in after
            && |AcceptedOf(ls[x].log)| - |ls[x].taken| == Unread(lim.buffer, x, actions) <= lim.buffer
            && after[x].log == ls[x].log + [if |AcceptedOf(ls[x].log)| - |ls[x].taken| == lim.buffer
                                            then Dropped(e) else Accepted(e)]
  {
    EveryListenerIsFaithful(lim, actions, x);
    UnreadIsBuffered(lim, actions, x);
    RunSnoc(lim, map[], actions, Send(x.session, e));
    var l := Run(lim, map[], actions)[x];
    assert |l.taken + l.buffer| == |l.taken| + |l.buffer|;
  }

  /**
   Over every run: a read takes the first accepted event that has not been read, if there is one,
   and nothing else.
   */
  lemma ReadTakesNext(lim: Limits, actions: seq<Action>, x: Address)
    requires Positive(lim) && Registration(x, actions).Some?
    ensures var ls, after := Run(lim, map[], actions), Run(lim, map[], actions + [Action.Read(x)]);
            && x in ls && x in after && after[x].log == ls[x].log
            && var accepted, n := AcceptedOf(ls[x].log), |ls[x].taken|;
               after[x].taken == ls[x].taken + if n < |accepted| then [accepted[n]] else []
  {
    EveryListenerIsFaithful(lim, actions, x);
    RunSnoc(lim, map[], actions, Action.Read(x));
    var l := Run(lim, map[], actions)[x];
    assert l.buffer != [] ==> (l.taken + l.buffer)[|l.taken|] == l.buffer[0];
  }

  /**
   Over every run, no event of an excluded type is read or buffered, and every other one sent
   meanwhile was offered.
   */
  lemma {:induction false} ExcludedNeverArrives(lim: Limits, actions: seq<Action>, x: Address, e: Event)
    requires Positive(lim) && x in Run(lim, map[], actions)
    ensures var l := Run(lim, map[], actions)[x];
            && (e in l.taken + l.buffer ==> e.typeName !in l.exclude)
            && (Accepted(e) in l.log || Dropped(e) in l.log <==> e in Wanted(x, actions))
  {
    EveryListenerIsFaithful(lim, actions, x);
    var l := Run(lim, map[], actions)[x];
    AcceptedWereOffered(l.log, e);
    WantedIsNotExcluded(x, actions, e);
  }

  lemma {:induction false} AcceptedWereOffered(log: seq<Outcome>, e: Event)
    ensures e in AcceptedOf(log) ==> e in EventsOf(log)
    ensures e in EventsOf(log) <==> Accepted(e) in log || Dropped(e) in log
  {
    if log != [] {
      assert log == log[..|log| - 1] + [log[|log| - 1]];
      AcceptedWereOffered(log[..|log| - 1], e);
    }
  }

  /** What a listener waits for: the events of its session since it was added whose type it has not excluded. */
  lemma {:induction false} WantedIsNotExcluded(x: Address, actions: seq<Action>, e: Event)
    requires Registration(x, actions).Some?
    ensures e in Wanted(x, actions) ==> e.typeName !in Registration(x, actions).value
  {
    if actions != [] && !(actions[|actions| - 1].Add? && actions[|actions| - 1].added == x) {
      WantedIsNotExcluded(x, actions[..|actions| - 1], e);
    }
  }

  // ---------------------------------------------------------------- isolation

  predicate Concerns(a: Action, x: Address) {
    match a
    case Send(s, _) => s == x.session
    case Read(y) => y == x
    case Add(y, _) => y == x
    case Remove(y) => y == x
  }

  function Concerning(actions: seq<Action>, x: Address): seq<Action> {
    if actions == [] then []
    else
      var rest, last := Concerning(actions[..|actions| - 1], x), actions[|actions| - 1];
      if Concerns(last, x) then rest + [last] else rest
  }

  ghost predicate SameAt(a: Listeners, b: Listeners, x: Address) {
    (x in a <==> x in b) && (x in a ==> a[x] == b[x])
  }

  /**
   A listener is what the sends to its own session and its own reads make of it; no other
   listener, however slow or dead, has any effect.
   */
  lemma {:induction false} OthersDoNotMatter(lim: Limits, ls: Listeners, actions: seq<Action>, x: Address)
    ensures SameAt(Run(lim, ls, actions), Run(lim, ls, Concerning(actions, x)), x)
  {
    if actions != [] {
      var init, last := actions[..|actions| - 1], actions[|actions| - 1];
      OthersDoNotMatter(lim, ls, init, x);
      var mine := Concerning(init, x);
      if Concerns(last, x) {
        assert (mine + [last])[..|mine|] == mine;
        assert Run(lim, ls, mine + [last]) == Apply(lim, Run(lim, ls, mine), last);
      }
    }
  }

  // ---------------------------------------------------------------- the server

  datatype Turn = Sent(event: Event) | Skipped(event: Event) | Ended(reason: Reason)

  datatype Reason = Cancelled | TooSlow | Closed | SendFailed(lost: Event)

  class EventListener {
    const lim: Limits
    const exclude: set<string>
    var events: seq<Event>
    var closed: bool
    var poisoned: bool
    var drops: nat
    ghost var taken: seq<Event>
    ghost var log: seq<Outcome>

    ghost function View(): Listener
      reads this
    {
      Listener(exclude, events, drops, poisoned, taken, log)
    }

    constructor (lim: Limits, exclude: set<string>)
      ensures this.lim == lim && View() == Fresh(exclude) && !closed
    {
      this.lim, this.exclude := lim, exclude;
      events, closed, poisoned, drops := [], false, false, 0;
      taken, log := [], [];
    }

    method Excluded(event: Event) returns (found: bool)
      ensures found <==> event.typeName in exclude
    {
      if exclude == {} {
        return false;
      }
      found := event.typeName in exclude;
    }

    /** What SendEventToAllListeners does for one listener. Sending on a closed channel would panic. */
    method Accept(event: Event)
      requires !closed
      modifies this
      ensures View() == Offer(lim, old(View()), event) && !closed
      ensures event.typeName in exclude ==> View() == old(View())
      ensures event.typeName !in exclude ==>
                && log == old(log) + [if |old(events)| < lim.buffer then Accepted(event) else Dropped(event)]
                && events == old(events) + if |old(events)| < lim.buffer then [event] else []
    {
      var skip := Excluded(event);
      if skip {
        return;
      }
      if |events| < lim.buffer {
        events := events + [event];
        drops := 0;
        log := log + [Accepted(event)];
      } else {
        drops := drops + 1;
        log := log + [Dropped(event)];
        if drops >= lim.drops {
          poisoned := true;
        }
      }
    }

    method Close()
      modifies `closed
      ensures closed && View() == old(View())
    {
      closed := true;
    }

    /**
     One turn of the StreamEvents loop: one ready case of its select. An event that cannot be
     marshalled is read and skipped.
     */
    method Next(cancelled: bool, sendOk: bool) returns (turn: Turn)
      requires cancelled || poisoned || events != [] || closed
      modifies `events, `taken
      ensures turn.Ended? && !turn.reason.SendFailed? ==> View() == old(View())
      ensures turn == Ended(TooSlow) ==> poisoned
      ensures turn == Ended(Cancelled) ==> cancelled
      ensures turn == Ended(Closed) ==> closed && events == []
      ensures turn.Sent? || turn.Skipped? || (turn.Ended? && turn.reason.SendFailed?) ==>
                && old(events) != [] && View() == ReadOne(old(View()))
                && events == old(events)[1..] && taken == old(taken) + [old(events)[0]]
      ensures turn.Sent? ==> turn.event == old(events[0]) && turn.event.json != "" && sendOk
      ensures turn.Skipped? ==> turn.event == old(events[0]) && turn.event.json == ""
      ensures turn.Ended? && turn.reason.SendFailed? ==> turn.reason.lost == old(events[0]) && !sendOk
    {
      if
      case cancelled =>
        turn := Ended(Cancelled);
      case poisoned =>
        turn := Ended(TooSlow);
      case events == [] && closed =>
        turn := Ended(Closed);
      case events != [] =>
        var event := events[0];
        events := events[1..];
        taken := taken + [event];
        if event.json == "" {
          turn := Skipped(event);
        } else if sendOk {
          turn := Sent(event);
        } else {
          turn := Ended(SendFailed(event));
        }
    }
  }

  type Nested = map<string, map<string, EventListener>>

  type Flat = map<Address, EventListener>

  /** `flat` is `nested` with the two keys joined; no session is kept without a listener. */
  ghost predicate Flattens(nested: Nested, flat: Flat) {
    && (forall x: Address :: x in flat <==> x.session in nested && x.id in nested[x.session])
    && (forall x | x in flat :: nested[x.session][x.id] == flat[x])
    && (forall s | s in nested :: nested[s] != map[])
  }

  lemma FlattensAt(nested: Nested, flat: Flat, session: string, id: string)
    requires Flattens(nested, flat)
    ensures Address(session, id) in flat <==> session in nested && id in nested[session]
    ensures Address(session, id) in flat ==> nested[session][id] == flat[Address(session, id)]
  {
  }

  lemma FlattensSession(nested: Nested, flat: Flat, session: string)
    requires Flattens(nested, flat)
    ensures session !in nested ==> forall x | x in flat :: x.session != session
    ensures session in nested ==>
              && (forall x | x in flat && x.session == session :: x.id in nested[session])
              && (forall id | id in nested[session] ::
                    Address(session, id) in flat && flat[Address(session, id)] == nested[session][id])
  {
  }

  lemma FlattensAdd(nested: Nested, flat: Flat, session: string, id: string, l: EventListener)
    requires Flattens(nested, flat)
    ensures var inner: map<string, EventListener> := if session in nested then nested[session] else map[];
            Flattens(nested[session := inner[id := l]], flat[Address(session, id) := l])
  {
    var inner: map<string, EventListener> := if session in nested then nested[session] else map[];
    assert id in inner[id := l];
  }

  lemma FlattensRemove(nested: Nested, flat: Flat, session: string, id: string)
    requires Flattens(nested, flat) && session in nested && id in nested[session]
    ensures var rest := nested[session] - {id};
            Flattens(if rest == map[] then nested - {session} else nested[session := rest],
                     flat - {Address(session, id)})
  {
    var rest := nested[session] - {id};
    assert forall other | other in nested[session] :: other == id || other in rest;
  }

  class Server {
    const lim: Limits
    var listeners: Nested
    ghost var registered: Flat

    constructor (lim: Limits)
      ensures this.lim == lim && Valid() && View() == map[]
    {
      this.lim, listeners, registered := lim, map[], map[];
    }

    /** Every registered listener has its own object and an open channel. */
    ghost predicate Valid()
      reads this, registered.Values
    {
      && Flattens(listeners, registered)
      && (forall x | x in registered :: !registered[x].closed && registered[x].lim == lim)
      && (forall x, y | x in registered && y in registered && x != y :: registered[x] != registered[y])
    }

    ghost function View(): Listeners
      reads this, registered.Values
    {
      map x | x in registered :: registered[x].View()
    }

    method SendEventToAllListeners(session: string, event: Event)
      requires Valid()
      modifies registered.Values
      ensures Valid() && View() == Apply(lim, old(View()), Send(session, event))
    {
      hide Flattens, Offer, SentBut;
      FlattensSession(listeners, registered, session);
      if session !in listeners {
        SentToNobody(lim, View(), session, event);
        return;
      }
      var sessionListeners := listeners[session];
      var todo := sessionListeners.Keys;
      SentToNoneYet(lim, View(), session, event, todo);
      while todo != {}
        invariant Valid() && todo <= sessionListeners.Keys
        invariant View() == SentBut(lim, old(View()), session, event, todo)
      {
        var id :| id in todo;
        SentToOneMore(lim, old(View()), session, event, todo, id);
        OfferTo(sessionListeners[id], Address(session, id), event);
        todo := todo - {id};
      }
      SentToAll(lim, old(View()), session, event);
    }

    /** One listener gets its offer and no other changes. */
    method OfferTo(listener: EventListener, ghost here: Address, event: Event)
      requires Valid() && here in registered && registered[here] == listener
      modifies listener
      ensures Valid() && View() == old(View())[here := Offer(lim, old(View())[here], event)]
    {
      hide Flattens, Offer;
      assert listener.View() == View()[here];
      assert forall x | x in registered && x != here :: registered[x] != listener;
      listener.Accept(event);
    }

    /** A fresh listener under the given id; an earlier one under the same id would be forgotten. */
    method AddListener(session: string, id: string, exclude: set<string>) returns (listener: EventListener)
      requires Valid()
      modifies this
      ensures Valid() && fresh(listener)
      ensures registered == old(registered)[Address(session, id) := listener]
      ensures View() == Apply(lim, old(View()), Add(Address(session, id), exclude))
    {
      hide Flattens;
      listener := new EventListener(lim, exclude);
      FlattensAdd(listeners, registered, session, id, listener);
      var sessionListeners: map<string, EventListener> := if session in listeners then listeners[session] else map[];
      listeners := listeners[session := sessionListeners[id := listener]];
      registered := registered[Address(session, id) := listener];
    }

    /** Closes the listener's channel and forgets it, and its session when it was the last one. */
    method RemoveListener(session: string, id: string)
      requires Valid()
      modifies this, registered.Values
      ensures Valid() && registered == old(registered) - {Address(session, id)}
      ensures View() == Apply(lim, old(View()), Remove(Address(session, id)))
      ensures Address(session, id) in old(registered) ==> old(registered)[Address(session, id)].closed
    {
      hide Flattens;
      FlattensAt(listeners, registered, session, id);
      if session !in listeners || id !in listeners[session] {
        return;
      }
      FlattensRemove(listeners, registered, session, id);
      var listener := listeners[session][id];
      var rest := listeners[session] - {id};
      if rest == map[] {
        listeners := listeners - {session};
      } else {
        listeners := listeners[session := rest];
      }
      registered := registered - {Address(session, id)};
      assert forall x | x in registered :: registered[x] != listener;
      listener.Close();
    }
  }

  /** The listeners once the event was offered to those of the session, but for the ids still to do. */
  function SentBut(lim: Limits, ls: Listeners, session: string, e: Event, todo: set<string>): Listeners {
    map x | x in ls :: if x.session == session && x.id !in todo then Offer(lim, ls[x], e) else ls[x]
  }

  lemma SentToNobody(lim: Limits, ls: Listeners, session: string, e: Event)
    requires forall x | x in ls :: x.session != session
    ensures Apply(lim, ls, Send(session, e)) == ls
  {
  }

  lemma SentToNoneYet(lim: Limits, ls: Listeners, session: string, e: Event, todo: set<string>)
    requires forall x | x in ls && x.session == session :: x.id in todo
    ensures SentBut(lim, ls, session, e, todo) == ls
  {
  }

  lemma SentToOneMore(lim: Limits, ls: Listeners, session: string, e: Event, todo: set<string>, id: string)
    requires id in todo && Address(session, id) in ls
    ensures var here, before := Address(session, id), SentBut(lim, ls, session, e, todo);
            && here in before
            && SentBut(lim, ls, session, e, todo - {id}) == before[here := Offer(lim, before[here], e)]
  {
    hide Offer;
    var here, before := Address(session, id), SentBut(lim, ls, session, e, todo);
    assert before.Keys == ls.Keys == SentBut(lim, ls, session, e, todo - {id}).Keys;
  }

  lemma SentToAll(lim: Limits, ls: Listeners, session: string, e: Event)
    ensures SentBut(lim, ls, session, e, {}) == Apply(lim, ls, Send(session, e))
  {
  }
}
