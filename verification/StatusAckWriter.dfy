/**
 The batching writer in front of the status-ack table. Producers and the writer's goroutine
 interleave; every step below is one channel operation or one select case.
 */
module StatusAckWriter {
  import opened Types
  import opened StatusAcks
  import opened StatusAckStore

  const QUEUE_SIZE := 100_000
  const FLUSH_SIZE := 500

  // ---------------------------------------------------------------- receipts

  datatype Receipt = Receipt(kind: ReceiptType, sender: Jid, messageIds: seq<string>)

  function StatusAckLevel(kind: ReceiptType): int {
    match kind
    case Delivered => ACK_DELIVERED
    case Read => ACK_READ
    case ReadSelf => ACK_READ
    case Played => ACK_READ
    case OtherType => 0
  }

  /** The records a receipt seen at `now` stands for, in order. */
  function RecordsOf(receipt: Receipt, now: int): seq<Record> {
    if StatusAckLevel(receipt.kind) == 0 || IsEmptyJid(receipt.sender) then []
    else RecordsFor(receipt, receipt.messageIds, now)
  }

  function RecordsFor(receipt: Receipt, ids: seq<string>, now: int): seq<Record> {
    if ids == [] then []
    else
      var rest := RecordsFor(receipt, ids[..|ids| - 1], now);
      var id := ids[|ids| - 1];
      if id == "" then rest
      else rest + [Record(id, Parsed(NonAD(receipt.sender)), StatusAckLevel(receipt.kind), now)]
  }

  /** One person, not one device; a level the counters know; nothing deduplication would skip. */
  ghost predicate FromReceipt(r: Record) {
    && Countable(r)
    && r.participant.Parsed? && r.participant.jid.device == 0
    && (r.ack == ACK_DELIVERED || r.ack == ACK_READ)
  }

  /** A receipt and the moment it was seen. */
  datatype Seen = Seen(receipt: Receipt, now: int)

  /**
   What a receipt reports: that the sender, without device, has got or has opened each message it
   names. Reading, reading on another own device and playing count as opening.
   */
  ghost predicate Reports(q: Seen, r: Record) {
    && q.receipt.sender.server != Other("")
    && r.messageId in q.receipt.messageIds && r.messageId != ""
    && r.participant == Parsed(Jid(q.receipt.sender.user, 0, q.receipt.sender.server))
    && r.updatedAt == q.now
    && match q.receipt.kind
       case Delivered => r.ack == 2
       case OtherType => false
       case _ => r.ack == 3
  }

  lemma {:induction false} RecordsForMeaning(receipt: Receipt, ids: seq<string>, now: int)
    ensures forall r :: r in RecordsFor(receipt, ids, now) <==>
              && r.messageId in ids && r.messageId != "" && r.participant == Parsed(NonAD(receipt.sender))
              && r.ack == StatusAckLevel(receipt.kind) && r.updatedAt == now
  {
    if ids != [] {
      assert ids == ids[..|ids| - 1] + [ids[|ids| - 1]];
      RecordsForMeaning(receipt, ids[..|ids| - 1], now);
    }
  }

  /** The records of a receipt are what it reports. */
  lemma RecordsMeaning(q: Seen, r: Record)
    ensures r in RecordsOf(q.receipt, q.now) <==> Reports(q, r)
    ensures r in RecordsOf(q.receipt, q.now) ==> FromReceipt(r)
  {
    RecordsForMeaning(q.receipt, q.receipt.messageIds, q.now);
    assert NonAD(q.receipt.sender) == Jid(q.receipt.sender.user, 0, q.receipt.sender.server);
  }

  function NonEmpty(ids: seq<string>): seq<string> {
    if ids == [] then []
    else NonEmpty(ids[..|ids| - 1]) + if ids[|ids| - 1] == "" then [] else [ids[|ids| - 1]]
  }

  /** They stand in the order of the message ids, one for each that is not empty. */
  lemma {:induction false} RecordsInOrder(receipt: Receipt, ids: seq<string>, now: int)
    ensures |RecordsFor(receipt, ids, now)| == |NonEmpty(ids)|
    ensures forall i | 0 <= i < |NonEmpty(ids)| :: RecordsFor(receipt, ids, now)[i].messageId == NonEmpty(ids)[i]
  {
    if ids != [] {
      RecordsInOrder(receipt, ids[..|ids| - 1], now);
    }
  }

  // ---------------------------------------------------------------- the protocol

  /** Closing: drain has found the queue empty, and its last flush and the close of done are still to come. */
  datatype Phase = Selecting | Draining | Closing | Done

  datatype State = State(
    queue: seq<Record>,
    stopping: bool,
    phase: Phase,
    batch: seq<Record>,
    table: Table,
    enqueued: seq<Record>,      // every record ever put on the queue
    flushes: seq<seq<Record>>,  // every batch ever handed to UpsertMany
    enqueuedAtStop: nat)        // how many records were on record when stopping closed

  /** `ok` is whether the statement, or all statements, of the step went through. */
  datatype Action =
    | Offer(record: Record)
    | Stop
    | Receive(ok: bool)
    | FlushTick(ok: bool)
    | PruneTick(ok: bool, pruned: Option<int>, cleaned: Option<set<string>>)
    | SeeStop
    | DrainReceive(ok: bool)
    | DrainEmpty
    | LastFlush(ok: bool)

  predicate Enabled(s: State, a: Action) {
    match a
    case Offer(_) => |s.queue| < QUEUE_SIZE
    case Stop => true
    case Receive(_) => s.phase.Selecting? && s.queue != []
    case FlushTick(_) => s.phase.Selecting?
    case PruneTick(_, _, _) => s.phase.Selecting?
    case SeeStop => s.phase.Selecting? && s.stopping
    case DrainReceive(_) => s.phase.Draining? && s.queue != []
    case DrainEmpty => s.phase.Draining? && s.queue == []
    case LastFlush(_) => s.phase.Closing?
  }

  function Flushed(s: State, ok: bool): State {
    if s.batch == [] then s
    else s.(batch := [], flushes := s.flushes + [s.batch], table := if ok then Write(s.table, s.batch) else s.table)
  }

  function Taken(s: State, ok: bool): State
    requires s.queue != []
  {
    var t := s.(queue := s.queue[1..], batch := s.batch + [s.queue[0]]);
    if |t.batch| >= FLUSH_SIZE then Flushed(t, ok) else t
  }

  function Deleted(t: Table, pruned: Option<int>, cleaned: Option<set<string>>): Table {
    var u := if pruned.Some? then NotBefore(t, pruned.value) else t;
    if cleaned.Some? then WithoutSelf(u, cleaned.value) else u
  }

  /** One step; an action that is not enabled changes nothing. */
  function Apply(s: State, a: Action): State {
    if !Enabled(s, a) then s
    else
      match a
      case Offer(r) => s.(queue := s.queue + [r], enqueued := s.enqueued + [r])
      case Stop => if s.stopping then s else s.(stopping := true, enqueuedAtStop := |s.enqueued|)
      case Receive(ok) => Taken(s, ok)
      case FlushTick(ok) => Flushed(s, ok)
      case PruneTick(ok, pruned, cleaned) =>
        var f := Flushed(s, ok);
        f.(table := Deleted(f.table, pruned, cleaned))
      case SeeStop => s.(phase := Draining)
      case DrainReceive(ok) => Taken(s, ok)
      case DrainEmpty => s.(phase := Closing)
      case LastFlush(ok) => Flushed(s, ok).(phase := Done)
  }

  function Run(s: State, actions: seq<Action>): State {
    if actions == [] then s else Apply(Run(s, actions[..|actions| - 1]), actions[|actions| - 1])
  }

  function Start(table: Table): State {
    State([], false, Selecting, [], table, [], [], 0)
  }

  /** No record is taken from the queue any more. */
  predicate IsClosed(s: State) {
    s.phase.Closing? || s.phase.Done?
  }

  /** Conservation: what went in is what was flushed, then the batch, then the queue. */
  ghost predicate Inv(s: State) {
    && s.enqueued == Flatten(s.flushes) + s.batch + s.queue
    && |s.batch| < FLUSH_SIZE && |s.queue| <= QUEUE_SIZE
    && (forall f | f in s.flushes :: 0 < |f| <= FLUSH_SIZE)
    && (s.stopping ==> s.enqueuedAtStop <= |s.enqueued|)
    && (!s.phase.Selecting? ==> s.stopping)
    && (IsClosed(s) ==> s.enqueuedAtStop <= |Flatten(s.flushes) + s.batch|)
    && (s.phase.Done? ==> s.batch == [])
  }

  lemma FlushConserves(s: State, ok: bool)
    ensures Flatten(Flushed(s, ok).flushes) + Flushed(s, ok).batch == Flatten(s.flushes) + s.batch
  {
    hide Flatten, Write;
    FlattenSnoc(s.flushes, s.batch);
  }

  lemma TakeConserves(s: State, ok: bool)
    requires s.queue != []
    ensures var t := Taken(s, ok);
            Flatten(t.flushes) + t.batch + t.queue == Flatten(s.flushes) + s.batch + s.queue
  {
    var t := s.(queue := s.queue[1..], batch := s.batch + [s.queue[0]]);
    FlushConserves(t, ok);
    assert s.batch + s.queue == t.batch + t.queue;
    assert Flatten(s.flushes) + s.batch + s.queue == Flatten(s.flushes) + (s.batch + s.queue);
    assert Flatten(t.flushes) + t.batch + t.queue == Flatten(t.flushes) + (t.batch + t.queue);
  }

  lemma FlushKeepsInv(s: State, ok: bool)
    requires Inv(s)
    ensures var t := Flushed(s, ok); Inv(t) && t.batch == [] && t.queue == s.queue && t.phase == s.phase
    ensures Flushed(s, ok).enqueued == s.enqueued == Flatten(Flushed(s, ok).flushes) + s.queue
    ensures Flushed(s, ok).stopping == s.stopping && Flushed(s, ok).enqueuedAtStop == s.enqueuedAtStop
  {
    hide Flatten, Write;
    FlushConserves(s, ok);
    var t := Flushed(s, ok);
    assert Flatten(t.flushes) + t.batch == Flatten(t.flushes);
    assert t.enqueued == Flatten(t.flushes) + t.batch + t.queue;
  }

  lemma TakeKeepsInv(s: State, ok: bool)
    requires Inv(s) && s.queue != [] && !IsClosed(s)
    ensures Inv(Taken(s, ok))
  {
    hide Flatten, Write;
    TakeConserves(s, ok);
  }

  lemma StepKeepsInv(s: State, a: Action)
    requires Inv(s)
    ensures Inv(Apply(s, a))
  {
    hide Flatten, Write, Deleted, Flushed, Taken;
    if Enabled(s, a) {
      match a
      case Offer(r) =>
        assert Flatten(s.flushes) + s.batch + (s.queue + [r]) == Flatten(s.flushes) + s.batch + s.queue + [r];
      case Receive(ok) => TakeKeepsInv(s, ok);
      case DrainReceive(ok) => TakeKeepsInv(s, ok);
      case FlushTick(ok) => FlushKeepsInv(s, ok);
      case PruneTick(ok, _, _) => FlushKeepsInv(s, ok);
      case LastFlush(ok) => FlushKeepsInv(s, ok);
      case DrainEmpty => assert s.enqueued == Flatten(s.flushes) + s.batch + [];
      case _ =>
    }
  }

  lemma StepGrows(s: State, a: Action)
    ensures s.enqueued <= Apply(s, a).enqueued && s.flushes <= Apply(s, a).flushes
    ensures s.stopping ==> Apply(s, a).stopping && Apply(s, a).enqueuedAtStop == s.enqueuedAtStop
  {
    hide Write, Deleted;
  }

  /** Over every run; what was enqueued or flushed once stays so, in place, and stopping is never undone. */
  lemma {:induction false} RunKeepsInv(s: State, actions: seq<Action>)
    requires Inv(s)
    ensures Inv(Run(s, actions))
    ensures s.enqueued <= Run(s, actions).enqueued && s.flushes <= Run(s, actions).flushes
    ensures s.stopping ==> Run(s, actions).stopping && Run(s, actions).enqueuedAtStop == s.enqueuedAtStop
  {
    hide Inv, Apply;
    if actions != [] {
      var init, last := actions[..|actions| - 1], actions[|actions| - 1];
      RunKeepsInv(s, init);
      StepKeepsInv(Run(s, init), last);
      StepGrows(Run(s, init), last);
    }
  }

  lemma StartIsInv(table: Table)
    ensures Inv(Start(table))
  {
  }

  /**
   Shutdown, for every run and every choice select makes: once done closes, the flushed batches
   are a beginning of everything enqueued, in order, each record once, and reach at least as far
   as the records enqueued before stopping closed. Nothing is left in the batch.
   */
  lemma ShutdownFlushesEverything(table: Table, actions: seq<Action>)
    requires Run(Start(table), actions).phase.Done?
    ensures var s := Run(Start(table), actions);
            && s.stopping && s.enqueuedAtStop <= |s.enqueued|
            && s.enqueued[..s.enqueuedAtStop] <= Flatten(s.flushes) <= s.enqueued
            && s.enqueued == Flatten(s.flushes) + s.queue
            && (s.enqueuedAtStop == |s.enqueued| ==> Flatten(s.flushes) == s.enqueued)
  {
    hide Run, Flatten;
    StartIsInv(table);
    RunKeepsInv(Start(table), actions);
    DoneIsFlushed(Run(Start(table), actions));
  }

  // ---------------------------------------------------------------- the exact point of no return

  /** Step `n` of the run is the one in which drain finds the queue empty. */
  ghost predicate IsCutoff(table: Table, actions: seq<Action>, n: nat) {
    n < |actions| && actions[n] == DrainEmpty && Enabled(Run(Start(table), actions[..n]), DrainEmpty)
  }

  lemma {:induction false} ClosedRunHasCutoff(table: Table, actions: seq<Action>)
    requires IsClosed(Run(Start(table), actions))
    ensures exists n: nat :: IsCutoff(table, actions, n)
  {
    if actions != [] {
      var init, last := actions[..|actions| - 1], actions[|actions| - 1];
      var s := Run(Start(table), init);
      if IsClosed(s) {
        ClosedRunHasCutoff(table, init);
        var n: nat :| IsCutoff(table, init, n);
        assert actions[..n] == init[..n];
        assert IsCutoff(table, actions, n);
      } else {
        assert IsCutoff(table, actions, |init|);
      }
    }
  }

  /** After that step the work in hand stays the same, and what else is offered stays in the queue. */
  lemma ClosedStep(s: State, a: Action)
    requires IsClosed(s)
    ensures var t := Apply(s, a);
            && IsClosed(t) && Flatten(t.flushes) + t.batch == Flatten(s.flushes) + s.batch
            && (if a.Offer? && |s.queue| < QUEUE_SIZE
                then t.queue == s.queue + [a.record] && t.enqueued == s.enqueued + [a.record]
                else t.queue == s.queue && t.enqueued == s.enqueued)
  {
    hide Flatten, Write, Deleted;
    if a.LastFlush? {
      FlushConserves(s, a.ok);
    }
  }

  lemma {:induction false} ClosedRun(s: State, after: seq<Action>)
    requires IsClosed(s) && s.queue == []
    ensures var t := Run(s, after);
            && IsClosed(t) && Flatten(t.flushes) + t.batch == Flatten(s.flushes) + s.batch
            && t.enqueued == s.enqueued + t.queue
            && (t.queue == [] <==> forall a | a in after :: !a.Offer?)
  {
    hide Flatten, Apply;
    if after != [] {
      var init, last := after[..|after| - 1], after[|after| - 1];
      assert after == init + [last];
      ClosedRun(s, init);
      ClosedStep(Run(s, init), last);
    }
  }

  lemma {:induction false} RunConcat(s: State, a: seq<Action>, b: seq<Action>)
    ensures Run(s, a + b) == Run(Run(s, a), b)
  {
    if b == [] {
      assert a + b == a;
    } else {
      assert (a + b)[..|a + b| - 1] == a + b[..|b| - 1];
      RunConcat(s, a, b[..|b| - 1]);
    }
  }

  /** What has been handed over or is in the batch once the queue was found empty: all that was enqueued before. */
  lemma CutoffWork(table: Table, actions: seq<Action>, n: nat)
    requires IsCutoff(table, actions, n)
    ensures var s, t := Run(Start(table), actions[..n]), Run(Start(table), actions);
            && Flatten(t.flushes) + t.batch == s.enqueued
            && t.enqueued == s.enqueued + t.queue
            && (t.queue == [] <==> forall a | a in actions[n + 1..] :: !a.Offer?)
  {
    hide Run, Flatten;
    var before, after := actions[..n], actions[n + 1..];
    var s := Run(Start(table), before);
    StartIsInv(table);
    RunKeepsInv(Start(table), before);
    RunSnoc(Start(table), before, DrainEmpty);
    assert before + [DrainEmpty] + after == actions;
    RunConcat(Start(table), before + [DrainEmpty], after);
    ClosedRun(Apply(s, DrainEmpty), after);
    assert s.enqueued == Flatten(s.flushes) + s.batch + [];
  }

  /**
   The exact condition. A run whose done has closed has a step in which drain found the queue
   empty. The flushed batches are exactly what was enqueued before that step, stopping or not, so
   everything ever enqueued has been flushed if and only if nothing was offered after it.
   */
  lemma EverythingFlushedIff(table: Table, actions: seq<Action>)
    requires Run(Start(table), actions).phase.Done?
    ensures exists n: nat :: IsCutoff(table, actions, n)
    ensures forall n: nat | IsCutoff(table, actions, n) ::
              var s := Run(Start(table), actions);
              && Flatten(s.flushes) == Run(Start(table), actions[..n]).enqueued
              && (Flatten(s.flushes) == s.enqueued <==> forall a | a in actions[n + 1..] :: !a.Offer?)
  {
    hide Run, Flatten;
    ClosedRunHasCutoff(table, actions);
    StartIsInv(table);
    RunKeepsInv(Start(table), actions);
    var s := Run(Start(table), actions);
    forall n: nat | IsCutoff(table, actions, n)
      ensures Flatten(s.flushes) == Run(Start(table), actions[..n]).enqueued
      ensures Flatten(s.flushes) == s.enqueued <==> forall a | a in actions[n + 1..] :: !a.Offer?
    {
      CutoffWork(table, actions, n);
      assert Flatten(s.flushes) + [] == Flatten(s.flushes);
    }
  }

  /** Offered before done closed, and lost: drain had found the queue empty but not yet made its last flush. */
  lemma LateRecordMayBeLost(table: Table, r: Record)
    ensures var s := Run(Start(table), [Stop, SeeStop] + [DrainEmpty, Offer(r)] + [LastFlush(true)]);
            s.phase.Done? && s.enqueued == [r] && s.flushes == []
  {
    hide Run, Write;
    var s := Start(table);
    RunFour(s, Stop, SeeStop, DrainEmpty, Offer(r));
    assert [Stop, SeeStop] + [DrainEmpty, Offer(r)] == [Stop, SeeStop, DrainEmpty, Offer(r)];
    RunSnoc(s, [Stop, SeeStop, DrainEmpty, Offer(r)], LastFlush(true));
    assert Apply(Apply(s, Stop), SeeStop) == s.(stopping := true, phase := Draining);
  }

  lemma RunFour(s: State, a: Action, b: Action, c: Action, d: Action)
    ensures Run(s, [a, b, c, d]) == Apply(Apply(Apply(Apply(s, a), b), c), d)
  {
    hide Apply;
    RunNothing(s);
    RunSnoc(s, [], a);
    RunSnoc(s, [a], b);
    RunSnoc(s, [a, b], c);
    RunSnoc(s, [a, b, c], d);
    assert [] + [a] == [a] && [a] + [b] == [a, b] && [a, b] + [c] == [a, b, c] && [a, b, c] + [d] == [a, b, c, d];
  }

  lemma RunSnoc(s: State, actions: seq<Action>, a: Action)
    ensures Run(s, actions + [a]) == Apply(Run(s, actions), a)
  {
    assert (actions + [a])[..|actions|] == actions;
  }

  // ---------------------------------------------------------------- what each turn hands over

  /** A tick, and the last flush, hand the whole batch over and take nothing from the queue. */
  lemma TickHandsOver(s: State, a: Action)
    requires Enabled(s, a) && (a.FlushTick? || a.PruneTick? || a.LastFlush?)
    ensures var t := Apply(s, a);
            && t.batch == [] && t.queue == s.queue
            && t.flushes == s.flushes + if s.batch == [] then [] else [s.batch]
  {
    hide Write, Deleted;
  }

  /** A receive takes the first record of the queue, and hands the batch over when it holds 500. */
  lemma ReceiveTakesFirst(s: State, a: Action)
    requires Inv(s) && Enabled(s, a) && (a.Receive? || a.DrainReceive?)
    ensures var t, more := Apply(s, a), s.batch + [s.queue[0]];
            && t.queue == s.queue[1..] && t.phase == s.phase
            && (|s.batch| < 499 ==> t.batch == more && t.flushes == s.flushes && t.table == s.table)
            && (|s.batch| == 499 ==> t.batch == [] && t.flushes == s.flushes + [more])
  {
    hide Write;
  }

  /** The batch a step hands over. */
  function HandedOver(s: State, a: Action): seq<Record> {
    match a
    case Receive(_) => if s.queue != [] && |s.batch| == 499 then s.batch + [s.queue[0]] else []
    case DrainReceive(_) => if s.queue != [] && |s.batch| == 499 then s.batch + [s.queue[0]] else []
    case FlushTick(_) => s.batch
    case LastFlush(_) => s.batch
    case _ => []
  }

  /**
   A step that hands a batch over raises each ack to what the batch says, or leaves the table when
   the write fails.
   */
  lemma HandOverWrites(s: State, a: Action, k: Key)
    requires Inv(s) && Enabled(s, a) && !a.PruneTick?
    ensures (a.Receive? || a.DrainReceive? || a.FlushTick? || a.LastFlush? ==> !a.ok) ==> Apply(s, a).table == s.table
    ensures (a.Receive? || a.DrainReceive? || a.FlushTick? || a.LastFlush?) && a.ok ==>
              AckAt(Apply(s, a).table, k) == MaxOption(AckAt(s.table, k), Peak(HandedOver(s, a), k, Ack))
  {
    hide Write, Peak;
    NoPeak(k);
    WriteIsMax(s.table, HandedOver(s, a), k);
  }

  lemma NoPeak(k: Key)
    ensures Peak([], k, Ack) == None
  {
  }

  // ---------------------------------------------------------------- what pruning costs

  /** A prune tick deletes the row of `k` as it stands after that tick's flush: it is too old, or the account's own. */
  ghost predicate Prunes(s: State, a: Action, k: Key) {
    && Enabled(s, a) && a.PruneTick? && k in Flushed(s, a.ok).table
    && ((a.pruned.Some? && Flushed(s, a.ok).table[k].updatedAt < a.pruned.value)
        || (a.cleaned.Some? && k.participant.Parsed?
            && k.participant.jid.user != "" && k.participant.jid.user in a.cleaned.value))
  }

  /** No step but such a prune tick takes a row away, and while it stays its ack does not fall. */
  lemma RowLostIff(s: State, a: Action, k: Key)
    requires k in s.table
    ensures k !in Apply(s, a).table <==> Prunes(s, a, k)
    ensures k in Apply(s, a).table ==> Apply(s, a).table[k].ack >= s.table[k].ack
  {
    hide Flushed, Deleted, Taken;
    match a
    case Receive(ok) => if s.queue != [] { TakeKeepsRow(s, ok, k); }
    case DrainReceive(ok) => if s.queue != [] { TakeKeepsRow(s, ok, k); }
    case FlushTick(ok) => FlushKeepsRow(s, ok, k);
    case LastFlush(ok) => FlushKeepsRow(s, ok, k);
    case PruneTick(ok, pruned, cleaned) =>
      FlushKeepsRow(s, ok, k);
      DeletionMeaning(Flushed(s, ok).table, pruned, cleaned, k);
    case _ =>
  }

  lemma FlushKeepsRow(s: State, ok: bool, k: Key)
    requires k in s.table
    ensures k in Flushed(s, ok).table && Flushed(s, ok).table[k].ack >= s.table[k].ack
  {
    hide Write;
    WriteIsMax(s.table, s.batch, k);
  }

  lemma TakeKeepsRow(s: State, ok: bool, k: Key)
    requires s.queue != [] && k in s.table
    ensures k in Taken(s, ok).table && Taken(s, ok).table[k].ack >= s.table[k].ack
  {
    hide Flushed;
    FlushKeepsRow(s.(queue := s.queue[1..], batch := s.batch + [s.queue[0]]), ok, k);
  }

  lemma DeletionMeaning(t: Table, pruned: Option<int>, cleaned: Option<set<string>>, k: Key)
    requires k in t
    ensures k in Deleted(t, pruned, cleaned) <==>
              && !(pruned.Some? && t[k].updatedAt < pruned.value)
              && !(cleaned.Some? && IsSelf(k.participant, cleaned.value))
    ensures k in Deleted(t, pruned, cleaned) ==> Deleted(t, pruned, cleaned)[k] == t[k]
  {
  }

  // ---------------------------------------------------------------- end to end

  /** The step's write does not fail, and its deletions, if any, find nothing. */
  ghost predicate LosslessAt(s: State, a: Action) {
    Enabled(s, a) ==>
      match a
      case Receive(ok) => ok
      case FlushTick(ok) => ok
      case PruneTick(ok, pruned, cleaned) =>
        ok && Deleted(Flushed(s, ok).table, pruned, cleaned) == Flushed(s, ok).table
      case DrainReceive(ok) => ok
      case LastFlush(ok) => ok
      case _ => true
  }

  ghost predicate Lossless(actions: seq<Action>) {
    forall n | 0 <= n < |actions| :: LosslessAt(Run(Start(map[]), actions[..n]), actions[n])
  }

  ghost predicate OnlyReceipts(actions: seq<Action>) {
    forall a | a in actions && a.Offer? :: exists q: Seen :: a.record in RecordsOf(q.receipt, q.now)
  }

  lemma LosslessStep(s: State, a: Action)
    requires LosslessAt(s, a) && s.table == WriteBatches(map[], s.flushes)
    ensures Apply(s, a).table == WriteBatches(map[], Apply(s, a).flushes)
  {
    hide Write, WriteBatches, Deleted;
    if s.queue != [] {
      WriteBatchesSnoc(map[], s.flushes, s.batch + [s.queue[0]]);
    }
    WriteBatchesSnoc(map[], s.flushes, s.batch);
  }

  lemma {:induction false} LosslessTable(actions: seq<Action>)
    requires Lossless(actions)
    ensures var s := Run(Start(map[]), actions); s.table == WriteBatches(map[], s.flushes)
  {
    if actions != [] {
      var init, last := actions[..|actions| - 1], actions[|actions| - 1];
      assert forall n | 0 <= n < |init| :: actions[..n] == init[..n];
      LosslessTable(init);
      LosslessStep(Run(Start(map[]), init), last);
    }
  }

  lemma EnqueuedStep(s: State, a: Action)
    ensures Apply(s, a).enqueued == if a.Offer? && Enabled(s, a) then s.enqueued + [a.record] else s.enqueued
  {
    hide Write, Deleted;
  }

  lemma {:induction false} EnqueuedComesFromReceipts(actions: seq<Action>)
    requires OnlyReceipts(actions)
    ensures forall r | r in Run(Start(map[]), actions).enqueued :: FromReceipt(r)
  {
    if actions != [] {
      var init, last := actions[..|actions| - 1], actions[|actions| - 1];
      assert last in actions && forall a | a in init :: a in actions;
      EnqueuedComesFromReceipts(init);
      EnqueuedStep(Run(Start(map[]), init), last);
      if last.Offer? {
        var q: Seen :| last.record in RecordsOf(q.receipt, q.now);
        RecordsMeaning(q, last.record);
      }
    }
  }

  /** Step `i` puts the record on the queue. */
  ghost predicate AcceptsAt(actions: seq<Action>, i: nat, r: Record) {
    i < |actions| && actions[i] == Offer(r) && |Run(Start(map[]), actions[..i]).queue| < QUEUE_SIZE
  }

  lemma {:induction false} EnqueuedIsAccepted(actions: seq<Action>, r: Record)
    ensures r in Run(Start(map[]), actions).enqueued <==> exists i: nat :: AcceptsAt(actions, i, r)
  {
    if actions != [] {
      hide Apply;
      var init, last := actions[..|actions| - 1], actions[|actions| - 1];
      EnqueuedIsAccepted(init, r);
      EnqueuedStep(Run(Start(map[]), init), last);
      if last.Offer? {
        OfferEnabled(Run(Start(map[]), init), last);
      }
      assert forall i: nat | i < |init| :: actions[..i] == init[..i];
      assert forall i: nat | i < |init| :: AcceptsAt(actions, i, r) <==> AcceptsAt(init, i, r);
      if i: nat :| AcceptsAt(init, i, r) {
        assert AcceptsAt(actions, i, r);
      }
      if last.Offer? && last.record == r && Enabled(Run(Start(map[]), init), last) {
        assert AcceptsAt(actions, |init|, r);
      }
    }
  }

  lemma OfferEnabled(s: State, a: Action)
    requires a.Offer?
    ensures Enabled(s, a) <==> |s.queue| < QUEUE_SIZE
  {
  }

  /** The records accepted in the first `n` steps are those of the receipts, no more and no fewer. */
  ghost predicate OfferedFrom(actions: seq<Action>, n: nat, qs: seq<Seen>) {
    forall r :: AcceptsBefore(actions, n, r) <==> ComesFrom(qs, r)
  }

  ghost predicate AcceptsBefore(actions: seq<Action>, n: nat, r: Record) {
    exists i: nat :: i < n && AcceptsAt(actions, i, r)
  }

  ghost predicate ComesFrom(qs: seq<Seen>, r: Record) {
    exists q :: q in qs && r in RecordsOf(q.receipt, q.now)
  }

  /** The persons, whatever their device, of whom a receipt of one of these kinds names the message. */
  ghost function Persons(qs: seq<Seen>, messageId: string, kinds: set<ReceiptType>): set<Jid> {
    set q | q in qs && q.receipt.kind in kinds && messageId in q.receipt.messageIds
            && q.receipt.sender.server != Other("") :: Jid(q.receipt.sender.user, 0, q.receipt.sender.server)
  }

  lemma {:induction false} KeysOfPersons(messageId: string, persons: set<Jid>)
    ensures |set j | j in persons :: Key(messageId, Parsed(j))| == |persons|
  {
    if persons != {} {
      var j :| j in persons;
      KeysOfPersons(messageId, persons - {j});
      var rest := set i | i in persons - {j} :: Key(messageId, Parsed(i));
      assert Key(messageId, Parsed(j)) !in rest;
      assert (set i | i in persons :: Key(messageId, Parsed(i))) == rest + {Key(messageId, Parsed(j))};
    }
  }

  /** `rs` are the records of the receipts, in whatever order and number. */
  ghost predicate RecordsComeFrom(rs: seq<Record>, qs: seq<Seen>) {
    forall r :: r in rs <==> ComesFrom(qs, r)
  }

  /** A viewer is recorded at a level exactly when a receipt of a kind that reaches the level says so. */
  lemma RecordedPersons(rs: seq<Record>, qs: seq<Seen>, messageId: string, onlyRead: bool)
    requires messageId != "" && RecordsComeFrom(rs, qs)
    ensures |Recorded(rs, messageId, if onlyRead then ACK_READ else ACK_DELIVERED)|
         == |Persons(qs, messageId, {Read, ReadSelf, Played} + if onlyRead then {} else {Delivered})|
  {
    var level := if onlyRead then ACK_READ else ACK_DELIVERED;
    var persons := Persons(qs, messageId, {Read, ReadSelf, Played} + if onlyRead then {} else {Delivered});
    KeysOfPersons(messageId, persons);
    forall k ensures k in Recorded(rs, messageId, level) <==> k in (set j | j in persons :: Key(messageId, Parsed(j))) {
      if k in Recorded(rs, messageId, level) {
        RecordedHasPerson(rs, qs, messageId, level, k);
      }
      if k in (set j | j in persons :: Key(messageId, Parsed(j))) {
        PersonIsRecorded(rs, qs, messageId, onlyRead, k.participant.jid);
      }
    }
    assert Recorded(rs, messageId, level) == set j | j in persons :: Key(messageId, Parsed(j));
  }

  lemma RecordedHasPerson(rs: seq<Record>, qs: seq<Seen>, messageId: string, level: int, k: Key)
    requires RecordsComeFrom(rs, qs) && level in {ACK_DELIVERED, ACK_READ} && k in Recorded(rs, messageId, level)
    ensures k.participant.Parsed? && k.messageId == messageId
    ensures k.participant.jid
              in Persons(qs, messageId, {Read, ReadSelf, Played} + if level == ACK_READ then {} else {Delivered})
  {
    var r :| r in rs && r.messageId == messageId && r.ack >= level && k == KeyOf(r);
    assert ComesFrom(qs, r);
    var q :| q in qs && r in RecordsOf(q.receipt, q.now);
    RecordsMeaning(q, r);
  }

  lemma PersonIsRecorded(rs: seq<Record>, qs: seq<Seen>, messageId: string, onlyRead: bool, j: Jid)
    requires messageId != "" && RecordsComeFrom(rs, qs)
    requires j in Persons(qs, messageId, {Read, ReadSelf, Played} + if onlyRead then {} else {Delivered})
    ensures Key(messageId, Parsed(j)) in Recorded(rs, messageId, if onlyRead then ACK_READ else ACK_DELIVERED)
  {
    var q :| q in qs && q.receipt.kind in {Read, ReadSelf, Played} + (if onlyRead then {} else {Delivered})
             && messageId in q.receipt.messageIds && q.receipt.sender.server != Other("")
             && j == Jid(q.receipt.sender.user, 0, q.receipt.sender.server);
    var r := Record(messageId, Parsed(j), if q.receipt.kind.Delivered? then 2 else 3, q.now);
    RecordsMeaning(q, r);
    assert ComesFrom(qs, r);
    assert r in rs && KeyOf(r) == Key(messageId, Parsed(j));
  }

  /** The viewers of a message that the records themselves give, at a level. */
  function Recorded(rs: seq<Record>, messageId: string, level: int): set<Key> {
    set r | r in rs && r.messageId == messageId && r.ack >= level :: KeyOf(r)
  }

  lemma TableShowsRecorded(batches: seq<seq<Record>>, messageId: string, level: int)
    requires forall r | r in Flatten(batches) :: Countable(r)
    ensures Viewers(WriteBatches(map[], batches), messageId, level) == Recorded(Flatten(batches), messageId, level)
  {
    hide WriteBatches, Peak;
    var t, rs := WriteBatches(map[], batches), Flatten(batches);
    forall k ensures k in Viewers(t, messageId, level) <==> k in Recorded(rs, messageId, level) {
      BatchesArePointwiseMax(map[], batches, k);
      PeakMeaning(rs, k, Ack);
      if k in Viewers(t, messageId, level) {
        var r :| Says(rs, k, r) && r.ack == t[k].ack;
        assert k == KeyOf(r);
      }
      if k in Recorded(rs, messageId, level) {
        var r :| r in rs && r.messageId == messageId && r.ack >= level && k == KeyOf(r);
        assert Says(rs, k, r);
      }
    }
  }

  /**
   From an empty table, when no write fails and no prune tick finds anything to delete: once the
   writer is done, the viewers in the table at any level are exactly those recorded before drain
   found the queue empty, each a person without device; that is every record ever enqueued when
   none came later, and at least every record enqueued before stopping closed.
   */
  lemma EndToEnd(actions: seq<Action>, messageId: string, level: int)
    requires Lossless(actions) && OnlyReceipts(actions)
    requires Run(Start(map[]), actions).phase.Done?
    ensures var s := Run(Start(map[]), actions);
            && s.enqueuedAtStop <= |s.enqueued|
            && Viewers(s.table, messageId, level) == Recorded(Flatten(s.flushes), messageId, level)
            && (forall k | k in Viewers(s.table, messageId, level) ::
                  k.participant.Parsed? && k.participant.jid.device == 0)
            && Recorded(s.enqueued[..s.enqueuedAtStop], messageId, level) <= Viewers(s.table, messageId, level)
            && (s.enqueuedAtStop == |s.enqueued| || s.queue == [] ==>
                  Viewers(s.table, messageId, level) == Recorded(s.enqueued, messageId, level))
    ensures forall n: nat | IsCutoff(map[], actions, n) ::
              Viewers(Run(Start(map[]), actions).table, messageId, level)
              == Recorded(Run(Start(map[]), actions[..n]).enqueued, messageId, level)
  {
    hide Run, Flatten, Recorded, Viewers, WriteBatches, Lossless, OnlyReceipts;
    var s := Run(Start(map[]), actions);
    ShutdownFlushesEverything(map[], actions);
    EverythingFlushedIff(map[], actions);
    LosslessTable(actions);
    EnqueuedComesFromReceipts(actions);
    assert s.queue == [] ==> Flatten(s.flushes) == s.enqueued by {
      assert Flatten(s.flushes) + [] == Flatten(s.flushes);
    }
    assert forall r | r in Flatten(s.flushes) :: r in s.enqueued;
    TableShowsRecorded(s.flushes, messageId, level);
    RecordedIsNamed(Flatten(s.flushes), s.enqueued, s.enqueuedAtStop, messageId, level);
  }

  /** No receipt speaks of the empty message, for which the summary is all zeros. */
  lemma NobodyRecorded(rs: seq<Record>, level: int)
    requires forall r | r in rs :: FromReceipt(r)
    ensures Recorded(rs, "", level) == {}
  {
  }

  lemma RecordedIsNamed(flushed: seq<Record>, enqueued: seq<Record>, n: nat, messageId: string, level: int)
    requires n <= |enqueued| && enqueued[..n] <= flushed <= enqueued && forall r | r in enqueued :: FromReceipt(r)
    ensures Recorded(enqueued[..n], messageId, level) <= Recorded(flushed, messageId, level)
    ensures forall k | k in Recorded(flushed, messageId, level) ::
              k.participant.Parsed? && k.participant.jid.device == 0
  {
    assert forall r | r in enqueued[..n] :: r in flushed;
    assert forall r | r in flushed :: r in enqueued;
  }

  lemma RunNothing(s: State)
    ensures Run(s, []) == s
  {
  }

  lemma RunOne(s: State, a: Action)
    ensures Run(s, [a]) == Apply(s, a)
  {
    RunNothing(s);
    RunSnoc(s, [], a);
    assert [] + [a] == [a];
  }

  lemma BatchIsShort(s: State)
    requires Inv(s)
    ensures |s.batch| < FLUSH_SIZE
  {
  }

  /** One record of the drain loop. */
  lemma DrainStep(start: State, trace: seq<Action>, before: State, ok: bool)
    requires Inv(before) && before == Run(start, trace) && before.phase.Draining? && before.queue != []
    ensures var after := Taken(before, ok);
            && Inv(after) && after == Run(start, trace + [DrainReceive(ok)])
            && after.phase.Draining? && after.enqueued == before.enqueued && |after.queue| == |before.queue| - 1
  {
    hide Flatten, Write, Run, Inv, Flushed;
    DrainTakes(before, ok);
    StepKeepsInv(before, DrainReceive(ok));
    RunSnoc(start, trace, DrainReceive(ok));
  }

  lemma OneStep(start: State, trace: seq<Action>, before: State, a: Action)
    requires Inv(before) && before == Run(start, trace)
    ensures Inv(Apply(before, a)) && Apply(before, a) == Run(start, trace + [a])
  {
    hide Inv, Apply;
    StepKeepsInv(before, a);
    RunSnoc(start, trace, a);
  }

  /** What the writer itself does in a run, as opposed to the producers. */
  function WriterSteps(actions: seq<Action>): seq<Action> {
    if actions == [] then []
    else
      var rest, last := WriterSteps(actions[..|actions| - 1]), actions[|actions| - 1];
      if last.Offer? || last.Stop? then rest else rest + [last]
  }

  lemma WriterStepsSnoc(actions: seq<Action>, a: Action)
    ensures WriterSteps(actions + [a]) == WriterSteps(actions) + if a.Offer? || a.Stop? then [] else [a]
  {
    assert (actions + [a])[..|actions|] == actions;
  }

  function Offers(rs: seq<Record>): seq<Action> {
    seq(|rs|, i requires 0 <= i < |rs| => Offer(rs[i]))
  }

  lemma {:induction false} OffersAreNotWriterSteps(actions: seq<Action>, rs: seq<Record>)
    ensures WriterSteps(actions + Offers(rs)) == WriterSteps(actions)
  {
    if rs == [] {
      assert actions + Offers(rs) == actions;
    } else {
      var init, last := rs[..|rs| - 1], rs[|rs| - 1];
      OffersAreNotWriterSteps(actions, init);
      WriterStepsSnoc(actions + Offers(init), Offer(last));
      assert actions + Offers(rs) == actions + Offers(init) + [Offer(last)];
    }
  }

  lemma {:induction false} OffersKeepPhase(s: State, rs: seq<Record>)
    ensures var t := Run(s, Offers(rs));
            t.phase == s.phase && t.batch == s.batch && |t.queue| >= |s.queue|
  {
    if rs != [] {
      var init, last := rs[..|rs| - 1], rs[|rs| - 1];
      OffersKeepPhase(s, init);
      assert Offers(rs)[..|rs| - 1] == Offers(init);
    }
  }

  function Receives(works: nat -> bool, n: nat): seq<Action> {
    seq(n, i requires 0 <= i < n => DrainReceive(works(i)))
  }

  lemma NoReceiveYet(works: nat -> bool)
    ensures WriterSteps([]) == Receives(works, 0)
  {
  }

  lemma OneReceiveMore(trace: seq<Action>, works: nat -> bool, n: nat)
    requires WriterSteps(trace) == Receives(works, n)
    ensures WriterSteps(trace + [DrainReceive(works(n))]) == Receives(works, n + 1)
  {
    hide WriterSteps;
    WriterStepsSnoc(trace, DrainReceive(works(n)));
    assert Receives(works, n + 1) == Receives(works, n) + [DrainReceive(works(n))];
  }

  lemma FindEmpty(start: State, trace: seq<Action>, s: State)
    requires Inv(s) && s == Run(start, trace) && s.phase.Draining? && s.queue == []
    ensures Enabled(s, DrainEmpty) && s.(phase := Closing) == Apply(s, DrainEmpty) == Run(start, trace + [DrainEmpty])
    ensures Inv(Apply(s, DrainEmpty)) && WriterSteps(trace + [DrainEmpty]) == WriterSteps(trace) + [DrainEmpty]
  {
    hide Run, Inv, WriterSteps;
    OneStep(start, trace, s, DrainEmpty);
    WriterStepsSnoc(trace, DrainEmpty);
  }

  lemma LastFlushMeaning(s: State, ok: bool)
    requires s.phase.Closing?
    ensures Apply(s, LastFlush(ok)) == Flushed(s, ok).(phase := Done)
  {
  }

  lemma FlushLast(start: State, trace: seq<Action>, s: State, ok: bool)
    requires Inv(s) && s == Run(start, trace) && s.phase.Closing?
    ensures Flushed(s, ok).(phase := Done) == Apply(s, LastFlush(ok)) == Run(start, trace + [LastFlush(ok)])
    ensures Inv(Apply(s, LastFlush(ok))) && WriterSteps(trace + [LastFlush(ok)]) == WriterSteps(trace) + [LastFlush(ok)]
  {
    hide Run, Inv, Flushed, Apply, WriterSteps;
    OneStep(start, trace, s, LastFlush(ok));
    WriterStepsSnoc(trace, LastFlush(ok));
    LastFlushMeaning(s, ok);
  }

  /** Offers that arrive once the queue was found empty stay in the queue; the last flush hands over the rest. */
  lemma DrainEnds(found: State, late: seq<Record>, ok: bool)
    requires Inv(found) && Enabled(found, DrainEmpty)
    ensures var closing := Run(Apply(found, DrainEmpty), Offers(late));
            closing.phase.Closing? && |closing.batch| < FLUSH_SIZE
    ensures var done := Apply(Run(Apply(found, DrainEmpty), Offers(late)), LastFlush(ok));
            && done.phase.Done? && Flatten(done.flushes) == found.enqueued
            && done.enqueued == found.enqueued + done.queue && (done.queue == [] <==> late == [])
  {
    hide Run, Flatten, Write;
    var closing := Run(Apply(found, DrainEmpty), Offers(late));
    OffersKeepPhase(Apply(found, DrainEmpty), late);
    ClosedRun(Apply(found, DrainEmpty), Offers(late));
    ClosedStep(closing, LastFlush(ok));
    assert late != [] ==> Offers(late)[0].Offer? && Offers(late)[0] in Offers(late);
    assert found.enqueued == Flatten(found.flushes) + found.batch + [];
    var done := Apply(closing, LastFlush(ok));
    assert Flatten(done.flushes) + [] == Flatten(done.flushes);
  }

  lemma DrainTakes(s: State, ok: bool)
    requires s.queue != []
    ensures var t := Taken(s, ok);
            t.phase == s.phase && t.enqueued == s.enqueued && |t.queue| == |s.queue| - 1
  {
    hide Write;
  }

  lemma DoneIsFlushed(s: State)
    requires Inv(s) && s.phase.Done?
    ensures s.enqueued == Flatten(s.flushes) + s.queue
    ensures s.queue == [] ==> Flatten(s.flushes) == s.enqueued
  {
    hide Flatten;
    assert Flatten(s.flushes) + [] == Flatten(s.flushes);
  }

  // ---------------------------------------------------------------- the writer

  /** The cases of the select in run. */
  datatype SelectCase = OnRecord | OnFlushTick | OnPruneTick | OnStopping

  /** Equal but for the histories, which no step looks at. */
  ghost predicate SameButHistory(s: State, t: State) {
    && s.queue == t.queue && s.stopping == t.stopping && s.phase == t.phase
    && s.batch == t.batch && s.table == t.table
  }

  lemma HistoryIsNoInput(s: State, t: State, a: Action)
    requires SameButHistory(s, t)
    ensures SameButHistory(Apply(s, a), Apply(t, a))
  {
    hide Write, Deleted;
  }

  /** The run of a producer: before the n-th of its records others take the steps `meanwhile(n)`. */
  function Woven(meanwhile: nat -> seq<Action>, rs: seq<Record>, n: nat): seq<Action>
    requires n <= |rs|
  {
    if n == 0 then [] else Woven(meanwhile, rs, n - 1) + meanwhile(n - 1) + [Offer(rs[n - 1])]
  }

  /** There is room, and the select does not take a closed stopping instead. */
  predicate Goes(s: State, givesUp: nat -> bool, n: nat) {
    |s.queue| < QUEUE_SIZE && !(s.stopping && givesUp(n))
  }

  /** Whether the select for the `n`-th record sends it. */
  ghost predicate GoesAt(start: State, meanwhile: nat -> seq<Action>, rs: seq<Record>, givesUp: nat -> bool, n: nat)
    requires n <= |rs|
  {
    var s := Run(start, Woven(meanwhile, rs, n) + meanwhile(n));
    |s.queue| < 100_000 && !(s.stopping && givesUp(n))
  }

  /** Where the producer stands before its select for the `n`-th record. */
  ghost predicate Sends(start: State, meanwhile: nat -> seq<Action>, rs: seq<Record>, givesUp: nat -> bool, n: nat,
                        s: State)
    requires n <= |rs|
  {
    s == Run(start, Woven(meanwhile, rs, n)) && forall i | 0 <= i < n :: GoesAt(start, meanwhile, rs, givesUp, i)
  }

  lemma SendsNone(start: State, meanwhile: nat -> seq<Action>, rs: seq<Record>, givesUp: nat -> bool)
    ensures Sends(start, meanwhile, rs, givesUp, 0, start)
  {
  }

  lemma SendsOne(start: State, meanwhile: nat -> seq<Action>, rs: seq<Record>, givesUp: nat -> bool, n: nat, s: State)
    requires n < |rs| && Sends(start, meanwhile, rs, givesUp, n, s)
    ensures Run(start, Woven(meanwhile, rs, n) + meanwhile(n)) == Run(s, meanwhile(n))
    ensures Goes(Run(s, meanwhile(n)), givesUp, n) ==>
              Sends(start, meanwhile, rs, givesUp, n + 1, Apply(Run(s, meanwhile(n)), Offer(rs[n])))
  {
    hide Run, Apply;
    RunConcat(start, Woven(meanwhile, rs, n), meanwhile(n));
    RunSnoc(start, Woven(meanwhile, rs, n) + meanwhile(n), Offer(rs[n]));
  }

  lemma SendsMeaning(start: State, meanwhile: nat -> seq<Action>, rs: seq<Record>, givesUp: nat -> bool, n: nat,
                     s: State)
    requires n <= |rs| && Sends(start, meanwhile, rs, givesUp, n, s)
    ensures s == Run(start, Woven(meanwhile, rs, n) + [])
    ensures forall i | 0 <= i < n :: GoesAt(start, meanwhile, rs, givesUp, i)
  {
    assert Woven(meanwhile, rs, n) + [] == Woven(meanwhile, rs, n);
  }

  lemma StopsShort(start: State, meanwhile: nat -> seq<Action>, rs: seq<Record>, givesUp: nat -> bool, n: nat, s: State)
    requires n < |rs| && Sends(start, meanwhile, rs, givesUp, n, s) && !Goes(Run(s, meanwhile(n)), givesUp, n)
    ensures Run(s, meanwhile(n)) == Run(start, Woven(meanwhile, rs, n) + meanwhile(n))
    ensures !GoesAt(start, meanwhile, rs, givesUp, n) && forall i | 0 <= i < n ::
              GoesAt(start, meanwhile, rs, givesUp, i)
  {
    RunConcat(start, Woven(meanwhile, rs, n), meanwhile(n));
  }

  lemma OfferMeaning(s: State, r: Record)
    requires |s.queue| < QUEUE_SIZE
    ensures Apply(s, Offer(r)) == s.(queue := s.queue + [r], enqueued := s.enqueued + [r])
  {
  }

  /** Once done is closed, what was enqueued when stopping closed has been handed over. */
  lemma StopPromise(before: State, done: State)
    requires Inv(before) && Inv(done) && done.phase.Done? && before.enqueued <= done.enqueued
    requires done.enqueuedAtStop == if before.stopping then before.enqueuedAtStop else |before.enqueued|
    ensures (if before.stopping then before.enqueued[..before.enqueuedAtStop] else before.enqueued)
              <= Flatten(done.flushes)
  {
    hide Flatten;
    var f := Flatten(done.flushes);
    assert f + done.batch == f && f <= done.enqueued;
    assert before.enqueued == done.enqueued[..|before.enqueued|];
  }

  class StatusAckWriter {
    const store: SqlStatusAckStore
    var queue: seq<Record>
    var stopping: bool
    var phase: Phase
    var batch: seq<Record>
    var selfViewsCleaned: bool
    ghost var enqueued: seq<Record>
    ghost var flushes: seq<seq<Record>>
    ghost var enqueuedAtStop: nat

    ghost function View(): State
      reads this, store
    {
      State(queue, stopping, phase, batch, store.rows, enqueued, flushes, enqueuedAtStop)
    }

    constructor (store: SqlStatusAckStore)
      ensures this.store == store && View() == Start(store.rows) && !selfViewsCleaned
    {
      this.store := store;
      queue, stopping, phase, batch := [], false, Selecting, [];
      selfViewsCleaned := false;
      enqueued, flushes, enqueuedAtStop := [], [], 0;
    }

    /** What other goroutines do before the next step of this one. */
    method Elsewhere(actions: seq<Action>)
      requires Inv(View())
      modifies `queue, `stopping, `phase, `batch, `enqueued, `flushes, `enqueuedAtStop, store`rows
      ensures View() == Run(old(View()), actions) && Inv(View())
    {
      hide Run, Inv, Apply;
      RunNothing(View());
      for i := 0 to |actions|
        invariant View() == Run(old(View()), actions[..i]) && Inv(View())
      {
        var s := State(queue, stopping, phase, batch, store.rows, [], [], 0);
        ghost var before := View();
        HistoryIsNoInput(s, before, actions[i]);
        OneStep(old(View()), actions[..i], before, actions[i]);
        assert actions[..i + 1] == actions[..i] + [actions[i]];
        ghost var after := Apply(before, actions[i]);
        enqueued, flushes, enqueuedAtStop := after.enqueued, after.flushes, after.enqueuedAtStop;
        s := Apply(s, actions[i]);
        queue, stopping, phase, batch, store.rows := s.queue, s.stopping, s.phase, s.batch, s.table;
      }
      assert actions[..|actions|] == actions;
    }

    /**
     Record queues the records of one receipt, with any steps of others before each of its selects,
     until one finds the queue full (the producer then blocks) or takes a closed stopping: with room
     left and stopping closed, `givesUp` says which of the two ready cases it takes.
     */
    method Record(receipt: Receipt, now: int, givesUp: nat -> bool, meanwhile: nat -> seq<Action>) returns (sent: nat)
      requires Inv(View())
      modifies `queue, `stopping, `phase, `batch, `enqueued, `flushes, `enqueuedAtStop, store`rows
      ensures Inv(View()) && sent <= |RecordsOf(receipt, now)|
      ensures forall n | 0 <= n < sent :: GoesAt(old(View()), meanwhile, RecordsOf(receipt, now), givesUp, n)
      ensures sent < |RecordsOf(receipt, now)| ==>
                !GoesAt(old(View()), meanwhile, RecordsOf(receipt, now), givesUp, sent)
      ensures View() == Run(old(View()), Woven(meanwhile, RecordsOf(receipt, now), sent)
                                         + if sent < |RecordsOf(receipt, now)| then meanwhile(sent) else [])
    {
      hide RecordsFor, Run, Inv, Apply, Sends, GoesAt, Woven;
      sent := 0;
      var ack := StatusAckLevel(receipt.kind);
      ghost var all := RecordsOf(receipt, now);
      SendsNone(View(), meanwhile, all, givesUp);
      if ack == 0 || IsEmptyJid(receipt.sender) {
        SendsMeaning(View(), meanwhile, all, givesUp, 0, View());
        return 0;
      }
      var participant := Parsed(NonAD(receipt.sender));
      var ids := receipt.messageIds;
      RecordsStart(receipt, ids, now);
      for i := 0 to |ids|
        invariant Inv(View()) && |RecordsFor(receipt, ids[..i], now)| == sent <= |all|
        invariant Sends(old(View()), meanwhile, all, givesUp, sent, View())
      {
        RecordsNext(receipt, ids, i, now);
        if ids[i] == "" {
          continue;
        }
        var record := StatusAcks.Record(ids[i], participant, ack, now);
        SendsOne(old(View()), meanwhile, all, givesUp, sent, View());
        ghost var before := View();
        Elsewhere(meanwhile(sent));
        if |queue| >= QUEUE_SIZE || (stopping && givesUp(sent)) {
          StopsShort(old(View()), meanwhile, all, givesUp, sent, before);
          return sent;
        }
        StepKeepsInv(View(), Offer(record));
        OfferMeaning(View(), record);
        queue := queue + [record];
        enqueued := enqueued + [record];
        sent := sent + 1;
      }
      assert ids[..|ids|] == ids;
      SendsMeaning(old(View()), meanwhile, all, givesUp, sent, View());
    }

    /**
     Stop closes stopping, whoever calls it again, and returns once done is closed: `meanwhile` is
     what the others do until then. What was enqueued before stopping closed has been flushed.
     */
    method Stop(meanwhile: seq<Action>) returns (returned: bool)
      requires Inv(View())
      modifies `queue, `stopping, `phase, `batch, `enqueued, `flushes, `enqueuedAtStop, store`rows
      ensures View() == Run(old(View()), [Action.Stop] + meanwhile) && Inv(View())
      ensures returned <==> phase.Done?
      ensures returned ==> enqueued == Flatten(flushes) + queue
      ensures returned ==>
                (if old(stopping) then old(enqueued)[..old(enqueuedAtStop)] else old(enqueued)) <= Flatten(flushes)
    {
      hide Run, Inv, Flatten;
      ghost var before := View();
      StepKeepsInv(before, Action.Stop);
      if !stopping {
        stopping := true;
        enqueuedAtStop := |enqueued|;
      }
      assert View() == Apply(before, Action.Stop);
      RunOne(before, Action.Stop);
      RunConcat(before, [Action.Stop], meanwhile);
      RunKeepsInv(View(), meanwhile);
      ghost var stopped := View();
      Elsewhere(meanwhile);
      returned := phase == Done;
      if returned {
        DoneIsFlushed(View());
        StopPromise(before, View());
      }
    }

    /** flush commits the batch; a failed write is logged and its batch is gone. */
    method Flush(works: bool)
      requires |batch| <= FLUSH_SIZE
      modifies `batch, `flushes, store`rows, store`statements
      ensures View() == Flushed(old(View()), works)
    {
      if batch == [] {
        return;
      }
      hide Dedupe, UpsertAll, AllWork, FirstFailure, AreChunks;
      ghost var before := store.rows;
      var outcome := (n: nat) => works;
      var done, written, sent := store.UpsertStatusAcks(batch, outcome);
      OneStatement(before, batch, outcome, done, written, |sent|);
      flushes := flushes + [batch];
      batch := [];
    }

    method Take(works: bool)
      requires queue != [] && |batch| < FLUSH_SIZE
      modifies `queue, `batch, `flushes, store`rows, store`statements
      ensures View() == Taken(old(View()), works)
    {
      batch := batch + [queue[0]];
      queue := queue[1..];
      if |batch| >= FLUSH_SIZE {
        Flush(works);
      }
    }

    predicate Ready(choice: SelectCase)
      reads this
    {
      match choice
      case OnRecord => queue != []
      case OnFlushTick => true
      case OnPruneTick => true
      case OnStopping => stopping
    }

    /**
     One turn of the loop in run, taking one of the ready cases. `works`, `pruneWorks` and
     `cleanWorks` say which statements go through, `now` and `ownUsers` stand for the clock and
     the session's own user parts.
     */
    method Turn(choice: SelectCase, works: bool, pruneWorks: bool, cleanWorks: bool, counted: bool,
                now: int, retention: int, ownUsers: set<string>) returns (ghost action: Action)
      requires Inv(View()) && phase.Selecting? && Ready(choice)
      modifies `queue, `batch, `phase, `flushes, `selfViewsCleaned, store`rows, store`statements
      ensures Enabled(old(View()), action) && View() == Apply(old(View()), action) && Inv(View())
      ensures choice.OnRecord? ==> action == Receive(works)
      ensures choice.OnFlushTick? ==> action == FlushTick(works)
      ensures choice.OnPruneTick? ==>
                action == PruneTick(works, if pruneWorks then Some(now - retention) else None,
                                    if cleanWorks && !old(selfViewsCleaned) then Some(ownUsers) else None)
      ensures choice.OnPruneTick? ==>
                selfViewsCleaned == (old(selfViewsCleaned)
                                     || (ownUsers != {} && ((cleanWorks && counted) || ownUsers == {""})))
      ensures choice.OnStopping? ==> action == SeeStop
      ensures !choice.OnPruneTick? ==> selfViewsCleaned == old(selfViewsCleaned)
    {
      hide Inv, Flushed, Taken, Flatten, Write, Run, NotBefore, WithoutSelf;
      ghost var before := View();
      BatchIsShort(before);
      match choice {
        case OnRecord =>
          Take(works);
          action := Receive(works);
        case OnFlushTick =>
          Flush(works);
          action := FlushTick(works);
        case OnPruneTick =>
          Flush(works);
          Prune(now - retention, pruneWorks);
          DeleteSelfViews(ownUsers, cleanWorks, counted);
          action := PruneTick(works, if pruneWorks then Some(now - retention) else None,
                              if cleanWorks && !old(selfViewsCleaned) then Some(ownUsers) else None);
        case OnStopping =>
          phase := Draining;
          action := SeeStop;
      }
      StepKeepsInv(before, action);
    }

    /**
     drain, while `arrivals[i]` is offered before its i-th select and `late` once it has found the
     queue empty. `works(i)` is whether a write after the i-th record goes through. All that was
     enqueued when the queue was found empty has been handed over, and nothing after.
     */
    method Drain(works: nat -> bool, arrivals: seq<seq<Record>>, late: seq<Record>)
      returns (ghost trace: seq<Action>, ghost taken: nat)
      requires Inv(View()) && phase.Draining?
      modifies `queue, `stopping, `batch, `phase, `enqueued, `flushes, `enqueuedAtStop, store`rows, store`statements
      ensures View() == Run(old(View()), trace) && Inv(View()) && phase.Done?
      ensures WriterSteps(trace) == Receives(works, taken) + [DrainEmpty, LastFlush(works(taken))]
      ensures old(enqueued) <= Flatten(flushes) <= enqueued && enqueued == Flatten(flushes) + queue
      ensures queue == [] <==> late == []
    {
      hide Flatten, Write, Deleted, Run, Inv, Flushed, Taken, Apply, WriterSteps, Offers;
      ghost var start := View();
      RunNothing(start);
      trace := [];
      var i := 0;
      NoReceiveYet(works);
      while true
        invariant Inv(View()) && phase.Draining?
        invariant View() == Run(start, trace) && WriterSteps(trace) == Receives(works, i)
        decreases if i < |arrivals| then |arrivals| - i else 0, |queue|
      {
        if i < |arrivals| {
          trace := Arrive(arrivals[i], start, trace);
        }
        if queue == [] {
          break;
        }
        ghost var before := View();
        BatchIsShort(before);
        Take(works(i));
        DrainStep(start, trace, before, works(i));
        OneReceiveMore(trace, works, i);
        trace := trace + [DrainReceive(works(i))];
        i := i + 1;
      }
      taken := i;
      RunKeepsInv(start, trace);
      ghost var found := View();
      FindEmpty(start, trace, found);
      DrainEnds(found, late, works(i));
      phase := Closing;
      trace := trace + [DrainEmpty];
      trace := Arrive(late, start, trace);
      FlushLast(start, trace, View(), works(i));
      Flush(works(i));
      phase := Done;
      trace := trace + [LastFlush(works(i))];
    }

    /** Other goroutines offer some records. */
    method Arrive(rs: seq<Record>, ghost start: State, ghost trace: seq<Action>) returns (ghost longer: seq<Action>)
      requires Inv(View()) && View() == Run(start, trace)
      modifies `queue, `stopping, `phase, `batch, `enqueued, `flushes, `enqueuedAtStop, store`rows
      ensures Inv(View()) && View() == Run(start, longer) == Run(old(View()), Offers(rs))
      ensures WriterSteps(longer) == WriterSteps(trace) && phase == old(phase)
    {
      hide Inv, Run, Offers, WriterSteps;
      OffersKeepPhase(View(), rs);
      RunConcat(start, trace, Offers(rs));
      OffersAreNotWriterSteps(trace, rs);
      Elsewhere(Offers(rs));
      longer := trace + Offers(rs);
    }

    method Prune(cutoff: int, works: bool)
      modifies store`rows
      ensures store.rows == if works then NotBefore(old(store.rows), cutoff) else old(store.rows)
    {
      var deleted := store.DeleteBefore(cutoff, works);
    }

    /** Runs until it has succeeded once for a paired session. */
    method DeleteSelfViews(ownUsers: set<string>, works: bool, counted: bool)
      modifies `selfViewsCleaned, store`rows
      ensures store.rows == if works && !old(selfViewsCleaned)
                            then WithoutSelf(old(store.rows), ownUsers) else old(store.rows)
      ensures selfViewsCleaned == (old(selfViewsCleaned)
                                   || (ownUsers != {} && ((works && counted) || ownUsers == {""})))
    {
      if selfViewsCleaned || ownUsers == {} {
        return;
      }
      var deleted := store.DeleteSelfViews(ownUsers, works, counted);
      if deleted {
        selfViewsCleaned := true;
      }
    }
  }

  /**
   GetSummary once done is closed, in counting mode. Without failures or effective deletions its two
   numbers are those of the distinct viewers recorded before drain found the queue empty, which is
   everybody ever recorded when nothing was offered later. When the records accepted until then are
   those of some receipts, `received` counts the persons whom a delivery, read or play receipt names
   with the message, and `read` those whom a read or play receipt does.
   */
  method SummaryAfterShutdown(writer: StatusAckWriter, messageId: string, ghost actions: seq<Action>,
                              ghost qs: seq<Seen>)
    returns (summary: Summary)
    requires Lossless(actions) && OnlyReceipts(actions)
    requires writer.View() == Run(Start(map[]), actions) && writer.phase.Done?
    ensures forall n: nat | IsCutoff(map[], actions, n) ::
              var recorded := Run(Start(map[]), actions[..n]).enqueued;
              && summary.received == |Recorded(recorded, messageId, ACK_DELIVERED)|
              && summary.read == |Recorded(recorded, messageId, ACK_READ)|
    ensures writer.queue == [] ==>
              && summary.received == |Recorded(writer.enqueued, messageId, ACK_DELIVERED)|
              && summary.read == |Recorded(writer.enqueued, messageId, ACK_READ)|
    ensures forall n: nat | IsCutoff(map[], actions, n) && OfferedFrom(actions, n, qs) && messageId != "" ::
              && summary.received == |Persons(qs, messageId, {Delivered, Read, ReadSelf, Played})|
              && summary.read == |Persons(qs, messageId, {Read, ReadSelf, Played})|
  {
    hide Run, Recorded, Lossless, OnlyReceipts, FromReceipt, IsCutoff, OfferedFrom, Persons;
    summary := writer.store.CountSummary(messageId);
    EndToEnd(actions, messageId, ACK_DELIVERED);
    EndToEnd(actions, messageId, ACK_READ);
    if messageId == "" {
      NobodyRecordedAtAll(actions, ACK_DELIVERED);
      NobodyRecordedAtAll(actions, ACK_READ);
    }
    forall n: nat | IsCutoff(map[], actions, n) && OfferedFrom(actions, n, qs) && messageId != ""
      ensures summary.received == |Persons(qs, messageId, {Delivered, Read, ReadSelf, Played})|
      ensures summary.read == |Persons(qs, messageId, {Read, ReadSelf, Played})|
    {
      CutoffIsInside(actions, n);
      OfferedAreEnqueued(actions, n, qs);
      RecordedPersons(Run(Start(map[]), actions[..n]).enqueued, qs, messageId, false);
      RecordedPersons(Run(Start(map[]), actions[..n]).enqueued, qs, messageId, true);
      assert {Read, ReadSelf, Played} + {Delivered} == {Delivered, Read, ReadSelf, Played};
      assert {Read, ReadSelf, Played} + {} == {Read, ReadSelf, Played};
    }
  }

  lemma CutoffIsInside(actions: seq<Action>, n: nat)
    requires IsCutoff(map[], actions, n)
    ensures n < |actions|
  {
  }

  lemma OfferedAreEnqueued(actions: seq<Action>, n: nat, qs: seq<Seen>)
    requires n <= |actions| && OfferedFrom(actions, n, qs)
    ensures RecordsComeFrom(Run(Start(map[]), actions[..n]).enqueued, qs)
  {
    hide Run;
    forall r ensures r in Run(Start(map[]), actions[..n]).enqueued <==> AcceptsBefore(actions, n, r) {
      EnqueuedIsAccepted(actions[..n], r);
      forall i: nat ensures AcceptsAt(actions[..n], i, r) <==> i < n && AcceptsAt(actions, i, r) {
        assert i < n ==> actions[..n][..i] == actions[..i];
      }
    }
  }

  lemma NobodyRecordedAtAll(actions: seq<Action>, level: int)
    requires OnlyReceipts(actions)
    ensures Recorded(Run(Start(map[]), actions).enqueued, "", level) == {}
    ensures forall n: nat | IsCutoff(map[], actions, n) ::
              Recorded(Run(Start(map[]), actions[..n]).enqueued, "", level) == {}
  {
    hide Run;
    EnqueuedComesFromReceipts(actions);
    NobodyRecorded(Run(Start(map[]), actions).enqueued, level);
    forall n: nat | IsCutoff(map[], actions, n)
      ensures Recorded(Run(Start(map[]), actions[..n]).enqueued, "", level) == {}
    {
      assert forall a | a in actions[..n] :: a in actions;
      EnqueuedComesFromReceipts(actions[..n]);
      NobodyRecorded(Run(Start(map[]), actions[..n]).enqueued, level);
    }
  }

  /** A batch fits one statement, so it is written as a whole or not at all. */
  lemma OneStatement(t: Table, rs: seq<Record>, outcome: nat -> bool, ok: bool, written: nat, sent: nat)
    requires |rs| <= FLUSH_SIZE && ok == AllWork(outcome, |Dedupe(rs)|)
    requires if ok then written == |Dedupe(rs)|
             else written == MAX_UPSERT_ROWS * sent < |Dedupe(rs)| && FirstFailure(outcome, sent)
    ensures UpsertAll(t, Dedupe(rs)[..written]) == if outcome(0) then Write(t, rs) else t
  {
    DedupeShrinks(rs);
    if ok {
      assert Dedupe(rs)[..written] == Dedupe(rs);
      assert |Dedupe(rs)| > 0 ==> outcome(0);
    } else {
      assert sent == 0;
    }
  }

  lemma {:induction false} DedupeShrinks(rs: seq<Record>)
    ensures |Dedupe(rs)| <= |rs|
  {
    if rs != [] {
      DedupeShrinks(rs[..|rs| - 1]);
    }
  }

  lemma RecordsStart(receipt: Receipt, ids: seq<string>, now: int)
    ensures RecordsFor(receipt, ids[..0], now) == []
  {}

  lemma RecordsNext(receipt: Receipt, ids: seq<string>, i: nat, now: int)
    requires i < |ids|
    ensures RecordsFor(receipt, ids[..i + 1], now) == RecordsFor(receipt, ids[..i], now)
            + if ids[i] == "" then []
              else [Record(ids[i], Parsed(NonAD(receipt.sender)), StatusAckLevel(receipt.kind), now)]
    ensures RecordsFor(receipt, ids[..i + 1], now) <= RecordsFor(receipt, ids, now)
  {
    assert ids[..i + 1][..i] == ids[..i];
    RecordsGrow(receipt, ids, i + 1, now);
  }

  lemma {:induction false} RecordsGrow(receipt: Receipt, ids: seq<string>, n: nat, now: int)
    requires n <= |ids|
    ensures RecordsFor(receipt, ids[..n], now) <= RecordsFor(receipt, ids, now)
    decreases |ids|
  {
    if n == |ids| {
      assert ids[..n] == ids;
    } else {
      assert ids[..|ids| - 1][..n] == ids[..n];
      RecordsGrow(receipt, ids[..|ids| - 1], n, now);
    }
  }
}
