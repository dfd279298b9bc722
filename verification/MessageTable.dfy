/** The message table: one row per message id, with a guarded upsert. */
module MessageTable {
  import opened Types

  /** `status` is never absent once a message has been stored; 0 stands for an unset one. */
  datatype Message = Message(id: string, chat: Jid, timestamp: int, isReal: bool, status: int, body: string)

  /** The jid column is written on insert only; timestamp, data and is_real follow each upsert. */
  datatype Row = Row(jid: Jid, message: Message)

  type Table = map<string, Row>

  /** A real message gives way to real ones only. */
  predicate MayReplace(row: Row, message: Message) {
    !(row.message.isReal && !message.isReal)
  }

  function Upsert(t: Table, message: Message): Table {
    if message.id !in t then t[message.id := Row(message.chat, message)]
    else if MayReplace(t[message.id], message) then t[message.id := t[message.id].(message := message)]
    else t
  }

  function UpsertAll(t: Table, messages: seq<Message>): Table {
    if messages == [] then t else Upsert(UpsertAll(t, messages[..|messages| - 1]), messages[|messages| - 1])
  }

  ghost predicate WellKeyed(t: Table) {
    forall id | id in t :: t[id].message.id == id
  }

  /** Each row's jid column is the chat of the message it holds. */
  ghost predicate Consistent(t: Table) {
    WellKeyed(t) && forall id | id in t :: t[id].jid == t[id].message.chat
  }

  /**
   An upsert keeps the column and the message in step exactly when it does not move a stored
   message to another chat.
   */
  lemma UpsertKeepsConsistentIff(t: Table, message: Message)
    requires Consistent(t)
    ensures Consistent(Upsert(t, message)) <==>
              (message.id !in t || !MayReplace(t[message.id], message) || t[message.id].jid == message.chat)
  {
    var u := Upsert(t, message);
    assert message.id in u;
    assert forall id | id in u && id != message.id :: u[id] == t[id];
  }

  /** No message of the history changes its chat, and the stored ones keep theirs. */
  ghost predicate StaysPut(t: Table, messages: seq<Message>) {
    && (forall m | m in messages && m.id in t :: m.chat == t[m.id].jid)
    && (forall a, b | a in messages && b in messages && a.id == b.id :: a.chat == b.chat)
  }

  /** Whatever is upserted, while no message moves the columns stay in step. */
  lemma {:induction false} HistoryKeepsConsistent(t: Table, messages: seq<Message>)
    requires Consistent(t) && StaysPut(t, messages)
    ensures Consistent(UpsertAll(t, messages))
    ensures forall id | id in UpsertAll(t, messages) ::
              (id in t && UpsertAll(t, messages)[id].jid == t[id].jid)
              || exists m :: m in messages && m.id == id && m.chat == UpsertAll(t, messages)[id].jid
  {
    if messages != [] {
      var init, last := messages[..|messages| - 1], messages[|messages| - 1];
      assert messages == init + [last];
      HistoryKeepsConsistent(t, init);
      UpsertKeepsConsistentIff(UpsertAll(t, init), last);
    }
  }

  // ---------------------------------------------------------------- real content survives

  function Of(messages: seq<Message>, id: string): seq<Message> {
    if messages == [] then []
    else
      var rest := Of(messages[..|messages| - 1], id);
      if messages[|messages| - 1].id == id then rest + [messages[|messages| - 1]] else rest
  }

  /** The last real message, if any was real, otherwise the last one. */
  ghost predicate IsSurvivor(history: seq<Message>, survivor: Message) {
    if exists m :: m in history && m.isReal
    then exists i :: 0 <= i < |history| && history[i] == survivor && survivor.isReal
                     && forall j | i < j < |history| :: !history[j].isReal
    else history != [] && survivor == history[|history| - 1]
  }

  lemma SurvivorAfter(history: seq<Message>, survivor: Message, m: Message)
    requires IsSurvivor(history, survivor)
    ensures IsSurvivor(history + [m], if survivor.isReal && !m.isReal then survivor else m)
  {
    var longer := history + [m];
    assert longer[|history|] == m && m in longer;
    assert forall x :: x in longer <==> x in history || x == m;
    if m.isReal {
      assert longer[|longer| - 1] == m;
    } else if survivor.isReal {
      var i :| 0 <= i < |history| && history[i] == survivor && forall j | i < j < |history| :: !history[j].isReal;
      assert longer[i] == survivor && forall j | i < j < |longer| :: !longer[j].isReal;
    }
  }

  /**
   Whatever the order of the upserts, the row of an id holds the last real message ever seen for
   it, or the last one when none was real.
   */
  lemma {:induction false} RealContentSurvives(t: Table, messages: seq<Message>, id: string)
    requires WellKeyed(t)
    ensures WellKeyed(UpsertAll(t, messages))
    ensures var history := (if id in t then [t[id].message] else []) + Of(messages, id);
            && (id in UpsertAll(t, messages) <==> history != [])
            && (history != [] ==> IsSurvivor(history, UpsertAll(t, messages)[id].message))
  {
    var first := if id in t then [t[id].message] else [];
    if messages != [] {
      var init, last := messages[..|messages| - 1], messages[|messages| - 1];
      RealContentSurvives(t, init, id);
      var before := first + Of(init, id);
      if last.id == id {
        assert first + Of(messages, id) == before + [last];
        if before == [] {
          assert [last][0] == last;
        } else {
          SurvivorAfter(before, UpsertAll(t, init)[id].message, last);
        }
      }
    }
  }

  // ---------------------------------------------------------------- delivery status

  const STATUS_DELIVERY_ACK := 3
  const STATUS_READ := 4
  const STATUS_PLAYED := 5

  datatype Receipt = Receipt(kind: ReceiptType, messageIds: seq<string>)

  /** The status a receipt raises a message to; the other kinds are ignored. */
  function Level(kind: ReceiptType): Option<int> {
    match kind
    case Delivered => Some(STATUS_DELIVERY_ACK)
    case Read => Some(STATUS_READ)
    case Played => Some(STATUS_PLAYED)
    case _ => None
  }

  /** The highest of `start` and the levels that the receipts name `id` with. */
  function Highest(start: int, receipts: seq<Receipt>, id: string): int {
    if receipts == [] then start
    else
      var rest := Highest(start, receipts[..|receipts| - 1], id);
      var last := receipts[|receipts| - 1];
      if id in last.messageIds && Level(last.kind).Some? then Max(rest, Level(last.kind).value) else rest
  }

  lemma {:induction false} HighestMeaning(start: int, receipts: seq<Receipt>, id: string)
    ensures Highest(start, receipts, id) >= start
    ensures forall r | r in receipts && id in r.messageIds && Level(r.kind).Some? ::
              Level(r.kind).value <= Highest(start, receipts, id)
    ensures Highest(start, receipts, id) == start ||
            exists r :: r in receipts && id in r.messageIds && Level(r.kind) == Some(Highest(start, receipts, id))
  {
    if receipts != [] {
      assert receipts == receipts[..|receipts| - 1] + [receipts[|receipts| - 1]];
      HighestMeaning(start, receipts[..|receipts| - 1], id);
    }
  }

  /** A receipt of this kind names the message. */
  ghost predicate IsNamed(receipts: seq<Receipt>, id: string, kind: ReceiptType) {
    exists r :: r in receipts && r.kind == kind && id in r.messageIds
  }

  /**
   The status after a series of receipts: 5 once played, else 4 once read, else 3 once delivered,
   unless it was higher.
   */
  lemma StatusMeaning(start: int, receipts: seq<Receipt>, id: string)
    ensures Highest(start, receipts, id)
         == Max(start, if IsNamed(receipts, id, Played) then 5
                       else if IsNamed(receipts, id, Read) then 4
                       else if IsNamed(receipts, id, Delivered) then 3
                       else start)
  {
    HighestMeaning(start, receipts, id);
    if IsNamed(receipts, id, Played) {
      var r :| r in receipts && r.kind == Played && id in r.messageIds;
      assert Level(r.kind).value <= Highest(start, receipts, id);
    } else if IsNamed(receipts, id, Read) {
      var r :| r in receipts && r.kind == Read && id in r.messageIds;
      assert Level(r.kind).value <= Highest(start, receipts, id);
    } else if IsNamed(receipts, id, Delivered) {
      var r :| r in receipts && r.kind == Delivered && id in r.messageIds;
      assert Level(r.kind).value <= Highest(start, receipts, id);
    }
    assert forall r | r in receipts && id in r.messageIds :: IsNamed(receipts, id, r.kind);
  }

  /** Same rows and same messages but for the statuses, which are `status` applied to the old ones. */
  ghost predicate OnlyStatus(before: Table, after: Table, receipts: seq<Receipt>) {
    && after.Keys == before.Keys
    && forall id | id in before ::
         after[id] == Row(before[id].jid,
                          before[id].message.(status := Highest(before[id].message.status, receipts, id)))
  }

  class MessageStore {
    var table: Table

    constructor ()
      ensures table == map[]
    {
      table := map[];
    }

    method UpsertOneMessage(message: Message)
      modifies this
      ensures table == Upsert(old(table), message)
    {
      if message.id !in table {
        table := table[message.id := Row(message.chat, message)];
        return;
      }
      var row := table[message.id];
      if !(row.message.isReal && !message.isReal) {
        table := table[message.id := Row(row.jid, message)];
      }
    }

    method DeleteMessage(id: string)
      modifies this
      ensures table == old(table) - {id}
    {
      table := table - {id};
    }

    /** handleReceipt, one at a time and without storage errors: no status falls, nothing else changes. */
    method HandleReceipt(receipt: Receipt)
      requires WellKeyed(table)
      modifies this
      ensures OnlyStatus(old(table), table, [receipt]) && WellKeyed(table)
    {
      var level := Level(receipt.kind);
      assert [receipt][..0] == [];
      if level.None? {
        return;
      }
      var ids := receipt.messageIds;
      for i := 0 to |ids|
        invariant OnlyStatus(old(table), table, [receipt.(messageIds := ids[..i])])
      {
        OneMoreId(receipt, i);
        if ids[i] !in table {
          continue;
        }
        var message := table[ids[i]].message;
        if message.status >= level.value {
          continue;
        }
        UpsertOneMessage(message.(status := level.value));
      }
      assert receipt.(messageIds := ids[..|ids|]) == receipt;
    }

    /** A series of receipts leaves each message at the highest of its first status and all received levels. */
    method HandleReceipts(receipts: seq<Receipt>)
      requires WellKeyed(table)
      modifies this
      ensures OnlyStatus(old(table), table, receipts) && WellKeyed(table)
    {
      for i := 0 to |receipts|
        invariant OnlyStatus(old(table), table, receipts[..i]) && WellKeyed(table)
      {
        ghost var middle := table;
        HandleReceipt(receipts[i]);
        StatusesCompose(old(table), middle, table, receipts[..i], receipts[i]);
        assert receipts[..i + 1] == receipts[..i] + [receipts[i]];
      }
      assert receipts[..|receipts|] == receipts;
    }
  }

  lemma OneMoreId(receipt: Receipt, i: nat)
    requires i < |receipt.messageIds|
    ensures forall start, id :: Highest(start, [receipt.(messageIds := receipt.messageIds[..i + 1])], id)
              == if id == receipt.messageIds[i] && Level(receipt.kind).Some?
                 then Max(Highest(start, [receipt.(messageIds := receipt.messageIds[..i])], id),
                          Level(receipt.kind).value)
                 else Highest(start, [receipt.(messageIds := receipt.messageIds[..i])], id)
  {
    var less, more := receipt.messageIds[..i], receipt.messageIds[..i + 1];
    assert more == less + [receipt.messageIds[i]];
    forall start, id
      ensures Highest(start, [receipt.(messageIds := more)], id)
           == if id == receipt.messageIds[i] && Level(receipt.kind).Some?
              then Max(Highest(start, [receipt.(messageIds := less)], id), Level(receipt.kind).value)
              else Highest(start, [receipt.(messageIds := less)], id)
    {
      HighestOne(start, receipt.(messageIds := more), id);
      HighestOne(start, receipt.(messageIds := less), id);
    }
  }

  lemma HighestOne(start: int, r: Receipt, id: string)
    ensures Highest(start, [r], id)
         == if id in r.messageIds && Level(r.kind).Some? then Max(start, Level(r.kind).value) else start
  {
  }

  lemma StatusesCompose(a: Table, b: Table, c: Table, receipts: seq<Receipt>, last: Receipt)
    requires OnlyStatus(a, b, receipts) && OnlyStatus(b, c, [last])
    ensures OnlyStatus(a, c, receipts + [last])
  {
    assert (receipts + [last])[..|receipts|] == receipts;
    forall id | id in a
      ensures c[id].message == a[id].message.(status := Highest(a[id].message.status, receipts + [last], id))
    {
      HighestOne(b[id].message.status, last, id);
    }
  }
}
