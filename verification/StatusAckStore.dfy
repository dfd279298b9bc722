/**
 The store behind the status-ack table: chunked writes, the viewer summary, the one-time
 merge of per-device rows and the two deletions. Which statements fail is a parameter of each
 method; SQL row order is arbitrary.
 */
module StatusAckStore {
  import opened Types
  import opened StatusAcks

  /** One row of the map from @lid users to phone numbers. */
  datatype LidEntry = LidEntry(lid: string, pn: string)

  /** One row of the left join of a viewer with that map; None is SQL's NULL. */
  datatype JoinedRow = JoinedRow(participant: Participant, ack: int, pn: Option<string>)

  datatype Summary = Summary(messageId: string, received: nat, read: nat,
                             receivedParticipants: seq<Participant>, readParticipants: seq<Participant>)

  // ---------------------------------------------------------------- per-device rows

  /** The participant's text holds a colon. */
  predicate HasDeviceSuffix(p: Participant) {
    match p
    case Parsed(jid) => jid.device > 0
    case Garbled(text) => ':' in text
  }

  /** An address with a device, or a text that is no address and has a colon in it. */
  ghost predicate NamesDevice(p: Participant) {
    match p
    case Parsed(jid) => jid.device != 0
    case Garbled(text) => exists n :: 0 <= n < |text| && text[n] == ':'
  }

  lemma SuffixMeaning(p: Participant)
    ensures HasDeviceSuffix(p) <==> NamesDevice(p)
  {
  }

  /** The viewer a row counts for. */
  function Person(p: Participant): Participant {
    match p
    case Parsed(jid) => Parsed(NonAD(jid))
    case Garbled(_) => p
  }

  /** A device row the merge can rewrite: it parses, and something is left without the device. */
  predicate Mergeable(p: Participant) {
    p.Parsed? && !IsEmptyText(Person(p))
  }

  ghost predicate AllDeviceRowsMergeable(t: Table) {
    forall k | k in t && HasDeviceSuffix(k.participant) :: Mergeable(k.participant)
  }

  /** An address stands for the person without device, any other text for itself. */
  ghost predicate Denotes(p: Participant, person: Participant) {
    match p
    case Parsed(jid) => person == Parsed(Jid(jid.user, 0, jid.server))
    case Garbled(text) => person == Garbled(text)
  }

  lemma PersonIsDenoted()
    ensures forall p, q :: Denotes(p, q) <==> Person(p) == q
    ensures forall p :: Person(Person(p)) == Person(p)
    ensures forall p | !HasDeviceSuffix(p) :: Person(p) == p
  {
    forall p: Participant ensures Person(Person(p)) == Person(p) && (!HasDeviceSuffix(p) ==> Person(p) == p) {
      match p
      case Parsed(jid) => assert jid.(device := 0).(device := 0) == jid.(device := 0);
      case Garbled(_) =>
    }
  }

  ghost predicate SeenAtLeast(t: Table, messageId: string, person: Participant, ack: int) {
    exists k :: k in t && k.messageId == messageId && t[k].ack >= ack
                && Denotes(k.participant, person)
  }

  /** Same persons per message, and the same highest ack for each of them. */
  ghost predicate SameViewers(a: Table, b: Table) {
    forall m, p, ack :: SeenAtLeast(a, m, p, ack) <==> SeenAtLeast(b, m, p, ack)
  }

  function FoldedRecord(k: Key, row: Row): Record
    requires k.participant.Parsed?
  {
    Record(k.messageId, Parsed(NonAD(k.participant.jid)), row.ack, row.updatedAt)
  }

  /** `merged` holds exactly the rewritten form of every parsable row among `keys`. */
  ghost predicate Folds(t: Table, keys: set<Key>, merged: seq<Record>) {
    && keys <= t.Keys
    && (forall k | k in keys && k.participant.Parsed? :: FoldedRecord(k, t[k]) in merged)
    && (forall r | r in merged :: exists k :: k in keys && k.participant.Parsed? && r == FoldedRecord(k, t[k]))
  }

  function DeviceKeys(t: Table): set<Key> {
    set k | k in t && HasDeviceSuffix(k.participant)
  }

  function WithoutDeviceRows(t: Table): Table {
    map k | k in t && !HasDeviceSuffix(k.participant) :: t[k]
  }

  lemma MergedAck(t: Table, merged: seq<Record>, k: Key)
    requires Folds(t, DeviceKeys(t), merged)
    requires !HasDeviceSuffix(k.participant)
    ensures AckAt(WithoutDeviceRows(Write(t, merged)), k) == MaxOption(AckAt(t, k), Peak(merged, k, Ack))
  {
    WriteIsMax(t, merged, k);
  }

  lemma MergeKeepsAcks(t: Table, merged: seq<Record>, m: string, p: Participant, ack: int)
    requires Folds(t, DeviceKeys(t), merged) && TableValid(t) && AllDeviceRowsMergeable(t)
    ensures SeenAtLeast(t, m, p, ack) ==> SeenAtLeast(WithoutDeviceRows(Write(t, merged)), m, p, ack)
  {
    hide Write, Peak;
    PersonIsDenoted();
    if SeenAtLeast(t, m, p, ack) {
      var k :| k in t && k.messageId == m && Person(k.participant) == p && t[k].ack >= ack;
      var target := Key(m, p);
      MergedAck(t, merged, target);
      if HasDeviceSuffix(k.participant) {
        assert k in DeviceKeys(t) && Says(merged, target, FoldedRecord(k, t[k]));
        PeakMeaning(merged, target, Ack);
      }
      assert target in WithoutDeviceRows(Write(t, merged));
    }
  }

  lemma MergeInventsNothing(t: Table, merged: seq<Record>, m: string, p: Participant, ack: int)
    requires Folds(t, DeviceKeys(t), merged)
    ensures SeenAtLeast(WithoutDeviceRows(Write(t, merged)), m, p, ack) ==> SeenAtLeast(t, m, p, ack)
  {
    hide Write, Peak;
    PersonIsDenoted();
    var after := WithoutDeviceRows(Write(t, merged));
    if SeenAtLeast(after, m, p, ack) {
      var k :| k in after && k.messageId == m && Person(k.participant) == p && after[k].ack >= ack;
      MergedAck(t, merged, k);
      if !(k in t && t[k].ack >= ack) {
        PeakMeaning(merged, k, Ack);
        var r :| Says(merged, k, r) && r.ack == Peak(merged, k, Ack).value;
        var d :| d in DeviceKeys(t) && d.participant.Parsed? && r == FoldedRecord(d, t[d]);
        assert d in t && d.messageId == m && Person(d.participant) == p && t[d].ack >= ack;
      }
    }
  }

  /**
   The merge keeps every person of every message with the highest ack exactly when each
   per-device row parses and leaves something behind once the device is dropped. A row that
   does not is skipped by the rewrite and still deleted.
   */
  lemma MergeLosslessIffMergeable(t: Table, merged: seq<Record>)
    requires Folds(t, DeviceKeys(t), merged) && TableValid(t)
    ensures SameViewers(t, WithoutDeviceRows(Write(t, merged))) <==> AllDeviceRowsMergeable(t)
  {
    hide Write, Peak;
    PersonIsDenoted();
    var after := WithoutDeviceRows(Write(t, merged));
    if AllDeviceRowsMergeable(t) {
      forall m, p, ack ensures SeenAtLeast(t, m, p, ack) <==> SeenAtLeast(after, m, p, ack) {
        MergeKeepsAcks(t, merged, m, p, ack);
        MergeInventsNothing(t, merged, m, p, ack);
      }
    } else {
      var k :| k in t && HasDeviceSuffix(k.participant) && !Mergeable(k.participant);
      var p := Person(k.participant);
      assert SeenAtLeast(t, k.messageId, p, t[k].ack);
      if SeenAtLeast(after, k.messageId, p, t[k].ack) {
        var a :| a in after && a.messageId == k.messageId && Person(a.participant) == p && after[a].ack >= t[k].ack;
        MergedAck(t, merged, a);
        WriteKeepsValid(t, merged);
        assert false;
      }
    }
  }

  lemma {:induction false} UpsertAllKeepsValid(t: Table, rs: seq<Record>)
    requires TableValid(t) && forall r | r in rs :: Countable(r)
    ensures TableValid(UpsertAll(t, rs))
  {
    if rs != [] {
      UpsertAllKeepsValid(t, rs[..|rs| - 1]);
      assert rs[|rs| - 1] in rs;
    }
  }

  lemma WriteKeepsValid(t: Table, rs: seq<Record>)
    requires TableValid(t)
    ensures TableValid(Write(t, rs))
  {
    DedupeShape(rs);
    UpsertAllKeepsValid(t, Dedupe(rs));
  }

  // ---------------------------------------------------------------- deletions

  function NotBefore(t: Table, cutoff: int): Table {
    map k | k in t && t[k].updatedAt >= cutoff :: t[k]
  }

  /**
   What pruning costs a later write. The ack comes out as if nothing had been pruned exactly when
   the row was not old, or the new records reach its ack again.
   */
  lemma PruneHidesAckIff(t: Table, cutoff: int, rs: seq<Record>, k: Key)
    ensures AckAt(Write(NotBefore(t, cutoff), rs), k) == AckAt(Write(t, rs), k)
            <==> (k in t && t[k].updatedAt < cutoff ==> Peak(rs, k, Ack).Some? && Peak(rs, k, Ack).value >= t[k].ack)
  {
    hide Write, Peak;
    WriteIsMax(t, rs, k);
    WriteIsMax(NotBefore(t, cutoff), rs, k);
  }

  /** A viewer that is the account itself, under one of its non-empty user parts, on any device. */
  predicate IsSelf(p: Participant, users: set<string>) {
    p.Parsed? && p.jid.user != "" && p.jid.user in users
  }

  function WithoutSelf(t: Table, users: set<string>): Table {
    map k | k in t && !IsSelf(k.participant, users) :: t[k]
  }

  // ---------------------------------------------------------------- summary

  function Viewers(t: Table, messageId: string, level: int): set<Key> {
    set k | k in t && k.messageId == messageId && t[k].ack >= level
  }

  /** The join condition: an @lid viewer whose user part is the map row's lid. */
  predicate Joins(p: Participant, e: LidEntry) {
    p.Parsed? && p.jid.server == Lid && p.jid.device == 0 && p.jid.user != "" && e.lid == p.jid.user
  }

  /** The viewer's address is the @lid of the map row. */
  ghost predicate IsUnder(p: Participant, e: LidEntry) {
    e.lid != "" && p == Parsed(Jid(e.lid, 0, Lid))
  }

  function Matches(p: Participant, lids: seq<LidEntry>): seq<LidEntry> {
    if lids == [] then []
    else
      var rest := Matches(p, lids[..|lids| - 1]);
      if Joins(p, lids[|lids| - 1]) then rest + [lids[|lids| - 1]] else rest
  }

  lemma JoinsUnder(p: Participant, e: LidEntry)
    ensures Joins(p, e) <==> IsUnder(p, e)
  {
    if Joins(p, e) {
      assert p.jid == Jid(e.lid, 0, Lid);
    }
  }

  lemma {:induction false} MatchesMeaning(p: Participant, lids: seq<LidEntry>)
    ensures forall e :: e in Matches(p, lids) <==> e in lids && IsUnder(p, e)
  {
    hide Joins, IsUnder;
    if lids != [] {
      assert lids == lids[..|lids| - 1] + [lids[|lids| - 1]];
      MatchesMeaning(p, lids[..|lids| - 1]);
      JoinsUnder(p, lids[|lids| - 1]);
    }
  }

  /** Which rows of the map have the viewer's address, by position. */
  ghost function RowsUnder(p: Participant, lids: seq<LidEntry>): set<int> {
    set i | 0 <= i < |lids| && IsUnder(p, lids[i])
  }

  lemma RowsUnderSnoc(p: Participant, lids: seq<LidEntry>, e: LidEntry)
    ensures RowsUnder(p, lids + [e]) == RowsUnder(p, lids) + if IsUnder(p, e) then {|lids|} else {}
  {
    hide IsUnder;
  }

  lemma {:induction false} MatchesCount(p: Participant, lids: seq<LidEntry>)
    ensures |Matches(p, lids)| == |RowsUnder(p, lids)|
  {
    hide Joins, IsUnder;
    if lids != [] {
      var init, last := lids[..|lids| - 1], lids[|lids| - 1];
      assert lids == init + [last];
      MatchesCount(p, init);
      JoinsUnder(p, last);
      RowsUnderSnoc(p, init, last);
      assert |init| !in RowsUnder(p, init);
    }
  }

  /** How many rows a left join makes of one viewer. */
  function JoinWidth(p: Participant, lids: seq<LidEntry>): (n: nat)
    ensures n >= 1
  {
    if |Matches(p, lids)| == 0 then 1 else |Matches(p, lids)|
  }

  function TotalWidth(keys: seq<Key>, lids: seq<LidEntry>): nat {
    if keys == [] then 0 else TotalWidth(keys[..|keys| - 1], lids) + JoinWidth(keys[|keys| - 1].participant, lids)
  }

  ghost predicate LidIsKey(lids: seq<LidEntry>) {
    forall i, j | 0 <= i < j < |lids| :: lids[i].lid != lids[j].lid
  }

  lemma {:induction false} TotalWidthExact(keys: seq<Key>, lids: seq<LidEntry>)
    ensures TotalWidth(keys, lids) >= |keys|
    ensures TotalWidth(keys, lids) == |keys| <==> forall k | k in keys :: JoinWidth(k.participant, lids) == 1
  {
    if keys != [] {
      assert keys == keys[..|keys| - 1] + [keys[|keys| - 1]];
      TotalWidthExact(keys[..|keys| - 1], lids);
    }
  }

  /** `keys` lists the set `s`, each element once. */
  ghost predicate Enumerates(keys: seq<Key>, s: set<Key>) {
    NoDuplicates(keys) && forall k :: k in keys <==> k in s
  }

  lemma {:induction false} EnumerationSize(keys: seq<Key>, s: set<Key>)
    requires Enumerates(keys, s)
    ensures |keys| == |s|
  {
    if keys == [] {
      assert s == {};
    } else {
      var last := keys[|keys| - 1];
      assert keys == keys[..|keys| - 1] + [last];
      EnumerationSize(keys[..|keys| - 1], s - {last});
    }
  }

  /** The viewer's address is the @lid of two rows of the map. */
  ghost predicate JoinsTwice(p: Participant, lids: seq<LidEntry>) {
    exists i, j :: 0 <= i < j < |lids| && IsUnder(p, lids[i]) && IsUnder(p, lids[j])
  }

  lemma JoinsTwiceSnoc(p: Participant, lids: seq<LidEntry>, e: LidEntry)
    ensures JoinsTwice(p, lids + [e]) <==>
              JoinsTwice(p, lids) || (IsUnder(p, e) && exists f :: f in lids && IsUnder(p, f))
  {
    hide IsUnder;
    var more := lids + [e];
    assert more[|lids|] == e && forall i | 0 <= i < |lids| :: more[i] == lids[i];
    if JoinsTwice(p, lids) {
      var i, j :| 0 <= i < j < |lids| && IsUnder(p, lids[i]) && IsUnder(p, lids[j]);
      assert IsUnder(p, more[i]) && IsUnder(p, more[j]);
    }
    if f :| f in lids && IsUnder(p, f) && IsUnder(p, e) {
      var i :| 0 <= i < |lids| && lids[i] == f;
      assert IsUnder(p, more[i]) && IsUnder(p, more[|lids|]);
    }
    if JoinsTwice(p, more) {
      var i, j :| 0 <= i < j < |more| && IsUnder(p, more[i]) && IsUnder(p, more[j]);
      assert lids[i] in lids && IsUnder(p, lids[i]);
      assert j < |lids| ==> IsUnder(p, lids[j]);
    }
  }

  lemma {:induction false} WidthIsOneIff(p: Participant, lids: seq<LidEntry>)
    ensures JoinWidth(p, lids) == 1 <==> !JoinsTwice(p, lids)
  {
    hide IsUnder, Joins;
    if lids != [] {
      hide JoinsTwice;
      var init, last := lids[..|lids| - 1], lids[|lids| - 1];
      assert lids == init + [last];
      WidthIsOneIff(p, init);
      MatchesMeaning(p, init);
      JoinsTwiceSnoc(p, init, last);
      JoinsUnder(p, last);
      assert Matches(p, init) != [] ==> Matches(p, init)[0] in Matches(p, init);
      assert (exists f :: f in init && IsUnder(p, f)) <==> Matches(p, init) != [];
    }
  }

  /**
   The listing mode counts join rows, the counting mode counts viewers. They agree exactly
   when no counted viewer meets two rows of the map.
   */
  lemma ModesAgreeIffJoinedOnce(keys: seq<Key>, viewers: set<Key>, lids: seq<LidEntry>)
    requires Enumerates(keys, viewers)
    ensures TotalWidth(keys, lids) == |viewers| <==> forall k | k in viewers :: !JoinsTwice(k.participant, lids)
  {
    EnumerationSize(keys, viewers);
    TotalWidthExact(keys, lids);
    forall k: Key ensures JoinWidth(k.participant, lids) == 1 <==> !JoinsTwice(k.participant, lids) {
      WidthIsOneIff(k.participant, lids);
    }
  }

  lemma ModesAgreeWhenLidIsKey(keys: seq<Key>, viewers: set<Key>, lids: seq<LidEntry>)
    requires Enumerates(keys, viewers) && LidIsKey(lids)
    ensures TotalWidth(keys, lids) == |viewers|
  {
    ModesAgreeIffJoinedOnce(keys, viewers, lids);
  }

  /** A viewer is listed under the phone number the map gives, unless there is none or it is empty. */
  function Listed(row: JoinedRow): Participant {
    if row.pn.Some? && row.pn.value != "" then Parsed(Jid(row.pn.value, 0, Phone)) else row.participant
  }

  class SqlStatusAckStore {
    var rows: Table
    var lids: seq<LidEntry>
    /** Every INSERT statement that went through, in order. */
    ghost var statements: seq<seq<Record>>

    constructor (lids: seq<LidEntry>)
      ensures rows == map[] && this.lids == lids && statements == []
    {
      rows, this.lids, statements := map[], lids, [];
    }

    /**
     One INSERT statement. It must not touch a row twice, and SQLite refuses more than 32766
     bound parameters.
     */
    method UpsertStatusAckChunk(records: seq<Record>, works: bool) returns (ok: bool)
      requires DistinctKeys(records) && PARAMETERS_PER_ROW * |records| <= 32766
      modifies `rows, `statements
      ensures ok <==> records == [] || works
      ensures rows == if ok then UpsertAll(old(rows), records) else old(rows)
      ensures statements == if ok && records != [] then old(statements) + [records] else old(statements)
    {
      if records == [] {
        return true;
      }
      if !works {
        return false;
      }
      for i := 0 to |records|
        invariant rows == UpsertAll(old(rows), records[..i])
        invariant statements == old(statements)
      {
        assert records[..i + 1][..i] == records[..i];
        rows := Upsert(rows, records[i]);
      }
      assert records[..|records|] == records;
      statements := statements + [records];
      return true;
    }

    method DedupeStatusAcks(records: seq<Record>) returns (deduped: seq<Record>)
      ensures deduped == Dedupe(records)
    {
      var index: map<Key, nat> := map[];
      deduped := [];
      for i := 0 to |records|
        invariant deduped == Dedupe(records[..i])
        invariant Indexes(index, deduped)
      {
        assert records[..i + 1][..i] == records[..i];
        var record := records[i];
        if record.messageId == "" || IsEmptyText(record.participant) || record.ack == 0 {
          continue;
        }
        var key := KeyOf(record);
        ghost var before := deduped;
        if key !in index {
          IndexAppend(index, deduped, record);
          index := index[key := |deduped|];
          deduped := deduped + [record];
          continue;
        }
        var position := index[key];
        IndexCombine(index, deduped, position, record);
        if record.ack > deduped[position].ack {
          deduped := deduped[position := deduped[position].(ack := record.ack)];
        }
        if record.updatedAt > deduped[position].updatedAt {
          deduped := deduped[position := deduped[position].(updatedAt := record.updatedAt)];
        }
        assert deduped == before[position := Combine(before[position], record)];
      }
      assert records[..|records|] == records;
    }

    /**
     The chunk loop; `works` says which of its statements go through. The statements that went
     through are consecutive chunks of the deduplicated records, in order: all of them, or those
     before the first that failed.
     */
    method UpsertStatusAcks(records: seq<Record>, works: nat -> bool)
      returns (ok: bool, ghost written: nat, ghost sent: seq<seq<Record>>)
      modifies `rows, `statements
      ensures ok <==> AllWork(works, |Dedupe(records)|)
      ensures ok ==> written == |Dedupe(records)|
      ensures !ok ==> written == 500 * |sent| < |Dedupe(records)| && FirstFailure(works, |sent|)
      ensures rows == UpsertAll(old(rows), Dedupe(records)[..written])
      ensures statements == old(statements) + sent && AreChunks(sent, Dedupe(records)[..written])
    {
      var deduped := DedupeStatusAcks(records);
      DedupeShape(records);
      ok, written, sent := UpsertChunks(deduped, works);
      assert deduped[..|deduped|] == deduped;
    }

    /** The chunk loop, on records already deduplicated. */
    method UpsertChunks(deduped: seq<Record>, works: nat -> bool)
      returns (ok: bool, ghost written: nat, ghost sent: seq<seq<Record>>)
      requires DistinctKeys(deduped)
      modifies `rows, `statements
      ensures ok <==> AllWork(works, |deduped|)
      ensures ok ==> written == |deduped|
      ensures !ok ==> written == MAX_UPSERT_ROWS * |sent| < |deduped| && FirstFailure(works, |sent|)
      ensures rows == UpsertAll(old(rows), deduped[..written])
      ensures statements == old(statements) + sent && AreChunks(sent, deduped[..written])
    {
      hide UpsertAll, AreChunks;
      UpsertNothing(rows, deduped);
      var start := 0;
      written, sent := 0, [];
      while start < |deduped|
        invariant start == MAX_UPSERT_ROWS * |sent| && forall n: nat | n < |sent| :: works(n)
        invariant written == if start < |deduped| then start else |deduped|
        invariant start < |deduped| ==> AllFull(sent)
        invariant rows == UpsertAll(old(rows), deduped[..written])
        invariant statements == old(statements) + sent && AreChunks(sent, deduped[..written])
        invariant forall n: nat | MAX_UPSERT_ROWS * n < written :: works(n)
      {
        var end := start + MAX_UPSERT_ROWS;
        if end > |deduped| {
          end := |deduped|;
        }
        NextChunk(old(rows), sent, deduped, start, end);
        var chunk := deduped[start..end];
        assert |chunk| == end - start;
        var done := UpsertStatusAckChunk(chunk, works(start / MAX_UPSERT_ROWS));
        if !done {
          return false, written, sent;
        }
        sent := sent + [chunk];
        start := start + MAX_UPSERT_ROWS;
        written := end;
      }
      return true, written, sent;
    }

    method DeleteBefore(cutoff: int, works: bool) returns (ok: bool)
      modifies `rows
      ensures ok == works && rows == if works then NotBefore(old(rows), cutoff) else old(rows)
    {
      if !works {
        return false;
      }
      rows := NotBefore(rows, cutoff);
      return true;
    }

    /**
     Without a non-empty user there is no statement, so nothing can fail. An error in counting the
     deleted rows comes after they are gone.
     */
    method DeleteSelfViews(users: set<string>, works: bool, counted: bool) returns (ok: bool)
      modifies `rows
      ensures ok <==> (works && counted) || users <= {""}
      ensures rows == if works then WithoutSelf(old(rows), users) else old(rows)
      ensures forall k | k in old(rows) ::
                k in rows <==> !(works && k.participant.Parsed?
                                 && k.participant.jid.user != "" && k.participant.jid.user in users)
    {
      var own := users - {""};
      if own == {} {
        assert users <= {""};
        return true;
      }
      if !works {
        return false;
      }
      rows := WithoutSelf(rows, own);
      return counted;
    }

    /** Counting mode of GetSummary. */
    method CountSummary(messageId: string) returns (summary: Summary)
      ensures messageId != "" ==> summary.received == |Viewers(rows, messageId, ACK_DELIVERED)|
      ensures messageId != "" ==> summary.read == |Viewers(rows, messageId, ACK_READ)|
      ensures messageId == "" ==> summary.received == summary.read == 0
      ensures summary.messageId == messageId && summary.receivedParticipants == summary.readParticipants == []
    {
      if messageId == "" {
        return Summary(messageId, 0, 0, [], []);
      }
      var todo, received, read := rows.Keys, {}, {};
      while todo != {}
        invariant todo <= rows.Keys
        invariant forall k :: k in received <==> k in Viewers(rows, messageId, ACK_DELIVERED) && k !in todo
        invariant forall k :: k in read <==> k in Viewers(rows, messageId, ACK_READ) && k !in todo
      {
        var k :| k in todo;
        if k.messageId == messageId && rows[k].ack >= ACK_DELIVERED {
          received := received + {k};
        }
        if k.messageId == messageId && rows[k].ack >= ACK_READ {
          read := read + {k};
        }
        todo := todo - {k};
      }
      assert received == Viewers(rows, messageId, ACK_DELIVERED) && read == Viewers(rows, messageId, ACK_READ);
      summary := Summary(messageId, |received|, |read|, [], []);
    }

    /** Listing mode of GetSummary: rows of the left join, in the order the database returns the viewers. */
    method ListSummary(messageId: string)
      returns (summary: Summary, ghost receivedOrder: seq<Key>, ghost readOrder: seq<Key>)
      ensures messageId != "" ==> Enumerates(receivedOrder, Viewers(rows, messageId, ACK_DELIVERED))
      ensures messageId != "" ==> Enumerates(readOrder, Viewers(rows, messageId, ACK_READ))
      ensures messageId == "" ==> receivedOrder == readOrder == []
      ensures summary.messageId == messageId
      ensures summary.received == |summary.receivedParticipants| == TotalWidth(receivedOrder, lids)
      ensures summary.read == |summary.readParticipants| == TotalWidth(readOrder, lids)
      ensures LidIsKey(lids) && messageId != "" ==>
                && summary.received == |Viewers(rows, messageId, ACK_DELIVERED)|
                && summary.read == |Viewers(rows, messageId, ACK_READ)|
      ensures messageId != "" ==> forall p :: p in summary.receivedParticipants <==>
                                              IsListed(rows, lids, messageId, ACK_DELIVERED, p)
      ensures messageId != "" ==> forall p :: p in summary.readParticipants <==>
                                              IsListed(rows, lids, messageId, ACK_READ, p)
    {
      receivedOrder, readOrder := [], [];
      if messageId == "" {
        return Summary(messageId, 0, 0, [], []), [], [];
      }
      hide Lists;
      var received, read := [], [];
      var todo := Viewers(rows, messageId, ACK_DELIVERED);
      EmptyListing(lids);
      while todo != {}
        invariant todo <= Viewers(rows, messageId, ACK_DELIVERED)
        invariant Lists(receivedOrder, received, lids, Viewers(rows, messageId, ACK_DELIVERED) - todo)
        invariant Lists(readOrder, read, lids, Viewers(rows, messageId, ACK_READ) - todo)
      {
        var k :| k in todo;
        var names := Names(k.participant);
        ExtendListing(receivedOrder, received, lids, Viewers(rows, messageId, ACK_DELIVERED) - todo, k, names);
        received := received + names;
        receivedOrder := receivedOrder + [k];
        if rows[k].ack >= ACK_READ {
          ExtendListing(readOrder, read, lids, Viewers(rows, messageId, ACK_READ) - todo, k, names);
          read := read + names;
          readOrder := readOrder + [k];
        }
        assert Viewers(rows, messageId, ACK_DELIVERED) - (todo - {k})
            == Viewers(rows, messageId, ACK_DELIVERED) - todo + {k};
        assert Viewers(rows, messageId, ACK_READ) - (todo - {k})
            == Viewers(rows, messageId, ACK_READ) - todo + if rows[k].ack >= ACK_READ then {k} else {};
        todo := todo - {k};
      }
      summary := Summary(messageId, |received|, |read|, received, read);
      CompleteListing(receivedOrder, received, lids, rows, messageId, ACK_DELIVERED);
      CompleteListing(readOrder, read, lids, rows, messageId, ACK_READ);
    }

    /** The names under which the join rows of one viewer are listed. */
    method Names(p: Participant) returns (names: seq<Participant>)
      ensures |names| == JoinWidth(p, lids)
      ensures forall name :: name in names <==> NamedBy(p, lids, name)
    {
      var found := Matches(p, lids);
      MatchesMeaning(p, lids);
      if found == [] {
        assert forall e | e in lids :: !IsUnder(p, e);
        return [p];
      }
      names := [];
      for i := 0 to |found|
        invariant |names| == i
        invariant forall n | 0 <= n < i :: names[n] == Listed(JoinedRow(p, 0, Some(found[n].pn)))
      {
        names := names + [Listed(JoinedRow(p, 0, Some(found[i].pn)))];
      }
      forall name ensures name in names <==> NamedBy(p, lids, name) {
        if NamedBy(p, lids, name) {
          assert found[0] in lids && IsUnder(p, found[0]);
          var e :| e in lids && IsUnder(p, e) && name == Listed(JoinedRow(p, 0, Some(e.pn)));
          var n :| 0 <= n < |found| && found[n] == e;
          assert names[n] == name;
        }
        if name in names {
          var n :| 0 <= n < |names| && names[n] == name;
          assert found[n] in found && found[n] in lids && IsUnder(p, found[n]);
        }
      }
    }

    /**
     Folds per-device rows into the person's row inside one transaction. None is an error; the
     transaction is then rolled back.
     */
    method MergeDeviceParticipants(selectWorks: bool, upsertsWork: nat -> bool, deleteWorks: bool)
      returns (r: Option<nat>)
      modifies `rows, `statements
      ensures r.None? ==> rows == old(rows)
      ensures r.Some? ==> r.value == |set k | k in old(rows) && NamesDevice(k.participant)|
      ensures r.Some? ==> forall k | k in rows :: !NamesDevice(k.participant)
      ensures r.Some? ==> r.value == |DeviceKeys(old(rows))| && DeviceKeys(rows) == {}
      ensures r.Some? && TableValid(old(rows)) ==>
                (SameViewers(old(rows), rows) <==> AllDeviceRowsMergeable(old(rows)))
      ensures r.Some? && DeviceKeys(old(rows)) == {} ==> rows == old(rows)
      ensures TableValid(old(rows)) ==> TableValid(rows)
      ensures selectWorks && DeviceKeys(old(rows)) == {} ==> r.Some?
      ensures selectWorks && deleteWorks && (forall n :: upsertsWork(n)) ==> r.Some?
      ensures r.Some? ==> selectWorks && (deleteWorks || DeviceKeys(old(rows)) == {})
    {
      if !selectWorks {
        return None;
      }
      var device := DeviceKeys(rows);
      forall p ensures HasDeviceSuffix(p) <==> NamesDevice(p) {
        SuffixMeaning(p);
      }
      assert device == set k | k in rows && NamesDevice(k.participant);
      if device == {} {
        assert forall k | k in rows && HasDeviceSuffix(k.participant) :: k in device;
        assert SameViewers(rows, rows);
        return Some(0);
      }
      var merged: seq<Record> := [];
      var todo := device;
      while todo != {}
        invariant todo <= device
        invariant Folds(rows, device - todo, merged)
      {
        var k :| k in todo;
        ghost var before := merged;
        if k.participant.Parsed? {
          merged := merged + [FoldedRecord(k, rows[k])];
        }
        todo := todo - {k};
        assert forall r | r in merged :: r in before || (k.participant.Parsed? && r == FoldedRecord(k, rows[k]));
      }
      assert device - todo == device;
      var saved := rows;
      var ok, written, _ := UpsertStatusAcks(merged, upsertsWork);
      if !ok {
        rows := saved;
        return None;
      }
      assert Dedupe(merged)[..written] == Dedupe(merged);
      assert rows == Write(saved, merged);
      if !deleteWorks {
        rows := saved;
        return None;
      }
      rows := WithoutDeviceRows(rows);
      if TableValid(saved) {
        MergeLosslessIffMergeable(saved, merged);
        WriteKeepsValid(saved, merged);
      }
      return Some(|device|);
    }
  }

  /** A viewer under an @lid of the map goes by the number there, unless that is empty; any other by its own address. */
  ghost predicate NamedBy(p: Participant, lids: seq<LidEntry>, name: Participant) {
    || (exists e :: e in lids && IsUnder(p, e) && name == if e.pn != "" then Parsed(Jid(e.pn, 0, Phone)) else p)
    || (name == p && forall e | e in lids :: !IsUnder(p, e))
  }

  /** `names` are the names of the join rows of the viewers in `s`, taken in the order `keys`. */
  ghost predicate Lists(keys: seq<Key>, names: seq<Participant>, lids: seq<LidEntry>, s: set<Key>) {
    && Enumerates(keys, s)
    && |names| == TotalWidth(keys, lids)
    && forall p :: p in names <==> ListedAmong(keys, lids, p)
  }

  lemma EmptyListing(lids: seq<LidEntry>)
    ensures Lists([], [], lids, {})
  {
  }

  lemma ExtendListing(keys: seq<Key>, names: seq<Participant>, lids: seq<LidEntry>, s: set<Key>, k: Key,
                      more: seq<Participant>)
    requires Lists(keys, names, lids, s) && k !in s
    requires |more| == JoinWidth(k.participant, lids)
    requires forall p :: p in more <==> NamedBy(k.participant, lids, p)
    ensures Lists(keys + [k], names + more, lids, s + {k})
  {
    assert (keys + [k])[..|keys|] == keys;
    forall p ensures p in names + more <==> ListedAmong(keys + [k], lids, p) {
      assert forall q :: q in keys + [k] <==> q in keys || q == k;
    }
  }

  lemma CompleteListing(keys: seq<Key>, names: seq<Participant>, lids: seq<LidEntry>, t: Table, m: string, level: int)
    requires Lists(keys, names, lids, Viewers(t, m, level))
    ensures Enumerates(keys, Viewers(t, m, level)) && |names| == TotalWidth(keys, lids)
    ensures forall p :: p in names <==> IsListed(t, lids, m, level, p)
    ensures LidIsKey(lids) ==> |names| == |Viewers(t, m, level)|
  {
    if LidIsKey(lids) {
      ModesAgreeWhenLidIsKey(keys, Viewers(t, m, level), lids);
    }
    forall p ensures p in names <==> IsListed(t, lids, m, level, p) {
      assert p in names <==> ListedAmong(keys, lids, p);
      assert forall k :: k in keys <==> k in Viewers(t, m, level);
    }
  }

  ghost predicate ListedAmong(keys: seq<Key>, lids: seq<LidEntry>, name: Participant) {
    exists k :: k in keys && NamedBy(k.participant, lids, name)
  }

  ghost predicate IsListed(t: Table, lids: seq<LidEntry>, messageId: string, level: int, name: Participant) {
    exists k :: k in Viewers(t, messageId, level) && NamedBy(k.participant, lids, name)
  }

  /** Each of the statements that `n` rows need goes through. */
  ghost predicate AllWork(works: nat -> bool, n: nat) {
    forall i: nat | MAX_UPSERT_ROWS * i < n :: works(i)
  }

  ghost predicate FirstFailure(works: nat -> bool, n: nat) {
    !works(n) && forall i: nat | i < n :: works(i)
  }

  ghost predicate AllFull(sent: seq<seq<Record>>) {
    forall s | s in sent :: |s| == MAX_UPSERT_ROWS
  }

  lemma UpsertNothing(t: Table, ds: seq<Record>)
    ensures UpsertAll(t, ds[..0]) == t && AreChunks([], ds[..0])
  {
  }

  lemma {:induction false} UpsertAllConcat(t: Table, a: seq<Record>, b: seq<Record>)
    ensures UpsertAll(t, a + b) == UpsertAll(UpsertAll(t, a), b)
  {
    if b == [] {
      assert a + b == a;
    } else {
      assert (a + b)[..|a + b| - 1] == a + b[..|b| - 1];
      UpsertAllConcat(t, a, b[..|b| - 1]);
    }
  }

  /**
   The statements cover `rs` once and in order; none is empty or repeats a key, and all but the
   last have as many rows as a statement may have.
   */
  ghost predicate AreChunks(statements: seq<seq<Record>>, rs: seq<Record>) {
    && Flatten(statements) == rs
    && (forall s | s in statements :: DistinctKeys(s) && 0 < |s| <= MAX_UPSERT_ROWS)
    && forall i | 0 <= i < |statements| - 1 :: |statements[i]| == MAX_UPSERT_ROWS
  }

  lemma NextChunk(t: Table, sent: seq<seq<Record>>, ds: seq<Record>, start: nat, end: nat)
    requires start < end <= |ds| && end - start <= MAX_UPSERT_ROWS
    requires DistinctKeys(ds) && AreChunks(sent, ds[..start]) && AllFull(sent)
    ensures DistinctKeys(ds[start..end])
    ensures AreChunks(sent + [ds[start..end]], ds[..end])
    ensures end - start == MAX_UPSERT_ROWS ==> AllFull(sent + [ds[start..end]])
    ensures UpsertAll(UpsertAll(t, ds[..start]), ds[start..end]) == UpsertAll(t, ds[..end])
  {
    hide Flatten, UpsertAll;
    assert ds[..start] + ds[start..end] == ds[..end];
    UpsertAllConcat(t, ds[..start], ds[start..end]);
    FlattenSnoc(sent, ds[start..end]);
    assert forall i | 0 <= i < |sent| :: sent[i] in sent;
  }

  /** `index` sends every stored key to where it stands. */
  ghost predicate Indexes(index: map<Key, nat>, ds: seq<Record>) {
    && (forall k | k in index :: index[k] < |ds| && KeyOf(ds[index[k]]) == k)
    && (forall i | 0 <= i < |ds| :: KeyOf(ds[i]) in index && index[KeyOf(ds[i])] == i)
  }

  lemma IndexAppend(index: map<Key, nat>, ds: seq<Record>, r: Record)
    requires Indexes(index, ds) && KeyOf(r) !in index && Countable(r)
    ensures Absorb(ds, r) == ds + [r]
    ensures Indexes(index[KeyOf(r) := |ds|], ds + [r])
  {
  }

  lemma IndexCombine(index: map<Key, nat>, ds: seq<Record>, p: nat, r: Record)
    requires Indexes(index, ds) && KeyOf(r) in index && Countable(r) && p == index[KeyOf(r)]
    ensures p < |ds| && Absorb(ds, r) == ds[p := Combine(ds[p], r)]
    ensures Indexes(index, ds[p := Combine(ds[p], r)])
  {
  }
}
