/**
 The status-ack table: one row per (status message, viewer), written in batches whose
 conflict rule lets an ack only rise.

 A participant is the text of an address. Text that parses is carried as the address;
 text that does not is carried as it is.
 */
module StatusAcks {
  import opened Types

  const ACK_DELIVERED := 2
  const ACK_READ := 3
  const MAX_UPSERT_ROWS := 500
  const PARAMETERS_PER_ROW := 4

  datatype Participant = Parsed(jid: Jid) | Garbled(text: string)

  datatype Record = Record(messageId: string, participant: Participant, ack: int, updatedAt: int)

  datatype Key = Key(messageId: string, participant: Participant)

  datatype Row = Row(ack: int, updatedAt: int)

  type Table = map<Key, Row>

  function KeyOf(r: Record): Key {
    Key(r.messageId, r.participant)
  }

  predicate IsEmptyText(p: Participant) {
    p == Parsed(Jid("", 0, Other(""))) || p == Garbled("")
  }

  /** The records dedupeStatusAcks does not skip. */
  predicate Countable(r: Record) {
    r.messageId != "" && !IsEmptyText(r.participant) && r.ack != 0
  }

  ghost predicate TableValid(t: Table) {
    forall k | k in t :: k.messageId != "" && !IsEmptyText(k.participant) && t[k].ack != 0
  }

  // ---------------------------------------------------------------- writing

  /** One record's upsert: a new row, or a higher ack on the one that is there. */
  function Upsert(t: Table, r: Record): Table {
    var k := KeyOf(r);
    if k !in t || r.ack > t[k].ack then t[k := Row(r.ack, r.updatedAt)] else t
  }

  function UpsertAll(t: Table, rs: seq<Record>): Table {
    if rs == [] then t else Upsert(UpsertAll(t, rs[..|rs| - 1]), rs[|rs| - 1])
  }

  /** The position of the first record stored under `k`, or the length when there is none. */
  function Position(ds: seq<Record>, k: Key): (p: nat)
    ensures p <= |ds|
    ensures p < |ds| ==> KeyOf(ds[p]) == k
    ensures forall i | 0 <= i < p :: KeyOf(ds[i]) != k
  {
    if ds == [] then 0
    else
      var p := Position(ds[..|ds| - 1], k);
      if p < |ds| - 1 || KeyOf(ds[p]) == k then p else |ds|
  }

  function Combine(d: Record, r: Record): Record {
    d.(ack := Max(d.ack, r.ack), updatedAt := Max(d.updatedAt, r.updatedAt))
  }

  function Absorb(ds: seq<Record>, r: Record): seq<Record> {
    var p := Position(ds, KeyOf(r));
    if !Countable(r) then ds
    else if p == |ds| then ds + [r]
    else ds[p := Combine(ds[p], r)]
  }

  function Dedupe(rs: seq<Record>): seq<Record> {
    if rs == [] then [] else Absorb(Dedupe(rs[..|rs| - 1]), rs[|rs| - 1])
  }

  /** UpsertMany, when no statement fails. */
  function Write(t: Table, rs: seq<Record>): Table {
    UpsertAll(t, Dedupe(rs))
  }

  function WriteBatches(t: Table, batches: seq<seq<Record>>): Table {
    if batches == [] then t
    else Write(WriteBatches(t, batches[..|batches| - 1]), batches[|batches| - 1])
  }

  ghost predicate DistinctKeys(ds: seq<Record>) {
    forall i, j | 0 <= i < j < |ds| :: KeyOf(ds[i]) != KeyOf(ds[j])
  }

  // ---------------------------------------------------------------- what the records say

  function MaxOption(a: Option<int>, b: Option<int>): Option<int> {
    if a.None? then b else if b.None? then a else Some(Max(a.value, b.value))
  }

  function AckAt(t: Table, k: Key): Option<int> {
    if k in t then Some(t[k].ack) else None
  }

  /** The record speaks of the key: it names a message and a viewer, and has an ack. */
  ghost predicate Says(rs: seq<Record>, k: Key, r: Record) {
    && r in rs && r.messageId == k.messageId && r.participant == k.participant
    && r.messageId != "" && r.participant != Garbled("") && r.participant != Parsed(Jid("", 0, Other("")))
    && r.ack != 0
  }

  datatype Column = Ack | UpdatedAt

  function Cell(r: Record, c: Column): int {
    if c.Ack? then r.ack else r.updatedAt
  }

  function Hint(r: Record, k: Key, c: Column): Option<int> {
    if Countable(r) && KeyOf(r) == k then Some(Cell(r, c)) else None
  }

  /** The highest value in column `c` that the countable records give for `k`. */
  function Peak(rs: seq<Record>, k: Key, c: Column): Option<int> {
    if rs == [] then None else MaxOption(Peak(rs[..|rs| - 1], k, c), Hint(rs[|rs| - 1], k, c))
  }

  lemma {:induction false} PeakMeaning(rs: seq<Record>, k: Key, c: Column)
    ensures Peak(rs, k, c).None? <==> forall r :: !Says(rs, k, r)
    ensures Peak(rs, k, c).Some? ==> exists r :: Says(rs, k, r) && Cell(r, c) == Peak(rs, k, c).value
    ensures Peak(rs, k, c).Some? ==> forall r :: Says(rs, k, r) ==> Cell(r, c) <= Peak(rs, k, c).value
  {
    if rs != [] {
      var init, last := rs[..|rs| - 1], rs[|rs| - 1];
      PeakMeaning(init, k, c);
      assert rs == init + [last];
      assert forall r :: Says(rs, k, r) <==> Says(init, k, r) || (r == last && Hint(last, k, c).Some?);
      if Hint(last, k, c).Some? {
        assert Says(rs, k, last);
      }
    }
  }

  /** Order and repetition of the records do not matter to the peak. */
  lemma PeakDependsOnSet(a: seq<Record>, b: seq<Record>, k: Key, c: Column)
    requires forall r :: r in a <==> r in b
    ensures Peak(a, k, c) == Peak(b, k, c)
  {
    PeakMeaning(a, k, c);
    PeakMeaning(b, k, c);
    assert forall r :: Says(a, k, r) <==> Says(b, k, r);
  }

  lemma {:induction false} PeakConcat(a: seq<Record>, b: seq<Record>, k: Key, c: Column)
    ensures Peak(a + b, k, c) == MaxOption(Peak(a, k, c), Peak(b, k, c))
  {
    if b == [] {
      assert a + b == a;
    } else {
      assert (a + b)[..|a + b| - 1] == a + b[..|b| - 1];
      PeakConcat(a, b[..|b| - 1], k, c);
    }
  }

  lemma PeakOne(r: Record, k: Key, c: Column)
    ensures Peak([r], k, c) == Hint(r, k, c)
  {
  }

  /** Folding a record into the one already kept counts like appending it. */
  lemma PeakCombine(ds: seq<Record>, p: nat, r: Record, k: Key, c: Column)
    requires p < |ds| && KeyOf(ds[p]) == KeyOf(r) && Countable(r) && Countable(ds[p])
    ensures Peak(ds[p := Combine(ds[p], r)], k, c) == MaxOption(Peak(ds, k, c), Hint(r, k, c))
  {
    hide Peak;
    var d := Combine(ds[p], r);
    assert ds == ds[..p] + ([ds[p]] + ds[p + 1..]);
    assert ds[p := d] == ds[..p] + ([d] + ds[p + 1..]);
    PeakConcat(ds[..p], [ds[p]] + ds[p + 1..], k, c);
    PeakConcat([ds[p]], ds[p + 1..], k, c);
    PeakConcat(ds[..p], [d] + ds[p + 1..], k, c);
    PeakConcat([d], ds[p + 1..], k, c);
    PeakOne(ds[p], k, c);
    PeakOne(d, k, c);
  }

  // ---------------------------------------------------------------- deduplication

  /** Where the first countable record for `k` stands, or the length when there is none. */
  function FirstAt(rs: seq<Record>, k: Key): nat {
    if rs == [] then 0
    else
      var p := FirstAt(rs[..|rs| - 1], k);
      if p < |rs| - 1 || Hint(rs[|rs| - 1], k, Ack).Some? then p else |rs|
  }

  ghost predicate FirstSeenOrder(rs: seq<Record>, ds: seq<Record>) {
    && (forall i | 0 <= i < |ds| :: FirstAt(rs, KeyOf(ds[i])) < |rs|)
    && (forall i, j | 0 <= i < j < |ds| :: FirstAt(rs, KeyOf(ds[i])) < FirstAt(rs, KeyOf(ds[j])))
  }

  lemma {:induction false} DedupeCountable(rs: seq<Record>)
    ensures forall d | d in Dedupe(rs) :: Countable(d)
  {
    if rs != [] {
      var ds, last := Dedupe(rs[..|rs| - 1]), rs[|rs| - 1];
      DedupeCountable(rs[..|rs| - 1]);
      var p := Position(ds, KeyOf(last));
      if Countable(last) && p < |ds| {
        assert ds[p] in ds && Countable(Combine(ds[p], last));
        assert forall d | d in Dedupe(rs) :: d in ds || d == Combine(ds[p], last);
      }
    }
  }

  lemma {:induction false} DedupeOrdered(rs: seq<Record>)
    ensures FirstSeenOrder(rs, Dedupe(rs))
  {
    if rs != [] {
      var init, last := rs[..|rs| - 1], rs[|rs| - 1];
      DedupeOrdered(init);
      var ds := Dedupe(init);
      if Countable(last) && Position(ds, KeyOf(last)) == |ds| {
        DedupeCoversKeys(init, last);
        assert FirstAt(rs, KeyOf(last)) == |init|;
      }
    }
  }

  /** Deduplicated records are countable, have pairwise distinct keys and stand in first-seen order. */
  lemma DedupeShape(rs: seq<Record>)
    ensures DistinctKeys(Dedupe(rs))
    ensures forall d | d in Dedupe(rs) :: Countable(d)
    ensures FirstSeenOrder(rs, Dedupe(rs))
  {
    DedupeCountable(rs);
    DedupeOrdered(rs);
  }

  lemma {:induction false} DedupeCoversKeys(rs: seq<Record>, r: Record)
    requires Countable(r)
    ensures FirstAt(rs, KeyOf(r)) < |rs| ==> Position(Dedupe(rs), KeyOf(r)) < |Dedupe(rs)|
    ensures FirstAt(rs, KeyOf(r)) <= |rs|
  {
    if rs != [] {
      var init, last := rs[..|rs| - 1], rs[|rs| - 1];
      DedupeCoversKeys(init, r);
      var ds, q := Dedupe(init), Position(Dedupe(init), KeyOf(r));
      if q < |ds| {
        assert KeyOf(Dedupe(rs)[q]) == KeyOf(r);
      } else if Countable(last) && KeyOf(last) == KeyOf(r) {
        assert Dedupe(rs) == ds + [last] && KeyOf(Dedupe(rs)[|ds|]) == KeyOf(r);
      }
    }
  }

  /** Per key, deduplication keeps the highest ack and the latest time, and nothing is added or lost. */
  lemma {:induction false} DedupeKeepsPeaks(rs: seq<Record>, k: Key, c: Column)
    ensures Peak(Dedupe(rs), k, c) == Peak(rs, k, c)
  {
    if rs != [] {
      var init, last := rs[..|rs| - 1], rs[|rs| - 1];
      DedupeKeepsPeaks(init, k, c);
      DedupeShape(init);
      var ds := Dedupe(init);
      var p := Position(ds, KeyOf(last));
      if Countable(last) {
        if p == |ds| {
          assert (ds + [last])[..|ds|] == ds;
        } else {
          PeakCombine(ds, p, last, k, c);
        }
      }
    }
  }

  lemma DistinctPrefix(init: seq<Record>, last: Record)
    requires DistinctKeys(init + [last]) && forall d | d in init + [last] :: Countable(d)
    ensures DistinctKeys(init) && forall d | d in init :: Countable(d)
    ensures Countable(last) && forall i | 0 <= i < |init| :: KeyOf(init[i]) != KeyOf(last)
  {
    var ds := init + [last];
    assert forall i | 0 <= i < |init| :: ds[i] == init[i];
    assert ds[|init|] == last && last in ds && forall d | d in init :: d in ds;
  }

  lemma AbsorbNew(ds: seq<Record>, r: Record)
    requires Countable(r) && forall i | 0 <= i < |ds| :: KeyOf(ds[i]) != KeyOf(r)
    ensures Absorb(ds, r) == ds + [r]
  {
  }

  lemma {:induction false} DedupeFixesDistinct(ds: seq<Record>)
    requires DistinctKeys(ds) && forall d | d in ds :: Countable(d)
    ensures Dedupe(ds) == ds
  {
    hide Countable, Absorb, KeyOf, DistinctKeys;
    if ds != [] {
      var init, last := ds[..|ds| - 1], ds[|ds| - 1];
      assert ds == init + [last];
      DistinctPrefix(init, last);
      DedupeFixesDistinct(init);
      AbsorbNew(init, last);
    }
  }

  lemma DedupeIdempotent(rs: seq<Record>)
    ensures Dedupe(Dedupe(rs)) == Dedupe(rs)
  {
    DedupeShape(rs);
    DedupeFixesDistinct(Dedupe(rs));
  }

  // ---------------------------------------------------------------- the table is a pointwise maximum

  lemma {:induction false} UpsertAllIsMax(t: Table, rs: seq<Record>, k: Key)
    requires forall r | r in rs :: Countable(r)
    ensures AckAt(UpsertAll(t, rs), k) == MaxOption(AckAt(t, k), Peak(rs, k, Ack))
  {
    if rs != [] {
      UpsertAllIsMax(t, rs[..|rs| - 1], k);
    }
  }

  lemma WriteIsMax(t: Table, rs: seq<Record>, k: Key)
    ensures AckAt(Write(t, rs), k) == MaxOption(AckAt(t, k), Peak(rs, k, Ack))
  {
    DedupeShape(rs);
    DedupeKeepsPeaks(rs, k, Ack);
    UpsertAllIsMax(t, Dedupe(rs), k);
  }

  /** Whatever the split into batches, each stored ack is the maximum of the initial and all recorded ones. */
  lemma {:induction false} BatchesArePointwiseMax(t: Table, batches: seq<seq<Record>>, k: Key)
    ensures AckAt(WriteBatches(t, batches), k) == MaxOption(AckAt(t, k), Peak(Flatten(batches), k, Ack))
  {
    if batches != [] {
      var init, last := batches[..|batches| - 1], batches[|batches| - 1];
      BatchesArePointwiseMax(t, init, k);
      WriteIsMax(WriteBatches(t, init), last, k);
      PeakConcat(Flatten(init), last, k, Ack);
    }
  }

  /**
   Two histories that mention the same records, in any order, with any repetition and any
   batching, leave the same viewers with the same acks.
   */
  lemma AcksAreOrderIndependent(t: Table, a: seq<seq<Record>>, b: seq<seq<Record>>, k: Key)
    requires forall r :: r in Flatten(a) <==> r in Flatten(b)
    ensures AckAt(WriteBatches(t, a), k) == AckAt(WriteBatches(t, b), k)
  {
    BatchesArePointwiseMax(t, a, k);
    BatchesArePointwiseMax(t, b, k);
    PeakDependsOnSet(Flatten(a), Flatten(b), k, Ack);
  }

  /** No write lowers an ack or drops a row. */
  lemma AcksOnlyRise(t: Table, batches: seq<seq<Record>>, n: nat, k: Key)
    requires n <= |batches| && k in WriteBatches(t, batches[..n])
    ensures k in WriteBatches(t, batches)
    ensures WriteBatches(t, batches[..n])[k].ack <= WriteBatches(t, batches)[k].ack
    decreases |batches|
  {
    if n == |batches| {
      assert batches[..n] == batches;
    } else {
      var init := batches[..|batches| - 1];
      assert init[..n] == batches[..n];
      AcksOnlyRise(t, init, n, k);
      WriteIsMax(WriteBatches(t, init), batches[|batches| - 1], k);
    }
  }

  lemma WriteOne(t: Table, r: Record)
    requires Countable(r)
    ensures Write(t, [r]) == Upsert(t, r)
  {
    DedupeFixesDistinct([r]);
    assert UpsertAll(t, [r]) == Upsert(UpsertAll(t, [r][..0]), r);
  }

  lemma WriteBatchesSnoc(t: Table, batches: seq<seq<Record>>, rs: seq<Record>)
    ensures WriteBatches(t, batches + [rs]) == Write(WriteBatches(t, batches), rs)
  {
  }

  // ---------------------------------------------------------------- update times

  predicate Beats(a: Option<int>, b: Option<int>) {
    a.Some? && (b.None? || a.value > b.value)
  }

  /** The records raise the ack of `k` over what the table has. */
  predicate Raises(t: Table, rs: seq<Record>, k: Key) {
    Beats(Peak(rs, k, Ack), AckAt(t, k))
  }

  ghost predicate SameRow(a: Table, b: Table, k: Key) {
    (k in a <==> k in b) && (k in a ==> a[k] == b[k])
  }

  /** The row of `k` afterwards: the peaks of both columns when its ack is raised, and as it was when not. */
  ghost predicate RowFollows(t: Table, u: Table, rs: seq<Record>, k: Key) {
    if Raises(t, rs, k)
    then k in u && Peak(rs, k, UpdatedAt).Some? && u[k] == Row(Peak(rs, k, Ack).value, Peak(rs, k, UpdatedAt).value)
    else SameRow(t, u, k)
  }

  lemma {:induction false} DistinctRow(t: Table, ds: seq<Record>, k: Key)
    requires DistinctKeys(ds) && forall d | d in ds :: Countable(d)
    ensures RowFollows(t, UpsertAll(t, ds), ds, k)
  {
    if ds != [] {
      var init, last := ds[..|ds| - 1], ds[|ds| - 1];
      assert ds == init + [last];
      DistinctRow(t, init, k);
      if KeyOf(last) == k {
        assert forall r :: !Says(init, k, r);
        PeakMeaning(init, k, Ack);
        PeakMeaning(init, k, UpdatedAt);
      }
    }
  }

  /** What a write makes of every row, update time included. */
  lemma WriteRow(t: Table, rs: seq<Record>, k: Key)
    ensures RowFollows(t, Write(t, rs), rs, k)
  {
    DedupeShape(rs);
    DedupeKeepsPeaks(rs, k, Ack);
    DedupeKeepsPeaks(rs, k, UpdatedAt);
    DistinctRow(t, Dedupe(rs), k);
  }

  /** A time that is there, and later than `b` when `b` is there too. */
  predicate Outlasts(a: Option<int>, b: Option<int>) {
    a.Some? && b.Some? && a.value > b.value
  }

  /**
   Splitting a batch in two leaves the row of `k` as it is: when the second part still raises the
   ack, the first has no later time; when only the first raises it, the second has none.
   */
  ghost predicate SplitIsHarmless(t: Table, a: seq<Record>, b: seq<Record>, k: Key) {
    var ta, tb := Peak(a, k, UpdatedAt), Peak(b, k, UpdatedAt);
    if Beats(Peak(b, k, Ack), MaxOption(AckAt(t, k), Peak(a, k, Ack))) then !Outlasts(ta, tb)
    else Raises(t, a, k) ==> !Outlasts(tb, ta)
  }

  lemma SplitKeepsRowIff(t: Table, a: seq<Record>, b: seq<Record>, k: Key)
    ensures SameRow(Write(t, a + b), Write(Write(t, a), b), k) <==> SplitIsHarmless(t, a, b, k)
  {
    hide Write, Peak;
    WriteRow(t, a + b, k);
    WriteRow(t, a, k);
    WriteRow(Write(t, a), b, k);
    WriteIsMax(t, a, k);
    PeakConcat(a, b, k, Ack);
    PeakConcat(a, b, k, UpdatedAt);
    PeaksAgree(a, k);
    PeaksAgree(b, k);
  }

  /** Either column has a peak when the other has. */
  lemma PeaksAgree(rs: seq<Record>, k: Key)
    ensures Peak(rs, k, Ack).Some? <==> Peak(rs, k, UpdatedAt).Some?
  {
    PeakMeaning(rs, k, Ack);
    PeakMeaning(rs, k, UpdatedAt);
  }

  /** The whole table, times included, is independent of the split exactly when no key minds it. */
  lemma SplitKeepsTableIff(t: Table, a: seq<Record>, b: seq<Record>)
    ensures Write(t, a + b) == Write(Write(t, a), b) <==> forall k :: SplitIsHarmless(t, a, b, k)
  {
    hide Write, SplitIsHarmless;
    var joint, apart := Write(t, a + b), Write(Write(t, a), b);
    forall k ensures SameRow(joint, apart, k) <==> SplitIsHarmless(t, a, b, k) {
      SplitKeepsRowIff(t, a, b, k);
    }
    if forall k :: SplitIsHarmless(t, a, b, k) {
      forall k ensures (k in joint <==> k in apart) && (k in joint ==> joint[k] == apart[k]) {
        assert SplitIsHarmless(t, a, b, k) && SameRow(joint, apart, k);
      }
    }
  }

  /** The update time has no such independence: the same two records, batched together or apart, differ. */
  lemma UpdateTimeDependsOnBatching(early: Record, late: Record)
    requires Countable(early) && late == early.(updatedAt := early.updatedAt + 1)
    ensures WriteBatches(map[], [[early, late]]) == map[KeyOf(early) := Row(early.ack, late.updatedAt)]
    ensures WriteBatches(map[], [[early], [late]]) == map[KeyOf(early) := Row(early.ack, early.updatedAt)]
  {
    hide WriteBatches, Write;
    WritePair(early, late);
    WriteTwoBatches([early, late], [late]);
    WriteTwoBatches([early], [late]);
    WriteOne(map[], early);
    WriteOne(map[KeyOf(early) := Row(early.ack, early.updatedAt)], late);
  }

  lemma WritePair(early: Record, late: Record)
    requires Countable(early) && late == early.(updatedAt := early.updatedAt + 1)
    ensures Write(map[], [early, late]) == map[KeyOf(early) := Row(early.ack, late.updatedAt)]
  {
    hide Dedupe;
    DedupePair(early, late);
    DedupeFixesDistinct([late]);
    WriteOne(map[], late);
  }

  lemma DedupePair(early: Record, late: Record)
    requires Countable(early) && late == early.(updatedAt := early.updatedAt + 1)
    ensures Dedupe([early, late]) == [late]
  {
    DedupeFixesDistinct([early]);
    assert [early, late][..1] == [early];
    assert Position([early], KeyOf(late)) == 0;
  }

  lemma WriteTwoBatches(a: seq<Record>, b: seq<Record>)
    ensures WriteBatches(map[], [a]) == Write(map[], a)
    ensures WriteBatches(map[], [a, b]) == Write(Write(map[], a), b)
  {
    hide Write;
    assert [a, b][..1] == [a] && [a][..0] == [];
    assert WriteBatches(map[], [a]) == Write(WriteBatches(map[], [a][..0]), a);
  }
}
