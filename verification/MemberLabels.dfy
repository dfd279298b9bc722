/**
 Group member tags: last write wins by timestamp, and a removed tag stays as a tombstone, a row
 with an empty text that reads hide.
 */
module MemberLabels {
  import opened Types

  datatype Label = Label(group: Jid, member: Jid, text: string, timestamp: int)

  datatype Key = Key(group: Jid, member: Jid)

  type Table = map<Key, Label>

  function KeyOf(l: Label): Key {
    Key(l.group, l.member)
  }

  /** A write takes effect on a free row, and on one that is no newer. */
  predicate Takes(t: Table, l: Label) {
    KeyOf(l) !in t || l.timestamp >= t[KeyOf(l)].timestamp
  }

  function Upsert(t: Table, l: Label): Table {
    if Takes(t, l) then t[KeyOf(l) := l] else t
  }

  function UpsertAll(t: Table, ls: seq<Label>): Table {
    if ls == [] then t else Upsert(UpsertAll(t, ls[..|ls| - 1]), ls[|ls| - 1])
  }

  ghost predicate WellKeyed(t: Table) {
    forall k | k in t :: KeyOf(t[k]) == k
  }

  function ReadLabel(t: Table, k: Key): Option<Label> {
    if k in t && t[k].text != "" then Some(t[k]) else None
  }

  // ---------------------------------------------------------------- last write wins

  function Of(ls: seq<Label>, k: Key): seq<Label> {
    if ls == [] then []
    else
      var rest := Of(ls[..|ls| - 1], k);
      if KeyOf(ls[|ls| - 1]) == k then rest + [ls[|ls| - 1]] else rest
  }

  /** `winner` has the greatest timestamp of the history and is the last to have it. */
  ghost predicate Wins(history: seq<Label>, winner: Label) {
    exists i :: 0 <= i < |history| && WinsAt(history, i) && history[i] == winner
  }

  ghost predicate WinsAt(history: seq<Label>, i: nat)
    requires i < |history|
  {
    && (forall j | 0 <= j < |history| :: history[j].timestamp <= history[i].timestamp)
    && (forall j | i < j < |history| :: history[j].timestamp < history[i].timestamp)
  }

  lemma OnlyWriteWins(l: Label)
    ensures Wins([l], l)
  {
    assert WinsAt([l], 0);
  }

  lemma WinnerAfter(history: seq<Label>, winner: Label, l: Label)
    requires Wins(history, winner)
    ensures Wins(history + [l], if l.timestamp >= winner.timestamp then l else winner)
  {
    var i :| 0 <= i < |history| && WinsAt(history, i) && history[i] == winner;
    assert WinsAt(history + [l], if l.timestamp >= winner.timestamp then |history| else i);
  }

  /** Each row is the greatest timestamp ever applied to it, a tie going to the last applied. */
  lemma {:induction false} LastWriteWins(t: Table, ls: seq<Label>, k: Key)
    ensures var history := (if k in t then [t[k]] else []) + Of(ls, k);
            && (k in UpsertAll(t, ls) <==> history != [])
            && (history != [] ==> Wins(history, UpsertAll(t, ls)[k]))
  {
    hide Wins;
    var first := if k in t then [t[k]] else [];
    if ls == [] {
      assert first + Of(ls, k) == first;
      if k in t {
        OnlyWriteWins(t[k]);
      }
    } else {
      var init, last := ls[..|ls| - 1], ls[|ls| - 1];
      LastWriteWins(t, init, k);
      var before := first + Of(init, k);
      if KeyOf(last) == k {
        assert first + Of(ls, k) == before + [last];
        if before == [] {
          assert before + [last] == [last];
          OnlyWriteWins(last);
        } else {
          WinnerAfter(before, UpsertAll(t, init)[k], last);
        }
      }
    }
  }

  // ---------------------------------------------------------------- convergence

  /** Two writes to one row at the same second are the same write. */
  ghost predicate TieFree(ls: seq<Label>) {
    forall a, b | a in ls && b in ls && KeyOf(a) == KeyOf(b) && a.timestamp == b.timestamp :: a == b
  }

  lemma {:induction false} OfMeaning(ls: seq<Label>, k: Key)
    ensures forall l :: l in Of(ls, k) <==> l in ls && KeyOf(l) == k
  {
    if ls != [] {
      assert ls == ls[..|ls| - 1] + [ls[|ls| - 1]];
      OfMeaning(ls[..|ls| - 1], k);
    }
  }

  lemma WinnerIsUnique(first: seq<Label>, a: seq<Label>, b: seq<Label>, wa: Label, wb: Label)
    requires forall l :: l in a <==> l in b
    requires forall x, y | x in a && y in a && x.timestamp == y.timestamp :: x == y
    requires |first| <= 1 && Wins(first + a, wa) && Wins(first + b, wb)
    ensures wa == wb
  {
    hide Wins;
    WinnerDominates(first, a, wa);
    WinnerDominates(first, b, wb);
  }

  /** A winner is one of the writes, or the row from before and then strictly later than every write. */
  lemma WinnerDominates(first: seq<Label>, a: seq<Label>, w: Label)
    requires |first| <= 1 && Wins(first + a, w)
    ensures forall l | l in a :: l.timestamp <= w.timestamp
    ensures (first == [w] && forall l | l in a :: l.timestamp < w.timestamp)
            || (w in a && forall l | l in first :: l.timestamp <= w.timestamp)
  {
    hide WinsAt;
    var all := first + a;
    var i :| 0 <= i < |all| && WinsAt(all, i) && all[i] == w;
    forall l | l in all ensures l.timestamp <= w.timestamp {
      NoneIsLater(all, i, l);
    }
    if i < |first| {
      forall l | l in a ensures l.timestamp < w.timestamp {
        var p :| 0 <= p < |a| && a[p] == l;
        LaterIsOlder(all, i, |first| + p);
      }
    } else {
      assert w == a[i - |first|];
    }
  }

  lemma NoneIsLater(history: seq<Label>, i: nat, l: Label)
    requires i < |history| && WinsAt(history, i) && l in history
    ensures l.timestamp <= history[i].timestamp
  {
  }

  lemma LaterIsOlder(history: seq<Label>, i: nat, j: nat)
    requires i < j < |history| && WinsAt(history, i)
    ensures history[j].timestamp < history[i].timestamp
  {
  }

  /** The same writes in any order, with any repetition, leave the same table and so the same reads. */
  lemma WritesConverge(t: Table, a: seq<Label>, b: seq<Label>)
    requires TieFree(a) && forall l :: l in a <==> l in b
    ensures UpsertAll(t, a) == UpsertAll(t, b)
    ensures forall k :: ReadLabel(UpsertAll(t, a), k) == ReadLabel(UpsertAll(t, b), k)
  {
    hide UpsertAll, Of, Wins;
    var ta, tb := UpsertAll(t, a), UpsertAll(t, b);
    forall k ensures (k in ta <==> k in tb) && (k in ta ==> ta[k] == tb[k]) {
      var first := if k in t then [t[k]] else [];
      LastWriteWins(t, a, k);
      LastWriteWins(t, b, k);
      OfMeaning(a, k);
      OfMeaning(b, k);
      assert Of(a, k) != [] ==> Of(a, k)[0] in Of(b, k);
      assert Of(b, k) != [] ==> Of(b, k)[0] in Of(a, k);
      if first + Of(a, k) != [] {
        WinnerIsUnique(first, Of(a, k), Of(b, k), ta[k], tb[k]);
      }
    }
  }

  /** Two writes commute exactly when they do not tie on a row that is not newer still. */
  lemma TwoWritesCommuteIff(t: Table, a: Label, b: Label)
    ensures UpsertAll(t, [a, b]) == UpsertAll(t, [b, a])
            <==> (KeyOf(a) != KeyOf(b) || a.timestamp != b.timestamp || a == b
                  || (KeyOf(a) in t && t[KeyOf(a)].timestamp > a.timestamp))
  {
    Two(t, a, b);
    Two(t, b, a);
    var ab, ba := Upsert(Upsert(t, a), b), Upsert(Upsert(t, b), a);
    if KeyOf(a) == KeyOf(b) && a.timestamp == b.timestamp && !(KeyOf(a) in t && t[KeyOf(a)].timestamp > a.timestamp) {
      assert ab[KeyOf(a)] == b && ba[KeyOf(a)] == a;
    } else if KeyOf(a) != KeyOf(b) {
      assert ab == ba;
    }
  }

  lemma Two(t: Table, a: Label, b: Label)
    ensures UpsertAll(t, [a, b]) == Upsert(Upsert(t, a), b)
  {
    assert [a, b][..1] == [a] && [a][..0] == [];
    assert UpsertAll(t, [a]) == Upsert(UpsertAll(t, [a][..0]), a);
  }

  /** A tag once removed stays removed, whatever older writes still arrive. */
  lemma RemovedTagStaysRemoved(t: Table, ls: seq<Label>, k: Key)
    requires k in t && t[k].text == ""
    requires forall l | l in ls && KeyOf(l) == k :: l.timestamp < t[k].timestamp || l.text == ""
    ensures k in UpsertAll(t, ls) && UpsertAll(t, ls)[k].text == ""
    ensures ReadLabel(UpsertAll(t, ls), k) == None
  {
    LastWriteWins(t, ls, k);
    OfMeaning(ls, k);
    var history := [t[k]] + Of(ls, k);
    var i :| 0 <= i < |history| && WinsAt(history, i) && history[i] == UpsertAll(t, ls)[k];
    assert history[0].timestamp <= history[i].timestamp;
    if i > 0 {
      assert history[i] in Of(ls, k);
    }
  }

  // ---------------------------------------------------------------- the store

  /**
   PostgreSQL refuses a statement that comes again to a row it has inserted or updated; a row that
   the guard left alone is free. SQLite applies the rows in turn.
   */
  datatype Driver = Postgres | SQLite

  datatype WriteResult = Stored | EmptyMember | Failed

  ghost predicate DistinctKeys(ls: seq<Label>) {
    forall i, j | 0 <= i < j < |ls| :: KeyOf(ls[i]) != KeyOf(ls[j])
  }

  /** The statement has a row for `k` that takes effect on the table as it was. */
  ghost predicate Touches(t: Table, ls: seq<Label>, k: Key) {
    exists l :: l in ls && KeyOf(l) == k && Takes(t, l)
  }

  /** A row of the statement comes again to one that an earlier row has touched. */
  ghost predicate Clashes(t: Table, ls: seq<Label>) {
    exists n :: 0 <= n < |ls| && Touches(t, ls[..n], KeyOf(ls[n]))
  }

  lemma DistinctNeverClash(t: Table, ls: seq<Label>)
    requires DistinctKeys(ls)
    ensures !Clashes(t, ls)
  {
    forall n | 0 <= n < |ls| ensures !Touches(t, ls[..n], KeyOf(ls[n])) {
      forall l | l in ls[..n] ensures KeyOf(l) != KeyOf(ls[n]) {
        var i :| 0 <= i < n && ls[i] == l;
      }
    }
  }

  /** `touched` are the rows that the statement has changed so far, and `now` agrees with `t` elsewhere. */
  ghost predicate Tracks(t: Table, ls: seq<Label>, touched: set<Key>, now: Table) {
    && (forall k :: k in touched <==> Touches(t, ls, k))
    && (forall k | k !in touched :: (k in now <==> k in t) && (k in t ==> now[k] == t[k]))
  }

  lemma NoRowYet(t: Table, ls: seq<Label>)
    ensures Tracks(t, ls[..0], {}, t) && !Clashes(t, ls[..0])
  {
  }

  lemma OneMoreRow(t: Table, ls: seq<Label>, l: Label, touched: set<Key>, now: Table)
    requires Tracks(t, ls, touched, now)
    ensures Clashes(t, ls + [l]) <==> Clashes(t, ls) || KeyOf(l) in touched
    ensures Tracks(t, ls + [l], if Takes(now, l) then touched + {KeyOf(l)} else touched, Upsert(now, l))
  {
    var more, longer := ls + [l], if Takes(now, l) then touched + {KeyOf(l)} else touched;
    ClashesSnoc(t, ls, l);
    forall k ensures k in longer <==> Touches(t, more, k) {
      TouchesSnoc(t, ls, l, k);
    }
  }

  lemma TouchesSnoc(t: Table, ls: seq<Label>, l: Label, k: Key)
    ensures Touches(t, ls + [l], k) <==> Touches(t, ls, k) || (KeyOf(l) == k && Takes(t, l))
  {
    assert forall x :: x in ls + [l] <==> x in ls || x == l;
  }

  lemma ClashesSnoc(t: Table, ls: seq<Label>, l: Label)
    ensures Clashes(t, ls + [l]) <==> Clashes(t, ls) || Touches(t, ls, KeyOf(l))
  {
    hide Touches;
    var more := ls + [l];
    assert more[..|ls|] == ls && more[|ls|] == l;
    forall n | 0 <= n < |ls| ensures more[..n] == ls[..n] && more[n] == ls[n] {
    }
    if Clashes(t, ls) {
      var n :| 0 <= n < |ls| && Touches(t, ls[..n], KeyOf(ls[n]));
      assert Touches(t, more[..n], KeyOf(more[n]));
    }
    if Touches(t, ls, KeyOf(l)) {
      assert Touches(t, more[..|ls|], KeyOf(more[|ls|]));
    }
    if Clashes(t, more) {
      var n :| 0 <= n < |more| && Touches(t, more[..n], KeyOf(more[n]));
      assert n < |ls| ==> Touches(t, ls[..n], KeyOf(ls[n]));
    }
  }

  function WithMember(ls: seq<Label>): seq<Label> {
    if ls == [] then []
    else
      var rest, last := WithMember(ls[..|ls| - 1]), ls[|ls| - 1];
      if IsEmptyJid(last.member) then rest else rest + [last]
  }

  lemma OfSnoc(ls: seq<Label>, l: Label, k: Key)
    ensures KeyOf(l) == k ==> Of(ls + [l], k) == Of(ls, k) + [l]
    ensures KeyOf(l) != k ==> Of(ls + [l], k) == Of(ls, k)
  {
    assert (ls + [l])[..|ls|] == ls;
  }

  lemma WithMemberSnoc(ls: seq<Label>, l: Label)
    ensures WithMember(ls + [l]) == if l.member.server == Other("") then WithMember(ls) else WithMember(ls) + [l]
  {
    assert (ls + [l])[..|ls|] == ls;
  }

  /** Labels without a member are left out, and the others keep their order for every row. */
  lemma WithMemberMeaning(ls: seq<Label>, k: Key)
    ensures forall l :: l in WithMember(ls) <==> l in ls && l.member.server != Other("")
    ensures Of(WithMember(ls), k) == if k.member.server == Other("") then [] else Of(ls, k)
  {
    WithMemberOnly(ls);
    WithMemberKeepsOrder(ls, k);
  }

  lemma {:induction false} WithMemberOnly(ls: seq<Label>)
    ensures forall l :: l in WithMember(ls) <==> l in ls && l.member.server != Other("")
  {
    if ls != [] {
      assert ls == ls[..|ls| - 1] + [ls[|ls| - 1]];
      WithMemberOnly(ls[..|ls| - 1]);
    }
  }

  lemma {:induction false} WithMemberKeepsOrder(ls: seq<Label>, k: Key)
    ensures Of(WithMember(ls), k) == if k.member.server == Other("") then [] else Of(ls, k)
  {
    if ls != [] {
      var init, last := ls[..|ls| - 1], ls[|ls| - 1];
      WithMemberKeepsOrder(init, k);
      OneMoreWithMember(init, last, k);
      assert init + [last] == ls;
    }
  }

  lemma OneMoreWithMember(ls: seq<Label>, l: Label, k: Key)
    requires Of(WithMember(ls), k) == if k.member.server == Other("") then [] else Of(ls, k)
    ensures Of(WithMember(ls + [l]), k) == if k.member.server == Other("") then [] else Of(ls + [l], k)
  {
    hide Of, WithMember;
    WithMemberSnoc(ls, l);
    OfSnoc(ls, l, k);
    OfSnoc(WithMember(ls), l, k);
  }

  /** PostgreSQL's refusal, by position: an earlier label of the same row takes effect on the table as it was. */
  lemma ClashesMeaning(t: Table, ls: seq<Label>)
    ensures Clashes(t, ls) <==>
            exists i, j :: 0 <= i < j < |ls| && ls[i].group == ls[j].group && ls[i].member == ls[j].member
                           && (Key(ls[i].group, ls[i].member) in t ==>
                                 ls[i].timestamp >= t[Key(ls[i].group, ls[i].member)].timestamp)
  {
    if Clashes(t, ls) {
      var j :| 0 <= j < |ls| && Touches(t, ls[..j], KeyOf(ls[j]));
      var l :| l in ls[..j] && KeyOf(l) == KeyOf(ls[j]) && Takes(t, l);
      var i :| 0 <= i < j && ls[i] == l;
      assert ls[i].group == ls[j].group && ls[i].member == ls[j].member;
    }
    if i, j :| 0 <= i < j < |ls| && ls[i].group == ls[j].group && ls[i].member == ls[j].member
               && (Key(ls[i].group, ls[i].member) in t ==>
                     ls[i].timestamp >= t[Key(ls[i].group, ls[i].member)].timestamp) {
      assert ls[..j][i] in ls[..j];
      assert Touches(t, ls[..j], KeyOf(ls[j]));
    }
  }

  class SqlGroupMemberLabelStore {
    const driver: Driver
    var rows: Table

    constructor (driver: Driver)
      ensures this.driver == driver && rows == map[]
    {
      this.driver, rows := driver, map[];
    }

    /** One INSERT for all rows, as a whole or not at all; `works` is whether the database takes it. */
    method UpsertMany(labels: seq<Label>, works: bool) returns (ok: bool)
      modifies this
      ensures rows == if ok then UpsertAll(old(rows), labels) else old(rows)
      ensures ok <==> labels == [] || (works && (driver.Postgres? ==> !Clashes(old(rows), labels)))
    {
      hide Clashes, Tracks;
      if labels == [] {
        return true;
      }
      var touched: set<Key>, clash, written := {}, false, rows;
      NoRowYet(rows, labels);
      for i := 0 to |labels|
        invariant rows == old(rows) && written == UpsertAll(rows, labels[..i])
        invariant Tracks(rows, labels[..i], touched, written)
        invariant clash <==> Clashes(rows, labels[..i])
      {
        assert labels[..i + 1] == labels[..i] + [labels[i]];
        assert labels[..i + 1][..i] == labels[..i];
        OneMoreRow(rows, labels[..i], labels[i], touched, written);
        var key := KeyOf(labels[i]);
        clash := clash || key in touched;
        if key !in written || labels[i].timestamp >= written[key].timestamp {
          written := written[key := labels[i]];
          touched := touched + {key};
        }
      }
      assert labels[..|labels|] == labels;
      if clash && driver == Postgres {
        return false;
      }
      if !works {
        return false;
      }
      rows := written;
      return true;
    }

    method UpsertGroupMemberLabel(tag: Label, works: bool) returns (result: WriteResult)
      modifies this
      ensures result == if IsEmptyJid(tag.member) then EmptyMember else if works then Stored else Failed
      ensures rows == if result.Stored? then Upsert(old(rows), tag) else old(rows)
    {
      if IsEmptyJid(tag.member) {
        return EmptyMember;
      }
      assert UpsertAll(rows, [tag]) == Upsert(UpsertAll(rows, [tag][..0]), tag);
      DistinctNeverClash(rows, [tag]);
      var ok := UpsertMany([tag], works);
      return if ok then Stored else Failed;
    }

    /** Labels without a member are skipped. */
    method UpsertGroupMemberLabels(labels: seq<Label>, works: bool) returns (ok: bool)
      modifies this
      ensures rows == if ok then UpsertAll(old(rows), WithMember(labels)) else old(rows)
      ensures ok <==>
                || WithMember(labels) == []
                || (works && (driver.Postgres? ==> !Clashes(old(rows), WithMember(labels))))
    {
      var valid := [];
      for i := 0 to |labels|
        invariant valid == WithMember(labels[..i])
      {
        assert labels[..i + 1][..i] == labels[..i];
        if IsEmptyJid(labels[i].member) {
          continue;
        }
        valid := valid + [labels[i]];
      }
      assert labels[..|labels|] == labels;
      ok := UpsertMany(valid, works);
    }

    /** All visible tags of a group, in the order the database returns its rows. */
    method GetGroupMemberLabels(group: Jid) returns (result: seq<Label>)
      requires WellKeyed(rows)
      ensures forall l :: l in result <==>
                && l.group == group && l.text != ""
                && Key(l.group, l.member) in rows && rows[Key(l.group, l.member)] == l
      ensures DistinctKeys(result)
    {
      result := [];
      var todo := set k | k in rows && k.group == group;
      while todo != {}
        invariant todo <= set k | k in rows && k.group == group
        invariant forall l :: l in result <==>
                    l.group == group && KeyOf(l) !in todo && ReadLabel(rows, KeyOf(l)) == Some(l)
        invariant DistinctKeys(result)
      {
        var k :| k in todo;
        todo := todo - {k};
        assert forall i | 0 <= i < |result| :: result[i] in result;
        if rows[k].text == "" {
          continue;
        }
        result := result + [rows[k]];
      }
    }

    method GetGroupMemberLabel(group: Jid, member: Jid) returns (found: Option<Label>)
      ensures found == if Key(group, member) in rows && rows[Key(group, member)].text != ""
                       then Some(rows[Key(group, member)]) else None
    {
      if Key(group, member) !in rows {
        return None;
      }
      var row := rows[Key(group, member)];
      if row.text == "" {
        return None;
      }
      return Some(row);
    }

    method DeleteGroupMemberLabel(group: Jid, member: Jid)
      modifies this
      ensures rows == old(rows) - {Key(group, member)}
    {
      rows := rows - {Key(group, member)};
    }

    method DeleteGroupMemberLabels(group: Jid)
      modifies this
      ensures rows == map k | k in old(rows) && k.group != group :: old(rows)[k]
    {
      rows := map k | k in rows && k.group != group :: rows[k];
    }
  }
}
