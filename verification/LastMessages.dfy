/**
 The last message of each chat when @lid chats are merged with the phone number behind them:
 two plain queries and a merge in memory, in place of one GROUP BY over a CASE expression.

 `lids` is the map from @lid users to phone numbers; SQL returns rows in any order.
 */
module LastMessages {
  import opened Types
  import opened MessageTable

  type LidMap = map<string, string>

  // ---------------------------------------------------------------- addresses

  predicate IsMapped(lids: LidMap, jid: Jid) {
    jid.server.Lid? && jid.user in lids && lids[jid.user] != ""
  }

  /** canonicalizeJID: the phone address behind an @lid, with its device, when the map knows it. */
  function Canonical(lids: LidMap, jid: Jid): Jid {
    if IsMapped(lids, jid) then Jid(lids[jid.user], jid.device, Phone) else jid
  }

  /**
   The CASE expression of the single query. It looks the text before '@' up in the map, which a
   device suffix spoils, takes an empty number as it comes and yields no device.
   */
  function CaseExpression(lids: LidMap, jid: Jid): Jid {
    if jid.server.Lid? && jid.device == 0 && jid.user in lids then Jid(lids[jid.user], 0, Phone) else jid
  }

  /** Where the two agree: no device on a mapped @lid, and no empty number. */
  predicate KeysAgree(lids: LidMap, jid: Jid) {
    jid.server.Lid? && jid.user in lids ==> (jid.device == 0 <==> lids[jid.user] != "")
  }

  /** Only the address of a mapped @lid changes, and it keeps its device. */
  lemma CanonicalMeaning(lids: LidMap, jid: Jid)
    ensures jid.server != Lid || jid.user !in lids ==> Canonical(lids, jid) == jid
    ensures jid.server == Lid && jid.user in lids && lids[jid.user] == "" ==> Canonical(lids, jid) == jid
    ensures forall pn | jid.server == Lid && jid.user in lids && lids[jid.user] == pn != "" ::
              Canonical(lids, jid) == Jid(pn, jid.device, Phone)
  {
  }

  lemma CanonicalIsCaseIff(lids: LidMap, jid: Jid)
    ensures Canonical(lids, jid) == CaseExpression(lids, jid) <==> KeysAgree(lids, jid)
  {
  }

  lemma CanonicalIdempotent(lids: LidMap, jid: Jid)
    ensures Canonical(lids, Canonical(lids, jid)) == Canonical(lids, jid)
  {
  }

  /** reverseLookupLIDs: every @lid address mapped to this number. */
  function ReverseLookup(lids: LidMap, pn: string): set<Jid> {
    set l | l in lids && lids[l] == pn :: Jid(l, 0, Lid)
  }

  // ---------------------------------------------------------------- the filter of one chat

  /** The addresses GetAllMessages compares the jid column with in merge mode. */
  function ChatFilter(lids: LidMap, target: Jid): set<Jid> {
    {Canonical(lids, target)} + ReverseLookup(lids, Canonical(lids, target).user)
  }

  /**
   The list of addresses selects exactly the rows of the target's chat if and only if no other
   @lid is mapped to the target's user part, or the target is a phone address without device.
   */
  lemma ChatFilterExactIff(lids: LidMap, target: Jid)
    ensures var c := Canonical(lids, target);
            (forall r :: r in ChatFilter(lids, target) <==> Canonical(lids, r) == c)
            <==> (ReverseLookup(lids, c.user) <= {c} || (c.server.Phone? && c.device == 0 && c.user != ""))
  {
    var c := Canonical(lids, target);
    var rev := ReverseLookup(lids, c.user);
    if rev <= {c} || (c.server.Phone? && c.device == 0 && c.user != "") {
      forall r ensures r in ChatFilter(lids, target) <==> Canonical(lids, r) == c {
        if Canonical(lids, r) == c && r != c {
          assert Jid(r.user, 0, Lid) in rev;
        }
      }
    } else {
      var r :| r in rev && r != c;
      assert r in ChatFilter(lids, target) && Canonical(lids, r) != c;
    }
  }

  // ---------------------------------------------------------------- the filter of a chat list

  function Canonicals(lids: LidMap, filter: seq<Jid>): set<Jid> {
    set j | j in filter :: Canonical(lids, j)
  }

  function LidTargets(lids: LidMap, filter: seq<Jid>): set<Jid> {
    set c, l | c in Canonicals(lids, filter) && l in lids && lids[l] == c.user :: Jid(l, 0, Lid)
  }

  /** What the two queries select between them: an @lid row by the looked-up @lids, any other by the canonical list. */
  predicate SelectsJid(lids: LidMap, filter: seq<Jid>, r: Jid) {
    filter == [] || if r.server.Lid? then r in LidTargets(lids, filter) else r in Canonicals(lids, filter)
  }

  /** What the caller asked for: rows of the same chat as one of the listed addresses. */
  predicate AsksFor(lids: LidMap, filter: seq<Jid>, r: Jid) {
    filter == [] || Canonical(lids, r) in Canonicals(lids, filter)
  }

  /** Each listed chat is a phone number without device. */
  predicate PhoneFilter(lids: LidMap, filter: seq<Jid>) {
    forall j | j in filter ::
      var c := Canonical(lids, j); c.server.Phone? && c.device == 0 && c.user != ""
  }

  /** Some @lid is mapped to this number. */
  ghost predicate IsNumber(lids: LidMap, user: string) {
    exists l :: l in lids && lids[l] == user
  }

  /**
   One condition on each listed chat. An @lid is not listed, unless it has no device, is mapped to
   the empty number and a chat without user is listed. If some @lid is mapped to the chat's number,
   that number without device is listed, and the chat itself is not another device of it. With a
   chat without user, every @lid mapped to the empty number is listed.
   */
  ghost predicate FaithfulChat(lids: LidMap, cs: set<Jid>, c: Jid) {
    && (c.server.Lid? ==>
          c.device == 0 && c.user in lids && lids[c.user] == "" && exists e :: e in cs && e.user == "")
    && (c.user != "" && IsNumber(lids, c.user) ==>
          Jid(c.user, 0, Phone) in cs && (c.server.Phone? ==> c.device == 0))
    && (c.user == "" ==> forall l | l in lids && lids[l] == "" :: Jid(l, 0, Lid) in cs)
  }

  ghost predicate FaithfulFilter(lids: LidMap, filter: seq<Jid>) {
    var cs := Canonicals(lids, filter);
    forall c | c in cs :: FaithfulChat(lids, cs, c)
  }

  ghost predicate SelectsExactly(lids: LidMap, filter: seq<Jid>) {
    forall r :: SelectsJid(lids, filter, r) <==> AsksFor(lids, filter, r)
  }

  /** A canonical @lid is not mapped to a number. */
  lemma CanonicalLidIsUnmapped(lids: LidMap, filter: seq<Jid>, c: Jid)
    requires c in Canonicals(lids, filter)
    ensures Canonical(lids, c) == c && !IsMapped(lids, c)
  {
    var j :| j in filter && c == Canonical(lids, j);
    CanonicalIdempotent(lids, j);
  }

  lemma FaithfulSelects(lids: LidMap, filter: seq<Jid>, r: Jid)
    requires filter != [] && FaithfulFilter(lids, filter)
    ensures SelectsJid(lids, filter, r) <==> AsksFor(lids, filter, r)
  {
    var cs, targets := Canonicals(lids, filter), LidTargets(lids, filter);
    if r in targets {
      var c, l :| c in cs && l in lids && lids[l] == c.user && r == Jid(l, 0, Lid);
      assert FaithfulChat(lids, cs, c);
    }
    if Canonical(lids, r) in cs && r.server.Lid? {
      assert FaithfulChat(lids, cs, Canonical(lids, r));
    }
  }

  lemma ExactIsFaithful(lids: LidMap, filter: seq<Jid>, c: Jid)
    requires filter != [] && SelectsExactly(lids, filter) && c in Canonicals(lids, filter)
    ensures FaithfulChat(lids, Canonicals(lids, filter), c)
  {
    var cs := Canonicals(lids, filter);
    CanonicalLidIsUnmapped(lids, filter, c);
    if c.server.Lid? {
      assert AsksFor(lids, filter, c) && SelectsJid(lids, filter, c);
    }
    forall l | l in lids && lids[l] == c.user
      ensures Canonical(lids, Jid(l, 0, Lid)) in cs && (c.user != "" && c.server.Phone? ==> c.device == 0)
    {
      assert SelectsJid(lids, filter, Jid(l, 0, Lid)) && AsksFor(lids, filter, Jid(l, 0, Lid));
      if c.user != "" && c.server.Phone? {
        var r := Jid(l, c.device, Lid);
        assert Canonical(lids, r) == c;
        assert AsksFor(lids, filter, r) && SelectsJid(lids, filter, r);
      }
    }
  }

  lemma SelectionExactIff(lids: LidMap, filter: seq<Jid>)
    requires filter != []
    ensures SelectsExactly(lids, filter) <==> FaithfulFilter(lids, filter)
  {
    if FaithfulFilter(lids, filter) {
      forall r ensures SelectsJid(lids, filter, r) <==> AsksFor(lids, filter, r) {
        FaithfulSelects(lids, filter, r);
      }
    }
    if SelectsExactly(lids, filter) {
      forall c | c in Canonicals(lids, filter) ensures FaithfulChat(lids, Canonicals(lids, filter), c) {
        ExactIsFaithful(lids, filter, c);
      }
    }
  }

  lemma PhoneFilterSelectsExactly(lids: LidMap, filter: seq<Jid>)
    requires PhoneFilter(lids, filter)
    ensures forall r :: SelectsJid(lids, filter, r) <==> AsksFor(lids, filter, r)
  {
    if filter != [] {
      forall c | c in Canonicals(lids, filter) ensures c.server.Phone? && c.device == 0 && c.user != "" {
      }
      SelectionExactIff(lids, filter);
    }
  }

  /** A filter on an @lid the map does not know finds nothing, not even that chat's own rows. */
  lemma UnmappedLidFilterFindsNothing(lids: LidMap, j: Jid, r: Jid)
    requires j.server.Lid? && j.user !in lids && forall l | l in lids :: lids[l] != j.user
    ensures !SelectsJid(lids, [j], r) && AsksFor(lids, [j], j)
  {
  }

  // ---------------------------------------------------------------- the grouped query

  /** Which expression the rows are grouped by. */
  datatype Grouping = ByCanonical | ByCase

  function GroupKey(lids: LidMap, g: Grouping, jid: Jid): Jid {
    if g.ByCanonical? then Canonical(lids, jid) else CaseExpression(lids, jid)
  }

  /** primaryPriorityExpression: an @lid row loses a tie. */
  function Priority(jid: Jid): nat {
    if jid.server.Lid? then 1 else 0
  }

  /** Later first, and on a tie an address that is no @lid: `a` does not come after `b`. */
  predicate NotAfter(a: Row, b: Row) {
    a.message.timestamp > b.message.timestamp
    || (a.message.timestamp == b.message.timestamp && Priority(a.jid) <= Priority(b.jid))
  }

  /** The rows a query ranges over. */
  predicate Ranges(lids: LidMap, filter: seq<Jid>, row: Row) {
    row.message.isReal && SelectsJid(lids, filter, row.jid)
  }

  ghost predicate IsLatest(t: Table, lids: LidMap, filter: seq<Jid>, g: Grouping, key: Jid, id: string) {
    && id in t && Ranges(lids, filter, t[id]) && GroupKey(lids, g, t[id].jid) == key
    && forall other | other in t && Ranges(lids, filter, t[other]) && GroupKey(lids, g, t[other].jid) == key ::
         NotAfter(t[id], t[other])
  }

  /** `m` is the stored message of the latest row of its chat, with the chat rewritten to the group key. */
  ghost predicate IsGroupLatest(t: Table, lids: LidMap, filter: seq<Jid>, g: Grouping, m: Message) {
    IsLatest(t, lids, filter, g, m.chat, m.id) && m == t[m.id].message.(chat := m.chat)
  }

  ghost predicate HasChat(out: seq<Message>, chat: Jid) {
    exists m :: m in out && m.chat == chat
  }

  ghost predicate DistinctChats(out: seq<Message>) {
    forall i, j | 0 <= i < j < |out| :: out[i].chat != out[j].chat
  }

  /** One message per group that has a row, and it is the group's latest. */
  ghost predicate IsGroupBy(t: Table, lids: LidMap, filter: seq<Jid>, g: Grouping, out: seq<Message>) {
    && DistinctChats(out)
    && (forall m | m in out :: IsGroupLatest(t, lids, filter, g, m))
    && (forall id | id in t && Ranges(lids, filter, t[id]) :: HasChat(out, GroupKey(lids, g, t[id].jid)))
  }

  /** Whether a message belongs to the result, in terms of the rows: is it real, and of an asked chat? */
  ghost predicate IsAsked(lids: LidMap, filter: seq<Jid>, row: Row) {
    row.message.isReal && (filter == [] || exists j :: j in filter && Canonical(lids, j) == Canonical(lids, row.jid))
  }

  /**
   What the grouped query means for the rows, with no filter or one of phone numbers: each message is
   that of a stored real row of an asked chat, with the chat's address; no other such row of the chat
   is later, nor as late and no @lid while this one is; and every such row's chat is there.
   */
  lemma GroupByMeaning(t: Table, lids: LidMap, filter: seq<Jid>, out: seq<Message>)
    requires PhoneFilter(lids, filter) && IsGroupBy(t, lids, filter, ByCanonical, out)
    ensures forall m | m in out ::
              && m.id in t && IsAsked(lids, filter, t[m.id]) && m.chat == Canonical(lids, t[m.id].jid)
              && m == t[m.id].message.(chat := m.chat)
              && forall id | id in t && IsAsked(lids, filter, t[id]) && Canonical(lids, t[id].jid) == m.chat ::
                   t[id].message.timestamp < m.timestamp
                   || (t[id].message.timestamp == m.timestamp && (t[m.id].jid.server.Lid? ==> t[id].jid.server.Lid?))
    ensures forall id | id in t && IsAsked(lids, filter, t[id]) ::
              exists m :: m in out && m.chat == Canonical(lids, t[id].jid)
    ensures forall i, k | 0 <= i < k < |out| :: out[i].chat != out[k].chat
  {
    hide SelectsJid;
    PhoneFilterSelectsExactly(lids, filter);
    forall row: Row ensures IsAsked(lids, filter, row) <==> Ranges(lids, filter, row) {
      assert SelectsJid(lids, filter, row.jid) <==> AsksFor(lids, filter, row.jid);
    }
    forall m | m in out
      ensures m.id in t && IsAsked(lids, filter, t[m.id]) && m.chat == Canonical(lids, t[m.id].jid)
      ensures m == t[m.id].message.(chat := m.chat)
      ensures forall id | id in t && IsAsked(lids, filter, t[id]) && Canonical(lids, t[id].jid) == m.chat ::
                t[id].message.timestamp < m.timestamp
                || (t[id].message.timestamp == m.timestamp && (t[m.id].jid.server.Lid? ==> t[id].jid.server.Lid?))
    {
      assert IsGroupLatest(t, lids, filter, ByCanonical, m);
      forall id | id in t && IsAsked(lids, filter, t[id]) && Canonical(lids, t[id].jid) == m.chat
        ensures NotAfter(t[m.id], t[id])
      {
      }
    }
    forall id | id in t && IsAsked(lids, filter, t[id])
      ensures exists m :: m in out && m.chat == Canonical(lids, t[id].jid)
    {
      assert HasChat(out, GroupKey(lids, ByCanonical, t[id].jid));
    }
  }

  // ---------------------------------------------------------------- the two queries

  ghost predicate Matches(lids: LidMap, filter: seq<Jid>, lid: bool, row: Row) {
    Ranges(lids, filter, row) && row.jid.server.Lid? == lid
  }

  /** One latest message for each raw address. */
  ghost predicate IsDistinctLatest(t: Table, lids: LidMap, filter: seq<Jid>, lid: bool, out: seq<Message>) {
    && (forall m | m in out :: m.id in t && m == t[m.id].message && Matches(lids, filter, lid, t[m.id]))
    && (forall i, j | 0 <= i < j < |out| :: t[out[i].id].jid != t[out[j].id].jid)
    && (forall id | id in t && Matches(lids, filter, lid, t[id]) :: Covered(t, out, t[id]))
  }

  ghost predicate Covered(t: Table, out: seq<Message>, row: Row) {
    exists m :: m in out && m.id in t && t[m.id].jid == row.jid && m.timestamp >= row.message.timestamp
  }

  // ---------------------------------------------------------------- the merge

  function ByChat(byJid: map<Jid, Message>, m: Message): map<Jid, Message> {
    byJid[m.chat := m]
  }

  function Primary(primary: seq<Message>): map<Jid, Message> {
    if primary == [] then map[] else ByChat(Primary(primary[..|primary| - 1]), primary[|primary| - 1])
  }

  function Merged(primary: seq<Message>, secondary: seq<Message>): map<Jid, Message> {
    if secondary == [] then Primary(primary)
    else
      var rest, m := Merged(primary, secondary[..|secondary| - 1]), secondary[|secondary| - 1];
      if m.chat !in rest || m.timestamp > rest[m.chat].timestamp then ByChat(rest, m) else rest
  }

  /** Per chat, the later message of the two lists; on a tie, the primary one. */
  ghost predicate MergesLatest(primary: seq<Message>, secondary: seq<Message>, byJid: map<Jid, Message>) {
    && (forall k | k in byJid :: byJid[k].chat == k && (byJid[k] in primary || byJid[k] in secondary))
    && (forall p | p in primary :: p.chat in byJid && byJid[p.chat].timestamp >= p.timestamp
                                   && (byJid[p.chat].timestamp == p.timestamp ==> byJid[p.chat] == p))
    && (forall s | s in secondary :: s.chat in byJid && byJid[s.chat].timestamp >= s.timestamp)
  }

  lemma {:induction false} PrimaryKeepsAll(primary: seq<Message>)
    requires DistinctChats(primary)
    ensures MergesLatest(primary, [], Primary(primary))
  {
    if primary != [] {
      var init, last := primary[..|primary| - 1], primary[|primary| - 1];
      assert primary == init + [last];
      PrimaryKeepsAll(init);
    }
  }

  lemma {:induction false} MergeIsLatest(primary: seq<Message>, secondary: seq<Message>)
    requires DistinctChats(primary)
    ensures MergesLatest(primary, secondary, Merged(primary, secondary))
  {
    if secondary == [] {
      PrimaryKeepsAll(primary);
    } else {
      assert secondary == secondary[..|secondary| - 1] + [secondary[|secondary| - 1]];
      MergeIsLatest(primary, secondary[..|secondary| - 1]);
    }
  }

  lemma {:induction false} MergedByChat(primary: seq<Message>, secondary: seq<Message>)
    ensures forall k | k in Merged(primary, secondary) :: Merged(primary, secondary)[k].chat == k
    decreases |primary| + |secondary|
  {
    if secondary != [] {
      MergedByChat(primary, secondary[..|secondary| - 1]);
    } else if primary != [] {
      MergedByChat(primary[..|primary| - 1], []);
      assert Merged(primary[..|primary| - 1], []) == Primary(primary[..|primary| - 1]);
    }
  }

  // ---------------------------------------------------------------- the refinement

  /** The messages of the @lid query with their chats rewritten. */
  function Rewritten(lids: LidMap, messages: seq<Message>): seq<Message> {
    seq(|messages|, i requires 0 <= i < |messages| => messages[i].(chat := Canonical(lids, messages[i].chat)))
  }

  /** Each fetched message names the chat under whose address it was found. */
  ghost predicate FetchedInStep(t: Table, lids: LidMap, primary: seq<Message>, found: seq<Message>) {
    && (forall m | m in primary :: m.id in t && t[m.id].jid == m.chat)
    && (forall m | m in found :: m.id in t && Canonical(lids, t[m.id].jid) == Canonical(lids, m.chat))
  }

  lemma ConsistentIsInStep(t: Table, lids: LidMap, filter: seq<Jid>, primary: seq<Message>, found: seq<Message>)
    requires Consistent(t)
    requires IsDistinctLatest(t, lids, filter, false, primary) && IsDistinctLatest(t, lids, filter, true, found)
    ensures FetchedInStep(t, lids, primary, found)
  {
  }

  lemma NonLidChatsAreDistinct(t: Table, lids: LidMap, filter: seq<Jid>, primary: seq<Message>)
    requires IsDistinctLatest(t, lids, filter, false, primary) && FetchedInStep(t, lids, primary, [])
    ensures DistinctChats(primary)
  {
    forall i, j | 0 <= i < j < |primary| ensures primary[i].chat != primary[j].chat {
      assert primary[i] in primary && primary[j] in primary;
      assert t[primary[i].id].jid == primary[i].chat;
    }
  }

  /** A message that won the merge is at least as late as every row of its group, non-@lid first on a tie. */
  lemma WinnerIsLatest(t: Table, lids: LidMap, filter: seq<Jid>, primary: seq<Message>, found: seq<Message>,
                       byJid: map<Jid, Message>, k: Jid)
    requires FetchedInStep(t, lids, primary, found) && k in byJid
    requires IsDistinctLatest(t, lids, filter, false, primary) && IsDistinctLatest(t, lids, filter, true, found)
    requires MergesLatest(primary, Rewritten(lids, found), byJid)
    ensures IsGroupLatest(t, lids, filter, ByCanonical, byJid[k])
  {
    var m, secondary := byJid[k], Rewritten(lids, found);
    WinnerIsStored(t, lids, filter, primary, found, m);
    forall other | other in t && Ranges(lids, filter, t[other]) && Canonical(lids, t[other].jid) == k
      ensures NotAfter(t[m.id], t[other])
    {
      RowIsCovered(t, lids, filter, primary, found, byJid, other);
    }
  }

  lemma WinnerIsStored(t: Table, lids: LidMap, filter: seq<Jid>, primary: seq<Message>, found: seq<Message>, m: Message)
    requires FetchedInStep(t, lids, primary, found)
    requires IsDistinctLatest(t, lids, filter, false, primary) && IsDistinctLatest(t, lids, filter, true, found)
    requires m in primary || m in Rewritten(lids, found)
    ensures m.id in t && Ranges(lids, filter, t[m.id]) && Canonical(lids, t[m.id].jid) == m.chat
    ensures m == t[m.id].message.(chat := m.chat)
    ensures m !in primary ==> t[m.id].jid.server.Lid?
  {
    if m !in primary {
      var i :| 0 <= i < |found| && m == Rewritten(lids, found)[i];
      assert found[i] in found;
    }
  }

  /** Every row in range is covered by the merge winner of its group; a tie with a non-@lid row is a primary winner. */
  lemma RowIsCovered(t: Table, lids: LidMap, filter: seq<Jid>, primary: seq<Message>, found: seq<Message>,
                     byJid: map<Jid, Message>, id: string)
    requires FetchedInStep(t, lids, primary, found) && id in t && Ranges(lids, filter, t[id])
    requires IsDistinctLatest(t, lids, filter, false, primary) && IsDistinctLatest(t, lids, filter, true, found)
    requires MergesLatest(primary, Rewritten(lids, found), byJid)
    ensures var k := Canonical(lids, t[id].jid);
            && k in byJid && byJid[k].timestamp >= t[id].message.timestamp
            && (!t[id].jid.server.Lid? && byJid[k].timestamp == t[id].message.timestamp ==> byJid[k] in primary)
  {
    hide MergesLatest, IsDistinctLatest;
    var row, k := t[id], Canonical(lids, t[id].jid);
    if row.jid.server.Lid? {
      var m := RowIsFetched(t, lids, filter, true, found, id);
      var i :| 0 <= i < |found| && found[i] == m;
      assert Rewritten(lids, found)[i].chat == k;
      WinsOver(primary, Rewritten(lids, found), byJid, Rewritten(lids, found)[i]);
    } else {
      var m := RowIsFetched(t, lids, filter, false, primary, id);
      WinsOver(primary, Rewritten(lids, found), byJid, m);
    }
  }

  lemma RowIsFetched(t: Table, lids: LidMap, filter: seq<Jid>, lid: bool, out: seq<Message>, id: string)
    returns (m: Message)
    requires id in t && Ranges(lids, filter, t[id]) && t[id].jid.server.Lid? == lid
    requires IsDistinctLatest(t, lids, filter, lid, out)
    ensures m in out && m.id in t && t[m.id].jid == t[id].jid && m.timestamp >= t[id].message.timestamp
  {
    assert Covered(t, out, t[id]);
    m :| m in out && m.id in t && t[m.id].jid == t[id].jid && m.timestamp >= t[id].message.timestamp;
  }

  lemma WinsOver(primary: seq<Message>, secondary: seq<Message>, byJid: map<Jid, Message>, m: Message)
    requires MergesLatest(primary, secondary, byJid) && (m in primary || m in secondary)
    ensures m.chat in byJid && byJid[m.chat].timestamp >= m.timestamp
    ensures m in primary && byJid[m.chat].timestamp == m.timestamp ==> byJid[m.chat] == m
  {
  }

  /** `out` lists the values of the merge, each once. */
  ghost predicate ListsValues(out: seq<Message>, byJid: map<Jid, Message>) {
    && DistinctChats(out)
    && (forall m | m in out :: m.chat in byJid && byJid[m.chat] == m)
    && (forall k | k in byJid :: HasChat(out, k))
  }

  /**
   The two-query merge is the grouped query: for any table and filter whose fetched messages name
   their own chats, it returns exactly one message per chat in range, its latest, and a phone row
   rather than an @lid row on a tie.
   */
  lemma InStepMergeRefinesGroupBy(t: Table, lids: LidMap, filter: seq<Jid>, primary: seq<Message>, found: seq<Message>,
                                  out: seq<Message>)
    requires FetchedInStep(t, lids, primary, found)
    requires IsDistinctLatest(t, lids, filter, false, primary) && IsDistinctLatest(t, lids, filter, true, found)
    requires ListsValues(out, Merged(primary, Rewritten(lids, found)))
    ensures IsGroupBy(t, lids, filter, ByCanonical, out)
  {
    var secondary := Rewritten(lids, found);
    var byJid := Merged(primary, secondary);
    NonLidChatsAreDistinct(t, lids, filter, primary);
    MergeIsLatest(primary, secondary);
    forall m | m in out ensures IsGroupLatest(t, lids, filter, ByCanonical, m) {
      assert m == byJid[m.chat];
      WinnerIsLatest(t, lids, filter, primary, found, byJid, m.chat);
    }
    forall id | id in t && Ranges(lids, filter, t[id]) ensures HasChat(out, Canonical(lids, t[id].jid)) {
      RowIsCovered(t, lids, filter, primary, found, byJid, id);
    }
  }

  /** So it is for every table whose jid columns match its messages, and every filter. */
  lemma MergeRefinesGroupBy(t: Table, lids: LidMap, filter: seq<Jid>, primary: seq<Message>, found: seq<Message>,
                            out: seq<Message>)
    requires Consistent(t)
    requires IsDistinctLatest(t, lids, filter, false, primary) && IsDistinctLatest(t, lids, filter, true, found)
    requires ListsValues(out, Merged(primary, Rewritten(lids, found)))
    ensures IsGroupBy(t, lids, filter, ByCanonical, out)
  {
    ConsistentIsInStep(t, lids, filter, primary, found);
    InStepMergeRefinesGroupBy(t, lids, filter, primary, found, out);
  }

  /** And for every table the store reaches by upserts in which no message changes its chat. */
  lemma HistoryMergesExactly(messages: seq<Message>, lids: LidMap, filter: seq<Jid>,
                             primary: seq<Message>, found: seq<Message>, out: seq<Message>)
    requires StaysPut(map[], messages)
    requires var t := UpsertAll(map[], messages);
             IsDistinctLatest(t, lids, filter, false, primary) && IsDistinctLatest(t, lids, filter, true, found)
    requires ListsValues(out, Merged(primary, Rewritten(lids, found)))
    ensures IsGroupBy(UpsertAll(map[], messages), lids, filter, ByCanonical, out)
  {
    HistoryKeepsConsistent(map[], messages);
    MergeRefinesGroupBy(UpsertAll(map[], messages), lids, filter, primary, found, out);
  }

  /**
   For one chat the condition is exact: with a filter on a single phone number, the merge is the
   grouped query if and only if each fetched message names that chat. With several chats in range
   there is no such converse: a fetched message that names a wrong chat does no harm while a later
   one of its own chat, and a later one of the chat it names, hide it (HiddenMoveIsHarmless).
   */
  lemma OneChatMergesExactlyIff(t: Table, lids: LidMap, j: Jid, primary: seq<Message>, found: seq<Message>,
                                out: seq<Message>)
    requires PhoneFilter(lids, [j])
    requires IsDistinctLatest(t, lids, [j], false, primary) && IsDistinctLatest(t, lids, [j], true, found)
    requires ListsValues(out, Merged(primary, Rewritten(lids, found)))
    ensures IsGroupBy(t, lids, [j], ByCanonical, out) <==> FetchedInStep(t, lids, primary, found)
  {
    hide Merged;
    if FetchedInStep(t, lids, primary, found) {
      InStepMergeRefinesGroupBy(t, lids, [j], primary, found, out);
    } else if IsGroupBy(t, lids, [j], ByCanonical, out) {
      var c, byJid := Canonical(lids, j), Merged(primary, Rewritten(lids, found));
      OneChatInRange(lids, j);
      assert forall m | m in out :: m.chat == c by {
        assert forall m | m in out :: IsGroupLatest(t, lids, [j], ByCanonical, m);
      }
      MergedHasAll(primary, Rewritten(lids, found));
      forall m | m in primary ensures m.id in t && t[m.id].jid == m.chat {
        assert HasChat(out, m.chat);
      }
      forall m | m in found ensures m.id in t && Canonical(lids, t[m.id].jid) == Canonical(lids, m.chat) {
        var i :| 0 <= i < |found| && found[i] == m;
        assert Rewritten(lids, found)[i] in Rewritten(lids, found);
        assert HasChat(out, Canonical(lids, m.chat));
      }
      assert false;
    }
  }

  lemma OneChatInRange(lids: LidMap, j: Jid)
    requires PhoneFilter(lids, [j])
    ensures forall row | Ranges(lids, [j], row) :: Canonical(lids, row.jid) == Canonical(lids, j)
    ensures forall row | Ranges(lids, [j], row) && !row.jid.server.Lid? :: row.jid == Canonical(lids, j)
  {
    PhoneFilterSelectsExactly(lids, [j]);
    assert j in [j];
    assert Canonicals(lids, [j]) == {Canonical(lids, j)};
    assert forall row | Ranges(lids, [j], row) :: SelectsJid(lids, [j], row.jid) && AsksFor(lids, [j], row.jid);
  }

  lemma {:induction false} MergedHasAll(primary: seq<Message>, secondary: seq<Message>)
    ensures forall m | m in primary || m in secondary :: m.chat in Merged(primary, secondary)
    decreases |primary| + |secondary|
  {
    if secondary != [] {
      assert secondary == secondary[..|secondary| - 1] + [secondary[|secondary| - 1]];
      MergedHasAll(primary, secondary[..|secondary| - 1]);
    } else if primary != [] {
      assert primary == primary[..|primary| - 1] + [primary[|primary| - 1]];
      MergedHasAll(primary[..|primary| - 1], []);
      assert Merged(primary[..|primary| - 1], []) == Primary(primary[..|primary| - 1]);
    }
  }

  /**
   Against the CASE expression still in the source: the merge's result is the grouped query's
   result if and only if every row in range has a key on which the two expressions agree.
   */
  lemma MergeIsCaseGroupByIff(t: Table, lids: LidMap, filter: seq<Jid>, out: seq<Message>)
    requires IsGroupBy(t, lids, filter, ByCanonical, out)
    ensures IsGroupBy(t, lids, filter, ByCase, out)
            <==> forall id | id in t && Ranges(lids, filter, t[id]) :: KeysAgree(lids, t[id].jid)
  {
    if forall id | id in t && Ranges(lids, filter, t[id]) :: KeysAgree(lids, t[id].jid) {
      assert forall id | id in t && Ranges(lids, filter, t[id]) ::
          GroupKey(lids, ByCanonical, t[id].jid) == GroupKey(lids, ByCase, t[id].jid);
    } else {
      var id :| id in t && Ranges(lids, filter, t[id]) && !KeysAgree(lids, t[id].jid);
      // without a device the merge shows the bare @lid; with one the grouped query does
      assert HasChat(out, GroupKey(lids, ByCanonical, t[id].jid));
    }
  }

  // ---------------------------------------------------------------- the store's methods

  /** sort.Slice by timestamp; any order but descending is ascending. */
  ghost predicate SortedByTime(out: seq<Message>, descending: bool) {
    forall i, j | 0 <= i < j < |out| ::
      if descending then out[i].timestamp >= out[j].timestamp else out[i].timestamp <= out[j].timestamp
  }

  /** A limit of 0 is no limit. */
  function Page(all: seq<Message>, offset: nat, limit: nat): seq<Message> {
    if offset >= |all| then []
    else if limit > 0 && offset + limit <= |all| then all[offset..offset + limit]
    else all[offset..]
  }

  /** A page of the grouped query's result, sorted by time. */
  ghost predicate IsLastMessagesPage(t: Table, lids: LidMap, filter: seq<Jid>, descending: bool, offset: nat,
                                     limit: nat, page: seq<Message>)
  {
    exists all ::
      IsGroupBy(t, lids, filter, ByCanonical, all) && SortedByTime(all, descending) && page == Page(all, offset, limit)
  }

  /** A page, by position: as many messages as the limit and what is left allow, from the offset on. */
  lemma PageMeaning(all: seq<Message>, offset: nat, limit: nat)
    ensures var page := Page(all, offset, limit);
            && |page| == (if offset >= |all| then 0
                          else if limit == 0 || limit > |all| - offset then |all| - offset else limit)
            && forall i | 0 <= i < |page| :: page[i] == all[offset + i]
  {
  }

  /** The first `n` pages of a size, one after the other. */
  function Pages(all: seq<Message>, limit: nat, n: nat): seq<Message> {
    if n == 0 then [] else Pages(all, limit, n - 1) + Page(all, (n - 1) * limit, limit)
  }

  lemma {:induction false} PagesAreBeginning(all: seq<Message>, limit: nat, n: nat)
    requires limit > 0
    ensures Pages(all, limit, n) == if n * limit < |all| then all[..n * limit] else all
  {
    if n > 0 {
      PagesAreBeginning(all, limit, n - 1);
      PageMeaning(all, (n - 1) * limit, limit);
      assert n * limit == (n - 1) * limit + limit;
      if (n - 1) * limit < |all| {
        var end := if n * limit < |all| then n * limit else |all|;
        assert Page(all, (n - 1) * limit, limit) == all[(n - 1) * limit..end];
      }
    }
  }

  /** Consecutive pages of any positive size give the whole result, in its order, each chat once. */
  lemma PagesCoverAll(all: seq<Message>, limit: nat, n: nat)
    requires limit > 0 && n * limit >= |all|
    ensures Pages(all, limit, n) == all
    ensures DistinctChats(all) ==> DistinctChats(Pages(all, limit, n))
  {
    PagesAreBeginning(all, limit, n);
  }

  class SqlMessageStore {
    var table: Table
    var lids: LidMap

    constructor (table: Table, lids: LidMap)
      ensures this.table == table && this.lids == lids
    {
      this.table, this.lids := table, lids;
    }

    /** fetchDistinctLatestByJID over the rows the given addresses select; `all` is an empty filter. */
    method FetchDistinctLatest(lid: bool, all: bool, wanted: set<Jid>, ghost filter: seq<Jid>)
      returns (messages: seq<Message>)
      requires WellKeyed(table)
      requires forall r: Jid | r.server.Lid? == lid :: SelectsJid(lids, filter, r) <==> (all || r in wanted)
      ensures IsDistinctLatest(table, lids, filter, lid, messages)
    {
      hide Fetched;
      var range := Select(lid, all, wanted, filter);
      var todo := RawAddresses(table, range);
      messages := [];
      NothingFetched(table, range);
      while todo != {}
        invariant todo <= RawAddresses(table, range)
        invariant Fetched(table, range, todo, messages)
      {
        var jid :| jid in todo;
        RowsOfAddress(table, range, jid);
        var latest := LatestOf(RowsAt(table, range, jid));
        FetchOne(table, range, todo, messages, jid, latest);
        messages := messages + [table[latest].message];
        todo := todo - {jid};
      }
      AllFetched(table, lids, filter, lid, range, messages);
    }

    /** The rows of a query: real ones on the wanted side of the @lid split, with a wanted address. */
    method Select(lid: bool, all: bool, wanted: set<Jid>, ghost filter: seq<Jid>) returns (range: set<string>)
      requires forall r: Jid | r.server.Lid? == lid :: SelectsJid(lids, filter, r) <==> (all || r in wanted)
      ensures forall id :: id in range <==> id in table && Matches(lids, filter, lid, table[id])
    {
      range := set id | id in table && table[id].message.isReal && table[id].jid.server.Lid? == lid
                        && (all || table[id].jid in wanted);
    }

    method LatestOf(group: set<string>) returns (latest: string)
      requires group != {} && group <= table.Keys
      ensures latest in group
      ensures forall id | id in group :: table[latest].message.timestamp >= table[id].message.timestamp
    {
      latest :| latest in group;
      var todo := group - {latest};
      while todo != {}
        invariant todo <= group && latest in group
        invariant forall id | id in group - todo :: table[latest].message.timestamp >= table[id].message.timestamp
      {
        var id :| id in todo;
        if table[id].message.timestamp > table[latest].message.timestamp {
          latest := id;
        }
        todo := todo - {id};
      }
    }

    method MergeLastMessages(primary: seq<Message>, secondary: seq<Message>) returns (out: seq<Message>)
      ensures ListsValues(out, Merged(primary, secondary))
    {
      var byJid: map<Jid, Message> := map[];
      for i := 0 to |primary|
        invariant byJid == Primary(primary[..i])
      {
        assert primary[..i + 1][..i] == primary[..i];
        byJid := byJid[primary[i].chat := primary[i]];
      }
      assert primary[..|primary|] == primary;
      for i := 0 to |secondary|
        invariant byJid == Merged(primary, secondary[..i])
      {
        assert secondary[..i + 1][..i] == secondary[..i];
        var m := secondary[i];
        if m.chat !in byJid || m.timestamp > byJid[m.chat].timestamp {
          byJid := byJid[m.chat := m];
        }
      }
      assert secondary[..|secondary|] == secondary;
      MergedByChat(primary, secondary);
      out := Values(byJid);
    }

    method Values(byJid: map<Jid, Message>) returns (out: seq<Message>)
      requires forall k | k in byJid :: byJid[k].chat == k
      ensures ListsValues(out, byJid)
    {
      out := [];
      var todo := byJid.Keys;
      while todo != {}
        invariant todo <= byJid.Keys
        invariant DistinctChats(out)
        invariant forall m | m in out :: m.chat in byJid && m.chat !in todo && byJid[m.chat] == m
        invariant forall k | k in byJid && k !in todo :: byJid[k] in out
      {
        var k :| k in todo;
        out := out + [byJid[k]];
        todo := todo - {k};
      }
      assert forall k | k in byJid :: byJid[k] in out && byJid[k].chat == k;
    }

    /** The last message per chat, sorted by time whatever field was asked for, and cut to the page. */
    method GetLastMessagesInChatsWithMerge(filter: seq<Jid>, descending: bool, offset: nat, limit: nat)
      returns (page: seq<Message>, ghost all: seq<Message>, ghost primary: seq<Message>, ghost found: seq<Message>)
      requires WellKeyed(table)
      ensures IsDistinctLatest(table, lids, filter, false, primary)
      ensures IsDistinctLatest(table, lids, filter, true, found)
      ensures ListsValues(all, Merged(primary, Rewritten(lids, found)))
      ensures Consistent(table) ==> IsGroupBy(table, lids, filter, ByCanonical, all)
      ensures SortedByTime(all, descending)
      ensures forall i, k | 0 <= i < k < |all| ::
                if descending then all[i].timestamp >= all[k].timestamp else all[i].timestamp <= all[k].timestamp
      ensures |page| == if offset >= |all| then 0
                        else if limit == 0 || limit > |all| - offset then |all| - offset else limit
      ensures forall i | 0 <= i < |page| :: page[i] == all[offset + i]
      ensures page == Page(all, offset, limit)
      ensures Consistent(table) ==> IsLastMessagesPage(table, lids, filter, descending, offset, limit, page)
    {
      hide IsGroupBy, IsDistinctLatest, ListsValues, Merged, Consistent, LidTargets;
      var wanted, lidWanted := {}, {};
      NoTargetYet(lids, filter);
      for i := 0 to |filter|
        invariant wanted == Canonicals(lids, filter[..i])
        invariant lidWanted == LidTargets(lids, filter[..i])
      {
        var canonical := Canonical(lids, filter[i]);
        OneMoreTarget(lids, filter, i);
        wanted := wanted + {canonical};
        lidWanted := lidWanted + ReverseLookup(lids, canonical.user);
      }
      assert filter[..|filter|] == filter;
      var nonLidMessages := FetchDistinctLatest(false, filter == [], wanted, filter);
      var lidMessages: seq<Message> := [];
      if filter == [] || lidWanted != {} {
        lidMessages := FetchDistinctLatest(true, filter == [], lidWanted, filter);
      } else {
        NoLidRows(table, lids, filter);
      }
      var merged := MergeLastMessages(nonLidMessages, Rewritten(lids, lidMessages));
      var sorted := SortByTime(merged, descending);
      all, primary, found := sorted, nonLidMessages, lidMessages;
      SameMessagesSameValues(merged, all, Merged(primary, Rewritten(lids, found)));
      if Consistent(table) {
        MergeRefinesGroupBy(table, lids, filter, primary, found, all);
      }
      if offset >= |sorted| {
        return [], all, primary, found;
      }
      var end := |sorted|;
      if limit > 0 {
        end := offset + limit;
        if end > |sorted| {
          end := |sorted|;
        }
      }
      page := sorted[offset..end];
    }

    method SortByTime(messages: seq<Message>, descending: bool) returns (sorted: seq<Message>)
      requires DistinctChats(messages)
      ensures SortedByTime(sorted, descending) && DistinctChats(sorted)
      ensures forall m :: m in sorted <==> m in messages
    {
      sorted := [];
      for i := 0 to |messages|
        invariant SortedByTime(sorted, descending) && DistinctChats(sorted)
        invariant forall m :: m in sorted <==> m in messages[..i]
      {
        var m := messages[i];
        var p := 0;
        while p < |sorted|
              && (if descending then sorted[p].timestamp >= m.timestamp else sorted[p].timestamp <= m.timestamp)
          invariant p <= |sorted|
          invariant p > 0 ==> SortedByTime([sorted[p - 1], m], descending)
        {
          p := p + 1;
        }
        InsertKeepsOrder(sorted, p, m, descending);
        InsertKeepsChats(sorted, p, m);
        assert messages[..i + 1] == messages[..i] + [m];
        sorted := sorted[..p] + [m] + sorted[p..];
      }
      assert messages[..|messages|] == messages;
    }
  }

  function RawAddresses(t: Table, range: set<string>): set<Jid>
    requires range <= t.Keys
  {
    set id | id in range :: t[id].jid
  }

  function RowsAt(t: Table, range: set<string>, jid: Jid): set<string>
    requires range <= t.Keys
  {
    set id | id in range && t[id].jid == jid
  }

  lemma RowsOfAddress(t: Table, range: set<string>, jid: Jid)
    requires range <= t.Keys && jid in RawAddresses(t, range)
    ensures RowsAt(t, range, jid) != {}
  {
    var id :| id in range && t[id].jid == jid;
    assert id in RowsAt(t, range, jid);
  }

  /** One latest message for each address of `range` that is no longer to do. */
  ghost predicate Fetched(t: Table, range: set<string>, todo: set<Jid>, messages: seq<Message>)
    requires range <= t.Keys
  {
    && (forall m | m in messages :: m.id in range && m == t[m.id].message && t[m.id].jid !in todo)
    && (forall i, j | 0 <= i < j < |messages| :: messages[i].id in t && messages[j].id in t
                                                 && t[messages[i].id].jid != t[messages[j].id].jid)
    && (forall id | id in range && t[id].jid !in todo :: Covered(t, messages, t[id]))
  }

  lemma NothingFetched(t: Table, range: set<string>)
    requires range <= t.Keys
    ensures Fetched(t, range, RawAddresses(t, range), [])
  {
  }

  lemma FetchOne(t: Table, range: set<string>, todo: set<Jid>, messages: seq<Message>, jid: Jid, latest: string)
    requires WellKeyed(t) && range <= t.Keys && Fetched(t, range, todo, messages) && jid in todo
    requires latest in range && t[latest].jid == jid
    requires forall id | id in RowsAt(t, range, jid) :: t[latest].message.timestamp >= t[id].message.timestamp
    ensures Fetched(t, range, todo - {jid}, messages + [t[latest].message])
  {
    hide Covered;
    var m := t[latest].message;
    forall i | 0 <= i < |messages| ensures messages[i].id in t && t[messages[i].id].jid != jid {
      assert messages[i] in messages;
    }
    forall id | id in range && t[id].jid !in todo - {jid} ensures Covered(t, messages + [m], t[id]) {
      CoverGrows(t, messages, m, t[id]);
      assert t[id].jid == jid ==> id in RowsAt(t, range, jid);
    }
  }

  lemma CoverGrows(t: Table, messages: seq<Message>, m: Message, row: Row)
    requires m.id in t
    ensures Covered(t, messages, row) ==> Covered(t, messages + [m], row)
    ensures t[m.id].jid == row.jid && m.timestamp >= row.message.timestamp ==> Covered(t, messages + [m], row)
  {
  }

  lemma AllFetched(t: Table, lids: LidMap, filter: seq<Jid>, lid: bool, range: set<string>, messages: seq<Message>)
    requires range <= t.Keys && Fetched(t, range, {}, messages)
    requires forall id :: id in range <==> id in t && Matches(lids, filter, lid, t[id])
    ensures IsDistinctLatest(t, lids, filter, lid, messages)
  {
  }

  function Insert(sorted: seq<Message>, p: nat, m: Message): seq<Message>
    requires p <= |sorted|
  {
    sorted[..p] + [m] + sorted[p..]
  }

  lemma InsertKeepsOrder(sorted: seq<Message>, p: nat, m: Message, descending: bool)
    requires p <= |sorted| && SortedByTime(sorted, descending)
    requires p > 0 ==> SortedByTime([sorted[p - 1], m], descending)
    requires p < |sorted| ==> SortedByTime([m, sorted[p]], descending)
    ensures SortedByTime(Insert(sorted, p, m), descending)
  {
    if p > 0 {
      assert [sorted[p - 1], m][0] == sorted[p - 1] && [sorted[p - 1], m][1] == m;
    }
    if p < |sorted| {
      assert [m, sorted[p]][0] == m && [m, sorted[p]][1] == sorted[p];
    }
  }

  lemma InsertKeepsChats(sorted: seq<Message>, p: nat, m: Message)
    requires p <= |sorted| && DistinctChats(sorted) && forall s | s in sorted :: s.chat != m.chat
    ensures DistinctChats(Insert(sorted, p, m))
    ensures forall x :: x in Insert(sorted, p, m) <==> x in sorted || x == m
  {
  }

  lemma NoTargetYet(lids: LidMap, filter: seq<Jid>)
    ensures Canonicals(lids, filter[..0]) == {} && LidTargets(lids, filter[..0]) == {}
  {
  }

  lemma NoLidRows(t: Table, lids: LidMap, filter: seq<Jid>)
    requires filter != [] && LidTargets(lids, filter) == {}
    ensures IsDistinctLatest(t, lids, filter, true, [])
  {
  }

  lemma OneMoreTarget(lids: LidMap, filter: seq<Jid>, i: nat)
    requires i < |filter|
    ensures var c := Canonical(lids, filter[i]);
            && Canonicals(lids, filter[..i + 1]) == Canonicals(lids, filter[..i]) + {c}
            && LidTargets(lids, filter[..i + 1]) == LidTargets(lids, filter[..i]) + ReverseLookup(lids, c.user)
  {
  }

  lemma SameMessagesSameValues(a: seq<Message>, b: seq<Message>, byJid: map<Jid, Message>)
    requires ListsValues(a, byJid) && DistinctChats(b) && forall m :: m in a <==> m in b
    ensures ListsValues(b, byJid)
  {
    forall k | k in byJid ensures HasChat(b, k) {
      assert HasChat(a, k);
    }
  }

  /**
   A message that is stored again under another chat can be lost to an older one: its column stays
   where it was, and the first merge loop overwrites without comparing times. HistoryMergesExactly
   is the one-way condition against it, OneChatMergesExactlyIff the exact one for a single chat.
   */
  lemma MovedMessageIsLost(lids: LidMap, newer: Message, older: Message, column: Jid)
    requires newer.isReal && older.isReal && newer.id != older.id && older.timestamp < newer.timestamp
    requires newer.chat == older.chat && column != older.chat && !column.server.Lid? && !older.chat.server.Lid?
    ensures var t := UpsertAll(map[], [newer.(chat := column), newer, older]);
            && IsDistinctLatest(t, lids, [], false, [newer, older])
            && IsDistinctLatest(t, lids, [], true, [])
            && ListsValues([older], Merged([newer, older], Rewritten(lids, [])))
            && !IsGroupBy(t, lids, [], ByCanonical, [older])
  {
    hide Merged, UpsertAll;
    var t := map[newer.id := Row(column, newer), older.id := Row(older.chat, older)];
    UpsertThree(newer.(chat := column), newer, older);
    assert UpsertAll(map[], [newer.(chat := column), newer, older]) == t;
    MergedTwo(lids, newer, older);
    MovedIsFetched(t, lids, newer, older, column);
    assert newer in [newer, older] && older in [older];
    assert Ranges(lids, [], t[newer.id]) && GroupKey(lids, ByCanonical, t[newer.id].jid) == column;
  }

  lemma MovedIsFetched(t: Table, lids: LidMap, newer: Message, older: Message, column: Jid)
    requires newer.isReal && older.isReal && newer.id != older.id
    requires column != older.chat && !column.server.Lid? && !older.chat.server.Lid?
    requires t == map[newer.id := Row(column, newer), older.id := Row(older.chat, older)]
    ensures IsDistinctLatest(t, lids, [], false, [newer, older]) && IsDistinctLatest(t, lids, [], true, [])
  {
    assert newer in [newer, older] && older in [newer, older] && older in [older];
    assert Covered(t, [newer, older], t[newer.id]) && Covered(t, [newer, older], t[older.id]);
  }

  lemma UpsertThree(a: Message, b: Message, c: Message)
    ensures UpsertAll(map[], [a, b, c]) == Upsert(Upsert(Upsert(map[], a), b), c)
  {
    assert [a, b, c][..2] == [a, b] && [a, b][..1] == [a] && [a][..0] == [];
    assert UpsertAll(map[], [a]) == Upsert(UpsertAll(map[], [a][..0]), a);
    assert UpsertAll(map[], [a, b]) == Upsert(UpsertAll(map[], [a]), b);
  }

  lemma MergedTwo(lids: LidMap, first: Message, second: Message)
    requires first.chat == second.chat
    ensures Merged([first, second], Rewritten(lids, [])) == map[second.chat := second]
  {
    assert [first, second][..1] == [first];
    assert Primary([first]) == ByChat(Primary([first][..0]), first);
  }

  /**
   Why being in step is not necessary when several chats are in range: the moved message is fetched
   under its @lid and names chat `b.chat`, but later messages of both chats hide it, and the result
   is the grouped query's.
   */
  lemma HiddenMoveIsHarmless(lids: LidMap, lid: Jid, moved: Message, a: Message, b: Message)
    requires moved.isReal && a.isReal && b.isReal && moved.id != a.id && moved.id != b.id && a.id != b.id
    requires moved.timestamp < a.timestamp && moved.timestamp < b.timestamp
    requires lid.server.Lid? && Canonical(lids, lid) == a.chat && a.chat.server.Phone?
    requires b.chat.server.Phone? && b.chat != a.chat && moved.chat == b.chat
    ensures var t := Upsert(UpsertAll(map[], [moved.(chat := lid), moved, a]), b);
            && IsDistinctLatest(t, lids, [], false, [a, b]) && IsDistinctLatest(t, lids, [], true, [moved])
            && !FetchedInStep(t, lids, [a, b], [moved])
            && ListsValues([a, b], Merged([a, b], Rewritten(lids, [moved])))
            && IsGroupBy(t, lids, [], ByCanonical, [a, b])
  {
    var t := map[moved.id := Row(lid, moved), a.id := Row(a.chat, a), b.id := Row(b.chat, b)];
    hide IsGroupBy, IsDistinctLatest, Merged, ListsValues;
    UpsertThree(moved.(chat := lid), moved, a);
    assert Upsert(UpsertAll(map[], [moved.(chat := lid), moved, a]), b) == t;
    HiddenIsFetched(t, lids, lid, moved, a, b);
    HiddenIsMerged(lids, moved, a, b);
    HiddenIsGrouped(t, lids, lid, moved, a, b);
    assert moved in [moved];
  }

  lemma HiddenIsGrouped(t: Table, lids: LidMap, lid: Jid, moved: Message, a: Message, b: Message)
    requires moved.isReal && a.isReal && b.isReal && moved.id != a.id && moved.id != b.id && a.id != b.id
    requires moved.timestamp < a.timestamp && Canonical(lids, lid) == a.chat && a.chat.server.Phone?
    requires b.chat.server.Phone? && b.chat != a.chat
    requires t == map[moved.id := Row(lid, moved), a.id := Row(a.chat, a), b.id := Row(b.chat, b)]
    ensures IsGroupBy(t, lids, [], ByCanonical, [a, b])
  {
    assert a in [a, b] && b in [a, b] && HasChat([a, b], a.chat) && HasChat([a, b], b.chat);
    assert IsGroupLatest(t, lids, [], ByCanonical, a);
    assert IsGroupLatest(t, lids, [], ByCanonical, b);
  }

  lemma HiddenIsFetched(t: Table, lids: LidMap, lid: Jid, moved: Message, a: Message, b: Message)
    requires moved.isReal && a.isReal && b.isReal && moved.id != a.id && moved.id != b.id && a.id != b.id
    requires lid.server.Lid? && a.chat.server.Phone? && b.chat.server.Phone? && b.chat != a.chat
    requires t == map[moved.id := Row(lid, moved), a.id := Row(a.chat, a), b.id := Row(b.chat, b)]
    ensures IsDistinctLatest(t, lids, [], false, [a, b]) && IsDistinctLatest(t, lids, [], true, [moved])
  {
    assert moved in [moved] && a in [a, b] && b in [a, b];
    assert Covered(t, [a, b], t[a.id]) && Covered(t, [a, b], t[b.id]) && Covered(t, [moved], t[moved.id]);
  }

  lemma HiddenIsMerged(lids: LidMap, moved: Message, a: Message, b: Message)
    requires moved.chat == b.chat && moved.timestamp < b.timestamp && a.chat != b.chat && b.chat.server.Phone?
    ensures Merged([a, b], Rewritten(lids, [moved])) == map[a.chat := a, b.chat := b]
    ensures ListsValues([a, b], Merged([a, b], Rewritten(lids, [moved])))
  {
    assert Rewritten(lids, [moved]) == [moved];
    assert [a, b][..1] == [a] && [moved][..0] == [];
    assert Primary([a]) == ByChat(Primary([a][..0]), a);
    assert Merged([a, b], [moved][..0]) == Primary([a, b]) == map[a.chat := a, b.chat := b];
    assert a in [a, b] && b in [a, b];
  }
}
