/** A group's participant list under update events, and the group as a whole. */
module GroupUpdates {
  import opened Types

  /** `details` stands for the fields an update never touches. */
  datatype Participant = Participant(jid: Jid, isAdmin: bool, isSuperAdmin: bool, details: string)

  function Joiner(jid: Jid): Participant {
    Participant(jid, false, false, "")
  }

  function Promoted(p: Participant): Participant {
    p.(isAdmin := true, isSuperAdmin := false)
  }

  function Demoted(p: Participant): Participant {
    p.(isAdmin := false, isSuperAdmin := false)
  }

  function Jids(ps: seq<Participant>): seq<Jid> {
    seq(|ps|, i requires 0 <= i < |ps| => ps[i].jid)
  }

  // ---------------------------------------------------------------- the map with its two orders

  /** The value of a ParticipantsMap. */
  datatype Members = Members(byJid: map<Jid, Participant>, original: seq<Jid>, joined: seq<Jid>)

  /** The map of a list; the last entry of an address wins. */
  function Indexed(ps: seq<Participant>): map<Jid, Participant> {
    if ps == [] then map[] else Indexed(ps[..|ps| - 1])[ps[|ps| - 1].jid := ps[|ps| - 1]]
  }

  function Load(ps: seq<Participant>): Members {
    Members(Indexed(ps), Jids(ps), [])
  }

  /** The addresses that are not known yet, in first-seen order. */
  function FirstSeen(jids: seq<Jid>, known: set<Jid>): seq<Jid> {
    if jids == [] then []
    else
      var rest, last := FirstSeen(jids[..|jids| - 1], known), jids[|jids| - 1];
      if last in known || last in rest then rest else rest + [last]
  }

  function AfterJoin(m: Members, jids: seq<Jid>): Members {
    m.(byJid := map j | j in m.byJid.Keys + (set x | x in jids) :: if j in m.byJid then m.byJid[j] else Joiner(j),
       joined := m.joined + FirstSeen(jids, m.byJid.Keys))
  }

  function AfterLeave(m: Members, jids: seq<Jid>): Members {
    m.(byJid := map j | j in m.byJid && j !in jids :: m.byJid[j])
  }

  function AfterPromote(m: Members, jids: seq<Jid>): Members {
    m.(byJid := map j | j in m.byJid :: if j in jids then Promoted(m.byJid[j]) else m.byJid[j])
  }

  function AfterDemote(m: Members, jids: seq<Jid>): Members {
    m.(byJid := map j | j in m.byJid :: if j in jids then Demoted(m.byJid[j]) else m.byJid[j])
  }

  /** The entries of `order` that are in the map. */
  function Collect(order: seq<Jid>, byJid: map<Jid, Participant>): seq<Participant> {
    if order == [] then []
    else
      var rest, last := Collect(order[..|order| - 1], byJid), order[|order| - 1];
      if last in byJid then rest + [byJid[last]] else rest
  }

  function Listing(m: Members): seq<Participant> {
    Collect(m.original, m.byJid) + Collect(m.joined, m.byJid)
  }

  class ParticipantsMap {
    var participants: map<Jid, Participant>
    var originalOrder: seq<Jid>
    var newlyJoined: seq<Jid>

    ghost function View(): Members
      reads this
    {
      Members(participants, originalOrder, newlyJoined)
    }

    constructor (original: seq<Participant>)
      ensures View() == Load(original)
    {
      participants, originalOrder, newlyJoined := map[], [], [];
      new;
      for i := 0 to |original|
        invariant participants == Indexed(original[..i])
        invariant originalOrder == Jids(original[..i]) && newlyJoined == []
      {
        assert original[..i + 1][..i] == original[..i];
        participants := participants[original[i].jid := original[i]];
        originalOrder := originalOrder + [original[i].jid];
      }
      assert original[..|original|] == original;
    }

    method Join(jids: seq<Jid>)
      modifies this
      ensures View() == AfterJoin(old(View()), jids)
    {
      hide AfterJoin;
      NobodyJoined(View(), jids);
      for i := 0 to |jids|
        invariant View() == AfterJoin(old(View()), jids[..i])
      {
        OneMoreJoiner(old(View()), jids, i);
        if jids[i] !in participants {
          participants := participants[jids[i] := Joiner(jids[i])];
          newlyJoined := newlyJoined + [jids[i]];
        }
      }
      assert jids[..|jids|] == jids;
    }

    method Leave(jids: seq<Jid>)
      modifies `participants
      ensures View() == AfterLeave(old(View()), jids)
    {
      for i := 0 to |jids|
        invariant View() == AfterLeave(old(View()), jids[..i])
      {
        assert jids[..i + 1] == jids[..i] + [jids[i]];
        if jids[i] in participants {
          participants := participants - {jids[i]};
        }
      }
      assert jids[..|jids|] == jids;
    }

    method Promote(jids: seq<Jid>)
      modifies `participants
      ensures View() == AfterPromote(old(View()), jids)
    {
      for i := 0 to |jids|
        invariant View() == AfterPromote(old(View()), jids[..i])
      {
        assert jids[..i + 1] == jids[..i] + [jids[i]];
        if jids[i] in participants {
          participants := participants[jids[i] := participants[jids[i]].(isAdmin := true, isSuperAdmin := false)];
        }
      }
      assert jids[..|jids|] == jids;
    }

    method Demote(jids: seq<Jid>)
      modifies `participants
      ensures View() == AfterDemote(old(View()), jids)
    {
      for i := 0 to |jids|
        invariant View() == AfterDemote(old(View()), jids[..i])
      {
        assert jids[..i + 1] == jids[..i] + [jids[i]];
        if jids[i] in participants {
          participants := participants[jids[i] := participants[jids[i]].(isAdmin := false, isSuperAdmin := false)];
        }
      }
      assert jids[..|jids|] == jids;
    }

    method Participants() returns (list: seq<Participant>)
      ensures list == Listing(View())
    {
      list := [];
      for i := 0 to |originalOrder|
        invariant list == Collect(originalOrder[..i], participants)
      {
        assert originalOrder[..i + 1][..i] == originalOrder[..i];
        if originalOrder[i] in participants {
          list := list + [participants[originalOrder[i]]];
        }
      }
      assert originalOrder[..|originalOrder|] == originalOrder;
      ghost var kept := list;
      for i := 0 to |newlyJoined|
        invariant list == kept + Collect(newlyJoined[..i], participants)
      {
        assert newlyJoined[..i + 1][..i] == newlyJoined[..i];
        if newlyJoined[i] in participants {
          list := list + [participants[newlyJoined[i]]];
        }
      }
      assert newlyJoined[..|newlyJoined|] == newlyJoined;
    }
  }

  // ---------------------------------------------------------------- what an update means

  /** Where an address first stands in a list, or the length. */
  function FirstAt(jids: seq<Jid>, j: Jid): nat {
    if jids == [] then 0
    else
      var p := FirstAt(jids[..|jids| - 1], j);
      if p < |jids| - 1 || jids[|jids| - 1] == j then p else |jids|
  }

  lemma {:induction false} FirstAtMeaning(jids: seq<Jid>, j: Jid)
    ensures FirstAt(jids, j) <= |jids|
    ensures FirstAt(jids, j) < |jids| <==> j in jids
    ensures j in jids ==> jids[FirstAt(jids, j)] == j && j !in jids[..FirstAt(jids, j)]
  {
    if jids != [] {
      var init, last := jids[..|jids| - 1], jids[|jids| - 1];
      FirstAtMeaning(init, j);
      assert jids == init + [last];
      assert FirstAt(init, j) <= |init| && jids[..FirstAt(init, j)] == init[..FirstAt(init, j)];
    }
  }

  lemma {:induction false} FirstSeenMeaning(jids: seq<Jid>, known: set<Jid>)
    ensures NoDuplicates(FirstSeen(jids, known))
    ensures forall j :: j in FirstSeen(jids, known) <==> j in jids && j !in known
  {
    if jids != [] {
      assert jids == jids[..|jids| - 1] + [jids[|jids| - 1]];
      FirstSeenMeaning(jids[..|jids| - 1], known);
    }
  }

  lemma {:induction false} FirstSeenOrder(jids: seq<Jid>, known: set<Jid>, i: nat, k: nat)
    requires i < k < |FirstSeen(jids, known)|
    ensures FirstAt(jids, FirstSeen(jids, known)[i]) < FirstAt(jids, FirstSeen(jids, known)[k])
  {
    var init, last := jids[..|jids| - 1], jids[|jids| - 1];
    var rest, all := FirstSeen(init, known), FirstSeen(jids, known);
    FirstSeenMeaning(init, known);
    FirstAtMeaning(init, rest[i]);
    if k < |rest| {
      FirstSeenOrder(init, known, i, k);
      FirstAtMeaning(init, rest[k]);
    } else {
      FirstAtMeaning(init, last);
    }
  }

  lemma NobodyJoined(m: Members, jids: seq<Jid>)
    ensures AfterJoin(m, jids[..0]) == m
  {
  }

  lemma OneMoreJoiner(m: Members, jids: seq<Jid>, i: nat)
    requires i < |jids|
    ensures var before, after := AfterJoin(m, jids[..i]), AfterJoin(m, jids[..i + 1]);
            after == if jids[i] in before.byJid then before
                     else before.(byJid := before.byJid[jids[i] := Joiner(jids[i])],
                                  joined := before.joined + [jids[i]])
  {
    hide FirstSeen;
    var j, known := jids[i], m.byJid.Keys;
    assert jids[..i + 1] == jids[..i] + [j];
    FirstSeenSnoc(jids[..i], j, known);
    FirstSeenMeaning(jids[..i], known);
    var before, after := AfterJoin(m, jids[..i]), AfterJoin(m, jids[..i + 1]);
    assert after.byJid.Keys == before.byJid.Keys + {j};
    if j in before.byJid {
      assert after.byJid == before.byJid;
    } else {
      assert after.byJid == before.byJid[j := Joiner(j)];
    }
  }

  lemma FirstSeenSnoc(jids: seq<Jid>, j: Jid, known: set<Jid>)
    ensures FirstSeen(jids + [j], known)
         == FirstSeen(jids, known) + if j in known || j in FirstSeen(jids, known) then [] else [j]
  {
  }

  /** The members of `jids` that did not leave, in their order. */
  function Staying(jids: seq<Jid>, leave: seq<Jid>): seq<Jid> {
    if jids == [] then []
    else
      var rest, last := Staying(jids[..|jids| - 1], leave), jids[|jids| - 1];
      if last in leave then rest else rest + [last]
  }

  lemma {:induction false} StayingMeaning(jids: seq<Jid>, leave: seq<Jid>)
    ensures forall j :: j in Staying(jids, leave) <==> j in jids && j !in leave
    ensures NoDuplicates(jids) ==> NoDuplicates(Staying(jids, leave))
  {
    if jids != [] {
      assert jids == jids[..|jids| - 1] + [jids[|jids| - 1]];
      StayingMeaning(jids[..|jids| - 1], leave);
    }
  }

  /** The flags after an update: demotion over promotion over what was there. */
  function Flagged(p: Participant, promote: seq<Jid>, demote: seq<Jid>): Participant {
    if p.jid in demote then Demoted(p) else if p.jid in promote then Promoted(p) else p
  }

  datatype Change = Change(join: seq<Jid>, leave: seq<Jid>, promote: seq<Jid>, demote: seq<Jid>)

  /** The fixed order in which updateGroupParticipants applies a change. */
  function AfterChange(ps: seq<Participant>, c: Change): Members {
    AfterDemote(AfterPromote(AfterLeave(AfterJoin(Load(ps), c.join), c.leave), c.promote), c.demote)
  }

  function Changed(ps: seq<Participant>, c: Change): seq<Participant> {
    Listing(AfterChange(ps, c))
  }

  function JidSet(ps: seq<Participant>): set<Jid> {
    set p | p in ps :: p.jid
  }

  lemma {:induction false} IndexedMeaning(ps: seq<Participant>)
    ensures Indexed(ps).Keys == JidSet(ps)
    ensures forall j | j in Indexed(ps) :: Indexed(ps)[j] in ps && Indexed(ps)[j].jid == j
  {
    if ps != [] {
      var init, last := ps[..|ps| - 1], ps[|ps| - 1];
      IndexedMeaning(init);
      assert ps == init + [last];
    }
  }

  lemma {:induction false} CollectJids(order: seq<Jid>, byJid: map<Jid, Participant>, leave: seq<Jid>)
    requires forall j | j in order :: j in byJid <==> j !in leave
    requires forall j | j in byJid :: byJid[j].jid == j
    ensures Jids(Collect(order, byJid)) == Staying(order, leave)
    ensures forall p | p in Collect(order, byJid) :: p.jid in byJid && p == byJid[p.jid]
  {
    if order != [] {
      assert order == order[..|order| - 1] + [order[|order| - 1]];
      CollectJids(order[..|order| - 1], byJid, leave);
    }
  }

  /** The map when the list is rebuilt: who is in it, and with what. */
  lemma ChangedMap(ps: seq<Participant>, c: Change)
    ensures var m := AfterChange(ps, c).byJid;
            forall j :: j in m <==> (j in JidSet(ps) || j in c.join) && j !in c.leave
    ensures var m := AfterChange(ps, c).byJid;
            forall j | j in m ::
              && m[j] == Flagged(if j in Indexed(ps) then Indexed(ps)[j] else Joiner(j), c.promote, c.demote)
              && m[j].jid == j
  {
    IndexedMeaning(ps);
  }

  /** What both halves of the rebuilt list are collected from. */
  lemma ChangedOrders(ps: seq<Participant>, c: Change)
    ensures var m := AfterChange(ps, c);
            && m.original == Jids(ps) && m.joined == FirstSeen(c.join, JidSet(ps))
            && (forall j | j in m.original :: j in m.byJid <==> j !in c.leave)
            && (forall j | j in m.joined :: j in m.byJid <==> j !in c.leave)
            && (forall j | j in m.byJid :: m.byJid[j].jid == j)
  {
    ChangedMap(ps, c);
    IndexedMeaning(ps);
    SameJids(ps);
    FirstSeenMeaning(c.join, JidSet(ps));
    assert Load(ps).byJid.Keys == JidSet(ps);
  }

  lemma JidsConcat(a: seq<Participant>, b: seq<Participant>)
    ensures Jids(a + b) == Jids(a) + Jids(b)
  {
  }

  /**
   The list after an update, in order: the original members that stay, then the new joiners that
   stay, in first-seen order.
   */
  lemma ChangedOrder(ps: seq<Participant>, c: Change)
    ensures Jids(Changed(ps, c)) == Staying(Jids(ps), c.leave) + Staying(FirstSeen(c.join, JidSet(ps)), c.leave)
  {
    hide AfterChange, Collect, Staying, FirstSeen, Jids;
    var m := AfterChange(ps, c);
    ChangedOrders(ps, c);
    CollectJids(m.original, m.byJid, c.leave);
    CollectJids(m.joined, m.byJid, c.leave);
    JidsConcat(Collect(m.original, m.byJid), Collect(m.joined, m.byJid));
  }

  /** Each listed member carries what it had, or a joiner's defaults, with the flags the change dictates. */
  lemma ChangedFlags(ps: seq<Participant>, c: Change)
    ensures forall p | p in Changed(ps, c) ::
              p == Flagged(if p.jid in Indexed(ps) then Indexed(ps)[p.jid] else Joiner(p.jid), c.promote, c.demote)
  {
    hide AfterChange, Collect, Indexed, Flagged;
    var m := AfterChange(ps, c);
    ChangedOrders(ps, c);
    ChangedMap(ps, c);
    CollectJids(m.original, m.byJid, c.leave);
    CollectJids(m.joined, m.byJid, c.leave);
  }

  ghost predicate IsMember(ps: seq<Participant>, c: Change, j: Jid) {
    (j in JidSet(ps) || j in c.join) && j !in c.leave
  }

  /** From a list without duplicates an update gives exactly (original + joined) - left, without duplicates. */
  lemma UpdateIsExact(ps: seq<Participant>, c: Change)
    requires NoDuplicates(Jids(ps))
    ensures NoDuplicates(Jids(Changed(ps, c)))
    ensures forall j :: j in JidSet(Changed(ps, c)) <==> IsMember(ps, c, j)
  {
    hide Changed, Staying, FirstSeen, Jids, JidSet;
    ChangedOrder(ps, c);
    FirstSeenMeaning(c.join, JidSet(ps));
    StayingMeaning(Jids(ps), c.leave);
    StayingMeaning(FirstSeen(c.join, JidSet(ps)), c.leave);
    SameJids(ps);
    SameJids(Changed(ps, c));
    ConcatDuplicates(Staying(Jids(ps), c.leave), Staying(FirstSeen(c.join, JidSet(ps)), c.leave));
  }

  /** Demotion over promotion over what was there; an untouched member keeps all its fields. */
  lemma UpdateFlagsAreExact(ps: seq<Participant>, c: Change, p: Participant)
    requires p in Changed(ps, c)
    ensures p.jid in c.demote ==> !p.isAdmin && !p.isSuperAdmin
    ensures p.jid !in c.demote && p.jid in c.promote ==> p.isAdmin && !p.isSuperAdmin
    ensures p.jid !in c.demote && p.jid !in c.promote && p.jid in JidSet(ps) ==> p in ps
    ensures p.jid !in c.demote && p.jid !in c.promote && p.jid !in JidSet(ps) ==> !p.isAdmin && !p.isSuperAdmin
    ensures p.jid !in JidSet(ps) ==> p.details == ""
    ensures p.jid in JidSet(ps) ==> exists q :: q in ps && q.jid == p.jid && q.details == p.details
  {
    hide Changed;
    ChangedFlags(ps, c);
    IndexedMeaning(ps);
    if p.jid in JidSet(ps) {
      assert Indexed(ps)[p.jid] in ps;
    }
  }

  /** Members that stay keep their relative order. */
  lemma {:induction false} StayingPositions(jids: seq<Jid>, leave: seq<Jid>, i: nat, k: nat)
    requires i < k < |Staying(jids, leave)|
    ensures exists p, q ::
              0 <= p < q < |jids| && jids[p] == Staying(jids, leave)[i] && jids[q] == Staying(jids, leave)[k]
  {
    var init, last := jids[..|jids| - 1], jids[|jids| - 1];
    var rest := Staying(init, leave);
    if k < |rest| {
      StayingPositions(init, leave, i, k);
      var p, q :| 0 <= p < q < |init| && init[p] == rest[i] && init[q] == rest[k];
      assert jids[p] == rest[i] && jids[q] == rest[k];
    } else {
      StayingMeaning(init, leave);
      assert rest[i] in rest && rest[i] in init;
      var p :| 0 <= p < |init| && init[p] == rest[i];
      assert jids[p] == rest[i] && jids[|jids| - 1] == last;
    }
  }

  /**
   The order after an update, read off the lists themselves: no joiner before an original member,
   originals in their old order, joiners in the order in which they are first named.
   */
  lemma UpdateKeepsOrder(ps: seq<Participant>, c: Change, a: nat, b: nat)
    requires NoDuplicates(Jids(ps)) && a < b < |Changed(ps, c)|
    ensures var x, y := Changed(ps, c)[a].jid, Changed(ps, c)[b].jid;
            && (y in JidSet(ps) ==> x in JidSet(ps))
            && (y in JidSet(ps) ==>
                  forall i, k | 0 <= i < |ps| && 0 <= k < |ps| && ps[i].jid == x && ps[k].jid == y :: i < k)
            && (x !in JidSet(ps) ==> FirstAt(c.join, x) < FirstAt(c.join, y))
  {
    hide Changed, Staying, FirstSeen;
    var old', new' := Staying(Jids(ps), c.leave), Staying(FirstSeen(c.join, JidSet(ps)), c.leave);
    ChangedOrder(ps, c);
    SameJids(ps);
    FirstSeenMeaning(c.join, JidSet(ps));
    StayingMeaning(Jids(ps), c.leave);
    StayingMeaning(FirstSeen(c.join, JidSet(ps)), c.leave);
    var x, y := Changed(ps, c)[a].jid, Changed(ps, c)[b].jid;
    assert x == Jids(Changed(ps, c))[a] && y == Jids(Changed(ps, c))[b];
    assert a < |old'| ==> x == old'[a] && x in old';
    assert b < |old'| ==> y == old'[b] && y in old';
    assert a >= |old'| ==> x == new'[a - |old'|] && x in new';
    assert b >= |old'| ==> y == new'[b - |old'|] && y in new';
    if b < |old'| {
      StayingPositions(Jids(ps), c.leave, a, b);
      var p, q :| 0 <= p < q < |Jids(ps)| && Jids(ps)[p] == x && Jids(ps)[q] == y;
      forall i, k | 0 <= i < |ps| && 0 <= k < |ps| && ps[i].jid == x && ps[k].jid == y ensures i < k {
        assert Jids(ps)[i] == x && Jids(ps)[k] == y;
      }
    } else if a >= |old'| {
      var first := FirstSeen(c.join, JidSet(ps));
      StayingPositions(first, c.leave, a - |old'|, b - |old'|);
      var p, q :| 0 <= p < q < |first| && first[p] == x && first[q] == y;
      FirstSeenOrder(c.join, JidSet(ps), p, q);
    }
  }

  lemma SameJids(ps: seq<Participant>)
    ensures forall j :: j in Jids(ps) <==> j in JidSet(ps)
  {
    forall j ensures j in Jids(ps) <==> j in JidSet(ps) {
      if j in Jids(ps) {
        var i :| 0 <= i < |ps| && Jids(ps)[i] == j;
        assert ps[i] in ps;
      }
      if j in JidSet(ps) {
        var p :| p in ps && p.jid == j;
        var i :| 0 <= i < |ps| && ps[i] == p;
        assert Jids(ps)[i] == j;
      }
    }
  }

  /**
   The order of the calls matters. Leaving before joining lists an address twice exactly when an
   original member both leaves and joins.
   */
  lemma LeaveThenJoinDuplicatesIff(ps: seq<Participant>, join: seq<Jid>, leave: seq<Jid>)
    requires NoDuplicates(Jids(ps))
    ensures NoDuplicates(Jids(Listing(AfterJoin(AfterLeave(Load(ps), leave), join))))
            <==> forall j :: j in Jids(ps) && j in leave ==> j !in join
  {
    hide Staying, FirstSeen, Jids;
    var gone := Staying(leave, join);
    var joined := FirstSeen(join, AfterLeave(Load(ps), leave).byJid.Keys);
    LeaveThenJoinOrder(ps, join, leave);
    StayingMeaning(leave, join);
    StayingMeaning(Jids(ps), gone);
    FirstSeenMeaning(join, AfterLeave(Load(ps), leave).byJid.Keys);
    IndexedMeaning(ps);
    SameJids(ps);
    ConcatDuplicates(Staying(Jids(ps), gone), joined);
    assert forall j :: j in Staying(Jids(ps), gone) && j in joined <==> j in Jids(ps) && j in leave && j in join;
  }

  lemma ConcatDuplicates(a: seq<Jid>, b: seq<Jid>)
    requires NoDuplicates(a) && NoDuplicates(b)
    ensures NoDuplicates(a + b) <==> forall j :: j in a ==> j !in b
  {
    if j :| j in a && j in b {
      var i :| 0 <= i < |a| && a[i] == j;
      var k :| 0 <= k < |b| && b[k] == j;
      assert (a + b)[i] == (a + b)[|a| + k];
    } else {
      forall i, k | 0 <= i < k < |a + b| ensures (a + b)[i] != (a + b)[k] {
        if i < |a| <= k {
          assert a[i] in a && b[k - |a|] in b;
        }
      }
    }
  }

  /** Joined after leaving: an original that comes back keeps its old place and gets a new one as well. */
  lemma LeaveThenJoinOrder(ps: seq<Participant>, join: seq<Jid>, leave: seq<Jid>)
    ensures Jids(Listing(AfterJoin(AfterLeave(Load(ps), leave), join)))
         == Staying(Jids(ps), Staying(leave, join)) + FirstSeen(join, AfterLeave(Load(ps), leave).byJid.Keys)
  {
    hide Collect, Staying, FirstSeen, Jids;
    var left := AfterLeave(Load(ps), leave);
    var m := AfterJoin(left, join);
    IndexedMeaning(ps);
    SameJids(ps);
    StayingMeaning(leave, join);
    FirstSeenMeaning(join, left.byJid.Keys);
    CollectJids(m.original, m.byJid, Staying(leave, join));
    CollectJids(m.joined, m.byJid, []);
    StayingAll(m.joined);
    JidsConcat(Collect(m.original, m.byJid), Collect(m.joined, m.byJid));
  }

  lemma {:induction false} StayingAll(jids: seq<Jid>)
    ensures Staying(jids, []) == jids
  {
    if jids != [] {
      StayingAll(jids[..|jids| - 1]);
    }
  }

  // ---------------------------------------------------------------- the group

  datatype Ephemeral = Ephemeral(isEphemeral: bool, timer: nat)

  datatype Group = Group(
    jid: Jid, name: string, topic: string, locked: bool, announce: bool, ephemeral: Ephemeral, approval: bool,
    participants: seq<Participant>, version: string)

  datatype Update = Update(
    jid: Jid, name: Option<string>, topic: Option<string>, locked: Option<bool>, announce: Option<bool>,
    ephemeral: Option<Ephemeral>, approval: Option<bool>,
    change: Change, previousVersion: string, version: string)

  function Or<T>(o: Option<T>, otherwise: T): T {
    if o.Some? then o.value else otherwise
  }

  function WithParams(g: Group, u: Update): Group {
    g.(name := Or(u.name, g.name), topic := Or(u.topic, g.topic), locked := Or(u.locked, g.locked),
       announce := Or(u.announce, g.announce), ephemeral := Or(u.ephemeral, g.ephemeral),
       approval := Or(u.approval, g.approval))
  }

  predicate ChangesParticipants(u: Update) {
    u.change != Change([], [], [], [])
  }

  /** The participants part of an update applies to one version of the list only. */
  predicate Matches(g: Group, u: Update) {
    ChangesParticipants(u) ==> u.previousVersion == g.version
  }

  function Updated(g: Group, u: Update): Group {
    var w := WithParams(g, u);
    if ChangesParticipants(u) then w.(participants := Changed(g.participants, u.change), version := u.version) else w
  }

  /** An update that applies changes the participants and the version as well, unless it names no participant. */
  lemma UpdatedMeaning(g: Group, u: Update)
    ensures var t, w := Updated(g, u), WithParams(g, u);
            if u.change == Change([], [], [], []) then t == w
            else t == w.(participants := Changed(g.participants, u.change), version := u.version)
  {
  }

  /** The parameters of an update, field by field, whether or not its participants apply. */
  lemma ParamsMeaning(g: Group, u: Update)
    ensures var t := WithParams(g, u);
            && t.jid == g.jid && t.participants == g.participants && t.version == g.version
            && t.name == (if u.name.Some? then u.name.value else g.name)
            && t.topic == (if u.topic.Some? then u.topic.value else g.topic)
            && t.locked == (if u.locked.Some? then u.locked.value else g.locked)
            && t.announce == (if u.announce.Some? then u.announce.value else g.announce)
            && t.ephemeral == (if u.ephemeral.Some? then u.ephemeral.value else g.ephemeral)
            && t.approval == (if u.approval.Some? then u.approval.value else g.approval)
  {
  }

  class GroupInfo {
    const jid: Jid
    var name: string
    var topic: string
    var locked: bool
    var announce: bool
    var ephemeral: Ephemeral
    var approval: bool
    var participants: seq<Participant>
    var version: string

    function View(): Group
      reads this
    {
      Group(jid, name, topic, locked, announce, ephemeral, approval, participants, version)
    }

    constructor (g: Group)
      ensures View() == g
    {
      jid, name, topic, locked, announce := g.jid, g.name, g.topic, g.locked, g.announce;
      ephemeral, approval, participants, version := g.ephemeral, g.approval, g.participants, g.version;
    }
  }

  method UpdateGroupParams(group: GroupInfo, u: Update)
    modifies group
    ensures group.View() == WithParams(old(group.View()), u)
  {
    if u.name.Some? {
      group.name := u.name.value;
    }
    if u.topic.Some? {
      group.topic := u.topic.value;
    }
    if u.locked.Some? {
      group.locked := u.locked.value;
    }
    if u.announce.Some? {
      group.announce := u.announce.value;
    }
    if u.ephemeral.Some? {
      group.ephemeral := u.ephemeral.value;
    }
    if u.approval.Some? {
      group.approval := u.approval.value;
    }
  }

  method UpdateGroupParticipants(group: GroupInfo, u: Update) returns (ok: bool)
    modifies group
    ensures ok <==> u.change == Change([], [], [], []) || u.previousVersion == old(group.version)
    ensures group.View() == if u.change == Change([], [], [], []) || u.previousVersion != old(group.version)
                            then old(group.View())
                            else old(group.View()).(participants := Changed(old(group.participants), u.change),
                                                    version := u.version)
  {
    var c := u.change;
    if c.join == [] && c.leave == [] && c.promote == [] && c.demote == [] {
      return true;
    }
    if u.previousVersion != group.version {
      return false;
    }
    var pm := new ParticipantsMap(group.participants);
    pm.Join(c.join);
    pm.Leave(c.leave);
    pm.Promote(c.promote);
    pm.Demote(c.demote);
    group.participants := pm.Participants();
    group.version := u.version;
    return true;
  }

  /** On a version mismatch the parameters have already been changed in memory. */
  method UpdateGroupInfo(group: GroupInfo, u: Update) returns (ok: bool)
    modifies group
    ensures ok <==> u.change == Change([], [], [], []) || u.previousVersion == old(group.version)
    ensures group.View() == if ok then Updated(old(group.View()), u) else WithParams(old(group.View()), u)
  {
    UpdateGroupParams(group, u);
    ok := UpdateGroupParticipants(group, u);
  }
}
