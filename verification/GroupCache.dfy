/**
 The group cache: stored groups, the disappearing-message setting kept beside each of them, and
 the time of the last refresh. Which storage calls go through is a parameter of each method.
 */
module GroupCache {
  import opened Types
  import opened GroupUpdates

  /** A stored setting is always an ephemeral one. Group settings carry no timestamp. */
  datatype Setting = Setting(timer: nat, timestamp: Option<int>)

  type Groups = map<Jid, Group>

  type Settings = map<Jid, Setting>

  const REFRESH_INTERVAL := 24 * 60 * 60

  /** Whether the two storage calls made for one group go through: its setting's and its own. */
  datatype Calls = Calls(setting: bool, group: bool)

  /** Which storage calls of a refresh go through: the listing, the i-th upsert, the deletion of a group. */
  datatype Storage = Storage(list: bool, upsert: nat -> Calls, delete: Jid -> Calls)

  // ---------------------------------------------------------------- settings

  /** DeleteChatEphemeralSetting keeps a setting at least as new as the deletion. */
  predicate Outlives(settings: Settings, id: Jid, deleteBefore: int) {
    id in settings && settings[id].timestamp.Some? && settings[id].timestamp.value >= deleteBefore
  }

  function DeleteSetting(settings: Settings, id: Jid, deleteBefore: int): Settings {
    if Outlives(settings, id, deleteBefore) then settings else settings - {id}
  }

  function UpdateSetting(settings: Settings, g: Group, now: int): Settings {
    if g.ephemeral.isEphemeral then settings[g.jid := Setting(g.ephemeral.timer, None)]
    else DeleteSetting(settings, g.jid, now)
  }

  // ---------------------------------------------------------------- a refresh as a value

  /** The stored form of a fetched list; the last entry of an address wins. */
  function Stored(groups: Groups, fetched: seq<Group>): Groups {
    if fetched == [] then groups
    else Stored(groups, fetched[..|fetched| - 1])[fetched[|fetched| - 1].jid := fetched[|fetched| - 1]]
  }

  /** The settings once the fetched groups are upserted; a failed setting write is only logged. */
  function SettingsAfter(settings: Settings, fetched: seq<Group>, upsert: nat -> Calls, now: int): Settings {
    if fetched == [] then settings
    else
      var n := |fetched| - 1;
      var rest := SettingsAfter(settings, fetched[..n], upsert, now);
      if upsert(n).setting then UpdateSetting(rest, fetched[n], now) else rest
  }

  function FetchedJids(fetched: seq<Group>): set<Jid> {
    set g | g in fetched :: g.jid
  }

  ghost predicate DistinctJids(fetched: seq<Group>) {
    forall i, j | 0 <= i < j < |fetched| :: fetched[i].jid != fetched[j].jid
  }

  lemma {:induction false} StoredMeaning(groups: Groups, fetched: seq<Group>)
    ensures Stored(groups, fetched).Keys == groups.Keys + FetchedJids(fetched)
    ensures forall j | j in groups && j !in FetchedJids(fetched) :: Stored(groups, fetched)[j] == groups[j]
    ensures forall j | j in FetchedJids(fetched) ::
              Stored(groups, fetched)[j] in fetched && Stored(groups, fetched)[j].jid == j
  {
    if fetched != [] {
      assert fetched == fetched[..|fetched| - 1] + [fetched[|fetched| - 1]];
      StoredMeaning(groups, fetched[..|fetched| - 1]);
    }
  }

  /** The address has a setting that is dated, and not before the moment of a deletion. */
  ghost predicate IsRecent(settings: Settings, j: Jid, now: int) {
    j in settings && match settings[j].timestamp case Some(time) => time >= now case None => false
  }

  /** An ephemeral group has its own setting; another one has none, unless an earlier one is too new to go. */
  ghost predicate SettingFits(before: Settings, after: Settings, g: Group, now: int) {
    if g.ephemeral.isEphemeral then g.jid in after && after[g.jid] == Setting(g.ephemeral.timer, None)
    else if IsRecent(before, g.jid, now) then Same(after, before, g.jid)
    else g.jid !in after
  }

  lemma OneSetting(before: Settings, middle: Settings, g: Group, now: int, j: Jid)
    requires Same(middle, before, g.jid)
    ensures j != g.jid ==> Same(UpdateSetting(middle, g, now), middle, j)
    ensures SettingFits(before, UpdateSetting(middle, g, now), g, now)
  {
  }

  /** The settings once distinct groups are upserted, read off the fetched list and what worked. */
  lemma {:induction false} SettingsMeaning(settings: Settings, fetched: seq<Group>, upsert: nat -> Calls, now: int,
                                           j: Jid)
    requires DistinctJids(fetched)
    ensures j !in FetchedJids(fetched) ==> Same(SettingsAfter(settings, fetched, upsert, now), settings, j)
    ensures forall i: nat | i < |fetched| && fetched[i].jid == j ::
              if upsert(i).setting
              then SettingFits(settings, SettingsAfter(settings, fetched, upsert, now), fetched[i], now)
              else Same(SettingsAfter(settings, fetched, upsert, now), settings, j)
  {
    if fetched != [] {
      hide UpdateSetting, IsRecent, SettingsAfter, SettingFits;
      var init, last := fetched[..|fetched| - 1], fetched[|fetched| - 1];
      assert fetched == init + [last];
      SettingsMeaning(settings, init, upsert, now, j);
      assert forall g | g in init :: g.jid != last.jid;
      LastSetting(settings, init, last, upsert, now, j);
    } else {
      NoSetting(settings, upsert, now, j);
    }
  }

  lemma NoSetting(settings: Settings, upsert: nat -> Calls, now: int, j: Jid)
    ensures Same(SettingsAfter(settings, [], upsert, now), settings, j)
  {
  }

  lemma LastSetting(settings: Settings, init: seq<Group>, last: Group, upsert: nat -> Calls, now: int, j: Jid)
    ensures var before := SettingsAfter(settings, init, upsert, now);
            var after := SettingsAfter(settings, init + [last], upsert, now);
            && (j != last.jid ==> Same(after, before, j))
            && (j == last.jid && Same(before, settings, j) ==>
                  if upsert(|init|).setting then SettingFits(settings, after, last, now) else Same(after, settings, j))
            && (j != last.jid ==> forall g: Group | g.jid == j ::
                  SettingFits(settings, after, g, now) <==> SettingFits(settings, before, g, now))
  {
    assert (init + [last])[..|init|] == init;
  }

  ghost predicate Same(a: Settings, b: Settings, j: Jid) {
    (j in a <==> j in b) && (j in a ==> a[j] == b[j])
  }

  function WithoutSettings(settings: Settings, stale: set<Jid>, now: int): Settings {
    map j | j in settings && (j !in stale || Outlives(settings, j, now)) :: settings[j]
  }

  /** A group has a disappearing setting after the refresh. */
  predicate IsTimed(fetched: seq<Group>, j: Jid) {
    exists g :: g in fetched && g.jid == j && g.ephemeral.isEphemeral
  }

  /** The formerly stored groups that were not fetched. */
  function Stale(groups: Groups, fetched: seq<Group>): set<Jid> {
    groups.Keys - FetchedJids(fetched)
  }

  /** The groups whose deletion goes through, and those whose setting's deletion does. */
  function Deleted(stale: set<Jid>, calls: Jid -> Calls): set<Jid> {
    set j | j in stale && calls(j).group
  }

  function Unset(stale: set<Jid>, calls: Jid -> Calls): set<Jid> {
    set j | j in stale && calls(j).setting
  }

  /** What a completed refresh leaves: failed setting writes and failed deletions are only logged. */
  ghost predicate Refreshed(groups: Groups, settings: Settings, fetched: seq<Group>, st: Storage, now: int,
                            groups': Groups, settings': Settings) {
    var stale := Stale(groups, fetched);
    && groups' == Stored(groups, fetched) - Deleted(stale, st.delete)
    && settings' == WithoutSettings(SettingsAfter(settings, fetched, st.upsert, now),
                                    Unset(stale, st.delete), now)
  }

  /** What a refresh leaves that stopped at the `n`-th group. */
  ghost predicate StoppedAt(groups: Groups, settings: Settings, fetched: seq<Group>, st: Storage, now: int, n: nat,
                            groups': Groups, settings': Settings) {
    && n < |fetched| && !st.upsert(n).group && (forall i: nat | i < n :: st.upsert(i).group)
    && groups' == Stored(groups, fetched[..n])
    && settings' == SettingsAfter(settings, fetched[..n + 1], st.upsert, now)
  }

  ghost predicate AllWork(groups: Groups, fetched: seq<Group>, st: Storage) {
    && (forall i: nat | i < |fetched| :: st.upsert(i) == Calls(true, true))
    && (forall j | j in Stale(groups, fetched) :: st.delete(j) == Calls(true, true))
  }

  /**
   What a completed refresh of distinct groups leaves, whatever failed on the way. Every fetched
   group is stored. A formerly stored group that was not fetched is gone exactly when its deletion
   worked. A fetched group's setting follows the group if that write worked. Another setting is gone
   exactly when its group was stored, its deletion worked and it is not dated now or later.
   */
  lemma RefreshUnderFailures(groups: Groups, settings: Settings, fetched: seq<Group>, st: Storage, now: int,
                             groups': Groups, settings': Settings)
    requires DistinctJids(fetched) && Refreshed(groups, settings, fetched, st, now, groups', settings')
    ensures forall g | g in fetched :: g.jid in groups' && groups'[g.jid] == g
    ensures forall j | j !in FetchedJids(fetched) ::
              && (j in groups' <==> j in groups && !st.delete(j).group)
              && (j in groups' ==> groups'[j] == groups[j])
    ensures forall i: nat | i < |fetched| ::
              if st.upsert(i).setting then SettingFits(settings, settings', fetched[i], now)
              else Same(settings', settings, fetched[i].jid)
    ensures forall j | j !in FetchedJids(fetched) ::
              if j in groups && st.delete(j).setting && !IsRecent(settings, j, now) then j !in settings'
              else Same(settings', settings, j)
  {
    hide SettingsAfter, Stored;
    StoredMeaning(groups, fetched);
    forall g | g in fetched ensures g.jid in groups' && groups'[g.jid] == g {
      OneGroupPerJid(fetched, groups'[g.jid], g);
    }
    forall i: nat | i < |fetched|
      ensures if st.upsert(i).setting then SettingFits(settings, settings', fetched[i], now)
              else Same(settings', settings, fetched[i].jid)
    {
      SettingsMeaning(settings, fetched, st.upsert, now, fetched[i].jid);
      assert fetched[i] in fetched;
    }
    forall j | j !in FetchedJids(fetched)
      ensures if j in groups && st.delete(j).setting && !IsRecent(settings, j, now) then j !in settings'
              else Same(settings', settings, j)
    {
      SettingsMeaning(settings, fetched, st.upsert, now, j);
    }
  }

  /**
   After a clean refresh of distinct groups the stored groups are the fetched ones, and a fetched
   or formerly stored group has a setting exactly when it is ephemeral or an earlier setting is
   dated now or later; every other chat keeps its setting.
   */
  lemma RefreshIsExact(groups: Groups, settings: Settings, fetched: seq<Group>, st: Storage, now: int,
                       groups': Groups, settings': Settings)
    requires DistinctJids(fetched) && AllWork(groups, fetched, st)
    requires Refreshed(groups, settings, fetched, st, now, groups', settings')
    ensures forall g | g in fetched :: g.jid in groups' && groups'[g.jid] == g
    ensures groups'.Keys == FetchedJids(fetched)
    ensures forall j | j in groups.Keys + FetchedJids(fetched) ::
              j in settings' <==> IsTimed(fetched, j) || IsRecent(settings, j, now)
    ensures forall g | g in fetched && g.ephemeral.isEphemeral ::
              g.jid in settings' && settings'[g.jid] == Setting(g.ephemeral.timer, None)
    ensures forall j | j !in groups.Keys + FetchedJids(fetched) :: Same(settings', settings, j)
  {
    hide Refreshed, IsRecent;
    RefreshUnderFailures(groups, settings, fetched, st, now, groups', settings');
    assert forall j | j in groups && j !in FetchedJids(fetched) :: j in Stale(groups, fetched);
    forall j | j in FetchedJids(fetched) ensures j in settings' <==> IsTimed(fetched, j) || IsRecent(settings, j, now) {
      var i :| 0 <= i < |fetched| && fetched[i].jid == j;
      assert st.upsert(i).setting && SettingFits(settings, settings', fetched[i], now);
      OneGroupPerJidAll(fetched, fetched[i]);
      RecentIsThere(settings, j, now);
    }
    forall j | j in groups && j !in FetchedJids(fetched)
      ensures j in settings' <==> IsTimed(fetched, j) || IsRecent(settings, j, now)
    {
      RecentIsThere(settings, j, now);
      assert st.delete(j).setting;
    }
    forall g | g in fetched && g.ephemeral.isEphemeral
      ensures g.jid in settings' && settings'[g.jid] == Setting(g.ephemeral.timer, None)
    {
      var i: nat :| i < |fetched| && fetched[i] == g;
      assert st.upsert(i).setting && SettingFits(settings, settings', fetched[i], now);
    }
  }

  lemma RecentIsThere(settings: Settings, j: Jid, now: int)
    ensures IsRecent(settings, j, now) ==> j in settings
  {
  }

  /** An empty answer, which the cache does not trust enough to be marked fresh, removes what it can. */
  lemma EmptyAnswerRemovesAllIff(groups: Groups, settings: Settings, st: Storage, now: int, groups': Groups,
                                 settings': Settings)
    requires Refreshed(groups, settings, [], st, now, groups', settings')
    ensures groups' == map[] <==> forall j | j in groups :: st.delete(j).group
  {
    var gone := Deleted(Stale(groups, []), st.delete);
    assert Stale(groups, []) == groups.Keys && Stored(groups, []) == groups;
    assert groups' == groups - gone;
    forall j | j in groups ensures j in groups' <==> !st.delete(j).group {
      assert j in gone <==> st.delete(j).group;
    }
    assert groups' == map[] <==> forall j | j in groups :: j !in groups';
  }

  lemma OneGroupPerJid(fetched: seq<Group>, a: Group, b: Group)
    requires DistinctJids(fetched) && a in fetched && b in fetched && a.jid == b.jid
    ensures a == b
  {
  }

  lemma OneGroupPerJidAll(fetched: seq<Group>, g: Group)
    requires DistinctJids(fetched) && g in fetched
    ensures forall other | other in fetched && other.jid == g.jid :: other == g
  {
    forall other | other in fetched && other.jid == g.jid ensures other == g {
      OneGroupPerJid(fetched, other, g);
    }
  }

  // ---------------------------------------------------------------- a series of updates

  /** One update event on a stored group: it is persisted as a whole or, on a version mismatch, not at all. */
  function Persisted(g: Group, u: Update): Group {
    if Matches(g, u) then Updated(g, u) else g
  }

  function PersistedAll(g: Group, us: seq<Update>): Group {
    if us == [] then g else Persisted(PersistedAll(g, us[..|us| - 1]), us[|us| - 1])
  }

  /** The participant-changing updates whose previous version was the stored one when they came. */
  function Applied(g: Group, us: seq<Update>): seq<Update> {
    if us == [] then []
    else
      var init, last := us[..|us| - 1], us[|us| - 1];
      if last.change != Change([], [], [], []) && last.previousVersion == PersistedAll(g, init).version
      then Applied(g, init) + [last] else Applied(g, init)
  }

  function Folded(ps: seq<Participant>, us: seq<Update>): seq<Participant> {
    if us == [] then ps else Changed(Folded(ps, us[..|us| - 1]), us[|us| - 1].change)
  }

  /** Each update starts from the version the one before it produced. */
  ghost predicate Chain(from: string, us: seq<Update>, to: string) {
    if us == [] then from == to
    else
      && us[0].previousVersion == from && us[|us| - 1].version == to
      && forall i | 0 < i < |us| :: us[i].previousVersion == us[i - 1].version
  }

  /**
   Whatever updates arrive: the stored participants are the fold of exactly those that matched,
   and their versions form a chain from the first version to the stored one.
   */
  lemma {:induction false} UpdatesFormAChain(g: Group, us: seq<Update>)
    ensures PersistedAll(g, us).participants == Folded(g.participants, Applied(g, us))
    ensures Chain(g.version, Applied(g, us), PersistedAll(g, us).version)
    ensures PersistedAll(g, us).jid == g.jid
  {
    hide Changed;
    if us != [] {
      var init, last := us[..|us| - 1], us[|us| - 1];
      UpdatesFormAChain(g, init);
      var before := Applied(g, init);
      assert (before + [last])[..|before|] == before;
    }
  }

  /**
   What the next update of a series does. One that names participants is applied if and only if its
   previous version is that of the last applied update, or the first version when there was none;
   one that names none always is. Anything else leaves the stored group alone.
   */
  lemma UpdateAppliedIff(g: Group, us: seq<Update>, u: Update)
    ensures var s, t, applied := PersistedAll(g, us), PersistedAll(g, us + [u]), Applied(g, us);
            var current := if applied == [] then g.version else applied[|applied| - 1].version;
            && s.version == current
            && (u.change == Change([], [], [], []) ==> t == WithParams(s, u) && Applied(g, us + [u]) == applied)
            && (u.change != Change([], [], [], []) && u.previousVersion == current ==>
                  && t == WithParams(s, u).(participants := Changed(s.participants, u.change), version := u.version)
                  && Applied(g, us + [u]) == applied + [u])
            && (u.change != Change([], [], [], []) && u.previousVersion != current ==>
                  t == s && Applied(g, us + [u]) == applied)
  {
    hide Changed;
    UpdatesFormAChain(g, us);
    assert (us + [u])[..|us|] == us;
  }

  /** No series of updates makes a list without duplicates have one. */
  lemma {:induction false} UpdatesKeepMembersDistinct(g: Group, us: seq<Update>)
    requires NoDuplicates(Jids(g.participants))
    ensures NoDuplicates(Jids(PersistedAll(g, us).participants))
  {
    if us != [] {
      UpdatesKeepMembersDistinct(g, us[..|us| - 1]);
      UpdateIsExact(PersistedAll(g, us[..|us| - 1]).participants, us[|us| - 1].change);
    }
  }

  // ---------------------------------------------------------------- the cache

  datatype UpdateResult = Saved | Skipped | NotFound | Mismatch | Failed

  class GroupCacheStorage {
    var groups: Groups
    var settings: Settings
    var lastTimeRefreshed: int

    constructor (groups: Groups, settings: Settings, lastTimeRefreshed: int)
      ensures this.groups == groups && this.settings == settings && this.lastTimeRefreshed == lastTimeRefreshed
    {
      this.groups, this.settings, this.lastTimeRefreshed := groups, settings, lastTimeRefreshed;
    }

    predicate ShouldRefresh(now: int)
      reads this
    {
      now - lastTimeRefreshed > REFRESH_INTERVAL
    }

    method UpdateChatEphemeralSetting(g: Group, now: int, works: bool)
      modifies `settings
      ensures settings == if works then UpdateSetting(old(settings), g, now) else old(settings)
    {
      if !works {
        return;
      }
      if g.ephemeral.isEphemeral {
        settings := settings[g.jid := Setting(g.ephemeral.timer, None)];
      } else {
        DeleteChatEphemeralSetting(g.jid, now);
      }
    }

    method DeleteChatEphemeralSetting(id: Jid, deleteBefore: int)
      modifies `settings
      ensures settings == DeleteSetting(old(settings), id, deleteBefore)
      ensures settings == if id in old(settings) && (old(settings)[id].timestamp.None?
                                                     || old(settings)[id].timestamp.value < deleteBefore)
                          then old(settings) - {id} else old(settings)
    {
      if id !in settings {
        return;
      }
      var setting := settings[id];
      if setting.timestamp.None? || setting.timestamp.value < deleteBefore {
        settings := settings - {id};
      }
    }

    /** A failed setting write is only logged. */
    method UpsertOneGroup(g: Group, now: int, calls: Calls) returns (ok: bool)
      modifies `groups, `settings
      ensures ok == calls.group && groups == if ok then old(groups)[g.jid := g] else old(groups)
      ensures settings == if calls.setting then UpdateSetting(old(settings), g, now) else old(settings)
    {
      UpdateChatEphemeralSetting(g, now, calls.setting);
      if !calls.group {
        return false;
      }
      groups := groups[g.jid := g];
      return true;
    }

    method DeleteGroup(jid: Jid, now: int, calls: Calls) returns (ok: bool)
      modifies `groups, `settings
      ensures ok == calls.group && groups == if ok then old(groups) - {jid} else old(groups)
      ensures settings == if calls.setting then DeleteSetting(old(settings), jid, now) else old(settings)
    {
      if calls.setting {
        DeleteChatEphemeralSetting(jid, now);
      }
      if !calls.group {
        return false;
      }
      groups := groups - {jid};
      return true;
    }

    /**
     A refresh with what the server answered, or None for an error. An error before all fetched
     groups are stored removes nothing and leaves the refresh time; an empty answer is never
     marked fresh, but removes the stored groups all the same.
     */
    method FetchGroupsUnlocked(answer: Option<seq<Group>>, st: Storage, now: int) returns (ok: bool)
      modifies this
      ensures ok <==> answer.Some? && st.list && forall i: nat | i < |answer.value| :: st.upsert(i).group
      ensures ok ==> Refreshed(old(groups), old(settings), answer.value, st, now, groups, settings)
      ensures ok ==> lastTimeRefreshed == if answer.value != [] then now else old(lastTimeRefreshed)
      ensures !ok ==> old(groups).Keys <= groups.Keys && lastTimeRefreshed == old(lastTimeRefreshed)
      ensures answer.None? || !st.list ==> groups == old(groups) && settings == old(settings)
      ensures !ok && answer.Some? && st.list ==>
                exists n :: StoppedAt(old(groups), old(settings), answer.value, st, now, n, groups, settings)
    {
      hide UpdateSetting;
      if answer.None? || !st.list {
        return false;
      }
      var fetchedGroups, existing := answer.value, groups;
      var fetched: set<Jid> := {};
      for i := 0 to |fetchedGroups|
        invariant groups == Stored(old(groups), fetchedGroups[..i]) && fetched == FetchedJids(fetchedGroups[..i])
        invariant lastTimeRefreshed == old(lastTimeRefreshed) && old(groups).Keys <= groups.Keys
        invariant settings == SettingsAfter(old(settings), fetchedGroups[..i], st.upsert, now)
        invariant forall n: nat | n < i :: st.upsert(n).group
      {
        assert fetchedGroups[..i + 1][..i] == fetchedGroups[..i];
        OneMoreFetched(fetchedGroups, i);
        var saved := UpsertOneGroup(fetchedGroups[i], now, st.upsert(i));
        if !saved {
          assert StoppedAt(old(groups), old(settings), answer.value, st, now, i, groups, settings);
          return false;
        }
        fetched := fetched + {fetchedGroups[i].jid};
      }
      assert fetchedGroups[..|fetchedGroups|] == fetchedGroups;
      RemoveStale(existing.Keys - fetched, st.delete, now);
      if fetchedGroups != [] {
        lastTimeRefreshed := now;
      }
      return true;
    }

    /** Deletes the groups that were not fetched; a failure is only logged. */
    method RemoveStale(stale: set<Jid>, calls: Jid -> Calls, now: int)
      modifies `groups, `settings
      ensures groups == old(groups) - Deleted(stale, calls)
      ensures settings == WithoutSettings(old(settings), Unset(stale, calls), now)
    {
      var todo := stale;
      while todo != {}
        invariant todo <= stale
        invariant groups == old(groups) - Deleted(stale - todo, calls)
        invariant settings == WithoutSettings(old(settings), Unset(stale - todo, calls), now)
      {
        var jid :| jid in todo;
        ghost var seen := stale - todo;
        var deleted := DeleteGroup(jid, now, calls(jid));
        todo := todo - {jid};
        assert stale - todo == seen + {jid};
        OneMoreStale(old(settings), Unset(seen, calls), jid, now);
        assert Deleted(seen + {jid}, calls)
            == Deleted(seen, calls) + if calls(jid).group then {jid} else {};
        assert Unset(seen + {jid}, calls)
            == Unset(seen, calls) + if calls(jid).setting then {jid} else {};
      }
      assert stale - todo == stale;
    }

    /**
     A refresh that comes due swallows the update; otherwise the stored group is updated or left
     alone. `read` is whether the group can be read, `calls` whether its two writes go through.
     */
    method UpdateGroup(u: Update, read: bool, calls: Calls, answer: Option<seq<Group>>, st: Storage, now: int)
      returns (result: UpdateResult)
      modifies this
      ensures now - old(lastTimeRefreshed) > 24 * 60 * 60 ==>
                && (result.Skipped? || result.Failed?)
                && (result.Skipped? <==>
                      answer.Some? && st.list && forall i: nat | i < |answer.value| :: st.upsert(i).group)
                && (result.Skipped? ==> Refreshed(old(groups), old(settings), answer.value, st, now, groups, settings))
                && (result.Failed? ==> old(groups).Keys <= groups.Keys && lastTimeRefreshed == old(lastTimeRefreshed))
      ensures now - old(lastTimeRefreshed) <= 24 * 60 * 60 ==>
                && lastTimeRefreshed == old(lastTimeRefreshed)
                && result == (if !read then Failed
                              else if u.jid !in old(groups) then NotFound
                              else if u.change != Change([], [], [], [])
                                      && u.previousVersion != old(groups)[u.jid].version then Mismatch
                              else if calls.group then Saved
                              else Failed)
                && (!result.Saved? ==> groups == old(groups))
                && (result.Saved? ==> groups == old(groups)[old(groups)[u.jid].jid := Persisted(old(groups)[u.jid], u)])
                && settings == (if read && u.jid in old(groups) && u.ephemeral.Some? && calls.setting
                                   && (u.change == Change([], [], [], [])
                                       || u.previousVersion == old(groups)[u.jid].version)
                                then UpdateSetting(old(settings), Persisted(old(groups)[u.jid], u), now)
                                else old(settings))
    {
      hide Refreshed, StoppedAt, Updated, UpdateSetting;
      if ShouldRefresh(now) {
        var ok := FetchGroupsUnlocked(answer, st, now);
        return if ok then Skipped else Failed;
      }
      if !read {
        return Failed;
      }
      if u.jid !in groups {
        return NotFound;
      }
      var group := new GroupInfo(groups[u.jid]);
      var ok := UpdateGroupInfo(group, u);
      if !ok {
        return Mismatch;
      }
      if u.ephemeral.Some? {
        UpdateChatEphemeralSetting(group.View(), now, calls.setting);
      }
      if !calls.group {
        return Failed;
      }
      groups := groups[group.jid := group.View()];
      return Saved;
    }
  }

  lemma OneMoreFetched(fetched: seq<Group>, i: nat)
    requires i < |fetched|
    ensures FetchedJids(fetched[..i + 1]) == FetchedJids(fetched[..i]) + {fetched[i].jid}
  {
  }

  lemma OneMoreStale(settings: Settings, seen: set<Jid>, jid: Jid, now: int)
    ensures DeleteSetting(WithoutSettings(settings, seen, now), jid, now)
         == WithoutSettings(settings, seen + {jid}, now)
  {
  }
}
