/** internal/registry/registry.go: entities under numeric light ids, and groups of them. */
module Registry {
  import opened Options

  datatype Entry = Entry(hueId: int, entityId: string, name: string)

  datatype Group = Group(hueId: int, name: string, room: string, members: seq<string>)

  /** The registry as a value, which is also what registry.json holds. */
  datatype State = State(nextId: int, entries: seq<Entry>, nextGroupId: int, groups: seq<Group>)

  const EMPTY := State(1, [], 1, [])

  function Loaded(file: Option<State>): State {
    match file
    case None => EMPTY
    case Some(s) => s
  }

  // ----- What the operations compute. -----

  function ByEntity(entries: seq<Entry>, entityId: string): Option<Entry> {
    if entries == [] then None
    else if entries[0].entityId == entityId then Some(entries[0])
    else ByEntity(entries[1..], entityId)
  }

  function ByHue(entries: seq<Entry>, hueId: int): Option<Entry> {
    if entries == [] then None
    else if entries[0].hueId == hueId then Some(entries[0])
    else ByHue(entries[1..], hueId)
  }

  function GroupByHue(groups: seq<Group>, hueId: int): Option<Group> {
    if groups == [] then None
    else if groups[0].hueId == hueId then Some(groups[0])
    else GroupByHue(groups[1..], hueId)
  }

  lemma {:induction false} ByEntityFinds(entries: seq<Entry>, entityId: string)
    ensures ByEntity(entries, entityId).None? <==> forall e | e in entries :: e.entityId != entityId
    ensures ByEntity(entries, entityId).Some? ==>
              ByEntity(entries, entityId).value in entries && ByEntity(entries, entityId).value.entityId == entityId
  {
    if entries != [] {
      ByEntityFinds(entries[1..], entityId);
    }
  }

  lemma {:induction false} ByHueFinds(entries: seq<Entry>, hueId: int)
    ensures ByHue(entries, hueId).None? <==> forall e | e in entries :: e.hueId != hueId
    ensures ByHue(entries, hueId).Some? ==>
              ByHue(entries, hueId).value in entries && ByHue(entries, hueId).value.hueId == hueId
  {
    if entries != [] {
      ByHueFinds(entries[1..], hueId);
    }
  }

  lemma {:induction false} GroupByHueFinds(groups: seq<Group>, hueId: int)
    ensures GroupByHue(groups, hueId).None? <==> forall g | g in groups :: g.hueId != hueId
    ensures GroupByHue(groups, hueId).Some? ==>
              GroupByHue(groups, hueId).value in groups && GroupByHue(groups, hueId).value.hueId == hueId
  {
    if groups != [] {
      GroupByHueFinds(groups[1..], hueId);
    }
  }

  /** Where a hand-edited file has an entity or an id twice, the first is found. */
  lemma {:induction false} TheFirstIsFound(entries: seq<Entry>, groups: seq<Group>, i: nat)
    ensures i < |entries| && (forall j | 0 <= j < i :: entries[j].entityId != entries[i].entityId) ==>
              ByEntity(entries, entries[i].entityId) == Some(entries[i])
    ensures i < |entries| && (forall j | 0 <= j < i :: entries[j].hueId != entries[i].hueId) ==>
              ByHue(entries, entries[i].hueId) == Some(entries[i])
    ensures i < |groups| && (forall j | 0 <= j < i :: groups[j].hueId != groups[i].hueId) ==>
              GroupByHue(groups, groups[i].hueId) == Some(groups[i])
    decreases i
  {
    if i > 0 {
      if i < |entries| {
        assert forall j | 0 <= j < i - 1 :: entries[1..][j] == entries[j + 1];
        TheFirstIsFound(entries[1..], [], i - 1);
      }
      if i < |groups| {
        assert forall j | 0 <= j < i - 1 :: groups[1..][j] == groups[j + 1];
        TheFirstIsFound([], groups[1..], i - 1);
      }
    }
  }

  function EntriesWithout(entries: seq<Entry>, entityId: string): seq<Entry> {
    if entries == [] then []
    else
      var front := EntriesWithout(entries[..|entries| - 1], entityId);
      var last := entries[|entries| - 1];
      if last.entityId != entityId then front + [last] else front
  }

  function MembersWithout(members: seq<string>, entityId: string): seq<string> {
    if members == [] then []
    else
      var front := MembersWithout(members[..|members| - 1], entityId);
      var last := members[|members| - 1];
      if last != entityId then front + [last] else front
  }

  function GroupWithout(g: Group, entityId: string): Group {
    g.(members := MembersWithout(g.members, entityId))
  }

  function GroupsWithout(groups: seq<Group>, entityId: string): seq<Group> {
    seq(|groups|, i requires 0 <= i < |groups| => GroupWithout(groups[i], entityId))
  }

  lemma {:induction false} EntriesLeft(entries: seq<Entry>, entityId: string)
    ensures forall e :: e in EntriesWithout(entries, entityId) <==> e in entries && e.entityId != entityId
  {
    if entries != [] {
      EntriesLeft(entries[..|entries| - 1], entityId);
      assert entries == entries[..|entries| - 1] + [entries[|entries| - 1]];
    }
  }

  lemma {:induction false} EntriesLeftCount(entries: seq<Entry>, entityId: string)
    ensures |EntriesWithout(entries, entityId)| <= |entries|
    ensures |EntriesWithout(entries, entityId)| == |entries| ==> EntriesWithout(entries, entityId) == entries
  {
    if entries != [] {
      EntriesLeftCount(entries[..|entries| - 1], entityId);
      assert entries == entries[..|entries| - 1] + [entries[|entries| - 1]];
    }
  }

  /** Removing a stranger leaves a list alone, and only that keeps its length. */
  lemma EntriesWithoutKeeps(entries: seq<Entry>, entityId: string)
    ensures |EntriesWithout(entries, entityId)| <= |entries|
    ensures |EntriesWithout(entries, entityId)| == |entries| <==> EntriesWithout(entries, entityId) == entries
    ensures |EntriesWithout(entries, entityId)| == |entries| <==> ByEntity(entries, entityId).None?
    ensures forall e :: e in EntriesWithout(entries, entityId) <==> e in entries && e.entityId != entityId
  {
    ByEntityFinds(entries, entityId);
    EntriesLeft(entries, entityId);
    EntriesLeftCount(entries, entityId);
    if ByEntity(entries, entityId).None? {
      StrangerLeavesAll(entries, entityId);
    }
  }

  lemma {:induction false} StrangerLeavesAll(entries: seq<Entry>, entityId: string)
    requires forall e | e in entries :: e.entityId != entityId
    ensures EntriesWithout(entries, entityId) == entries
  {
    if entries != [] {
      StrangerLeavesAll(entries[..|entries| - 1], entityId);
    }
  }

  lemma {:induction false} MembersWithoutKeeps(members: seq<string>, entityId: string)
    ensures |MembersWithout(members, entityId)| <= |members|
    ensures |MembersWithout(members, entityId)| == |members| ==> MembersWithout(members, entityId) == members
    ensures forall m :: m in MembersWithout(members, entityId) <==> m in members && m != entityId
  {
    if members != [] {
      MembersWithoutKeeps(members[..|members| - 1], entityId);
      assert members == members[..|members| - 1] + [members[|members| - 1]];
    }
  }

  /** Filtering keeps order and multiplicity: it drops the entity from each piece of a list and
      leaves the rest of the piece where it was. */
  lemma {:induction false} MembersWithoutPieces(a: seq<string>, b: seq<string>, entityId: string)
    ensures MembersWithout(a + b, entityId) == MembersWithout(a, entityId) + MembersWithout(b, entityId)
    ensures |a| == 1 ==> MembersWithout(a, entityId) == if a[0] == entityId then [] else a
  {
    if b == [] {
      assert a + b == a;
    } else {
      assert (a + b)[..|a + b| - 1] == a + b[..|b| - 1];
      MembersWithoutPieces(a, b[..|b| - 1], entityId);
    }
    if |a| == 1 {
      assert a == [a[0]] && a[..0] == [];
    }
  }

  lemma {:induction false} EntriesWithoutPieces(a: seq<Entry>, b: seq<Entry>, entityId: string)
    ensures EntriesWithout(a + b, entityId) == EntriesWithout(a, entityId) + EntriesWithout(b, entityId)
    ensures |a| == 1 ==> EntriesWithout(a, entityId) == if a[0].entityId == entityId then [] else a
  {
    if b == [] {
      assert a + b == a;
    } else {
      assert (a + b)[..|a + b| - 1] == a + b[..|b| - 1];
      EntriesWithoutPieces(a, b[..|b| - 1], entityId);
    }
    if |a| == 1 {
      assert a == [a[0]] && a[..0] == [];
    }
  }

  function AfterAdd(s: State, entityId: string, name: string): State {
    if ByEntity(s.entries, entityId).Some? then s
    else s.(nextId := s.nextId + 1, entries := s.entries + [Entry(s.nextId, entityId, name)])
  }

  function AfterRemove(s: State, entityId: string): State {
    if ByEntity(s.entries, entityId).None? then s
    else s.(entries := EntriesWithout(s.entries, entityId), groups := GroupsWithout(s.groups, entityId))
  }

  function GroupIdFor(s: State): int {
    if s.nextGroupId == 0 then 1 else s.nextGroupId
  }

  function AfterAddGroup(s: State, name: string, room: string, members: seq<string>): State {
    var id := GroupIdFor(s);
    s.(nextGroupId := id + 1, groups := s.groups + [Group(id, name, room, members)])
  }

  function MaxEntryId(entries: seq<Entry>): (max: nat)
    ensures forall e | e in entries :: e.hueId <= max
    ensures max == 0 || exists e :: e in entries && e.hueId == max
  {
    if entries == [] then 0
    else
      var front := MaxEntryId(entries[..|entries| - 1]);
      var last := entries[|entries| - 1];
      if last.hueId > front then last.hueId else front
  }

  function MaxGroupId(groups: seq<Group>): (max: nat)
    ensures forall g | g in groups :: g.hueId <= max
    ensures max == 0 || exists g :: g in groups && g.hueId == max
  {
    if groups == [] then 0
    else
      var front := MaxGroupId(groups[..|groups| - 1]);
      var last := groups[|groups| - 1];
      if last.hueId > front then last.hueId else front
  }

  /** NewRegistry's self-heal of both counters. */
  function Heal(s: State): State {
    var maxId := MaxEntryId(s.entries);
    var maxGroup := MaxGroupId(s.groups);
    s.(nextId := if s.nextId <= maxId then maxId + 1 else s.nextId,
       nextGroupId := if s.nextGroupId <= maxGroup then maxGroup + 1 else s.nextGroupId)
  }

  /** Healing moves a counter no further than it must: to the least number that is not below
      the loaded one, is at least 1 and is above every id in use. */
  lemma HealIsLeast(s: State, n: int)
    ensures s.nextId <= Heal(s).nextId && s.nextGroupId <= Heal(s).nextGroupId
    ensures n >= 1 && n >= s.nextId && (forall e | e in s.entries :: e.hueId < n) ==> Heal(s).nextId <= n
    ensures n >= 1 && n >= s.nextGroupId && (forall g | g in s.groups :: g.hueId < n) ==> Heal(s).nextGroupId <= n
  {
  }

  // ----- The object. -----

  /** A group as the registry holds it: its member list is a slice others may share. */
  datatype GroupRec = GroupRec(hueId: int, name: string, room: string, members: array<string>)

  function ToGroup(g: GroupRec): Group
    reads g.members
  {
    Group(g.hueId, g.name, g.room, g.members[..])
  }

  function MemberArrays(groups: array<GroupRec>): set<array<string>>
    reads groups
  {
    set g | g in groups[..] :: g.members
  }

  /** What a list of groups currently says. */
  function GroupsIn(groups: array<GroupRec>): seq<Group>
    reads groups, MemberArrays(groups)
  {
    seq(groups.Length, i requires 0 <= i < groups.Length reads groups, MemberArrays(groups) => ToGroup(groups[i]))
  }

  method HighestEntryId(entries: seq<Entry>) returns (maxId: int)
    ensures maxId == MaxEntryId(entries)
  {
    maxId := 0;
    for i := 0 to |entries|
      invariant maxId == MaxEntryId(entries[..i])
    {
      assert entries[..i + 1][..i] == entries[..i];
      if entries[i].hueId > maxId {
        maxId := entries[i].hueId;
      }
    }
    assert entries[..|entries|] == entries;
  }

  method HighestGroupId(groups: seq<Group>) returns (maxId: int)
    ensures maxId == MaxGroupId(groups)
  {
    maxId := 0;
    for i := 0 to |groups|
      invariant maxId == MaxGroupId(groups[..i])
    {
      assert groups[..i + 1][..i] == groups[..i];
      if groups[i].hueId > maxId {
        maxId := groups[i].hueId;
      }
    }
    assert groups[..|groups|] == groups;
  }

  method HealedCounters(loaded: State) returns (nextId: int, nextGroupId: int)
    ensures nextId == Heal(loaded).nextId && nextGroupId == Heal(loaded).nextGroupId
  {
    nextId, nextGroupId := loaded.nextId, loaded.nextGroupId;
    var maxId := HighestEntryId(loaded.entries);
    if nextId <= maxId {
      nextId := maxId + 1;
    }
    var maxGroup := HighestGroupId(loaded.groups);
    if nextGroupId <= maxGroup {
      nextGroupId := maxGroup + 1;
    }
  }

  /** The groups a decoded file yields: every list freshly allocated. */
  method Decoded(loaded: seq<Group>) returns (groups: array<GroupRec>)
    ensures fresh(groups) && fresh(MemberArrays(groups))
    ensures GroupsIn(groups) == loaded
  {
    var recs: seq<GroupRec> := [];
    for i := 0 to |loaded|
      invariant |recs| == i
      invariant forall j | 0 <= j < i :: fresh(recs[j].members) && ToGroup(recs[j]) == loaded[j]
    {
      var g := loaded[i];
      var members := new string[|g.members|](k requires 0 <= k < |g.members| => g.members[k]);
      assert members[..] == g.members;
      recs := recs + [GroupRec(g.hueId, g.name, g.room, members)];
    }
    groups := new GroupRec[|recs|](k requires 0 <= k < |recs| => recs[k]);
    assert groups[..] == recs;
  }

  class Registry {
    var nextId: int
    var entries: seq<Entry>
    var nextGroupId: int
    var groups: array<GroupRec>
    var file: Option<State>       // what registry.json holds

    function View(): State
      reads this, groups, MemberArrays(groups)
    {
      State(nextId, entries, nextGroupId, GroupsIn(groups))
    }

    /** NewRegistry over a file that loads; with one that does not it returns an error. */
    constructor (file: Option<State>)
      ensures View() == Heal(Loaded(file)) && this.file == file
      ensures fresh(groups) && fresh(MemberArrays(groups))
    {
      var loaded := Loaded(file);
      var healedId, healedGroupId := HealedCounters(loaded);
      var recs := Decoded(loaded.groups);
      nextId := healedId;
      entries := loaded.entries;
      nextGroupId := healedGroupId;
      groups := recs;
      this.file := file;
    }

    method Save(saveOk: bool) returns (ok: bool)
      modifies this`file
      ensures ok == saveOk
      ensures file == if ok then Some(View()) else old(file)
    {
      if saveOk {
        ghost var listed := GroupsIn(groups);
        file := Some(View());
        assert GroupsIn(groups) == listed;
      }
      ok := saveOk;
    }

    /** A known entity is answered from memory without a save; a new one takes the counter's
        id in memory whether or not the save succeeds. */
    method Add(entityId: string, name: string, saveOk: bool) returns (r: Option<Entry>)
      modifies this
      ensures groups == old(groups)
      ensures View() == AfterAdd(old(View()), entityId, name)
      ensures var known := ByEntity(old(entries), entityId);
              && r == (if known.Some? then known
                       else if saveOk then Some(Entry(old(nextId), entityId, name)) else None)
              && file == if known.None? && saveOk then Some(View()) else old(file)
    {
      var known := FindEntity(entityId);
      if known.Some? {
        return known;
      }
      var entry := Entry(nextId, entityId, name);
      nextId := nextId + 1;
      entries := entries + [entry];
      var ok := Save(saveOk);
      r := if ok then Some(entry) else None;
    }

    /** ByEntityID, and the search at the head of Add. */
    method FindEntity(entityId: string) returns (r: Option<Entry>)
      ensures r == ByEntity(entries, entityId)
    {
      var i := 0;
      while i < |entries|
        invariant 0 <= i <= |entries|
        invariant ByEntity(entries, entityId) == ByEntity(entries[i..], entityId)
      {
        if entries[i].entityId == entityId {
          return Some(entries[i]);
        }
        i := i + 1;
      }
      r := None;
    }

    method ByHueID(id: int) returns (r: Option<Entry>)
      ensures r == ByHue(entries, id)
    {
      var i := 0;
      while i < |entries|
        invariant 0 <= i <= |entries|
        invariant ByHue(entries, id) == ByHue(entries[i..], id)
      {
        if entries[i].hueId == id {
          return Some(entries[i]);
        }
        i := i + 1;
      }
      r := None;
    }

    method GroupByHueID(id: int) returns (r: Option<GroupRec>)
      ensures r.None? <==> GroupByHue(GroupsIn(groups), id).None?
      ensures r.Some? ==> r.value in groups[..] && Some(ToGroup(r.value)) == GroupByHue(GroupsIn(groups), id)
    {
      var i := 0;
      while i < groups.Length
        invariant 0 <= i <= groups.Length
        invariant GroupByHue(GroupsIn(groups), id) == GroupByHue(GroupsIn(groups)[i..], id)
      {
        if groups[i].hueId == id {
          return Some(groups[i]);
        }
        i := i + 1;
      }
      r := None;
    }

    /** Removes the entity everywhere: its entry, and its place in every group. No member
        list is written in place; only the slice of groups is. */
    method Remove(entityId: string, saveOk: bool) returns (ok: bool)
      modifies this, groups
      ensures groups == old(groups)
      ensures View() == AfterRemove(old(View()), entityId)
      ensures var known := ByEntity(old(entries), entityId).Some?;
              ok == (known ==> saveOk) && file == if known && saveOk then Some(View()) else old(file)
    {
      var filtered := [];
      var i := 0;
      while i < |entries|
        invariant 0 <= i <= |entries|
        invariant filtered == EntriesWithout(entries[..i], entityId)
      {
        assert entries[..i + 1][..i] == entries[..i];
        if entries[i].entityId != entityId {
          filtered := filtered + [entries[i]];
        }
        i := i + 1;
      }
      assert entries[..|entries|] == entries;
      EntriesWithoutKeeps(entries, entityId);
      if |filtered| == |entries| {
        return true;
      }
      entries := filtered;

      assert GroupsIn(groups) == old(GroupsIn(groups));
      StripGroups(entityId);
      ghost var stripped := GroupsIn(groups);
      ok := Save(saveOk);
      assert GroupsIn(groups) == stripped;
    }

    /** Takes the entity out of every group, replacing the list of each group that had it. */
    method StripGroups(entityId: string)
      modifies groups
      ensures GroupsIn(groups) == GroupsWithout(old(GroupsIn(groups)), entityId)
    {
      var i := 0;
      while i < groups.Length
        invariant 0 <= i <= groups.Length
        invariant forall j | 0 <= j < i :: ToGroup(groups[j]) == GroupWithout(old(ToGroup(groups[j])), entityId)
        invariant forall j | i <= j < groups.Length :: groups[j] == old(groups[j])
      {
        var members := Filter(groups[i].members, entityId);
        MembersWithoutKeeps(groups[i].members[..], entityId);
        if members.Length != groups[i].members.Length {
          groups[i] := groups[i].(members := members);
        }
        i := i + 1;
      }
    }

    method Filter(members: array<string>, entityId: string) returns (kept: array<string>)
      ensures fresh(kept) && kept[..] == MembersWithout(members[..], entityId)
    {
      var out: seq<string> := [];
      var i := 0;
      while i < members.Length
        invariant 0 <= i <= members.Length
        invariant out == MembersWithout(members[..i], entityId)
      {
        assert members[..i + 1][..i] == members[..i];
        if members[i] != entityId {
          out := out + [members[i]];
        }
        i := i + 1;
      }
      assert members[..members.Length] == members[..];
      kept := new string[|out|](k requires 0 <= k < |out| => out[k]);
    }

    method All() returns (out: seq<Entry>)
      ensures out == entries
    {
      out := entries;
    }

    /** The caller's slice of members is kept, not copied. */
    method AddGroup(name: string, room: string, members: array<string>, saveOk: bool) returns (r: Option<GroupRec>)
      modifies this
      ensures fresh(groups)
      ensures View() == AfterAddGroup(old(View()), name, room, members[..])
      ensures r == if saveOk then Some(GroupRec(old(GroupIdFor(View())), name, room, members)) else None
      ensures file == if saveOk then Some(View()) else old(file)
    {
      if nextGroupId == 0 {
        nextGroupId := 1;
      }
      var g := GroupRec(nextGroupId, name, room, members);
      nextGroupId := nextGroupId + 1;
      ghost var before := GroupsIn(groups);
      var recs := groups[..] + [g];
      groups := new GroupRec[|recs|](k requires 0 <= k < |recs| => recs[k]);
      assert GroupsIn(groups) == before + [ToGroup(g)];
      var ok := Save(saveOk);
      r := if ok then Some(g) else None;
    }

    /** A copy of the slice of groups; the member lists are shared with the registry. */
    method AllGroups() returns (out: array<GroupRec>)
      ensures fresh(out) && out[..] == groups[..] && GroupsIn(out) == GroupsIn(groups)
    {
      var recs := groups[..];
      out := new GroupRec[|recs|](k requires 0 <= k < |recs| => recs[k]);
      assert out[..] == recs;
    }

    /** A snapshot taken before a Remove still says afterwards what it said then, although it
        shares every member list with the registry. */
    method SnapshotThenRemove(entityId: string, saveOk: bool) returns (entriesThen: seq<Entry>, groupsThen: array<GroupRec>)
      modifies this, groups
      ensures entriesThen == old(entries) && GroupsIn(groupsThen) == old(GroupsIn(groups))
      ensures View() == AfterRemove(old(View()), entityId)
    {
      entriesThen := All();
      groupsThen := AllGroups();
      label Taken:
      var _ := Remove(entityId, saveOk);
      assert MemberArrays(groupsThen) == old@Taken(MemberArrays(groupsThen));
      assert GroupsIn(groupsThen) == old@Taken(GroupsIn(groupsThen));
    }
  }
}
