/** The registry over whole runs of adds, removes, groups, failed saves and restarts: which
    ids can ever be given to two things, and what groups may name. */
module RegistryRuns {
  import opened Options
  import opened Registry

  datatype World = World(mem: State, file: Option<State>)

  datatype Step =
    | Add(entityId: string, name: string, saveOk: bool)
    | Remove(entityId: string, saveOk: bool)
    | AddGroup(name: string, room: string, members: seq<string>, saveOk: bool)
    | Restart                                          // the file loads without error

  ghost function Boot(file: Option<State>): World {
    World(Heal(Loaded(file)), file)
  }

  /** The contracts of the Registry class, as functions of the state. */
  ghost function Next(w: World, step: Step): World {
    match step
    case Add(e, name, saveOk) =>
      var mem := AfterAdd(w.mem, e, name);
      World(mem, if saveOk && ByEntity(w.mem.entries, e).None? then Some(mem) else w.file)
    case Remove(e, saveOk) =>
      var mem := AfterRemove(w.mem, e);
      World(mem, if saveOk && ByEntity(w.mem.entries, e).Some? then Some(mem) else w.file)
    case AddGroup(name, room, members, saveOk) =>
      var mem := AfterAddGroup(w.mem, name, room, members);
      World(mem, if saveOk then Some(mem) else w.file)
    case Restart => w.(mem := Heal(Loaded(w.file)))
  }

  /** The steps are the object's: a call, or a new registry over the same file. */
  method Perform(reg: Registry, step: Step) returns (after: Registry)
    modifies reg, reg.groups
    ensures World(after.View(), after.file) == Next(World(old(reg.View()), old(reg.file)), step)
  {
    after := reg;
    match step
    case Add(e, name, saveOk) =>
      var _ := reg.Add(e, name, saveOk);
    case Remove(e, saveOk) =>
      var _ := reg.Remove(e, saveOk);
    case AddGroup(name, room, members, saveOk) =>
      ghost var listed := GroupsIn(reg.groups);
      var slice := new string[|members|](i requires 0 <= i < |members| => members[i]);
      assert slice[..] == members && GroupsIn(reg.groups) == listed;
      var _ := reg.AddGroup(name, room, slice, saveOk);
    case Restart =>
      after := new Registry(reg.file);
  }

  ghost function Run(w: World, steps: seq<Step>): World
    decreases |steps|
  {
    if steps == [] then w else Run(Next(w, steps[0]), steps[1..])
  }

  // ----- What every state keeps, saves failing or not. -----

  ghost predicate OrderedEntries(entries: seq<Entry>, nextId: int) {
    && nextId >= 1
    && (forall i, j | 0 <= i < j < |entries| :: entries[i].hueId < entries[j].hueId)
    && (forall e | e in entries :: 1 <= e.hueId < nextId)
    && (forall i, j | 0 <= i < j < |entries| :: entries[i].entityId != entries[j].entityId)
  }

  ghost predicate OrderedGroups(groups: seq<Group>, nextGroupId: int) {
    && nextGroupId >= 1
    && (forall i, j | 0 <= i < j < |groups| :: groups[i].hueId < groups[j].hueId)
    && (forall g | g in groups :: 1 <= g.hueId < nextGroupId)
  }

  ghost predicate Ordered(s: State) {
    OrderedEntries(s.entries, s.nextId) && OrderedGroups(s.groups, s.nextGroupId)
  }

  lemma HealLeavesOrdered(s: State)
    requires Ordered(s)
    ensures Heal(s) == s
  {
  }

  /** From any file, hand-edited or not, both counters start past every id in it. */
  lemma HealedCountersAreFree(s: State)
    ensures Heal(s).entries == s.entries && Heal(s).groups == s.groups
    ensures Heal(s).nextId >= 1 && forall e | e in s.entries :: e.hueId < Heal(s).nextId
    ensures Heal(s).nextGroupId >= 1 && forall g | g in s.groups :: g.hueId < Heal(s).nextGroupId
  {
  }

  lemma {:induction false} EntriesWithoutStayOrdered(entries: seq<Entry>, e: string)
    requires forall i, j | 0 <= i < j < |entries| :: entries[i].hueId < entries[j].hueId
    requires forall i, j | 0 <= i < j < |entries| :: entries[i].entityId != entries[j].entityId
    ensures var kept := EntriesWithout(entries, e);
            && (forall i, j | 0 <= i < j < |kept| :: kept[i].hueId < kept[j].hueId)
            && (forall i, j | 0 <= i < j < |kept| :: kept[i].entityId != kept[j].entityId)
  {
    if entries != [] {
      var front := entries[..|entries| - 1];
      EntriesWithoutStayOrdered(front, e);
      EntriesWithoutKeeps(front, e);
    }
  }

  lemma OneMoreEntry(entries: seq<Entry>, nextId: int, e: string, name: string)
    requires OrderedEntries(entries, nextId) && ByEntity(entries, e).None?
    ensures OrderedEntries(entries + [Entry(nextId, e, name)], nextId + 1)
  {
    ByEntityFinds(entries, e);
  }

  /** Where they share an id they mean the same entity, or group. */
  ghost predicate SameEntities(xs: seq<Entry>, ys: seq<Entry>) {
    forall x, y | x in xs && y in ys && x.hueId == y.hueId :: x.entityId == y.entityId
  }

  /** A group keeps its name and room; only its members can change. */
  predicate SameGroup(x: Group, y: Group) {
    x.name == y.name && x.room == y.room
  }

  ghost predicate SameGroups(xs: seq<Group>, ys: seq<Group>) {
    forall x, y | x in xs && y in ys && x.hueId == y.hueId :: SameGroup(x, y)
  }

  ghost predicate EntriesKept(mem: State, file: State) {
    && OrderedEntries(mem.entries, mem.nextId) && OrderedEntries(file.entries, file.nextId)
    && file.nextId <= mem.nextId && SameEntities(mem.entries, file.entries)
  }

  ghost predicate GroupsKept(mem: State, file: State) {
    && OrderedGroups(mem.groups, mem.nextGroupId) && OrderedGroups(file.groups, file.nextGroupId)
    && file.nextGroupId <= mem.nextGroupId && SameGroups(mem.groups, file.groups)
  }

  /** Memory and file are both in order, the file never counts further than memory, and where
      they share an id they mean the same. */
  ghost predicate Kept(w: World) {
    EntriesKept(w.mem, Loaded(w.file)) && GroupsKept(w.mem, Loaded(w.file))
  }

  lemma SameIdSameEntry(s: State, a: Entry, b: Entry)
    requires OrderedEntries(s.entries, s.nextId) && a in s.entries && b in s.entries && a.hueId == b.hueId
    ensures a == b
  {
    var i :| 0 <= i < |s.entries| && s.entries[i] == a;
    var j :| 0 <= j < |s.entries| && s.entries[j] == b;
  }

  lemma AgreesWithItself(s: State)
    requires Ordered(s)
    ensures EntriesKept(s, s) && GroupsKept(s, s)
  {
    forall a, b | a in s.entries && b in s.entries && a.hueId == b.hueId
      ensures a.entityId == b.entityId
    {
      SameIdSameEntry(s, a, b);
    }
    forall a, b | a in s.groups && b in s.groups && a.hueId == b.hueId
      ensures SameGroup(a, b)
    {
      var i :| 0 <= i < |s.groups| && s.groups[i] == a;
      var j :| 0 <= j < |s.groups| && s.groups[j] == b;
    }
  }

  lemma AddIsKept(mem: State, file: State, e: string, name: string)
    requires EntriesKept(mem, file) && GroupsKept(mem, file)
    ensures EntriesKept(AfterAdd(mem, e, name), file) && GroupsKept(AfterAdd(mem, e, name), file)
  {
    if ByEntity(mem.entries, e).None? {
      OneMoreEntry(mem.entries, mem.nextId, e, name);
    }
  }

  lemma GroupsWithoutKeep(groups: seq<Group>, e: string, nextGroupId: int)
    requires OrderedGroups(groups, nextGroupId)
    ensures OrderedGroups(GroupsWithout(groups, e), nextGroupId)
    ensures forall x | x in GroupsWithout(groups, e) :: exists g :: g in groups && g.hueId == x.hueId && SameGroup(x, g)
  {
    var stripped := GroupsWithout(groups, e);
    forall x | x in stripped
      ensures exists g :: g in groups && g.hueId == x.hueId && SameGroup(x, g)
    {
      var i :| 0 <= i < |stripped| && stripped[i] == x;
      assert groups[i] in groups && SameGroup(x, groups[i]);
    }
  }

  lemma RemoveKeepsEntries(mem: State, file: State, e: string)
    requires EntriesKept(mem, file)
    ensures EntriesKept(AfterRemove(mem, e), file)
  {
    EntriesWithoutStayOrdered(mem.entries, e);
    EntriesWithoutKeeps(mem.entries, e);
  }

  lemma RemoveKeepsGroups(mem: State, file: State, e: string)
    requires GroupsKept(mem, file)
    ensures GroupsKept(AfterRemove(mem, e), file)
  {
    GroupsWithoutKeep(mem.groups, e, mem.nextGroupId);
  }

  lemma AddGroupIsKept(mem: State, file: State, name: string, room: string, members: seq<string>)
    requires EntriesKept(mem, file) && GroupsKept(mem, file)
    ensures EntriesKept(AfterAddGroup(mem, name, room, members), file)
    ensures GroupsKept(AfterAddGroup(mem, name, room, members), file)
  {
  }

  /** It does not matter for this whether the new state was saved. */
  lemma SavedOrNotIsKept(mem: State, file: Option<State>, saved: bool)
    requires EntriesKept(mem, Loaded(file)) && GroupsKept(mem, Loaded(file))
    ensures Kept(World(mem, if saved then Some(mem) else file))
  {
    AgreesWithItself(mem);
  }

  lemma StepIsKept(w: World, step: Step)
    requires Kept(w)
    ensures Kept(Next(w, step))
  {
    var file := Loaded(w.file);
    match step
    case Add(e, name, saveOk) =>
      AddIsKept(w.mem, file, e, name);
      SavedOrNotIsKept(AfterAdd(w.mem, e, name), w.file, saveOk && ByEntity(w.mem.entries, e).None?);
    case Remove(e, saveOk) =>
      RemoveKeepsEntries(w.mem, file, e);
      RemoveKeepsGroups(w.mem, file, e);
      SavedOrNotIsKept(AfterRemove(w.mem, e), w.file, saveOk && ByEntity(w.mem.entries, e).Some?);
    case AddGroup(name, room, members, saveOk) =>
      AddGroupIsKept(w.mem, file, name, room, members);
      SavedOrNotIsKept(AfterAddGroup(w.mem, name, room, members), w.file, saveOk);
    case Restart =>
      HealLeavesOrdered(file);
      AgreesWithItself(file);
  }

  lemma {:induction false} RunIsKept(w: World, steps: seq<Step>)
    requires Kept(w)
    ensures Kept(Run(w, steps))
    decreases |steps|
  {
    if steps != [] {
      StepIsKept(w, steps[0]);
      RunIsKept(Next(w, steps[0]), steps[1..]);
    }
  }

  /** From an empty start, whatever saves fail: entries and groups stay strictly increasing in
      id and below their counters, and entity ids stay unique. */
  lemma RegistryStaysInOrder(steps: seq<Step>)
    ensures var s := Run(Boot(None), steps).mem;
            && (forall i, j | 0 <= i < j < |s.entries| :: s.entries[i].hueId < s.entries[j].hueId)
            && (forall e | e in s.entries :: 1 <= e.hueId < s.nextId)
            && (forall i, j | 0 <= i < j < |s.entries| :: s.entries[i].entityId != s.entries[j].entityId)
            && (forall i, j | 0 <= i < j < |s.groups| :: s.groups[i].hueId < s.groups[j].hueId)
            && (forall g | g in s.groups :: 1 <= g.hueId < s.nextGroupId)
  {
    RunIsKept(Boot(None), steps);
  }

  // ----- Whatever id memory shows: it can be reused exactly while the file does not count it. -----

  /** Some continuation shows the id with another entity. */
  ghost predicate LightIdReused(w: World, e: Entry) {
    exists after, x :: x in Run(w, after).mem.entries && x.hueId == e.hueId && x.entityId != e.entityId
  }

  ghost predicate GroupIdReused(w: World, g: Group) {
    exists after, x :: x in Run(w, after).mem.groups && x.hueId == g.hueId && !SameGroup(x, g)
  }

  ghost predicate OnlyEntity(entries: seq<Entry>, e: Entry) {
    forall x | x in entries && x.hueId == e.hueId :: x.entityId == e.entityId
  }

  ghost predicate OnlyGroup(groups: seq<Group>, g: Group) {
    forall x | x in groups && x.hueId == g.hueId :: SameGroup(x, g)
  }

  /** Under the id memory and file have this entity or none, and the file counts past it. */
  ghost predicate Settled(w: World, e: Entry) {
    && Kept(w) && e.hueId < Loaded(w.file).nextId
    && OnlyEntity(w.mem.entries, e) && OnlyEntity(Loaded(w.file).entries, e)
  }

  ghost predicate SettledGroup(w: World, g: Group) {
    && Kept(w) && g.hueId < Loaded(w.file).nextGroupId
    && OnlyGroup(w.mem.groups, g) && OnlyGroup(Loaded(w.file).groups, g)
  }

  lemma StepStaysSettled(w: World, step: Step, e: Entry)
    requires Settled(w, e)
    ensures Settled(Next(w, step), e)
  {
    StepIsKept(w, step);
    match step
    case Remove(other, _) => EntriesWithoutKeeps(w.mem.entries, other);
    case Restart => HealLeavesOrdered(Loaded(w.file));
    case _ =>
  }

  lemma RemoveLeavesOnlyGroup(mem: State, e: string, g: Group)
    requires OrderedGroups(mem.groups, mem.nextGroupId) && OnlyGroup(mem.groups, g)
    ensures OnlyGroup(AfterRemove(mem, e).groups, g) && AfterRemove(mem, e).nextGroupId == mem.nextGroupId
  {
    GroupsWithoutKeep(mem.groups, e, mem.nextGroupId);
  }

  lemma NewGroupLeavesOnlyGroup(mem: State, g: Group, name: string, room: string, members: seq<string>)
    requires OrderedGroups(mem.groups, mem.nextGroupId) && OnlyGroup(mem.groups, g) && g.hueId < mem.nextGroupId
    ensures var mem' := AfterAddGroup(mem, name, room, members); OnlyGroup(mem'.groups, g) && g.hueId < mem'.nextGroupId
  {
  }

  lemma StepStaysSettledGroup(w: World, step: Step, g: Group)
    requires SettledGroup(w, g)
    ensures SettledGroup(Next(w, step), g)
  {
    StepIsKept(w, step);
    match step
    case Remove(e, _) => RemoveLeavesOnlyGroup(w.mem, e, g);
    case AddGroup(name, room, members, _) => NewGroupLeavesOnlyGroup(w.mem, g, name, room, members);
    case Restart => HealLeavesOrdered(Loaded(w.file));
    case Add(_, _, _) =>
  }

  lemma {:induction false} RunStaysSettled(w: World, steps: seq<Step>, e: Entry)
    requires Settled(w, e)
    ensures Settled(Run(w, steps), e)
    decreases |steps|
  {
    if steps != [] {
      StepStaysSettled(w, steps[0], e);
      RunStaysSettled(Next(w, steps[0]), steps[1..], e);
    }
  }

  lemma {:induction false} RunStaysSettledGroup(w: World, steps: seq<Step>, g: Group)
    requires SettledGroup(w, g)
    ensures SettledGroup(Run(w, steps), g)
    decreases |steps|
  {
    if steps != [] {
      StepStaysSettledGroup(w, steps[0], g);
      RunStaysSettledGroup(Next(w, steps[0]), steps[1..], g);
    }
  }

  ghost predicate SavesOk(steps: seq<Step>) {
    forall s | s in steps :: !s.Restart? ==> s.saveOk
  }

  function LongName(n: nat): string {
    seq(n, _ => 'x')
  }

  lemma {:induction false} LongerThanAll(entries: seq<Entry>, also: string) returns (n: nat)
    ensures |also| < n && forall e | e in entries :: |e.entityId| < n
  {
    if entries == [] {
      n := |also| + 1;
    } else {
      n := LongerThanAll(entries[1..], also);
      if |entries[0].entityId| >= n {
        n := |entries[0].entityId| + 1;
      }
    }
  }

  /** Adding fresh entities, with names longer than all before, reaches any id from the
      counter up. */
  lemma {:induction false} FreshAddsReach(w: World, id: int, n: nat) returns (steps: seq<Step>, x: Entry)
    requires w.mem.nextId <= id && forall e | e in w.mem.entries :: |e.entityId| < n
    ensures SavesOk(steps) && x in Run(w, steps).mem.entries && x.hueId == id && |x.entityId| >= n
    decreases id - w.mem.nextId
  {
    var step := Add(LongName(n), "", true);
    ByEntityFinds(w.mem.entries, LongName(n));
    var w' := Next(w, step);
    assert w'.mem.entries == w.mem.entries + [Entry(w.mem.nextId, LongName(n), "")];
    if w.mem.nextId == id {
      steps, x := [step], Entry(id, LongName(n), "");
      assert steps[1..] == [] && w'.mem.entries[|w.mem.entries|] == x;
    } else {
      var rest;
      rest, x := FreshAddsReach(w', id, n + 1);
      steps := [step] + rest;
      assert steps[1..] == rest;
    }
  }

  lemma {:induction false} FreshGroupsReach(w: World, id: int, name: string) returns (steps: seq<Step>, x: Group)
    requires 1 <= w.mem.nextGroupId <= id
    ensures SavesOk(steps) && x in Run(w, steps).mem.groups && x.hueId == id && x.name == name
    decreases id - w.mem.nextGroupId
  {
    var step := AddGroup(name, "", [], true);
    var w' := Next(w, step);
    x := Group(w.mem.nextGroupId, name, "", []);
    if w.mem.nextGroupId == id {
      steps := [step];
      assert steps[1..] == [] && w'.mem.groups[|w.mem.groups|] == x;
    } else {
      var rest;
      rest, x := FreshGroupsReach(w', id, name);
      steps := [step] + rest;
      assert steps[1..] == rest;
    }
  }

  /** An id the file does not count is free again after a restart. */
  lemma RestartFreesLightId(w: World, e: Entry) returns (after: seq<Step>, x: Entry)
    requires Kept(w) && e.hueId >= Loaded(w.file).nextId
    ensures SavesOk(after) && x in Run(w, after).mem.entries && x.hueId == e.hueId && x.entityId != e.entityId
  {
    HealLeavesOrdered(Loaded(w.file));
    var n := LongerThanAll(Loaded(w.file).entries, e.entityId);
    var rest;
    rest, x := FreshAddsReach(Next(w, Restart), e.hueId, n);
    after := [Restart] + rest;
    assert after[1..] == rest;
  }

  lemma RestartFreesGroupId(w: World, g: Group) returns (after: seq<Step>, x: Group)
    requires Kept(w) && g.hueId >= Loaded(w.file).nextGroupId
    ensures SavesOk(after) && x in Run(w, after).mem.groups && x.hueId == g.hueId && !SameGroup(x, g)
  {
    HealLeavesOrdered(Loaded(w.file));
    var rest;
    rest, x := FreshGroupsReach(Next(w, Restart), g.hueId, g.name + "x");
    after := [Restart] + rest;
    assert after[1..] == rest;
    assert |g.name + "x"| > |g.name|;
  }

  /** After any run from an empty start: the id of an entry in memory can come to show another
      entity, by some continuation, if and only if the file does not count past it. */
  lemma LightIdReusedIffUncounted(before: seq<Step>, e: Entry)
    requires e in Run(Boot(None), before).mem.entries
    ensures var w := Run(Boot(None), before);
            LightIdReused(w, e) <==> e.hueId >= Loaded(w.file).nextId
  {
    var w := Run(Boot(None), before);
    RunIsKept(Boot(None), before);
    if e.hueId >= Loaded(w.file).nextId {
      var after, x := RestartFreesLightId(w, e);
    } else {
      AgreesWithItself(w.mem);
      SettledIsNotReused(w, e);
    }
  }

  lemma SettledIsNotReused(w: World, e: Entry)
    requires Settled(w, e)
    ensures !LightIdReused(w, e)
  {
    forall after, x | x in Run(w, after).mem.entries && x.hueId == e.hueId
      ensures x.entityId == e.entityId
    {
      RunStaysSettled(w, after, e);
    }
  }

  /** And so for group ids. */
  lemma GroupIdReusedIffUncounted(before: seq<Step>, g: Group)
    requires g in Run(Boot(None), before).mem.groups
    ensures var w := Run(Boot(None), before);
            GroupIdReused(w, g) <==> g.hueId >= Loaded(w.file).nextGroupId
  {
    var w := Run(Boot(None), before);
    RunIsKept(Boot(None), before);
    if g.hueId >= Loaded(w.file).nextGroupId {
      var after, x := RestartFreesGroupId(w, g);
    } else {
      AgreesWithItself(w.mem);
      SettledGroupIsNotReused(w, g);
    }
  }

  lemma SettledGroupIsNotReused(w: World, g: Group)
    requires SettledGroup(w, g)
    ensures !GroupIdReused(w, g)
  {
    forall after, x | x in Run(w, after).mem.groups && x.hueId == g.hueId
      ensures SameGroup(x, g)
    {
      RunStaysSettledGroup(w, after, g);
    }
  }

  /** While every save succeeds the file is what memory is, and counts all it shows. */
  lemma {:induction false} SavedRunsAgree(w: World, steps: seq<Step>)
    requires Kept(w) && Loaded(w.file) == w.mem && SavesOk(steps)
    ensures Kept(Run(w, steps)) && Loaded(Run(w, steps).file) == Run(w, steps).mem
    decreases |steps|
  {
    if steps != [] {
      assert steps[0] in steps;
      StepIsKept(w, steps[0]);
      HealLeavesOrdered(w.mem);
      SavedRunsAgree(Next(w, steps[0]), steps[1..]);
    }
  }

  /** So if saves succeed up to some point, no id shown then is ever reused, whatever saves
      fail from there on. */
  lemma IdsAreNeverReused(before: seq<Step>)
    requires SavesOk(before)
    ensures var w := Run(Boot(None), before);
            && (forall e | e in w.mem.entries :: !LightIdReused(w, e))
            && (forall g | g in w.mem.groups :: !GroupIdReused(w, g))
  {
    var w := Run(Boot(None), before);
    SavedRunsAgree(Boot(None), before);
    forall e | e in w.mem.entries
      ensures !LightIdReused(w, e)
    {
      LightIdReusedIffUncounted(before, e);
    }
    forall g | g in w.mem.groups
      ensures !GroupIdReused(w, g)
    {
      GroupIdReusedIffUncounted(before, g);
    }
  }

  // ----- The ids Add answers. -----

  /** What a successful Add returns: the known entry, or the new one if it was saved. */
  ghost function Answered(w: World, e: string, name: string, saveOk: bool): Option<Entry> {
    var known := ByEntity(w.mem.entries, e);
    if known.Some? then known
    else if saveOk then Some(Entry(w.mem.nextId, e, name))
    else None
  }

  lemma AnswerIsAnEntry(w: World, e: string, name: string, saveOk: bool)
    requires Answered(w, e, name, saveOk).Some?
    ensures Answered(w, e, name, saveOk).value in Next(w, Add(e, name, saveOk)).mem.entries
    ensures Answered(w, e, name, saveOk).value.entityId == e
  {
    ByEntityFinds(w.mem.entries, e);
    var entries := Next(w, Add(e, name, saveOk)).mem.entries;
    assert ByEntity(w.mem.entries, e).None? ==> entries[|w.mem.entries|] == Entry(w.mem.nextId, e, name);
  }

  /** Some later Add answers the id for another entity. */
  ghost predicate AnsweredAgain(w: World, id: int, e: string) {
    exists after, other, name, saveOk ::
      var again := Answered(Run(w, after), other, name, saveOk);
      again.Some? && again.value.hueId == id && other != e
  }

  /** An id that Add has answered can be answered for another entity, if and only if the file
      does not count past it: never for a new entry, which was saved, but possibly for a known
      one, whose own save may have failed. */
  lemma AnswerIsGivenAgainIffUncounted(before: seq<Step>, e: string, name: string, saveOk: bool)
    requires Answered(Run(Boot(None), before), e, name, saveOk).Some?
    ensures var w := Run(Boot(None), before);
            var id := Answered(w, e, name, saveOk).value.hueId;
            var w' := Next(w, Add(e, name, saveOk));
            && (AnsweredAgain(w', id, e) <==> id >= Loaded(w'.file).nextId)
            && (ByEntity(w.mem.entries, e).None? ==> !AnsweredAgain(w', id, e))
  {
    var w := Run(Boot(None), before);
    RunIsKept(Boot(None), before);
    StepIsKept(w, Add(e, name, saveOk));
    AnswerIsAnEntry(w, e, name, saveOk);
    AnsweredAgainIffUncounted(Next(w, Add(e, name, saveOk)), Answered(w, e, name, saveOk).value);
  }

  lemma AnsweredAgainIffUncounted(w: World, entry: Entry)
    requires Kept(w) && entry in w.mem.entries
    ensures AnsweredAgain(w, entry.hueId, entry.entityId) <==> entry.hueId >= Loaded(w.file).nextId
  {
    if entry.hueId >= Loaded(w.file).nextId {
      var after, x := RestartFreesLightId(w, entry);
      RunIsKept(w, after);
      KnownIsAnswered(Run(w, after), x);
      assert Answered(Run(w, after), x.entityId, "", true) == Some(x);
    } else {
      AgreesWithItself(w.mem);
      forall after, other, name, saveOk | Answered(Run(w, after), other, name, saveOk).Some?
                                          && Answered(Run(w, after), other, name, saveOk).value.hueId == entry.hueId
        ensures other == entry.entityId
      {
        RunStaysSettled(w, after, entry);
        AnswerIsAnEntry(Run(w, after), other, name, saveOk);
        StepStaysSettled(Run(w, after), Add(other, name, saveOk), entry);
      }
    }
  }

  lemma KnownIsAnswered(w: World, x: Entry)
    requires Kept(w) && x in w.mem.entries
    ensures ByEntity(w.mem.entries, x.entityId) == Some(x)
  {
    ByEntityFinds(w.mem.entries, x.entityId);
    var found := ByEntity(w.mem.entries, x.entityId).value;
    var i :| 0 <= i < |w.mem.entries| && w.mem.entries[i] == x;
    var j :| 0 <= j < |w.mem.entries| && w.mem.entries[j] == found;
  }

  lemma RunThree(w: World, a: Step, b: Step, c: Step)
    ensures Run(w, [a, b, c]) == Next(Next(Next(w, a), b), c)
  {
    assert [a, b, c][1..] == [b, c] && [b, c][1..] == [c] && [c][1..] == [];
    assert Run(Next(w, a), [b, c]) == Run(Next(Next(w, a), b), [c]);
    assert Run(Next(Next(w, a), b), [c]) == Next(Next(Next(w, a), b), c);
  }

  /** The shortest traces. An add whose save fails, and a restart: light 1, first shown as one
      entity (and answered, if the add is retried), is then any other. */
  lemma FailedSaveGivesOneIdTwice(a: string, b: string, name: string)
    ensures var shown := Next(Boot(None), Add(a, name, false));
            var end := Run(Boot(None), [Add(a, name, false), Restart, Add(b, name, true)]);
            && ByHue(shown.mem.entries, 1) == Some(Entry(1, a, name)) == Answered(shown, a, name, true)
            && ByHue(end.mem.entries, 1) == Some(Entry(1, b, name)) == ByHue(Loaded(end.file).entries, 1)
  {
    RunThree(Boot(None), Add(a, name, false), Restart, Add(b, name, true));
  }

  /** And so for two groups. */
  lemma FailedSaveGivesOneGroupIdTwice(a: string, b: string, room: string, members: seq<string>)
    ensures var shown := Next(Boot(None), AddGroup(a, room, members, false));
            var end := Run(Boot(None), [AddGroup(a, room, members, false), Restart, AddGroup(b, room, members, true)]);
            && GroupByHue(shown.mem.groups, 1) == Some(Group(1, a, room, members))
            && GroupByHue(end.mem.groups, 1) == Some(Group(1, b, room, members))
  {
    RunThree(Boot(None), AddGroup(a, room, members, false), Restart, AddGroup(b, room, members, true));
  }

  // ----- Groups name only what is registered. -----

  ghost predicate MembersRegistered(s: State) {
    forall g, m | g in s.groups && m in g.members :: ByEntity(s.entries, m).Some?
  }

  /** Each group is created from registered entities; AddGroup itself does not check. */
  ghost predicate NamesOnlyRegistered(w: World, steps: seq<Step>)
    decreases |steps|
  {
    steps == [] ||
    (&& (steps[0].AddGroup? ==> forall m | m in steps[0].members :: ByEntity(w.mem.entries, m).Some?)
     && NamesOnlyRegistered(Next(w, steps[0]), steps[1..]))
  }

  lemma AddKeepsMembers(s: State, e: string, name: string)
    requires MembersRegistered(s)
    ensures MembersRegistered(AfterAdd(s, e, name))
  {
    var s' := AfterAdd(s, e, name);
    forall m
      ensures ByEntity(s.entries, m).Some? ==> ByEntity(s'.entries, m).Some?
    {
      ByEntityFinds(s.entries, m);
      ByEntityFinds(s'.entries, m);
    }
  }

  lemma RemoveKeepsMembers(s: State, e: string)
    requires MembersRegistered(s)
    ensures MembersRegistered(AfterRemove(s, e))
  {
    var s' := AfterRemove(s, e);
    if s' != s {
      forall g, m | g in s'.groups && m in g.members
        ensures ByEntity(s'.entries, m).Some?
      {
        var i :| 0 <= i < |s'.groups| && s'.groups[i] == g;
        MembersWithoutKeeps(s.groups[i].members, e);
        assert s.groups[i] in s.groups && m in s.groups[i].members;
        EntriesWithoutKeeps(s.entries, e);
        ByEntityFinds(s.entries, m);
        ByEntityFinds(s'.entries, m);
      }
    }
  }

  /** The guard is exact: of a state with integrity, a new group keeps it if and only if all its
      members are registered. */
  lemma AddGroupKeepsMembersIffRegistered(s: State, name: string, room: string, members: seq<string>)
    requires MembersRegistered(s)
    ensures MembersRegistered(AfterAddGroup(s, name, room, members)) <==>
            forall m | m in members :: ByEntity(s.entries, m).Some?
  {
    var s' := AfterAddGroup(s, name, room, members);
    assert s'.groups[|s.groups|].members == members;
  }

  lemma {:induction false} RunKeepsMembers(w: World, steps: seq<Step>)
    requires Kept(w) && MembersRegistered(w.mem) && MembersRegistered(Loaded(w.file))
    requires NamesOnlyRegistered(w, steps)
    ensures MembersRegistered(Run(w, steps).mem) && MembersRegistered(Loaded(Run(w, steps).file))
    decreases |steps|
  {
    if steps != [] {
      match steps[0] {
        case Add(e, name, _) => AddKeepsMembers(w.mem, e, name);
        case Remove(e, _) => RemoveKeepsMembers(w.mem, e);
        case AddGroup(name, room, members, _) => AddGroupKeepsMembersIffRegistered(w.mem, name, room, members);
        case Restart => HealLeavesOrdered(Loaded(w.file));
      }
      StepIsKept(w, steps[0]);
      RunKeepsMembers(Next(w, steps[0]), steps[1..]);
    }
  }

  /** Referential integrity, in memory and in the file, over every such run. */
  lemma GroupMembersStayRegistered(steps: seq<Step>)
    requires NamesOnlyRegistered(Boot(None), steps)
    ensures MembersRegistered(Run(Boot(None), steps).mem)
    ensures MembersRegistered(Loaded(Run(Boot(None), steps).file))
  {
    RunKeepsMembers(Boot(None), steps);
  }

  /** In an orderly registry a registered entity is found again under its own id. */
  lemma FoundAgainByItsId(s: State, e: string)
    requires Ordered(s) && ByEntity(s.entries, e).Some?
    ensures ByHue(s.entries, ByEntity(s.entries, e).value.hueId) == ByEntity(s.entries, e)
  {
    ByEntityFinds(s.entries, e);
    var entry := ByEntity(s.entries, e).value;
    ByHueFinds(s.entries, entry.hueId);
    SameIdSameEntry(s, entry, ByHue(s.entries, entry.hueId).value);
  }
}
