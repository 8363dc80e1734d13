/** internal/hue/groups.go: rendering a group from its members and writing to all of them. */
module Groups {
  import opened Options
  import opened Decimal
  import opened LightState
  import opened HomeAssistant
  import opened Json
  import opened LightCommands
  import opened CacheBackend
  import R = Registry
  import RegistryRuns

  datatype GroupView = GroupView(
    name: string,
    room: string,
    lights: seq<string>,
    allOn: bool,
    anyOn: bool,
    actionOn: bool,
    actionBri: Option<Byte>)

  function LightIds(entries: seq<R.Entry>, members: seq<string>): seq<string> {
    if members == [] then []
    else
      var front := LightIds(entries, members[..|members| - 1]);
      var entry := R.ByEntity(entries, members[|members| - 1]);
      if entry.Some? then front + [Itoa(entry.value.hueId)] else front
  }

  predicate IsOn(r: Option<EntityState>) {
    r.Some? && r.value.on
  }

  /** What the members read as, in order; None is a member that cannot be read. */
  ghost function ReadsOf(be: Cache, members: seq<string>): (seen: seq<Option<EntityState>>)
    reads be, be.inner
    ensures |seen| == |members|
  {
    seq(|members|, i requires 0 <= i < |members| reads be, be.inner => be.Reads(members[i]))
  }

  function AllRead(seen: seq<Option<EntityState>>): bool {
    seen == [] || (AllRead(seen[..|seen| - 1]) && IsOn(seen[|seen| - 1]))
  }

  function AnyRead(seen: seq<Option<EntityState>>): bool {
    seen != [] && (AnyRead(seen[..|seen| - 1]) || IsOn(seen[|seen| - 1]))
  }

  function FirstReadable(seen: seq<Option<EntityState>>): Option<EntityState> {
    if seen == [] then None
    else Or(FirstReadable(seen[..|seen| - 1]), seen[|seen| - 1])
  }

  /** A rendering of these reads: all_on needs a member and every member readable and on,
      any_on one that is on, and the action is any_on with the first readable brightness. */
  ghost predicate Renders(v: GroupView, entries: seq<R.Entry>, members: seq<string>, seen: seq<Option<EntityState>>) {
    && v.lights == LightIds(entries, members)
    && (v.allOn <==> seen != [] && forall i | 0 <= i < |seen| :: IsOn(seen[i]))
    && (v.anyOn <==> exists i :: 0 <= i < |seen| && IsOn(seen[i]))
    && v.actionOn == v.anyOn
    && (forall i | 0 <= i < |seen| && seen[i].Some? && (forall j | 0 <= j < i :: seen[j].None?) ::
          v.actionBri == seen[i].value.brightness)
    && ((forall i | 0 <= i < |seen| :: seen[i].None?) ==> v.actionBri == None)
  }

  /** What the three running variables of toGroup's loop mean. */
  lemma {:induction false} FoldsMean(seen: seq<Option<EntityState>>)
    ensures AllRead(seen) <==> forall i | 0 <= i < |seen| :: IsOn(seen[i])
    ensures AnyRead(seen) <==> exists i :: 0 <= i < |seen| && IsOn(seen[i])
    ensures FirstReadable(seen).None? <==> forall i | 0 <= i < |seen| :: seen[i].None?
    ensures forall i | 0 <= i < |seen| && seen[i].Some? && (forall j | 0 <= j < i :: seen[j].None?) ::
              FirstReadable(seen) == seen[i]
  {
    if seen != [] {
      var front := seen[..|seen| - 1];
      FoldsMean(front);
      assert forall i | 0 <= i < |front| :: front[i] == seen[i];
    }
  }

  lemma FoldsRender(v: GroupView, entries: seq<R.Entry>, members: seq<string>, seen: seq<Option<EntityState>>)
    requires v.lights == LightIds(entries, members)
    requires v.allOn == (AllRead(seen) && seen != []) && v.anyOn == v.actionOn == AnyRead(seen)
    requires v.actionBri == if FirstReadable(seen).Some? then FirstReadable(seen).value.brightness else None
    ensures Renders(v, entries, members, seen)
  {
    FoldsMean(seen);
  }

  /** toGroup: rendering reads every member through the cache, which may remember what it
      fetched but answers every later read as before. */
  method ToGroup(reg: R.Registry, be: Cache, g: R.GroupRec) returns (v: GroupView)
    requires be.Valid()
    modifies be`states
    ensures be.Valid()
    ensures forall e :: be.Reads(e) == old(be.Reads(e))
    ensures Renders(v, reg.entries, g.members[..], old(ReadsOf(be, g.members[..])))
    ensures v.name == g.name && v.room == g.room
  {
    var lights: seq<string> := [];
    var allOn, anyOn := true, false;
    var actionBri: Option<Byte> := None;
    var haveAction := false;
    ghost var members := g.members[..];
    ghost var seen := ReadsOf(be, members);
    var i := 0;
    while i < g.members.Length
      invariant 0 <= i <= g.members.Length == |members| && g.members[..] == members
      invariant be.Valid() && forall e :: be.Reads(e) == old(be.Reads(e))
      invariant lights == LightIds(reg.entries, members[..i])
      invariant allOn == AllRead(seen[..i])
      invariant anyOn == AnyRead(seen[..i])
      invariant haveAction == FirstReadable(seen[..i]).Some?
      invariant actionBri == if haveAction then FirstReadable(seen[..i]).value.brightness else None
    {
      assert members[..i + 1][..i] == members[..i] && seen[..i + 1][..i] == seen[..i];
      var entry := reg.FindEntity(g.members[i]);
      if entry.Some? {
        lights := lights + [Itoa(entry.value.hueId)];
      }
      var state := be.GetState(g.members[i]);
      assert state == seen[i];
      if state.Some? && state.value.on {
        anyOn := true;
      } else if state.None? || !state.value.on {
        allOn := false;
      }
      if state.Some? && !haveAction {
        actionBri := state.value.brightness;
        haveAction := true;
      }
      i := i + 1;
    }
    assert members[..i] == members && seen[..i] == seen;
    v := GroupView(g.name, g.room, lights, allOn && g.members.Length > 0, anyOn, anyOn, actionBri);
    FoldsRender(v, reg.entries, members, seen);
  }

  /** all_on implies any_on and the action agrees with any_on, whatever is readable. */
  lemma AllOnImpliesAnyOn(v: GroupView, entries: seq<R.Entry>, members: seq<string>, seen: seq<Option<EntityState>>)
    requires Renders(v, entries, members, seen) && v.allOn
    ensures v.anyOn && v.actionOn && forall i | 0 <= i < |seen| :: seen[i].Some?
  {
    assert IsOn(seen[0]);
  }

  /** With registered members a group lists one light id per member, in order, and each
      leads back through ByHueID to that very member. */
  lemma {:induction false} LightIdsLeadBackToMembers(s: R.State, members: seq<string>)
    requires RegistryRuns.Ordered(s) && forall m | m in members :: R.ByEntity(s.entries, m).Some?
    ensures |LightIds(s.entries, members)| == |members|
    ensures forall i | 0 <= i < |members| ::
              var id := Atoi(LightIds(s.entries, members)[i]);
              && id.Some?
              && R.ByHue(s.entries, id.value) == R.ByEntity(s.entries, members[i])
              && R.ByHue(s.entries, id.value).Some? && R.ByHue(s.entries, id.value).value.entityId == members[i]
  {
    if members != [] {
      var front := members[..|members| - 1];
      var last := members[|members| - 1];
      LightIdsLeadBackToMembers(s, front);
      R.ByEntityFinds(s.entries, last);
      RegistryRuns.FoundAgainByItsId(s, last);
      AtoiItoa(R.ByEntity(s.entries, last).value.hueId);
    }
  }

  /** A member without an entry is passed over, and the others keep their places. */
  lemma {:induction false} LightIdsOfPieces(entries: seq<R.Entry>, a: seq<string>, b: seq<string>)
    ensures LightIds(entries, a + b) == LightIds(entries, a) + LightIds(entries, b)
    ensures |a| == 1 ==>
              LightIds(entries, a) ==
              match R.ByEntity(entries, a[0])
              case Some(entry) => [Itoa(entry.hueId)]
              case None => []
  {
    if b == [] {
      assert a + b == a;
    } else {
      assert (a + b)[..|a + b| - 1] == a + b[..|b| - 1];
      LightIdsOfPieces(entries, a, b[..|b| - 1]);
    }
    if |a| == 1 {
      assert a[..0] == [];
    }
  }

  /** So for every group of every run whose groups were made of registered entities. */
  lemma GroupsListExactlyTheirMembers(steps: seq<RegistryRuns.Step>, g: R.Group)
    requires RegistryRuns.NamesOnlyRegistered(RegistryRuns.Boot(None), steps)
    requires g in RegistryRuns.Run(RegistryRuns.Boot(None), steps).mem.groups
    ensures var s := RegistryRuns.Run(RegistryRuns.Boot(None), steps).mem;
            && |LightIds(s.entries, g.members)| == |g.members|
            && forall i | 0 <= i < |g.members| ::
                 var id := Atoi(LightIds(s.entries, g.members)[i]);
                 id.Some? && R.ByHue(s.entries, id.value).Some? && R.ByHue(s.entries, id.value).value.entityId == g.members[i]
  {
    RegistryRuns.GroupMembersStayRegistered(steps);
    RegistryRuns.RunIsKept(RegistryRuns.Boot(None), steps);
    LightIdsLeadBackToMembers(RegistryRuns.Run(RegistryRuns.Boot(None), steps).mem, g.members);
  }

  // ----- PUT on a group, then reading it. -----

  /** A backend whose accepted writes set On to what the request asks for. */
  ghost predicate SetsOn(apply: (EntityState, Desired) -> EntityState) {
    forall s, d: Desired | d.on.Some? :: apply(s, d).on == d.on.value
  }

  /** The in-memory backend does, and so does Home Assistant. */
  lemma BackendsSetOn()
    ensures SetsOn(FakeApply) && SetsOn(Observed)
  {
  }

  ghost predicate Accepts(be: Cache, e: string)
    reads be, be.inner
  {
    e in be.inner.states && e !in be.inner.down
  }

  function CallsFor(members: seq<string>, d: Desired): seq<(string, Desired)> {
    seq(|members|, i requires 0 <= i < |members| => (members[i], d))
  }

  /** After the fan-out every accepting member reads as switched, cached or not, and everyone
      else reads as before. */
  lemma {:induction false} FanOutSwitchesAcceptingMembers(
      cached: map<string, EntityState>, inner: map<string, EntityState>, down: set<string>,
      apply: (EntityState, Desired) -> EntityState, members: seq<string>, d: Desired, e: string)
    requires SetsOn(apply) && d.on.Some?
    ensures var read := Readable(WriteAll(cached, inner.Keys, down, CallsFor(members, d)),
                                 ApplyAll(inner, down, apply, CallsFor(members, d)), down, e);
            && (e in members && e in inner && e !in down ==> read.Some? && read.value.on == d.on.value)
            && (e !in members || e !in inner || e in down ==> read == Readable(cached, inner, down, e))
  {
    if members != [] {
      var front := members[..|members| - 1];
      FanOutSwitchesAcceptingMembers(cached, inner, down, apply, front, d, e);
      assert CallsFor(members, d) == CallsFor(front, d) + [(members[|members| - 1], d)];
      assert e in members <==> e in front || e == members[|members| - 1];
      WriteOneMore(cached, inner, down, apply, CallsFor(front, d), members[|members| - 1], d);
    }
  }

  /** The fan-out of handlePutGroupAction: every member is asked, in order, and an error from
      one stops none of the others. */
  method WriteMembers(be: Cache, members: array<string>, d: Desired)
    requires be.Valid()
    modifies be, be.inner`states
    ensures be.Valid()
    ensures be.sent == old(be.sent) + CallsFor(members[..], d)
    ensures be.states == WriteAll(old(be.states), old(be.inner.states).Keys, be.inner.down, CallsFor(members[..], d))
    ensures be.inner.states == ApplyAll(old(be.inner.states), be.inner.down, be.inner.apply, CallsFor(members[..], d))
  {
    var i := 0;
    while i < members.Length
      invariant 0 <= i <= members.Length
      invariant be.Valid()
      invariant be.sent == old(be.sent) + CallsFor(members[..i], d)
      invariant be.states == WriteAll(old(be.states), old(be.inner.states).Keys, be.inner.down, CallsFor(members[..i], d))
      invariant be.inner.states == ApplyAll(old(be.inner.states), be.inner.down, be.inner.apply, CallsFor(members[..i], d))
    {
      assert CallsFor(members[..i + 1], d) == CallsFor(members[..i], d) + [(members[i], d)];
      WriteOneMore(old(be.states), old(be.inner.states), be.inner.down, be.inner.apply, CallsFor(members[..i], d), members[i], d);
      var _ := be.SetState(members[i], d);
      i := i + 1;
    }
    assert members[..members.Length] == members[..];
  }

  /** PUT /groups/<id>/action; None is the not-available error. A body that does not decode
      counts as an empty one. */
  method HandlePutGroupAction(reg: R.Registry, be: Cache, pathId: string, body: Option<Object>) returns (g: Option<R.GroupRec>)
    requires be.Valid()
    modifies be, be.inner`states
    ensures be.Valid() && R.GroupsIn(reg.groups) == old(R.GroupsIn(reg.groups))
    ensures g.Some? <==> Atoi(pathId).Some? && R.GroupByHue(R.GroupsIn(reg.groups), Atoi(pathId).value).Some?
    ensures g.None? ==> be.sent == old(be.sent) && forall e :: be.Reads(e) == old(be.Reads(e))
    ensures g.Some? ==>
              && Some(R.ToGroup(g.value)) == R.GroupByHue(R.GroupsIn(reg.groups), Atoi(pathId).value)
              && var calls := CallsFor(g.value.members[..], TickDesired(body));
              && be.sent == old(be.sent) + calls
              && be.states == WriteAll(old(be.states), old(be.inner.states).Keys, be.inner.down, calls)
              && be.inner.states == ApplyAll(old(be.inner.states), be.inner.down, be.inner.apply, calls)
    ensures g.Some? ==>
              forall i | 0 <= i < g.value.members.Length ::
                var (m, d) := CallsFor(g.value.members[..], TickDesired(body))[i];
                && m == g.value.members[i] && d.xy == None && d.ct == None
                && (if body.Some? then AsksForOnBri(body.value, d) else d == NOTHING)
    ensures g.Some? && SetsOn(be.inner.apply) && body.Some? && "on" in body.value && body.value["on"].Bool? ==>
              forall m | m in g.value.members[..] && old(Accepts(be, m)) ::
                be.Reads(m).Some? && be.Reads(m).value.on == body.value["on"].b
  {
    var id := Atoi(pathId);
    if id.None? {
      return None;
    }
    g := reg.GroupByHueID(id.value);
    if g.None? {
      return;
    }
    if body.Some? {
      WritesAskWhatStandsInTheBody(body.value);
    }
    var desired := NOTHING;
    if body.Some? {
      var on := BoolAt(body.value, "on");
      if on.Some? {
        desired := desired.(on := on);
      }
      var bri := NumberAt(body.value, "bri");
      if bri.Some? {
        desired := desired.(brightness := Some(ToByte(bri.value)));
      }
    }
    ghost var listed := R.GroupsIn(reg.groups);
    WriteMembers(be, g.value.members, desired);
    if SetsOn(be.inner.apply) && desired.on.Some? {
      forall m | m in g.value.members[..] && old(Accepts(be, m))
        ensures be.Reads(m).Some? && be.Reads(m).value.on == desired.on.value
      {
        FanOutSwitchesAcceptingMembers(old(be.states), old(be.inner.states), be.inner.down, be.inner.apply, g.value.members[..], desired, m);
      }
    }
    assert R.GroupsIn(reg.groups) == listed;
  }

  /** When every member reads as on == b, so does the whole group. */
  lemma UniformReadsRenderUniformly(v: GroupView, entries: seq<R.Entry>, members: seq<string>,
                                    seen: seq<Option<EntityState>>, b: bool)
    requires Renders(v, entries, members, seen) && (seen != [] || !b)
    requires forall i | 0 <= i < |seen| :: seen[i].Some? && seen[i].value.on == b
    ensures v.allOn == b && v.anyOn == b && v.actionOn == b
  {
    assert seen != [] ==> IsOn(seen[0]) == b;
  }

  method RenderUniform(reg: R.Registry, be: Cache, g: R.GroupRec, b: bool) returns (v: GroupView)
    requires be.Valid() && (g.members[..] != [] || !b)
    requires forall m | m in g.members[..] :: be.Reads(m).Some? && be.Reads(m).value.on == b
    modifies be`states
    ensures R.GroupsIn(reg.groups) == old(R.GroupsIn(reg.groups))
    ensures v.allOn == v.anyOn == v.actionOn == b
  {
    ghost var listed := R.GroupsIn(reg.groups);
    ghost var seen := ReadsOf(be, g.members[..]);
    v := ToGroup(reg, be, g);
    UniformReadsRenderUniformly(v, reg.entries, g.members[..], seen, b);
    assert R.GroupsIn(reg.groups) == listed;
  }

  /** Group write then read: an undisturbed PUT of on == b on a group whose members all accept
      writes makes the next rendering report b three times over; an empty group can only report
      false. Nothing is asked of any other group. */
  method PutThenRender(reg: R.Registry, be: Cache, pathId: string, body: Object) returns (v: Option<GroupView>)
    requires be.Valid() && SetsOn(be.inner.apply) && "on" in body && body["on"].Bool?
    requires Atoi(pathId).Some? ==>
               var g := R.GroupByHue(R.GroupsIn(reg.groups), Atoi(pathId).value);
               g.Some? ==> (g.value.members != [] || !body["on"].b) && forall m | m in g.value.members :: Accepts(be, m)
    modifies be, be.inner`states
    ensures v.Some? <==> Atoi(pathId).Some? && R.GroupByHue(R.GroupsIn(reg.groups), Atoi(pathId).value).Some?
    ensures v.Some? ==>
              v.value.allOn == v.value.anyOn == v.value.actionOn == body["on"].b
  {
    var g := HandlePutGroupAction(reg, be, pathId, Some(body));
    if g.None? {
      return None;
    }
    assert R.ToGroup(g.value).members == g.value.members[..];
    var view := RenderUniform(reg, be, g.value, body["on"].b);
    v := Some(view);
  }
}
