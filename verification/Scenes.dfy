/** internal/hue/scenes.go: the scene store, the two handlers that keep it in step with
    Home Assistant's scenes, and the payload MirrorScene sends. */
module Scenes {
  import opened Options
  import opened Decimal
  import opened LightState
  import opened CacheBackend
  import R = Registry

  datatype Scene = Scene(id: string, name: string, group: string, lights: seq<string>, lightStates: map<string, Desired>)

  // ----- One scene in two notations. -----

  /** What Home Assistant is told about one entity. */
  datatype Target = Target(state: string, brightness: Option<Byte>)

  datatype Mirrored = Mirrored(name: string, entities: map<string, Target>)

  /** What the Hue app is told about one light. */
  datatype SceneLightState = SceneLightState(on: bool, bri: Option<Byte>)

  function TargetOf(d: Desired): Target {
    Target(if d.on == Some(true) then "on" else "off", d.brightness)
  }

  function MirrorOf(s: Scene): Mirrored {
    Mirrored("[Hue] " + s.name, map e | e in s.lightStates :: TargetOf(s.lightStates[e]))
  }

  method ToSceneLightStates(lightStates: map<string, Desired>) returns (out: map<string, SceneLightState>)
    ensures out.Keys == lightStates.Keys
    ensures forall e | e in out ::
              && out[e].on == (TargetOf(lightStates[e]).state == "on")
              && out[e].bri == TargetOf(lightStates[e]).brightness
  {
    out := map[];
    var left := lightStates.Keys;
    while left != {}
      invariant left <= lightStates.Keys && out.Keys == lightStates.Keys - left
      invariant forall e | e in out ::
                  && out[e].on == (TargetOf(lightStates[e]).state == "on")
                  && out[e].bri == TargetOf(lightStates[e]).brightness
      decreases left
    {
      var e :| e in left;
      left := left - {e};
      var sls := SceneLightState(false, None);
      if lightStates[e].on.Some? {
        sls := sls.(on := lightStates[e].on.value);
      }
      sls := sls.(bri := lightStates[e].brightness);
      out := out[e := sls];
    }
  }

  /** What a scene made now records of a group: On and brightness of each readable member. */
  function Captured(members: seq<string>, cached: map<string, EntityState>, inner: map<string, EntityState>, down: set<string>):
    map<string, Desired>
  {
    map m | m in members && Readable(cached, inner, down, m).Some? ::
      var s := Readable(cached, inner, down, m).value;
      Desired(Some(s.on), s.brightness, None, None)
  }

  /** A mirrored scene asks Home Assistant for exactly the state each member was read in. */
  lemma MirrorReproducesWhatWasRead(
      id: string, name: string, group: string, members: seq<string>,
      cached: map<string, EntityState>, inner: map<string, EntityState>, down: set<string>, m: string)
    ensures var mirrored := MirrorOf(Scene(id, name, group, members, Captured(members, cached, inner, down))).entities;
            var seen := Readable(cached, inner, down, m);
            && (m in mirrored <==> m in members && seen.Some?)
            && (m in mirrored ==>
                  && mirrored[m].state == (if seen.value.on then "on" else "off")
                  && mirrored[m].brightness == seen.value.brightness)
    ensures MirrorOf(Scene(id, name, group, members, Captured(members, cached, inner, down))).name == "[Hue] " + name
    ensures var captured := Captured(members, cached, inner, down);
            m in captured ==> captured[m].xy == None && captured[m].ct == None
  {
    assert "on" != "off" by {
      assert "on"[1] != "off"[1];
    }
  }

  // ----- The stores. -----

  class SceneStore {
    var scenes: map<string, Scene>
    var file: Option<map<string, Scene>>      // what scenes.json holds

    method Save(saveOk: bool) returns (ok: bool)
      modifies this`file
      ensures ok == saveOk && file == if ok then Some(scenes) else old(file)
    {
      if saveOk {
        file := Some(scenes);
      }
      ok := saveOk;
    }

    /** freshId is the random id; the scene stays in memory even if the save fails. */
    method Create(freshId: string, name: string, group: string, lights: seq<string>, lightStates: map<string, Desired>, saveOk: bool)
      returns (scene: Scene, ok: bool)
      modifies this
      ensures scene == Scene(freshId, name, group, lights, lightStates)
      ensures scenes == old(scenes)[freshId := scene]
      ensures ok == saveOk && file == if ok then Some(scenes) else old(file)
    {
      scene := Scene(freshId, name, group, lights, lightStates);
      scenes := scenes[freshId := scene];
      ok := Save(saveOk);
    }

    method Delete(id: string, saveOk: bool) returns (ok: bool)
      modifies this
      ensures scenes == old(scenes) - {id}
      ensures ok == saveOk && file == if ok then Some(scenes) else old(file)
    {
      scenes := scenes - {id};
      ok := Save(saveOk);
    }
  }

  /** Home Assistant's scene storage as the bridge uses it. A call can take effect and still
      fail from the bridge's side; one that succeeds has taken effect. */
  class SceneMirror {
    var mirrored: map<string, Mirrored>

    method MirrorScene(s: Scene, reached: bool, ok: bool) returns (done: bool)
      modifies this
      ensures done == (reached && ok)
      ensures mirrored == if reached then old(mirrored)[s.id := MirrorOf(s)] else old(mirrored)
    {
      var entities: map<string, Target> := map[];
      var left := s.lightStates.Keys;
      while left != {}
        invariant left <= s.lightStates.Keys
        invariant entities == map e | e in s.lightStates && e !in left :: TargetOf(s.lightStates[e])
        invariant mirrored == old(mirrored)
        decreases left
      {
        var e :| e in left;
        left := left - {e};
        var state := "off";
        if s.lightStates[e].on.Some? && s.lightStates[e].on.value {
          state := "on";
        }
        entities := entities[e := Target(state, s.lightStates[e].brightness)];
      }
      assert entities == MirrorOf(s).entities;
      if reached {
        mirrored := mirrored[s.id := Mirrored("[Hue] " + s.name, entities)];
      }
      done := reached && ok;
    }

    method DeleteMirroredScene(id: string, reached: bool, ok: bool) returns (done: bool)
      modifies this
      ensures done == (reached && ok)
      ensures mirrored == if reached then old(mirrored) - {id} else old(mirrored)
    {
      if reached {
        mirrored := mirrored - {id};
      }
      done := reached && ok;
    }
  }

  // ----- The handlers, undisturbed. -----

  function AtoiOrZero(s: string): int {
    match Atoi(s)
    case Some(n) => n
    case None => 0
  }

  /** Text that is a number stands for it, and all other text for 0. */
  lemma GroupNumberIsRead(n: int, s: string)
    ensures AtoiOrZero(Itoa(n)) == n
    ensures Atoi(s).None? ==> AtoiOrZero(s) == 0
  {
    AtoiItoa(n);
  }

  datatype PostResult = NoGroup | NotSaved | NotMirrored | Created(id: string)

  /** How the steps of a POST turn out. */
  datatype Luck = Luck(freshId: string, saveOk: bool, mirrorReached: bool, mirrorOk: bool, rollbackSaveOk: bool)

  /** The members' states, read through the cache; an unreadable member is left out. */
  method Capture(be: Cache, members: array<string>) returns (lightStates: map<string, Desired>)
    requires be.Valid()
    modifies be`states
    ensures be.Valid() && forall e :: be.Reads(e) == old(be.Reads(e))
    ensures lightStates == old(Captured(members[..], be.states, be.inner.states, be.inner.down))
  {
    lightStates := map[];
    ghost var all := old(Captured(members[..], be.states, be.inner.states, be.inner.down));
    var i := 0;
    while i < members.Length
      invariant 0 <= i <= members.Length
      invariant be.Valid() && forall e :: be.Reads(e) == old(be.Reads(e))
      invariant lightStates.Keys == set m | m in members[..i] && m in all
      invariant forall m | m in lightStates :: m in all && lightStates[m] == all[m]
    {
      assert forall m :: m in members[..i + 1] <==> m in members[..i] || m == members[i];
      var state := be.GetState(members[i]);
      assert state == old(be.Reads(members[i]));
      if state.Some? {
        assert members[i] in all && all[members[i]] == Desired(Some(state.value.on), state.value.brightness, None, None);
        lightStates := lightStates[members[i] := Desired(Some(state.value.on), state.value.brightness, None, None)];
      }
      i := i + 1;
    }
    assert members[..i] == members[..];
    assert lightStates.Keys == all.Keys;
  }

  /** What store, file and mirror hold after each way a POST can end. With the save and the
      mirror call good, the scene everywhere; with the mirror call failed, no scene in the store,
      nor in the file once the rollback is saved; with the save failed, a scene in memory only. */
  predicate Transacts(scenes: map<string, Scene>, file: Option<map<string, Scene>>, mirrored: map<string, Mirrored>,
                      scenes': map<string, Scene>, file': Option<map<string, Scene>>, mirrored': map<string, Mirrored>,
                      scene: Scene, luck: Luck)
  {
    var stored := scenes[scene.id := scene];
    var good := luck.mirrorReached && luck.mirrorOk;
    && scenes' == (if luck.saveOk && !good then scenes else stored)
    && file' == (if !luck.saveOk then file else if !good && luck.rollbackSaveOk then Some(scenes) else Some(stored))
    && mirrored' == (if luck.saveOk && luck.mirrorReached then mirrored[scene.id := MirrorOf(scene)] else mirrored)
  }

  /** POST of a scene for a group. Success means stored, saved and mirrored with the same
      content; a failed mirror leaves the store as if the request had never run, and the file
      too once the rollback is saved; a failed save alone leaves the scene in memory. */
  method HandlePostScene(reg: R.Registry, be: Cache, store: SceneStore, mirror: SceneMirror,
                         name: string, group: string, luck: Luck) returns (r: PostResult)
    requires be.Valid() && luck.freshId !in store.scenes
    modifies be`states, store, mirror
    ensures forall e :: be.Reads(e) == old(be.Reads(e))
    ensures r.NoGroup? <==> R.GroupByHue(R.GroupsIn(reg.groups), AtoiOrZero(group)).None?
    ensures r.NotSaved? <==> !r.NoGroup? && !luck.saveOk
    ensures r.NotMirrored? <==> !r.NoGroup? && luck.saveOk && !(luck.mirrorReached && luck.mirrorOk)
    ensures r.NoGroup? ==> store.scenes == old(store.scenes) && store.file == old(store.file) && mirror.mirrored == old(mirror.mirrored)
    ensures r.Created? ==> r.id == luck.freshId
    ensures !r.NoGroup? ==>
              var members := R.GroupByHue(R.GroupsIn(reg.groups), AtoiOrZero(group)).value.members;
              var lightStates := old(Captured(members, be.states, be.inner.states, be.inner.down));
              Transacts(old(store.scenes), old(store.file), old(mirror.mirrored), store.scenes, store.file, mirror.mirrored,
                        Scene(luck.freshId, name, group, members, lightStates), luck)
  {
    var g := reg.GroupByHueID(AtoiOrZero(group));
    if g.None? {
      return NoGroup;
    }
    ghost var listed := R.GroupsIn(reg.groups);
    var members := g.value.members;
    assert R.ToGroup(g.value).members == members[..];
    var lightStates := Capture(be, members);
    r := StoreAndMirror(store, mirror, Scene(luck.freshId, name, group, members[..], lightStates), luck);
    assert R.GroupsIn(reg.groups) == listed;
  }

  /** The same for a group named by its number, or by text that is none, which stands for 0: the
      scene lists that group's members and holds what each readable one read as. */
  method PostSceneOfGroup(reg: R.Registry, be: Cache, store: SceneStore, mirror: SceneMirror,
                          name: string, group: string, ghost id: int, luck: Luck) returns (r: PostResult)
    requires be.Valid() && luck.freshId !in store.scenes
    requires group == Itoa(id) || (Atoi(group).None? && id == 0)
    modifies be`states, store, mirror
    ensures r.NoGroup? <==> forall g | g in R.GroupsIn(reg.groups) :: g.hueId != id
    ensures !r.NoGroup? && !r.NotMirrored? ==> luck.freshId in store.scenes
    ensures !r.NoGroup? && !r.NotMirrored? ==>
              var scene := store.scenes[luck.freshId];
              && scene.name == name && scene.group == group
              && exists g :: g in R.GroupsIn(reg.groups) && g.hueId == id && scene.lights == g.members
    ensures !r.NoGroup? && !r.NotMirrored? ==>
              var scene := store.scenes[luck.freshId];
              forall m :: if m in scene.lights && old(be.Reads(m)).Some?
                          then m in scene.lightStates && scene.lightStates[m] ==
                               Desired(Some(old(be.Reads(m)).value.on), old(be.Reads(m)).value.brightness, None, None)
                          else m !in scene.lightStates
  {
    GroupNumberIsRead(id, group);
    R.GroupByHueFinds(R.GroupsIn(reg.groups), id);
    r := HandlePostScene(reg, be, store, mirror, name, group, luck);
    R.GroupByHueFinds(R.GroupsIn(reg.groups), id);
  }

  /** The transaction of a POST: create, mirror, and roll back if the mirror call fails. */
  method StoreAndMirror(store: SceneStore, mirror: SceneMirror, scene: Scene, luck: Luck) returns (r: PostResult)
    requires scene.id == luck.freshId && luck.freshId !in store.scenes
    modifies store, mirror
    ensures r == if !luck.saveOk then NotSaved else if luck.mirrorReached && luck.mirrorOk then Created(scene.id) else NotMirrored
    ensures Transacts(old(store.scenes), old(store.file), old(mirror.mirrored), store.scenes, store.file, mirror.mirrored, scene, luck)
  {
    var made, saved := store.Create(luck.freshId, scene.name, scene.group, scene.lights, scene.lightStates, luck.saveOk);
    if !saved {
      return NotSaved;
    }
    var done := mirror.MirrorScene(made, luck.mirrorReached, luck.mirrorOk);
    if !done {
      assert store.scenes - {made.id} == old(store.scenes);
      var _ := store.Delete(made.id, luck.rollbackSaveOk);
      return NotMirrored;
    }
    r := Created(made.id);
  }

  datatype DeleteResult = Unknown | Unsaved | Deleted

  /** DELETE always takes a known scene out of the store, whatever the mirror and the disk do. */
  method HandleDeleteScene(store: SceneStore, mirror: SceneMirror, id: string, reached: bool, ok: bool, saveOk: bool)
    returns (r: DeleteResult)
    modifies store, mirror
    ensures r == Unknown <==> id !in old(store.scenes)
    ensures store.scenes == old(store.scenes) - {id}
    ensures r == Deleted ==> store.file == Some(store.scenes)
    ensures r == Deleted <==> id in old(store.scenes) && saveOk
    ensures mirror.mirrored == if r != Unknown && reached then old(mirror.mirrored) - {id} else old(mirror.mirrored)
  {
    if id !in store.scenes {
      return Unknown;
    }
    var _ := mirror.DeleteMirroredScene(id, reached, ok);
    var saved := store.Delete(id, saveOk);
    r := if saved then Deleted else Unsaved;
  }
}
