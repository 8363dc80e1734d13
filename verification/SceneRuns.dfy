/** POST and DELETE of scenes interleaved at every store and mirror call, with mirror calls
    and saves failing at will. */
module SceneRuns {
  import opened Options
  import opened Scenes

  /** A request between two of its steps. */
  datatype Op =
    | Mirroring(scene: Scene)      // POST: created and saved, the mirror call is next
    | RollingBack(id: string)      // POST: the mirror call failed, the store delete is next
    | Unmirroring(id: string)      // DELETE: found, the mirror delete is next
    | Removing(id: string)         // DELETE: the store delete is next

  /** `made` is history: every scene ever created, by its id. */
  datatype World = World(
    store: map<string, Scene>,
    file: Option<map<string, Scene>>,
    ha: map<string, Mirrored>,
    ops: map<nat, Op>,
    made: map<string, Scene>)

  datatype Step =
    | PostCreate(req: nat, scene: Scene, saveOk: bool)
    | PostMirror(req: nat, reached: bool, ok: bool)
    | PostRollback(req: nat, saveOk: bool)
    | DeleteGet(req: nat, id: string)
    | DeleteMirror(req: nat, reached: bool)
    | DeleteStore(req: nat, saveOk: bool)
    | Restart                       // every request in flight dies; the file loads

  function Saved(w: World, store: map<string, Scene>, saveOk: bool): World {
    w.(store := store, file := if saveOk then Some(store) else w.file)
  }

  /** A step that is not enabled changes nothing. */
  function Next(w: World, step: Step): World {
    match step
    case PostCreate(p, scene, saveOk) =>
      if p in w.ops || scene.id in w.made then w
      else
        var w' := Saved(w, w.store[scene.id := scene], saveOk).(made := w.made[scene.id := scene]);
        if saveOk then w'.(ops := w.ops[p := Mirroring(scene)]) else w'
    case PostMirror(p, reached, ok) =>
      if p !in w.ops || !w.ops[p].Mirroring? then w
      else
        var s := w.ops[p].scene;
        var w' := if reached then w.(ha := w.ha[s.id := MirrorOf(s)]) else w;
        if reached && ok then w'.(ops := w.ops - {p}) else w'.(ops := w.ops[p := RollingBack(s.id)])
    case PostRollback(p, saveOk) =>
      if p !in w.ops || !w.ops[p].RollingBack? then w
      else Saved(w, w.store - {w.ops[p].id}, saveOk).(ops := w.ops - {p})
    case DeleteGet(p, id) =>
      if p in w.ops || id !in w.store then w else w.(ops := w.ops[p := Unmirroring(id)])
    case DeleteMirror(p, reached) =>
      if p !in w.ops || !w.ops[p].Unmirroring? then w
      else
        var id := w.ops[p].id;
        w.(ha := if reached then w.ha - {id} else w.ha, ops := w.ops[p := Removing(id)])
    case DeleteStore(p, saveOk) =>
      if p !in w.ops || !w.ops[p].Removing? then w
      else Saved(w, w.store - {w.ops[p].id}, saveOk).(ops := w.ops - {p})
    case Restart =>
      w.(store := if w.file.Some? then w.file.value else map[], ops := map[])
  }

  function Run(w: World, steps: seq<Step>): World
    decreases |steps|
  {
    if steps == [] then w else Run(Next(w, steps[0]), steps[1..])
  }

  const START := World(map[], None, map[], map[], map[])

  // ----- What every run keeps. -----

  function Subject(op: Op): string {
    if op.Mirroring? then op.scene.id else op.id
  }

  predicate Copies(scenes: map<string, Scene>, made: map<string, Scene>) {
    forall id | id in scenes :: id in made && scenes[id] == made[id]
  }

  /** Whatever holds a scene holds it as it was created. */
  predicate StoresRecorded(w: World) {
    && Copies(w.store, w.made)
    && (w.file.Some? ==> Copies(w.file.value, w.made))
    && (forall id | id in w.ha :: id in w.made && w.ha[id] == MirrorOf(w.made[id]))
    && (forall id | id in w.made :: w.made[id].id == id)
  }

  predicate OpRecorded(op: Op, made: map<string, Scene>) {
    Subject(op) in made && (op.Mirroring? ==> made[op.scene.id] == op.scene)
  }

  predicate Recorded(w: World) {
    StoresRecorded(w) && forall p | p in w.ops :: OpRecorded(w.ops[p], w.made)
  }

  lemma CreateKeepsStores(w: World, p: nat, scene: Scene, saveOk: bool)
    requires Recorded(w)
    ensures StoresRecorded(Next(w, PostCreate(p, scene, saveOk)))
  {
  }

  lemma MirrorKeepsStores(w: World, p: nat, reached: bool, ok: bool)
    requires Recorded(w)
    ensures StoresRecorded(Next(w, PostMirror(p, reached, ok)))
  {
    assert p in w.ops ==> OpRecorded(w.ops[p], w.made);
  }

  lemma StepKeepsStores(w: World, step: Step)
    requires Recorded(w)
    ensures StoresRecorded(Next(w, step))
  {
    match step
    case PostCreate(p, scene, saveOk) => CreateKeepsStores(w, p, scene, saveOk);
    case PostMirror(p, reached, ok) => MirrorKeepsStores(w, p, reached, ok);
    case _ => assert Next(w, step).made == w.made;
  }

  lemma StepKeepsOps(w: World, step: Step)
    requires Recorded(w)
    ensures forall p | p in Next(w, step).ops :: OpRecorded(Next(w, step).ops[p], Next(w, step).made)
  {
    var w' := Next(w, step);
    forall p | p in w'.ops
      ensures OpRecorded(w'.ops[p], w'.made)
    {
      assert p in w.ops ==> OpRecorded(w.ops[p], w.made);
    }
  }

  lemma StepStaysRecorded(w: World, step: Step)
    requires Recorded(w)
    ensures Recorded(Next(w, step))
  {
    StepKeepsStores(w, step);
    StepKeepsOps(w, step);
  }

  lemma {:induction false} RunStaysRecorded(w: World, steps: seq<Step>)
    requires Recorded(w)
    ensures Recorded(Run(w, steps))
    decreases |steps|
  {
    if steps != [] {
      StepStaysRecorded(w, steps[0]);
      RunStaysRecorded(Next(w, steps[0]), steps[1..]);
    }
  }

  // ----- Stored scenes are mirrored, exactly until a step exposes them. -----

  /** The request will still write the mirror or the store for this scene. */
  predicate Concerns(op: Op, id: string) {
    !op.Unmirroring? && Subject(op) == id
  }

  ghost predicate InFlight(w: World, id: string) {
    exists p :: p in w.ops && Concerns(w.ops[p], id)
  }

  ghost predicate Backed(w: World, id: string) {
    id in w.store ==> id in w.ha || InFlight(w, id)
  }

  ghost predicate InFile(w: World, id: string) {
    w.file.Some? && id in w.file.value
  }

  /** The steps that leave a stored scene without a mirror and without a request that will see
      to it: a create whose save fails, and a restart that reads back what Home Assistant lacks
      (never mirrored, or already dropped by a delete whose save failed or never came). */
  ghost predicate Exposes(w: World, step: Step, id: string) {
    match step
    case PostCreate(p, scene, saveOk) => scene.id == id && p !in w.ops && id !in w.made && !saveOk
    case Restart => InFile(w, id) && id !in w.ha
    case _ => false
  }

  /** A step leaves every request but its own alone. */
  lemma OthersStayInFlight(w: World, step: Step, id: string)
    requires step != Restart && InFlight(w, id) && !(step.req in w.ops && Concerns(w.ops[step.req], id))
    ensures InFlight(Next(w, step), id)
  {
    var q :| q in w.ops && Concerns(w.ops[q], id);
    assert q in Next(w, step).ops && Next(w, step).ops[q] == w.ops[q];
  }

  lemma NothingInFlight(w: World, id: string)
    requires Recorded(w) && id !in w.made
    ensures !InFlight(w, id)
  {
    assert forall p | p in w.ops :: OpRecorded(w.ops[p], w.made);
  }

  /** What a step leaves of its own request's scene. */
  lemma RequestMovesOn(w: World, step: Step, id: string)
    requires Recorded(w) && Backed(w, id) && step != Restart && !Exposes(w, step, id)
    requires InFlight(w, id) ==> step.req in w.ops && Concerns(w.ops[step.req], id)
    ensures Backed(Next(w, step), id)
  {
    var w' := Next(w, step);
    if step.req in w'.ops && Concerns(w'.ops[step.req], id) {
      assert InFlight(w', id);
    }
  }

  lemma ExposingUnbacks(w: World, step: Step, id: string)
    requires Recorded(w) && Exposes(w, step, id)
    ensures !Backed(Next(w, step), id)
  {
    if step != Restart {
      NothingInFlight(w, id);
      assert Next(w, step).ops == w.ops;
    }
  }

  /** The condition is exact, step by step. */
  lemma StepBacksUnlessExposing(w: World, step: Step, id: string)
    requires Recorded(w) && Backed(w, id)
    ensures Backed(Next(w, step), id) <==> !Exposes(w, step, id)
  {
    if Exposes(w, step, id) {
      ExposingUnbacks(w, step, id);
    } else if step == Restart {
    } else if InFlight(w, id) && !(step.req in w.ops && Concerns(w.ops[step.req], id)) {
      OthersStayInFlight(w, step, id);
    } else {
      RequestMovesOn(w, step, id);
    }
  }

  // ----- Why a restart can expose a scene. -----

  /** The file still lists a scene that the store has let go. */
  ghost predicate FileAhead(w: World, id: string) {
    InFile(w, id) && id !in w.store
  }

  /** The step is enabled and its save succeeds. */
  predicate Saves(w: World, step: Step) {
    match step
    case PostCreate(p, scene, saveOk) => p !in w.ops && scene.id !in w.made && saveOk
    case PostRollback(p, saveOk) => p in w.ops && w.ops[p].RollingBack? && saveOk
    case DeleteStore(p, saveOk) => p in w.ops && w.ops[p].Removing? && saveOk
    case _ => false
  }

  /** A rollback or a delete takes the scene out of the store and fails to save that. */
  predicate RemovesUnsaved(w: World, step: Step, id: string) {
    match step
    case PostRollback(p, saveOk) => p in w.ops && w.ops[p] == RollingBack(id) && !saveOk
    case DeleteStore(p, saveOk) => p in w.ops && w.ops[p] == Removing(id) && !saveOk
    case _ => false
  }

  /** That comes only of an unsaved removal, and lasts until the next successful save. */
  lemma FileAheadIffRemovedUnsaved(w: World, step: Step, id: string)
    requires Recorded(w)
    ensures FileAhead(Next(w, step), id) <==>
            step != Restart
            && ((FileAhead(w, id) && !Saves(w, step)) || (InFile(w, id) && RemovesUnsaved(w, step, id)))
  {
  }

  /** A restart exposes a backed scene exactly when Home Assistant lacks it and either a POST or
      a DELETE of it was under way (which dies with the process, its scene already or still in
      the file), or its removal was never saved. */
  lemma RestartExposesTheUnfinished(w: World, id: string)
    requires Recorded(w) && Backed(w, id)
    ensures Exposes(w, Restart, id) <==>
            id !in w.ha && ((id in w.store && InFile(w, id) && InFlight(w, id)) || FileAhead(w, id))
  {
  }

  ghost predicate NeverExposed(w: World, steps: seq<Step>, id: string)
    decreases |steps|
  {
    steps == [] || (!Exposes(w, steps[0], id) && NeverExposed(Next(w, steps[0]), steps[1..], id))
  }

  lemma {:induction false} UnexposedStaysBacked(w: World, steps: seq<Step>, id: string)
    requires Recorded(w) && Backed(w, id) && NeverExposed(w, steps, id)
    ensures Backed(Run(w, steps), id)
    decreases |steps|
  {
    if steps != [] {
      StepStaysRecorded(w, steps[0]);
      StepBacksUnlessExposing(w, steps[0], id);
      UnexposedStaysBacked(Next(w, steps[0]), steps[1..], id);
    }
  }

  /** Its one POST is over and Home Assistant does not have it. */
  ghost predicate Unmirrorable(w: World, id: string) {
    id in w.made && id !in w.ha && forall p | p in w.ops && w.ops[p].Mirroring? :: w.ops[p].scene.id != id
  }

  lemma {:induction false} StaysUnmirrored(w: World, steps: seq<Step>, id: string)
    requires Unmirrorable(w, id)
    ensures Unmirrorable(Run(w, steps), id)
    decreases |steps|
  {
    if steps != [] {
      StaysUnmirrored(Next(w, steps[0]), steps[1..], id);
    }
  }

  lemma {:induction false} ExposedStaysUnmirrored(w: World, steps: seq<Step>, id: string)
    requires Recorded(w) && !NeverExposed(w, steps, id)
    ensures id !in Run(w, steps).ha
    decreases |steps|
  {
    StepStaysRecorded(w, steps[0]);
    if Exposes(w, steps[0], id) {
      assert Unmirrorable(Next(w, steps[0]), id);
      StaysUnmirrored(Next(w, steps[0]), steps[1..], id);
    } else {
      ExposedStaysUnmirrored(Next(w, steps[0]), steps[1..], id);
    }
  }

  /** In every quiescent state of any interleaving of POSTs, DELETEs and restarts, however
      mirror calls and saves fail: a stored scene is in Home Assistant, with the same content,
      if and only if no step of the run exposed it. */
  lemma QuiescentScenesAreMirrored(steps: seq<Step>, id: string)
    requires Run(START, steps).ops == map[] && id in Run(START, steps).store
    ensures var w := Run(START, steps);
            && (id in w.ha <==> NeverExposed(START, steps, id))
            && (id in w.ha ==> w.ha[id] == MirrorOf(w.store[id]))
  {
    RunStaysRecorded(START, steps);
    if NeverExposed(START, steps, id) {
      UnexposedStaysBacked(START, steps, id);
    } else {
      ExposedStaysUnmirrored(START, steps, id);
    }
  }

  predicate SaveOk(step: Step) {
    match step
    case PostCreate(_, _, ok) => ok
    case PostRollback(_, ok) => ok
    case DeleteStore(_, ok) => ok
    case _ => true
  }

  /** Restarts happen between requests. */
  ghost predicate CalmRestarts(w: World, steps: seq<Step>)
    decreases |steps|
  {
    steps == [] || ((steps[0] == Restart ==> w.ops == map[]) && CalmRestarts(Next(w, steps[0]), steps[1..]))
  }

  ghost predicate FileInStep(w: World) {
    w.store == if w.file.Some? then w.file.value else map[]
  }

  lemma {:induction false} SavedRunExposesNothing(w: World, steps: seq<Step>, id: string)
    requires Recorded(w) && Backed(w, id) && FileInStep(w) && CalmRestarts(w, steps)
    requires forall s | s in steps :: SaveOk(s)
    ensures NeverExposed(w, steps, id) && FileInStep(Run(w, steps))
    decreases |steps|
  {
    if steps != [] {
      assert SaveOk(steps[0]);
      StepStaysRecorded(w, steps[0]);
      StepBacksUnlessExposing(w, steps[0], id);
      SavedRunExposesNothing(Next(w, steps[0]), steps[1..], id);
    }
  }

  /** With successful saves, and restarts between requests, no scene is ever exposed: every
      stored scene exists in Home Assistant whenever nothing is in flight. */
  lemma EveryStoredSceneIsMirrored(steps: seq<Step>, id: string)
    requires CalmRestarts(START, steps) && forall s | s in steps :: SaveOk(s)
    requires Run(START, steps).ops == map[] && id in Run(START, steps).store
    ensures var w := Run(START, steps);
            id in w.ha && w.ha[id] == MirrorOf(w.store[id]) && InFile(w, id)
  {
    SavedRunExposesNothing(START, steps, id);
    QuiescentScenesAreMirrored(steps, id);
  }

  // ----- Failed POSTs and deletes. -----

  ghost predicate Gone(w: World, id: string, restarts: bool) {
    id in w.made && id !in w.store && (restarts ==> !InFile(w, id))
  }

  /** An id taken out of the store never comes back while the process lives, and not by a
      restart either once the file is without it. */
  lemma {:induction false} GoneForGood(w: World, steps: seq<Step>, id: string, restarts: bool)
    requires Gone(w, id, restarts) && (restarts || forall s | s in steps :: !s.Restart?)
    ensures id !in Run(w, steps).store
    decreases |steps|
  {
    if steps != [] {
      assert steps[0] in steps;
      GoneForGood(Next(w, steps[0]), steps[1..], id, restarts);
    }
  }

  /** Whatever came between a POST's failed mirror call and its rollback: the rollback takes
      the scene out for good and touches no other; through restarts too if it was saved. */
  lemma FailedPostLeavesNothing(w: World, req: nat, saveOk: bool, steps: seq<Step>)
    requires Recorded(w) && req in w.ops && w.ops[req].RollingBack?
    requires saveOk || forall s | s in steps :: !s.Restart?
    ensures var id := w.ops[req].id;
            var back := Next(w, PostRollback(req, saveOk));
            && back.store == w.store - {id} && back.ha == w.ha && back.ops == w.ops - {req}
            && id !in Run(back, steps).store
  {
    assert OpRecorded(w.ops[req], w.made);
    GoneForGood(Next(w, PostRollback(req, saveOk)), steps, w.ops[req].id, saveOk);
  }

  lemma RunThree(w: World, a: Step, b: Step, c: Step)
    ensures Run(w, [a, b, c]) == Next(Next(Next(w, a), b), c)
  {
    assert [a, b, c][1..] == [b, c] && [b, c][1..] == [c] && [c][1..] == [];
    assert Run(Next(w, a), [b, c]) == Run(Next(Next(w, a), b), [c]);
    assert Run(Next(Next(w, a), b), [c]) == Next(Next(Next(w, a), b), c);
  }

  /** Run back to back, the steps leave in each ending what Scenes.StoreAndMirror leaves; a
      step the ending does not have finds no request and does nothing. */
  lemma UndisturbedPostIsTheHandler(w: World, req: nat, scene: Scene, luck: Luck)
    requires req !in w.ops && scene.id !in w.made && scene.id !in w.store
    ensures var end := Run(w, [PostCreate(req, scene, luck.saveOk), PostMirror(req, luck.mirrorReached, luck.mirrorOk),
                               PostRollback(req, luck.rollbackSaveOk)]);
            end.ops == w.ops && Transacts(w.store, w.file, w.ha, end.store, end.file, end.ha, scene, luck)
  {
    RunThree(w, PostCreate(req, scene, luck.saveOk), PostMirror(req, luck.mirrorReached, luck.mirrorOk),
             PostRollback(req, luck.rollbackSaveOk));
    assert w.store[scene.id := scene] - {scene.id} == w.store;
    assert w.ops[req := Mirroring(scene)] - {req} == w.ops;
    assert w.ops[req := Mirroring(scene)][req := RollingBack(scene.id)] - {req} == w.ops;
  }

  /** And so for Scenes.HandleDeleteScene. */
  lemma UndisturbedDeleteIsTheHandler(w: World, req: nat, id: string, reached: bool, saveOk: bool)
    requires req !in w.ops
    ensures var end := Run(w, [DeleteGet(req, id), DeleteMirror(req, reached), DeleteStore(req, saveOk)]);
            && end.ops == w.ops && end.store == w.store - {id}
            && end.file == (if id in w.store && saveOk then Some(w.store - {id}) else w.file)
            && end.ha == (if id in w.store && reached then w.ha - {id} else w.ha)
  {
    RunThree(w, DeleteGet(req, id), DeleteMirror(req, reached), DeleteStore(req, saveOk));
    if id in w.store {
      assert w.ops[req := Unmirroring(id)][req := Removing(id)] - {req} == w.ops;
    } else {
      assert w.store - {id} == w.store;
      assert Next(w, DeleteGet(req, id)) == w && Next(w, DeleteMirror(req, reached)) == w;
    }
  }

  // ----- Each way of exposing a scene, from any state. -----

  /** A failed save in Create leaves an unmirrored scene in memory with no request left. */
  lemma UnsavedCreateLeavesAnOrphan(w: World, req: nat, scene: Scene)
    requires Recorded(w) && req !in w.ops && scene.id !in w.made
    ensures var end := Next(w, PostCreate(req, scene, false));
            end.ops == w.ops && scene.id in end.store && scene.id !in end.ha
  {
  }

  /** A crash between a saved Create and its mirror call leaves one after the restart. */
  lemma CrashBeforeMirrorLeavesAnOrphan(w: World, req: nat, scene: Scene)
    requires Recorded(w) && req !in w.ops && scene.id !in w.made
    ensures var end := Next(Next(w, PostCreate(req, scene, true)), Restart);
            end.ops == map[] && scene.id in end.store && scene.id !in end.ha
  {
  }

  /** A DELETE that Home Assistant carried out but whose save failed is undone by a restart on
      the Hue side alone. */
  lemma UnsavedDeleteLeavesAnOrphan(w: World, req: nat, id: string)
    requires req !in w.ops && id in w.store && InFile(w, id)
    ensures var deleted := Run(w, [DeleteGet(req, id), DeleteMirror(req, true), DeleteStore(req, false)]);
            var end := Next(deleted, Restart);
            id !in deleted.store && id in end.store && id !in end.ha && end.ops == map[]
  {
    UndisturbedDeleteIsTheHandler(w, req, id, true, false);
  }
}
