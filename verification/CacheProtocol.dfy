/** cache.go as a concurrent protocol: every operation is split where it takes or releases
    the lock, and the event feed runs beside any number of readers and writers. */
module CacheProtocol {
  import opened Options
  import opened LightState
  import opened HomeAssistant
  import opened CacheBackend

  /** A request between two of its steps. */
  datatype Op =
    | Missed(entity: string)                          // lookup missed, the inner read is next
    | Fetched(entity: string, state: EntityState)     // the inner read answered, put is next
    | Written(entity: string, desired: Desired)       // the inner set succeeded, the merge is next

  /** `held` and `acked` are history: every state the backend ever had and every write it
      acknowledged. The feed's channel is a queue; `live` says it is still open. */
  datatype World = World(
    backend: map<string, EntityState>,
    cache: map<string, EntityState>,
    chan: seq<EntityState>,
    live: bool,
    ops: map<nat, Op>,
    held: iset<EntityState>,
    acked: iset<(string, Desired)>)

  datatype Step =
    | Push(state: EntityState)                        // a change made elsewhere
    | Deliver                                         // Run takes an event and puts it
    | StartGet(id: nat, entity: string)               // GetState's lookup
    | InnerGet(id: nat, ok: bool)
    | PutFetched(id: nat)
    | InnerSet(id: nat, entity: string, desired: Desired, next: EntityState, ok: bool)
    | MergeWritten(id: nat)
    | Close                                           // the subscription ends
    | Resubscribe

  ghost function Change(w: World, s: EntityState): World {
    w.(backend := w.backend[s.entityId := s],
       chan := if w.live then w.chan + [s] else w.chan,
       held := w.held + iset{s})
  }

  /** A step that is not enabled leaves the world alone. InnerSet's `next` is whatever state
      the backend turns the write into; it emits an event when that is a change. */
  ghost function Next(w: World, step: Step): World {
    match step
    case Push(s) => Change(w, s)
    case Deliver =>
      if w.chan == [] then w
      else w.(chan := w.chan[1..], cache := w.cache[w.chan[0].entityId := w.chan[0]])
    case StartGet(id, e) =>
      if e in w.cache || id in w.ops then w else w.(ops := w.ops[id := Missed(e)])
    case InnerGet(id, ok) =>
      if id !in w.ops || !w.ops[id].Missed? then w
      else if ok && w.ops[id].entity in w.backend then
        w.(ops := w.ops[id := Fetched(w.ops[id].entity, w.backend[w.ops[id].entity])])
      else w.(ops := w.ops - {id})
    case PutFetched(id) =>
      if id !in w.ops || !w.ops[id].Fetched? then w
      else w.(ops := w.ops - {id}, cache := w.cache[w.ops[id].state.entityId := w.ops[id].state])
    case InnerSet(id, e, d, next, ok) =>
      if id in w.ops || !ok || e !in w.backend || next.entityId != e then w
      else
        var changed := if next == w.backend[e] then w else Change(w, next);
        changed.(ops := w.ops[id := Written(e, d)], acked := w.acked + iset{(e, d)})
    case MergeWritten(id) =>
      if id !in w.ops || !w.ops[id].Written? then w
      else w.(ops := w.ops - {id}, cache := AfterMerge(w.cache, w.ops[id].entity, w.ops[id].desired))
    case Close => w.(live := false)
    case Resubscribe => if w.live || w.chan != [] then w else w.(live := true)
  }

  ghost function Run(w: World, steps: seq<Step>): World
    decreases |steps|
  {
    if steps == [] then w else Run(Next(w, steps[0]), steps[1..])
  }

  /** An empty cache over any backend, just subscribed. */
  ghost predicate Initial(w: World) {
    && WellKeyed(w.backend) && w.cache == map[] && w.chan == [] && w.live && w.ops == map[]
    && w.held == (iset s | s in w.backend.Values) && w.acked == iset{}
  }

  /** A call of CacheBackend.Cache is these steps run back to back: the lookup, the inner
      read and the put leave what GetState leaves, with no request left over. */
  lemma GetStateIsTheseSteps(w: World, id: nat, e: string, down: set<string>)
    requires id !in w.ops && WellKeyed(w.backend)
    ensures e in w.cache ==> Next(w, StartGet(id, e)) == w && Readable(w.cache, w.backend, down, e) == Some(w.cache[e])
    ensures e !in w.cache ==>
              var asked := Next(Next(w, StartGet(id, e)), InnerGet(id, e !in down));
              (if Readable(w.cache, w.backend, down, e).Some?
               then asked.ops == w.ops[id := Fetched(e, Readable(w.cache, w.backend, down, e).value)] else asked == w)
    ensures var got := Next(Next(Next(w, StartGet(id, e)), InnerGet(id, e !in down)), PutFetched(id));
            got.cache == AfterGet(w.cache, w.backend, down, e) && got.ops == w.ops && got.backend == w.backend
  {
    if e in w.cache {
      assert w.cache[e := w.cache[e]] == w.cache;
    } else {
      assert w.ops[id := Missed(e)] - {id} == w.ops;
      assert e in w.backend && e !in down ==> w.ops[id := Missed(e)][id := Fetched(e, w.backend[e])] - {id} == w.ops;
    }
  }

  /** And the inner set and the merge leave what SetState leaves. */
  lemma SetStateIsTheseSteps(w: World, id: nat, e: string, d: Desired, next: EntityState, down: set<string>)
    requires id !in w.ops && next.entityId == e
    ensures var set1 := Next(Next(w, InnerSet(id, e, d, next, e !in down)), MergeWritten(id));
            if e in w.backend && e !in down
            then set1.cache == AfterMerge(w.cache, e, d) && set1.ops == w.ops && set1.backend == w.backend[e := next]
            else set1 == w
  {
    assert w.ops[id := Written(e, d)] - {id} == w.ops;
    assert e in w.backend && next == w.backend[e] ==> w.backend[e := next] == w.backend;
  }

  // ----- Provenance: the cache never invents a state, whatever interleaves. -----

  /** v is a state the backend held for its entity with acknowledged writes merged over it. */
  ghost predicate Derived(w: World, v: EntityState) {
    exists base, ds :: DerivedBy(w, v, base, ds)
  }

  ghost predicate DerivedBy(w: World, v: EntityState, base: EntityState, ds: seq<Desired>) {
    && base in w.held && base.entityId == v.entityId
    && (forall d | d in ds :: (v.entityId, d) in w.acked)
    && v == MergeAll(base, ds)
  }

  /** Everything that can reach the cache is on record. */
  ghost predicate Recorded(w: World) {
    && WellKeyed(w.backend) && WellKeyed(w.cache)
    && (forall e | e in w.backend :: w.backend[e] in w.held)
    && (forall s | s in w.chan :: s in w.held)
    && (forall i | i in w.ops && w.ops[i].Fetched? :: w.ops[i].state in w.held)
    && (forall i | i in w.ops && w.ops[i].Written? :: (w.ops[i].entity, w.ops[i].desired) in w.acked)
  }

  ghost predicate NothingInvented(w: World) {
    Recorded(w) && forall e | e in w.cache :: Derived(w, w.cache[e])
  }

  lemma HeldIsDerived(w: World, v: EntityState)
    requires v in w.held
    ensures Derived(w, v)
  {
    assert DerivedBy(w, v, v, []);
  }

  lemma MergedIsDerived(w: World, v: EntityState, d: Desired)
    requires Derived(w, v) && (v.entityId, d) in w.acked
    ensures Derived(w, Merge(v, d))
  {
    var base, ds :| DerivedBy(w, v, base, ds);
    assert (ds + [d])[..|ds|] == ds;
    assert DerivedBy(w, Merge(v, d), base, ds + [d]);
  }

  lemma DerivedStays(w: World, w': World, v: EntityState)
    requires Derived(w, v) && w.held <= w'.held && w.acked <= w'.acked
    ensures Derived(w', v)
  {
    var base, ds :| DerivedBy(w, v, base, ds);
    assert DerivedBy(w', v, base, ds);
  }

  lemma HistoryGrows(w: World, step: Step)
    ensures w.held <= Next(w, step).held && w.acked <= Next(w, step).acked
  {
  }

  lemma StepStaysRecorded(w: World, step: Step)
    requires Recorded(w)
    ensures Recorded(Next(w, step))
  {
    HistoryGrows(w, step);
    if step.InnerSet? {
      SetStaysRecorded(w, step.id, step.entity, step.desired, step.next, step.ok);
    }
  }

  lemma SetStaysRecorded(w: World, id: nat, e: string, d: Desired, next: EntityState, ok: bool)
    requires Recorded(w)
    ensures Recorded(Next(w, InnerSet(id, e, d, next, ok)))
  {
  }

  /** One entry of the cache after a step is unchanged, a recorded state, or a merge. */
  lemma CacheEntryAfter(w: World, step: Step, e: string)
    requires Recorded(w) && e in Next(w, step).cache
    ensures var v := Next(w, step).cache[e];
            || (e in w.cache && v == w.cache[e])
            || v in w.held
            || (e in w.cache && exists d :: (e, d) in w.acked && v == Merge(w.cache[e], d))
  {
    match step
    case Deliver => assert w.chan != [] ==> w.chan[0] in w.chan;
    case MergeWritten(id) =>
      if id in w.ops && w.ops[id].Written? && e == w.ops[id].entity && e in w.cache {
        assert (e, w.ops[id].desired) in w.acked;
      }
    case _ =>
  }

  lemma StepInventsNothing(w: World, step: Step)
    requires NothingInvented(w)
    ensures NothingInvented(Next(w, step))
  {
    var w' := Next(w, step);
    StepStaysRecorded(w, step);
    HistoryGrows(w, step);
    forall e | e in w'.cache
      ensures Derived(w', w'.cache[e])
    {
      CacheEntryAfter(w, step, e);
      if e in w.cache && w'.cache[e] == w.cache[e] {
      } else if w'.cache[e] in w.held {
        HeldIsDerived(w, w'.cache[e]);
      } else {
        var d :| (e, d) in w.acked && w'.cache[e] == Merge(w.cache[e], d);
        MergedIsDerived(w, w.cache[e], d);
      }
      DerivedStays(w, w', w'.cache[e]);
    }
  }

  lemma {:induction false} RunInventsNothing(w: World, steps: seq<Step>)
    requires NothingInvented(w)
    ensures NothingInvented(Run(w, steps))
    decreases |steps|
  {
    if steps != [] {
      StepInventsNothing(w, steps[0]);
      RunInventsNothing(Next(w, steps[0]), steps[1..]);
    }
  }

  /** Under every interleaving of changes, events, misses, writes, closed and reopened
      subscriptions: a cached value carries its own key and is a state the backend held for
      it with finitely many acknowledged writes merged over it, hence with one. */
  lemma CacheNeverInventsState(w: World, steps: seq<Step>, e: string)
    requires Initial(w) && e in Run(w, steps).cache
    ensures var end := Run(w, steps);
            && end.cache[e].entityId == e
            && exists base, ds ::
                 && base in end.held && base.entityId == e
                 && (forall d | d in ds :: (e, d) in end.acked)
                 && end.cache[e] == MergeAll(base, ds) == Merge(base, LastWriters(ds))
  {
    RunInventsNothing(w, steps);
    var end := Run(w, steps);
    var base, ds :| DerivedBy(end, end.cache[e], base, ds);
    WritesFoldToLastWriters(base, ds);
  }

  // ----- Agreement: entity by entity, an undisturbed cache catches up with the backend. -----

  /** The newest event queued for e. */
  ghost function Newest(chan: seq<EntityState>, e: string): Option<EntityState> {
    if chan == [] then None
    else if Newest(chan[1..], e).Some? then Newest(chan[1..], e)
    else if chan[0].entityId == e then Some(chan[0])
    else None
  }

  lemma {:induction false} NewestAfterAppend(chan: seq<EntityState>, s: EntityState, e: string)
    ensures Newest(chan + [s], e) == if s.entityId == e then Some(s) else Newest(chan, e)
  {
    if chan != [] {
      assert (chan + [s])[1..] == chan[1..] + [s];
      NewestAfterAppend(chan[1..], s, e);
    }
  }

  lemma {:induction false} NewestIsLastQueued(chan: seq<EntityState>, e: string)
    ensures Newest(chan, e).None? <==> forall s | s in chan :: s.entityId != e
    ensures Newest(chan, e).Some? ==>
              exists i | 0 <= i < |chan| ::
                && chan[i].entityId == e && Newest(chan, e) == Some(chan[i])
                && forall j | i < j < |chan| :: chan[j].entityId != e
  {
    if chan != [] {
      var rest := chan[1..];
      NewestIsLastQueued(rest, e);
      assert forall j | 1 <= j < |chan| :: chan[j] == rest[j - 1];
      if Newest(rest, e).Some? {
        var i :| 0 <= i < |rest| && rest[i].entityId == e && Newest(rest, e) == Some(rest[i])
                 && forall j | i < j < |rest| :: rest[j].entityId != e;
        assert chan[i + 1] == rest[i];
      }
    }
  }

  /** The request would write something into e's entry that `present` does not have. */
  predicate Spoils(op: Op, e: string, present: EntityState) {
    && op.entity == e
    && ((op.Fetched? && op.state != present) || (op.Written? && Merge(present, op.desired) != present))
  }

  ghost predicate SomeSpoils(ops: map<nat, Op>, e: string, present: EntityState) {
    exists i | i in ops :: Spoils(ops[i], e, present)
  }

  /** What every run keeps whatever happens: names fit, and only known entities are about. */
  ghost predicate Sound(w: World) {
    && WellKeyed(w.backend) && WellKeyed(w.cache) && w.cache.Keys <= w.backend.Keys
    && (forall s | s in w.chan :: s.entityId in w.backend)
    && (forall i | i in w.ops && !w.ops[i].Missed? :: w.ops[i].entity in w.backend)
    && (forall i | i in w.ops && w.ops[i].Fetched? :: w.ops[i].state.entityId == w.ops[i].entity)
  }

  lemma StepStaysSound(w: World, step: Step)
    requires Sound(w)
    ensures Sound(Next(w, step))
  {
  }

  /** e is in step: the last event queued for it is its present state or, with none queued,
      its entry is the present state and no open request would change that. */
  ghost predicate InStep(w: World, e: string) {
    e in w.backend ==>
      match Newest(w.chan, e)
      case Some(s) => s == w.backend[e]
      case None => (e in w.cache ==> w.cache[e] == w.backend[e]) && !SomeSpoils(w.ops, e, w.backend[e])
  }

  /** An unheard change of e to s, while the queue, the entry or a request still has another. */
  ghost predicate Unheard(w: World, s: EntityState) {
    var e := s.entityId;
    && !w.live
    && match Newest(w.chan, e)
       case Some(newest) => s != newest
       case None => (e in w.cache && w.cache[e] != s) || SomeSpoils(w.ops, e, s)
  }

  /** The steps that put e out of step, by what a step finds: the delivery of its last queued
      event while an open request would write something else; a change that nobody hears; an
      acknowledged write that no event follows but that the snapshot will see. */
  ghost predicate Disturbs(w: World, step: Step, e: string) {
    match step
    case Push(s) => s.entityId == e && Unheard(w, s)
    case Deliver =>
      && w.chan != [] && w.chan[0].entityId == e && Newest(w.chan[1..], e).None?
      && SomeSpoils(w.ops, e, w.chan[0])
    case InnerSet(id, f, d, next, ok) =>
      && f == e == next.entityId && id !in w.ops && ok && e in w.backend
      && ((next != w.backend[e] && Unheard(w, next))
          || (Merge(next, d) != next && Newest(w.chan, e).None? && !(w.live && next != w.backend[e])))
    case _ => false
  }

  lemma ChangeAndStep(w: World, s: EntityState, e: string)
    requires Sound(w) && InStep(w, e)
    ensures InStep(Change(w, s), e) <==> !(s.entityId == e && Unheard(w, s))
    ensures s.entityId == e && w.live ==> Newest(Change(w, s).chan, e) == Some(s)
  {
    NewestAfterAppend(w.chan, s, e);
  }

  lemma SetAndStep(w: World, id: nat, e: string, d: Desired, next: EntityState, f: string)
    requires Sound(w) && InStep(w, f) && id !in w.ops && e in w.backend && next.entityId == e
    ensures var set1 := InnerSet(id, e, d, next, true);
            InStep(Next(w, set1), f) <==> !Disturbs(w, set1, f)
  {
    var w' := Next(w, InnerSet(id, e, d, next, true));
    var mid := if next == w.backend[e] then w else Change(w, next);
    if next != w.backend[e] {
      ChangeAndStep(w, next, f);
    }
    OneMoreRequest(w.ops, id, Written(e, d), f, w'.backend);
    assert w'.chan == mid.chan && w'.backend == mid.backend && w'.cache == mid.cache;
  }

  lemma OneMoreRequest(ops: map<nat, Op>, id: nat, op: Op, e: string, backend: map<string, EntityState>)
    requires id !in ops
    ensures e in backend ==>
              (SomeSpoils(ops[id := op], e, backend[e]) <==> SomeSpoils(ops, e, backend[e]) || Spoils(op, e, backend[e]))
  {
    var after := ops[id := op];
    if e in backend {
      if Spoils(op, e, backend[e]) {
        assert Spoils(after[id], e, backend[e]);
      }
      if i :| i in ops && Spoils(ops[i], e, backend[e]) {
        assert Spoils(after[i], e, backend[e]);
      }
    }
  }

  lemma DeliverAndStep(w: World, e: string)
    requires Sound(w) && InStep(w, e)
    ensures InStep(Next(w, Deliver), e) <==> !Disturbs(w, Deliver, e)
  {
    if w.chan != [] {
      assert w.chan[0] in w.chan;
    }
  }

  /** Opening, fetching, putting, merging, closing and resubscribing keep e in step. */
  lemma QuietAndStep(w: World, step: Step, e: string)
    requires Sound(w) && InStep(w, e)
    requires !step.Push? && !step.Deliver? && !step.InnerSet?
    ensures InStep(Next(w, step), e)
  {
    var w' := Next(w, step);
    if e in w.backend && Newest(w.chan, e).None? {
      forall i | i in w'.ops
        ensures !Spoils(w'.ops[i], e, w.backend[e])
      {
        assert i in w.ops ==> !Spoils(w.ops[i], e, w.backend[e]);
      }
      if (step.PutFetched? || step.MergeWritten?) && step.id in w.ops {
        assert !Spoils(w.ops[step.id], e, w.backend[e]);
      }
    }
  }

  /** The condition is exact: a step puts an entity out of step if and only if it disturbs it. */
  lemma StepKeepsStepUnlessDisturbing(w: World, step: Step, e: string)
    requires Sound(w) && InStep(w, e)
    ensures InStep(Next(w, step), e) <==> !Disturbs(w, step, e)
  {
    match step
    case Push(s) => ChangeAndStep(w, s, e);
    case Deliver => DeliverAndStep(w, e);
    case InnerSet(id, f, d, next, ok) =>
      if id !in w.ops && ok && f in w.backend && next.entityId == f {
        SetAndStep(w, id, f, d, next, e);
      }
    case _ => QuietAndStep(w, step, e);
  }

  ghost predicate Undisturbed(w: World, steps: seq<Step>, e: string)
    decreases |steps|
  {
    steps == [] || (!Disturbs(w, steps[0], e) && Undisturbed(Next(w, steps[0]), steps[1..], e))
  }

  lemma {:induction false} UndisturbedRunKeepsStep(w: World, steps: seq<Step>, e: string)
    requires Sound(w) && InStep(w, e) && Undisturbed(w, steps, e)
    ensures Sound(Run(w, steps)) && InStep(Run(w, steps), e)
    decreases |steps|
  {
    if steps != [] {
      StepStaysSound(w, steps[0]);
      StepKeepsStepUnlessDisturbing(w, steps[0], e);
      UndisturbedRunKeepsStep(Next(w, steps[0]), steps[1..], e);
    }
  }

  /** Nothing is queued for e and its entry is not what the backend has. */
  ghost predicate Stale(w: World, e: string) {
    Newest(w.chan, e).None? && e in w.cache && e in w.backend && w.cache[e] != w.backend[e]
  }

  /** Whatever happens to other entities, and however often the subscription closes and
      reopens: along a run that never disturbs e, a cached e with no event queued for it reads
      as the backend has it. */
  lemma CacheAgreesWithBackend(w: World, steps: seq<Step>, e: string)
    requires Initial(w) && Undisturbed(w, steps, e)
    ensures var end := Run(w, steps);
            e in end.cache && Newest(end.chan, e).None? ==> e in end.backend && end.cache[e] == end.backend[e]
  {
    UndisturbedRunKeepsStep(w, steps, e);
  }

  /** A change that is heard puts its entity back in step, whatever went wrong before. */
  lemma HeardChangeRepairs(w: World, s: EntityState)
    requires w.live
    ensures InStep(Next(w, Push(s)), s.entityId)
  {
    NewestAfterAppend(w.chan, s, s.entityId);
  }

  /** The echo of one's own faithful write may arrive before its merge: if every open request
      for e is such a write, delivering its events disturbs nothing. */
  lemma OwnEchoIsHarmless(w: World, e: string)
    requires Sound(w) && InStep(w, e) && e in w.backend
    requires forall i | i in w.ops && w.ops[i].entity == e ::
               w.ops[i].Missed? || (w.ops[i].Written? && Merge(w.backend[e], w.ops[i].desired) == w.backend[e])
    ensures !Disturbs(w, Deliver, e)
  {
  }

  /** Against Home Assistant a faithful write, as HomeAssistant characterises them, disturbs
      nothing while the subscription is open, and its own merge spoils nothing. */
  lemma FaithfulWritesDisturbNothing(w: World, id: nat, s: HaState, e: string, d: Desired, f: string)
    requires e in w.backend && w.backend[e] == ToEntityState(e, s) && w.live
    requires Faithful(w.backend[e], d)
    ensures var next := ToEntityState(e, Write(e, s, d));
            && !Disturbs(w, InnerSet(id, e, d, next, true), f)
            && !Spoils(Written(e, d), e, next)
  {
    MergeAgreesExactlyWhenFaithful(e, s, d);
  }

  // ----- And the converse: what is out of step can be left stale with no further change. -----

  /** Nothing changes in the backend: queued events arrive and requests read and finish. */
  predicate Settles(step: Step) {
    step.Deliver? || step.StartGet? || step.InnerGet? || step.PutFetched? || step.MergeWritten?
  }

  /** No open request would write anything but the present state, even with events queued. */
  ghost predicate Safe(w: World, e: string) {
    InStep(w, e) && (e in w.backend ==> !SomeSpoils(w.ops, e, w.backend[e]))
  }

  lemma SettlingStaysSafe(w: World, step: Step, e: string)
    requires Sound(w) && Safe(w, e) && Settles(step)
    ensures Safe(Next(w, step), e) && Next(w, step).backend == w.backend
  {
    StepKeepsStepUnlessDisturbing(w, step, e);
  }

  lemma {:induction false} SafeSettlesInStep(w: World, steps: seq<Step>, e: string)
    requires Sound(w) && Safe(w, e) && forall s | s in steps :: Settles(s)
    ensures !Stale(Run(w, steps), e)
    decreases |steps|
  {
    if steps != [] {
      assert steps[0] in steps;
      StepStaysSound(w, steps[0]);
      SettlingStaysSafe(w, steps[0], e);
      SafeSettlesInStep(Next(w, steps[0]), steps[1..], e);
    }
  }

  /** Every state a run reaches is sound, so what follows holds in all of them. */
  lemma ReachedStatesAreSound(w: World, steps: seq<Step>)
    requires Initial(w)
    ensures Sound(Run(w, steps))
  {
    RunStaysSound(w, steps);
  }

  ghost function Deliveries(n: nat): seq<Step> {
    seq(n, _ => Deliver)
  }

  lemma {:induction false} DrainedQueue(w: World, e: string)
    ensures var end := Run(w, Deliveries(|w.chan|));
            && end.chan == [] && end.ops == w.ops && end.backend == w.backend
            && (if Newest(w.chan, e).Some? then e in end.cache && end.cache[e] == Newest(w.chan, e).value
                else (e in end.cache <==> e in w.cache) && (e in w.cache ==> end.cache[e] == w.cache[e]))
    decreases |w.chan|
  {
    if w.chan != [] {
      assert Deliveries(|w.chan|)[1..] == Deliveries(|w.chan| - 1);
      DrainedQueue(Next(w, Deliver), e);
    }
  }

  lemma {:induction false} RunConcat(w: World, a: seq<Step>, b: seq<Step>)
    ensures Run(w, a + b) == Run(Run(w, a), b)
    decreases |a|
  {
    if a == [] {
      assert a + b == b;
    } else {
      assert (a + b)[1..] == a[1..] + b;
      RunConcat(Next(w, a[0]), a[1..], b);
    }
  }

  lemma {:induction false} RunStaysSound(w: World, steps: seq<Step>)
    requires Sound(w)
    ensures Sound(Run(w, steps))
    decreases |steps|
  {
    if steps != [] {
      StepStaysSound(w, steps[0]);
      RunStaysSound(Next(w, steps[0]), steps[1..]);
    }
  }

  lemma FreshRequest(ops: map<nat, Op>) returns (id: nat)
    ensures id !in ops
  {
    id := 0;
    ghost var seen: set<nat> := {};
    while id in ops
      invariant seen <= ops.Keys && forall i | i in seen :: i < id
      decreases ops.Keys - seen
    {
      seen := seen + {id};
      id := id + 1;
    }
  }

  /** With nothing queued, finishing one request that spoils e leaves e stale; if e is not
      even cached, a read comes first. */
  lemma FinishingLeavesStale(w: World, i: nat, e: string) returns (steps: seq<Step>)
    requires Sound(w) && w.chan == [] && e in w.backend
    requires e in w.cache ==> w.cache[e] == w.backend[e]
    requires i in w.ops && Spoils(w.ops[i], e, w.backend[e])
    ensures (forall s | s in steps :: Settles(s)) && Stale(Run(w, steps), e)
  {
    if w.ops[i].Fetched? {
      steps := [PutFetched(i)];
      RunCons(w, PutFetched(i), []);
      assert steps == [PutFetched(i)] + [];
    } else if e in w.cache {
      steps := [MergeWritten(i)];
      RunCons(w, MergeWritten(i), []);
      assert steps == [MergeWritten(i)] + [];
    } else {
      var j := FreshRequest(w.ops);
      steps := [StartGet(j, e), InnerGet(j, true), PutFetched(j), MergeWritten(i)];
      RunFour(w, StartGet(j, e), InnerGet(j, true), PutFetched(j), MergeWritten(i));
    }
  }

  /** An entity can end stale, without any further change of the backend, exactly when it is
      not safe: in every reachable world, whatever led there. */
  lemma CanSettleStaleIffUnsafe(w: World, e: string)
    requires Sound(w)
    ensures (exists steps :: (forall s | s in steps :: Settles(s)) && Stale(Run(w, steps), e)) <==> !Safe(w, e)
  {
    if Safe(w, e) {
      forall steps | forall s | s in steps :: Settles(s)
        ensures !Stale(Run(w, steps), e)
      {
        SafeSettlesInStep(w, steps, e);
      }
    } else {
      var drain := Deliveries(|w.chan|);
      var drained := Run(w, drain);
      RunStaysSound(w, drain);
      DrainedQueue(w, e);
      if !Stale(drained, e) {
        var i :| i in w.ops && Spoils(w.ops[i], e, w.backend[e]);
        var finish := FinishingLeavesStale(drained, i, e);
        RunConcat(w, drain, finish);
        assert (forall s | s in drain + finish :: Settles(s)) && Stale(Run(w, drain + finish), e);
      } else {
        assert (forall s | s in drain :: Settles(s)) && Stale(Run(w, drain), e);
      }
    }
  }

  /** So every disturbing step can be followed by a stale entry with nothing queued. */
  lemma DisturbanceCanLeaveStale(w: World, step: Step, e: string)
    requires Sound(w) && InStep(w, e) && Disturbs(w, step, e)
    ensures exists steps :: (forall s | s in steps :: Settles(s)) && Stale(Run(Next(w, step), steps), e)
  {
    StepStaysSound(w, step);
    StepKeepsStepUnlessDisturbing(w, step, e);
    CanSettleStaleIffUnsafe(Next(w, step), e);
  }

  /** In particular a disturbing delivery is made good by no one: the very next step of the
      request it overtook, its put or its merge, leaves e stale. These are the events that land
      between a miss's read and its put, or between an inner set and its merge. */
  lemma OvertakenRequestLeavesStale(w: World, i: nat, e: string)
    requires Sound(w) && InStep(w, e) && Disturbs(w, Deliver, e)
    requires i in w.ops && Spoils(w.ops[i], e, w.chan[0])
    ensures Stale(Next(Next(w, Deliver), if w.ops[i].Fetched? then PutFetched(i) else MergeWritten(i)), e)
  {
    assert w.chan[0] in w.chan;
  }

  lemma RunCons(w: World, step: Step, rest: seq<Step>)
    ensures Run(w, [step] + rest) == Run(Next(w, step), rest)
  {
    assert ([step] + rest)[1..] == rest;
  }

  lemma RunFour(w: World, a: Step, b: Step, c: Step, d: Step)
    ensures Run(w, [a, b, c, d]) == Next(Next(Next(Next(w, a), b), c), d)
  {
    assert [a, b, c, d] == [a] + ([b] + ([c] + ([d] + [])));
    RunCons(w, a, [b] + ([c] + ([d] + [])));
    RunCons(Next(w, a), b, [c] + ([d] + []));
    RunCons(Next(Next(w, a), b), c, [d] + []);
    RunCons(Next(Next(Next(w, a), b), c), d, []);
  }

  /** A change made while the subscription is closed leaves its cached entity stale at once,
      and resubscribing refreshes nothing. */
  lemma ChangeInTheGapLeavesStale(w: World, s: EntityState)
    requires Sound(w) && !w.live && s.entityId in w.cache && Newest(w.chan, s.entityId).None?
    requires s != w.cache[s.entityId]
    ensures Stale(Next(Next(w, Push(s)), Resubscribe), s.entityId)
  {
  }

  /** An acknowledged write that changes nothing in the backend emits nothing, and the merge
      of what it asked for stays, if it shows: brightness for a light that is off. */
  lemma SilentWriteLeavesStale(w: World, id: nat, e: string, d: Desired)
    requires Sound(w) && e in w.cache && w.cache[e] == w.backend[e] && Newest(w.chan, e).None? && id !in w.ops
    requires Merge(w.backend[e], d) != w.backend[e]
    ensures Stale(Next(Next(w, InnerSet(id, e, d, w.backend[e], true)), MergeWritten(id)), e)
  {
    var w1 := Next(w, InnerSet(id, e, d, w.backend[e], true));
    assert w1.backend == w.backend && w1.cache == w.cache && w1.chan == w.chan && w1.ops[id] == Written(e, d);
    assert Next(w1, MergeWritten(id)).cache == w.cache[e := Merge(w.backend[e], d)];
  }

  // ----- Both overtakings are reached from the start. -----

  /** An event between a miss's inner read and its put, for any entity and any two states. */
  lemma EventBetweenReadAndPutLeavesStale(w: World, s: EntityState)
    requires Initial(w) && s.entityId in w.backend && s != w.backend[s.entityId]
    ensures var e := s.entityId;
            var before := Run(w, [StartGet(0, e), InnerGet(0, true), Push(s)]);
            Disturbs(before, Deliver, e) && Stale(Next(Next(before, Deliver), PutFetched(0)), e)
  {
    var e := s.entityId;
    RunThree(w, StartGet(0, e), InnerGet(0, true), Push(s));
    var before := Run(w, [StartGet(0, e), InnerGet(0, true), Push(s)]);
    assert before.chan == [s] && before.ops == map[0 := Fetched(e, w.backend[e])];
    OvertakenEntry(before, e, Fetched(e, w.backend[e]), s);
  }

  /** An event between an inner set and its merge, whenever the merge shows. */
  lemma EventBetweenSetAndMergeLeavesStale(w: World, d: Desired, set1: EntityState, s: EntityState)
    requires Initial(w) && s.entityId in w.backend && set1.entityId == s.entityId
    requires set1 != w.backend[s.entityId] && Merge(s, d) != s
    ensures var e := s.entityId;
            var before := Run(w, [InnerSet(0, e, d, set1, true), Push(s), Deliver]);
            Disturbs(before, Deliver, e) && Stale(Next(Next(before, Deliver), MergeWritten(0)), e)
  {
    var e := s.entityId;
    RunThree(w, InnerSet(0, e, d, set1, true), Push(s), Deliver);
    var written := Next(w, InnerSet(0, e, d, set1, true));
    assert written.chan == [set1] && written.ops == map[0 := Written(e, d)] && written.live && written.cache == map[];
    var before := Next(Next(written, Push(s)), Deliver);
    assert before.chan == [s] && before.ops == written.ops && before.backend[e] == s;
    OvertakenEntry(before, e, Written(e, d), s);
  }

  lemma OvertakenEntry(w: World, e: string, op: Op, s: EntityState)
    requires w.chan == [s] && s.entityId == e && w.ops == map[0 := op] && Spoils(op, e, s)
    requires e in w.backend && w.backend[e] == s && (op.Fetched? ==> op.state.entityId == e)
    ensures Disturbs(w, Deliver, e)
    ensures Stale(Next(Next(w, Deliver), if op.Fetched? then PutFetched(0) else MergeWritten(0)), e)
  {
    assert Spoils(w.ops[0], e, s);
  }

  // ----- Outside the protocol: an entity disappears. -----

  /** Home Assistant drops e. Its event carries no state, and toEntityState of that is a light
      that is off and reachable. No step above does this. */
  ghost function Removal(w: World, e: string): World {
    w.(backend := w.backend - {e},
       chan := if w.live then w.chan + [ToEntityState(e, HaState("", None, None, None))] else w.chan)
  }

  /** Then the cache serves, for as long as nothing else is heard of it, a reachable light that
      is off and that the backend neither has nor need ever have had. */
  lemma RemovalLeavesAGhost(w: World, e: string)
    requires w.chan == [] && w.live
    ensures var end := Next(Removal(w, e), Deliver);
            && e !in end.backend && end.chan == [] && e in end.cache
            && end.cache[e] == EntityState(e, false, None, None, None, true)
            && (end.cache[e] !in w.held ==> end.cache[e] !in end.held)
  {
    assert "" != "on" && "" != "unavailable";
  }

  lemma RunThree(w: World, a: Step, b: Step, c: Step)
    ensures Run(w, [a, b, c]) == Next(Next(Next(w, a), b), c)
  {
    assert [a, b, c] == [a] + ([b] + ([c] + []));
    RunCons(w, a, [b] + ([c] + []));
    RunCons(Next(w, a), b, [c] + []);
    RunCons(Next(Next(w, a), b), c, []);
  }
}
