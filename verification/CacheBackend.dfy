/** internal/backend/cache/cache.go run by one caller at a time, over an in-memory backend
    such as internal/backend/fake/fake.go. CacheProtocol interleaves the same steps. */
module CacheBackend {
  import opened Options
  import opened LightState

  // ----- What the calls read and leave behind, as values. -----

  ghost predicate WellKeyed(m: map<string, EntityState>) {
    forall e | e in m :: m[e].entityId == e
  }

  /** What a read of e answers: the snapshot first, then the wrapped backend if it can. */
  function Readable(cached: map<string, EntityState>, inner: map<string, EntityState>, down: set<string>, e: string):
    Option<EntityState>
  {
    if e in cached then Some(cached[e])
    else if e in inner && e !in down then Some(inner[e])
    else None
  }

  function AfterGet(cached: map<string, EntityState>, inner: map<string, EntityState>, down: set<string>, e: string):
    map<string, EntityState>
  {
    var r := Readable(cached, inner, down, e);
    if r.Some? then cached[e := r.value] else cached
  }

  function AfterMerge(cached: map<string, EntityState>, e: string, d: Desired): map<string, EntityState> {
    if e in cached then cached[e := Merge(cached[e], d)] else cached
  }

  /** The snapshot after a sequence of writes asked one after the other; writes to entities
      the backend does not know, or that are down, are refused. */
  function WriteAll(cached: map<string, EntityState>, known: set<string>, down: set<string>,
                    calls: seq<(string, Desired)>): map<string, EntityState>
  {
    if calls == [] then cached
    else
      var before := WriteAll(cached, known, down, calls[..|calls| - 1]);
      var (e, d) := calls[|calls| - 1];
      if e in known && e !in down then AfterMerge(before, e, d) else before
  }

  /** And the backend after the same writes. */
  function ApplyAll(inner: map<string, EntityState>, down: set<string>, apply: (EntityState, Desired) -> EntityState,
                    calls: seq<(string, Desired)>): (after: map<string, EntityState>)
    ensures after.Keys == inner.Keys
  {
    if calls == [] then inner
    else
      var before := ApplyAll(inner, down, apply, calls[..|calls| - 1]);
      var (e, d) := calls[|calls| - 1];
      if e in before && e !in down then before[e := apply(before[e], d)] else before
  }

  function RequestsFor(calls: seq<(string, Desired)>, e: string): seq<Desired> {
    if calls == [] then []
    else
      var front := RequestsFor(calls[..|calls| - 1], e);
      if calls[|calls| - 1].0 == e then front + [calls[|calls| - 1].1] else front
  }

  /** However the writes of different entities are mixed, each cached entity that accepts them
      ends as one merge of its own last writers, every other one is untouched, and none is added. */
  lemma {:induction false} WritesFoldPerEntity(
      cached: map<string, EntityState>, known: set<string>, down: set<string>,
      calls: seq<(string, Desired)>, e: string)
    ensures e in WriteAll(cached, known, down, calls) <==> e in cached
    ensures e in cached && e in known && e !in down ==>
              WriteAll(cached, known, down, calls)[e] == MergeAll(cached[e], RequestsFor(calls, e))
              == Merge(cached[e], LastWriters(RequestsFor(calls, e)))
    ensures e in cached && (e !in known || e in down) ==> WriteAll(cached, known, down, calls)[e] == cached[e]
  {
    if e in cached {
      WritesFoldToLastWriters(cached[e], RequestsFor(calls, e));
    }
    if calls != [] {
      WritesFoldPerEntity(cached, known, down, calls[..|calls| - 1], e);
      var front := RequestsFor(calls[..|calls| - 1], e);
      var last := calls[|calls| - 1].1;
      assert (front + [last])[..|front|] == front;
    }
  }

  lemma WriteOneMore(cached: map<string, EntityState>, inner: map<string, EntityState>, down: set<string>,
                     apply: (EntityState, Desired) -> EntityState, calls: seq<(string, Desired)>, e: string, d: Desired)
    ensures var before := WriteAll(cached, inner.Keys, down, calls);
            WriteAll(cached, inner.Keys, down, calls + [(e, d)]) ==
            if e in inner && e !in down then AfterMerge(before, e, d) else before
    ensures var before := ApplyAll(inner, down, apply, calls);
            ApplyAll(inner, down, apply, calls + [(e, d)]) ==
            if e in inner && e !in down then before[e := apply(before[e], d)] else before
  {
    assert (calls + [(e, d)])[..|calls|] == calls;
  }

  function PutAll(cached: map<string, EntityState>, events: seq<EntityState>): map<string, EntityState> {
    if events == [] then cached
    else
      var last := events[|events| - 1];
      PutAll(cached, events[..|events| - 1])[last.entityId := last]
  }

  /** fake.go's SetState sets each supplied field and leaves the other colour mode alone. */
  function FakeApply(s: EntityState, d: Desired): EntityState {
    EntityState(s.entityId, if d.on.Some? then d.on.value else s.on, Or(d.brightness, s.brightness),
                Or(d.xy, s.xy), Or(d.ct, s.ct), s.reachable)
  }

  /** So the two agree exactly as long as no request leaves a colour of the other mode behind. */
  lemma FakeAppliesWhatIsMergedIffOneColourMode(s: EntityState, d: Desired)
    ensures FakeApply(s, d) == Merge(s, d) <==>
            && (d.ct.Some? ==> d.xy.None? && s.xy.None?)
            && (d.xy.Some? && d.ct.None? ==> s.ct.None?)
    ensures FakeApply(s, NOTHING) == s
  {
  }

  // ----- Resubscription backoff, in seconds. -----

  /** One turn of Run's loop: Subscribe fails, or delivers events until its channel closes. */
  datatype Subscription = Refused | Opened(events: seq<EntityState>)

  const MAX_RETRY_DELAY := 30

  function Pow2(n: nat): nat {
    if n == 0 then 1 else 2 * Pow2(n - 1)
  }

  function EventsOf(script: seq<Subscription>): seq<EntityState> {
    if script == [] then []
    else
      var last := script[|script| - 1];
      EventsOf(script[..|script| - 1]) + if last.Opened? then last.events else []
  }

  /** How many turns in a row, up to and including turn i, did not reset the delay. */
  function SinceOpened(script: seq<Subscription>, i: nat): nat
    requires i < |script|
  {
    if script[i].Opened? || i == 0 then 0 else SinceOpened(script, i - 1) + 1
  }

  function Backoff(script: seq<Subscription>, i: nat): nat
    requires i < |script|
  {
    Pow2(if SinceOpened(script, i) < 5 then SinceOpened(script, i) else 5)
  }

  /** The delay doubles past its nominal cap: it settles at 32 s, and exceeds 30 s exactly from
      the sixth wait on since it was last reset, by the start or by an opened subscription. */
  lemma BackoffSettlesAt32(script: seq<Subscription>, i: nat)
    requires i < |script|
    ensures 1 <= Backoff(script, i) <= 32
    ensures SinceOpened(script, i) >= 5 <==> Backoff(script, i) > 30
    ensures SinceOpened(script, i) >= 5 <==> Backoff(script, i) >= MAX_RETRY_DELAY
    ensures Backoff(script, i) == if SinceOpened(script, i) < 5 then [1, 2, 4, 8, 16][SinceOpened(script, i)] else 32
  {
    assert Pow2(0) == 1 && Pow2(1) == 2 && Pow2(2) == 4;
    assert Pow2(3) == 8 && Pow2(4) == 16 && Pow2(5) == 32;
  }

  /** The delay was last reset that many turns ago: by an opened subscription, or the start. */
  lemma {:induction false} SinceOpenedCounts(script: seq<Subscription>, i: nat)
    requires i < |script|
    ensures var last := i - SinceOpened(script, i);
            && 0 <= last && (last == 0 || script[last].Opened?)
            && forall j | last < j <= i :: script[j].Refused?
  {
    if script[i].Refused? && i > 0 {
      SinceOpenedCounts(script, i - 1);
    }
  }

  /** The delay held when turn i starts. */
  ghost function Entering(script: seq<Subscription>, i: nat): nat
    requires i < |script|
  {
    if i == 0 then 1
    else if Backoff(script, i - 1) < MAX_RETRY_DELAY then Backoff(script, i - 1) * 2
    else Backoff(script, i - 1)
  }

  lemma BackoffStep(script: seq<Subscription>, i: nat)
    requires i < |script|
    ensures Backoff(script, i) == if script[i].Opened? then 1 else Entering(script, i)
  {
    if i > 0 {
      BackoffSettlesAt32(script, i - 1);
      var k := SinceOpened(script, i - 1);
      assert k < 5 ==> Pow2(k + 1) == 2 * Pow2(k);
    }
  }

  lemma EventsUpTo(script: seq<Subscription>, i: nat)
    requires i < |script|
    ensures EventsOf(script[..i + 1]) ==
            if script[i].Opened? then EventsOf(script[..i]) + script[i].events else EventsOf(script[..i])
  {
    assert script[..i + 1][..i] == script[..i];
  }

  lemma OneSubscription(events: seq<EntityState>)
    ensures EventsOf([Opened(events)]) == events && EventsOf([Refused]) == []
  {
    assert [Opened(events)][..0] == [] && [Refused][..0] == [];
  }

  /** All turns count, in order. */
  lemma {:induction false} EventsOfTurns(a: seq<Subscription>, b: seq<Subscription>)
    ensures EventsOf(a + b) == EventsOf(a) + EventsOf(b)
  {
    if b == [] {
      assert a + b == a;
    } else {
      assert (a + b)[..|a + b| - 1] == a + b[..|b| - 1];
      EventsOfTurns(a, b[..|b| - 1]);
    }
  }

  /** The snapshot keeps of each entity the latest event, and without one what it had. */
  lemma {:induction false} PutAllKeepsTheLatest(cached: map<string, EntityState>, events: seq<EntityState>, e: string, i: nat)
    requires i <= |events| && forall j | i <= j < |events| :: events[j].entityId != e
    ensures var after := PutAll(cached, events);
            if i == 0 then (e in after <==> e in cached) && (e in cached ==> after[e] == cached[e])
            else events[i - 1].entityId == e ==> e in after && after[e] == events[i - 1]
  {
    if i < |events| {
      PutAllKeepsTheLatest(cached, events[..|events| - 1], e, i);
    }
  }

  lemma {:induction false} PutAllConcat(cached: map<string, EntityState>, a: seq<EntityState>, b: seq<EntityState>)
    ensures PutAll(cached, a + b) == PutAll(PutAll(cached, a), b)
  {
    if b == [] {
      assert a + b == a;
    } else {
      assert (a + b)[..|a + b| - 1] == a + b[..|b| - 1];
      PutAllConcat(cached, a, b[..|b| - 1]);
    }
  }

  /** Whatever the two maps held, they agree on every entity of which there was an event. */
  lemma {:induction false} PutAllCatchesUp(a: map<string, EntityState>, b: map<string, EntityState>, events: seq<EntityState>, s: EntityState)
    requires s in events
    ensures var e := s.entityId;
            e in PutAll(a, events) && e in PutAll(b, events) && PutAll(a, events)[e] == PutAll(b, events)[e]
  {
    var front := events[..|events| - 1];
    if events[|events| - 1].entityId != s.entityId {
      assert s in front;
      PutAllCatchesUp(a, b, front, s);
    }
  }

  lemma {:induction false} PutAllWellKeyed(a: map<string, EntityState>, events: seq<EntityState>)
    requires WellKeyed(a)
    ensures WellKeyed(PutAll(a, events))
  {
    if events != [] {
      PutAllWellKeyed(a, events[..|events| - 1]);
    }
  }

  lemma FeedStep(before: map<string, EntityState>, script: seq<Subscription>, i: nat)
    requires i < |script|
    ensures var soFar := PutAll(before, EventsOf(script[..i]));
            PutAll(before, EventsOf(script[..i + 1])) ==
            if script[i].Opened? then PutAll(soFar, script[i].events) else soFar
  {
    EventsUpTo(script, i);
    if script[i].Opened? {
      PutAllConcat(before, EventsOf(script[..i]), script[i].events);
    }
  }

  // ----- The objects. -----

  /** The wrapped backend. `apply` is what an accepted write does to an entity; entities in
      `down` are those its calls currently fail for. */
  class Inner {
    const apply: (EntityState, Desired) -> EntityState
    var states: map<string, EntityState>
    var down: set<string>
    var subs: seq<seq<EntityState>>

    ghost predicate Valid()
      reads this
    {
      && WellKeyed(states)
      && forall s, d :: apply(s, d).entityId == s.entityId
    }

    constructor (apply: (EntityState, Desired) -> EntityState)
      requires forall s, d :: apply(s, d).entityId == s.entityId
      ensures Valid() && this.apply == apply && states == map[] && down == {} && subs == []
    {
      this.apply := apply;
      states := map[];
      down := {};
      subs := [];
    }

    /** An outside change: recorded, then queued for every subscriber. */
    method Push(s: EntityState)
      requires Valid()
      modifies this
      ensures Valid() && down == old(down)
      ensures states == old(states)[s.entityId := s]
      ensures |subs| == |old(subs)|
      ensures forall i | 0 <= i < |subs| :: subs[i] == old(subs)[i] + [s]
    {
      states := states[s.entityId := s];
      var i := 0;
      while i < |subs|
        invariant 0 <= i <= |subs| == |old(subs)|
        invariant states == old(states)[s.entityId := s] && down == old(down)
        invariant forall j | 0 <= j < i :: subs[j] == old(subs)[j] + [s]
        invariant forall j | i <= j < |subs| :: subs[j] == old(subs)[j]
      {
        subs := subs[i := subs[i] + [s]];
        i := i + 1;
      }
    }

    method PushAll(changes: seq<EntityState>)
      requires Valid()
      modifies this
      ensures Valid() && down == old(down)
      ensures states == PutAll(old(states), changes)
      ensures |subs| == |old(subs)| && forall i | 0 <= i < |subs| :: subs[i] == old(subs)[i] + changes
    {
      var k := 0;
      while k < |changes|
        invariant 0 <= k <= |changes|
        invariant Valid() && down == old(down)
        invariant states == PutAll(old(states), changes[..k])
        invariant |subs| == |old(subs)| && forall i | 0 <= i < |subs| :: subs[i] == old(subs)[i] + changes[..k]
      {
        assert changes[..k + 1][..k] == changes[..k] && changes[..k + 1] == changes[..k] + [changes[k]];
        Push(changes[k]);
        k := k + 1;
      }
      assert changes[..|changes|] == changes;
    }

    method Subscribe() returns (index: nat)
      modifies this
      ensures states == old(states) && down == old(down)
      ensures index == |old(subs)| && subs == old(subs) + [[]]
    {
      index := |subs|;
      subs := subs + [[]];
    }

    method GetState(e: string) returns (r: Option<EntityState>)
      ensures r == if e in states && e !in down then Some(states[e]) else None
    {
      if e !in states || e in down {
        return None;
      }
      r := Some(states[e]);
    }

    method SetState(e: string, d: Desired) returns (ok: bool)
      requires Valid()
      modifies this`states
      ensures Valid()
      ensures ok <==> e in old(states) && e !in down
      ensures states == if ok then old(states)[e := apply(old(states)[e], d)] else old(states)
    {
      ok := e in states && e !in down;
      if ok {
        states := states[e := apply(states[e], d)];
      }
    }
  }

  class Cache {
    const inner: Inner
    var states: map<string, EntityState>
    ghost var sent: seq<(string, Desired)>    // every SetState asked of this backend, in order

    ghost predicate Valid()
      reads this, inner
    {
      inner.Valid() && WellKeyed(states)
    }

    ghost function Reads(e: string): Option<EntityState>
      reads this, inner
    {
      Readable(states, inner.states, inner.down, e)
    }

    constructor (inner: Inner)
      requires inner.Valid()
      ensures Valid() && this.inner == inner && states == map[] && sent == []
    {
      this.inner := inner;
      states := map[];
      sent := [];
    }

    method Put(s: EntityState)
      modifies this`states
      ensures states == old(states)[s.entityId := s]
    {
      states := states[s.entityId := s];
    }

    method Lookup(e: string) returns (r: Option<EntityState>)
      ensures r == if e in states then Some(states[e]) else None
    {
      r := if e in states then Some(states[e]) else None;
    }

    /** A known entity is served without asking the backend, reachable or not; an unknown one
        is fetched once and kept; an error leaves the snapshot alone. */
    method GetState(e: string) returns (r: Option<EntityState>)
      requires Valid()
      modifies this`states
      ensures Valid()
      ensures e in old(states) ==> r == Some(old(states)[e]) && states == old(states)
      ensures e !in old(states) ==>
                && (r.Some? <==> e in inner.states && e !in inner.down)
                && (r.Some? ==> r.value == inner.states[e] && states == old(states)[e := r.value])
                && (r.None? ==> states == old(states))
      ensures r == old(Reads(e))
      ensures states == AfterGet(old(states), inner.states, inner.down, e)
      ensures forall f :: Reads(f) == old(Reads(f))
    {
      r := Lookup(e);
      if r.Some? {
        assert states[e := r.value] == states;
        return;
      }
      r := inner.GetState(e);
      if r.None? {
        return;
      }
      Put(r.value);
    }

    /** Write-through: nothing changes unless the backend accepts, and then a cached entity
        gets exactly Merge while an unknown one stays unknown. */
    method SetState(e: string, d: Desired) returns (ok: bool)
      requires Valid()
      modifies this, inner`states
      ensures Valid()
      ensures ok <==> e in old(inner.states) && e !in inner.down
      ensures inner.states == if ok then old(inner.states)[e := inner.apply(old(inner.states)[e], d)] else old(inner.states)
      ensures states == if ok then AfterMerge(old(states), e, d) else old(states)
      ensures states == if ok && e in old(states) then old(states)[e := Merge(old(states)[e], d)] else old(states)
      ensures sent == old(sent) + [(e, d)]
    {
      sent := sent + [(e, d)];
      ok := inner.SetState(e, d);
      if !ok {
        return;
      }
      if e !in states {
        return;
      }
      var s := states[e];
      if d.on.Some? {
        s := s.(on := d.on.value);
      }
      if d.brightness.Some? {
        s := s.(brightness := d.brightness);
      }
      if d.xy.Some? {
        s := s.(xy := d.xy, ct := None);
      }
      if d.ct.Some? {
        s := s.(ct := d.ct, xy := None);
      }
      states := states[e := s];
    }

    /** The body of the feed while one subscription's channel is open. */
    method Drain(events: seq<EntityState>)
      modifies this`states
      ensures states == PutAll(old(states), events)
    {
      var k := 0;
      while k < |events|
        invariant 0 <= k <= |events|
        invariant states == PutAll(old(states), events[..k])
      {
        Put(events[k]);
        assert events[..k + 1][..k] == events[..k];
        k := k + 1;
      }
      assert events[..|events|] == events;
    }

    /** The feed: script lists the turns of the loop until cancellation, which ends the last
        turn; waits are the delays slept between turns. */
    method Run(script: seq<Subscription>) returns (waits: seq<nat>)
      modifies this`states
      ensures states == PutAll(old(states), EventsOf(script))
      ensures |waits| == if script == [] then 0 else |script| - 1
      ensures forall i | 0 <= i < |waits| :: waits[i] == Backoff(script, i)
    {
      waits := [];
      var delay := 1;
      var turn := 0;
      while turn < |script|
        invariant 0 <= turn <= |script|
        invariant states == PutAll(old(states), EventsOf(script[..turn]))
        invariant |waits| == if turn == |script| > 0 then turn - 1 else turn
        invariant forall i | 0 <= i < |waits| :: waits[i] == Backoff(script, i)
        invariant turn < |script| ==> delay == Entering(script, turn)
      {
        FeedStep(old(states), script, turn);
        BackoffStep(script, turn);
        if script[turn].Opened? {
          delay := 1;
          Drain(script[turn].events);
        }
        turn := turn + 1;
        if turn == |script| {
          break;
        }
        waits := waits + [delay];
        if delay < MAX_RETRY_DELAY {
          delay := delay * 2;
        }
      }
      assert script[..|script|] == script;
    }

    /** From the subscription to the snapshot: what the backend pushes after Subscribe is queued
        for this subscriber whole and in order, and Run over it brings the snapshot level with
        the backend on every entity that changed. */
    method FollowChanges(changes: seq<EntityState>)
      requires Valid()
      modifies this`states, inner
      ensures Valid()
      ensures inner.states == PutAll(old(inner.states), changes)
      ensures states == PutAll(old(states), changes)
      ensures forall s | s in changes :: s.entityId in states && s.entityId in inner.states
                                         && states[s.entityId] == inner.states[s.entityId]
    {
      var index := inner.Subscribe();
      inner.PushAll(changes);
      assert inner.subs[index] == [] + changes == changes;
      OneSubscription(changes);
      var _ := Run([Opened(inner.subs[index])]);
      PutAllWellKeyed(old(states), changes);
      forall s | s in changes
        ensures s.entityId in states && s.entityId in inner.states && states[s.entityId] == inner.states[s.entityId]
      {
        PutAllCatchesUp(old(states), old(inner.states), changes, s);
      }
    }
  }
}
