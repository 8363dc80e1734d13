/** The schedule store and the ticker of internal/hue/schedules.go. A store operation is a
    function on the store's state; the classes run them and are proved to do just that. */
module Schedules {
  import opened Options
  import opened Decimal
  import opened Clock
  import opened LocalTime
  import opened LightState
  import opened Json
  import opened LightCommands
  import opened CacheBackend

  /** `stamp` is lastFiredDay: kept in memory, never written to the file. */
  datatype Schedule = Schedule(
    id: string,
    name: string,
    address: string,
    verb: string,
    body: Option<Object>,
    localTime: string,
    status: string,
    stamp: string)

  datatype State = State(nextId: int, schedules: map<string, Schedule>)

  const EMPTY := State(1, map[])

  // ----- Loading. -----

  /** Numeric ids below n; a key Atoi rejects has no number. */
  predicate Below(id: string, n: int) {
    Atoi(id).Some? ==> Atoi(id).value < n
  }

  /** The largest number among the keys, at least 0. */
  ghost function MaxId(keys: set<string>): (max: nat)
    ensures forall k | k in keys :: Below(k, max + 1)
    ensures max == 0 || exists k :: k in keys && Atoi(k) == Some(max)
  {
    if keys == {} then 0
    else
      var k :| k in keys;
      var rest := MaxId(keys - {k});
      assert forall j :: j in keys <==> j == k || j in keys - {k};
      if Atoi(k).Some? && Atoi(k).value > rest then Atoi(k).value else rest
  }

  /** NewScheduleStore's self-heal of NextID. */
  ghost function Heal(loaded: State): State {
    var max := MaxId(loaded.schedules.Keys);
    var next := if loaded.nextId <= max then max + 1 else loaded.nextId;
    State(if next == 0 then 1 else next, loaded.schedules)
  }

  /** Healing moves the counter no further than it must: to the least number that is not below the
      loaded one, is at least 1 and is above every numeric key. */
  lemma HealIsLeast(loaded: State, n: int)
    requires n >= 1 && n >= loaded.nextId && forall k | k in loaded.schedules :: Below(k, n)
    ensures loaded.nextId <= Heal(loaded).nextId <= n && Heal(loaded).schedules == loaded.schedules
  {
  }

  /** A healed counter is positive and free: no key is its decimal text, nor any later one. */
  lemma HealedCounterIsFree(loaded: State, n: int)
    requires n >= Heal(loaded).nextId
    ensures Heal(loaded).nextId >= 1
    ensures Itoa(n) !in loaded.schedules
  {
    AtoiItoa(n);
    assert !Below(Itoa(n), MaxId(loaded.schedules.Keys) + 1);
  }

  /** What the file keeps of the state. */
  function Persisted(s: State): State {
    State(s.nextId, map k | k in s.schedules :: s.schedules[k].(stamp := ""))
  }

  /** That is every record but for its stamp, under its key, and the counter. */
  lemma FileKeepsAllButStamps(s: State)
    ensures Persisted(s).nextId == s.nextId && Persisted(s).schedules.Keys == s.schedules.Keys
    ensures forall k | k in s.schedules :: OnlyStamped(s.schedules[k], Persisted(s).schedules[k])
  {
  }

  /** What a readable load yields. */
  function Loaded(file: Option<State>): State {
    match file
    case None => EMPTY
    case Some(s) => s
  }

  // ----- What the operations do to the state. -----

  function NewSchedule(id: string, name: string, address: string, verb: string, body: Option<Object>, localTime: string): Schedule {
    Schedule(id, name, address, verb, body, localTime, "enabled", "")
  }

  /** An accepted create takes the counter's id, whether or not it can be saved. */
  function AfterCreate(s: State, made: Schedule): State {
    State(s.nextId + 1, s.schedules[made.id := made])
  }

  function AfterDelete(s: State, id: string): State {
    State(s.nextId, s.schedules - {id})
  }

  // ----- One schedule at one moment. -----

  predicate Due(s: Schedule, now: Instant) {
    s.status == "enabled" && s.stamp != Stamp(now) && Matches(s.localTime, now)
  }

  /** The same record but for the stamp. */
  predicate OnlyStamped(before: Schedule, after: Schedule) {
    && after.id == before.id && after.name == before.name && after.address == before.address && after.verb == before.verb
    && after.body == before.body && after.localTime == before.localTime && after.status == before.status
  }

  function Fired(s: Schedule, now: Instant): Schedule {
    s.(stamp := Stamp(now))
  }

  /** The write-back of one snapshot record, as Tick does it: under the record's own id. */
  function WriteBack(schedules: map<string, Schedule>, s: Schedule, now: Instant): map<string, Schedule> {
    if Due(s, now) then schedules[s.id := Fired(s, now)] else schedules
  }

  /** A whole tick over the snapshot taken in this order. */
  function FireAll(schedules: map<string, Schedule>, snapshot: seq<Schedule>, now: Instant): map<string, Schedule> {
    if snapshot == [] then schedules
    else WriteBack(FireAll(schedules, snapshot[..|snapshot| - 1], now), snapshot[|snapshot| - 1], now)
  }

  /** The writes a tick sends: one for each due record whose address names a known light. */
  function CallsOf(snapshot: seq<Schedule>, now: Instant, resolve: int -> Option<string>): seq<(string, Desired)> {
    if snapshot == [] then []
    else
      CallsOf(snapshot[..|snapshot| - 1], now, resolve) + CallOf(snapshot[|snapshot| - 1], now, resolve)
  }

  function CallOf(s: Schedule, now: Instant, resolve: int -> Option<string>): seq<(string, Desired)> {
    var target := ResolveTarget(s.address, resolve);
    if Due(s, now) && target.Some? then [(target.value, TickDesired(s.body))] else []
  }

  lemma OneMoreRecord(schedules: map<string, Schedule>, snapshot: seq<Schedule>, i: nat, now: Instant, resolve: int -> Option<string>)
    requires i < |snapshot|
    ensures CallsOf(snapshot[..i + 1], now, resolve) == CallsOf(snapshot[..i], now, resolve) + CallOf(snapshot[i], now, resolve)
    ensures FireAll(schedules, snapshot[..i + 1], now) == WriteBack(FireAll(schedules, snapshot[..i], now), snapshot[i], now)
  {
    assert snapshot[..i + 1][..i] == snapshot[..i];
  }

  /** Go ranges over a map in any order. */
  ghost predicate Enumerates(order: seq<string>, schedules: map<string, Schedule>) {
    && (forall i, j | 0 <= i < j < |order| :: order[i] != order[j])
    && (forall k :: k in order <==> k in schedules)
  }

  function Snapshot(order: seq<string>, schedules: map<string, Schedule>): seq<Schedule>
    requires forall k | k in order :: k in schedules
  {
    seq(|order|, i requires 0 <= i < |order| => schedules[order[i]])
  }

  /** Every record is filed under its own id. */
  predicate FiledUnderOwnId(schedules: map<string, Schedule>) {
    forall k | k in schedules :: schedules[k].id == k
  }

  /** The records of the snapshot that are due and of that id, in their places. */
  function DueOf(snapshot: seq<Schedule>, now: Instant, id: string): seq<Option<Schedule>> {
    seq(|snapshot|, i requires 0 <= i < |snapshot| =>
      if Due(snapshot[i], now) && snapshot[i].id == id then Some(snapshot[i]) else None)
  }

  /** A tick leaves under every id the stamped copy of the last due record of that id, whatever
      key that was filed under, and without one what was there before. */
  lemma {:induction false} FireAllMeans(schedules: map<string, Schedule>, snapshot: seq<Schedule>, now: Instant, id: string)
    ensures var after := FireAll(schedules, snapshot, now);
            match LastSome(DueOf(snapshot, now, id))
            case Some(s) => id in after && OnlyStamped(s, after[id]) && after[id].stamp == Stamp(now)
            case None => (id in after <==> id in schedules) && (id in after ==> after[id] == schedules[id])
  {
    if snapshot != [] {
      var front := snapshot[..|snapshot| - 1];
      FireAllMeans(schedules, front, now, id);
      assert DueOf(snapshot, now, id)[..|front|] == DueOf(front, now, id);
    }
  }

  /** So on a store filed under its own ids the order of the walk does not matter: a tick
      stamps exactly the due schedules, and adds or drops none. */
  lemma FireAllStampsTheDue(schedules: map<string, Schedule>, order: seq<string>, now: Instant, id: string)
    requires FiledUnderOwnId(schedules) && Enumerates(order, schedules)
    ensures var after := FireAll(schedules, Snapshot(order, schedules), now);
            && (id in after <==> id in schedules)
            && (id in schedules ==> OnlyStamped(schedules[id], after[id]))
            && (id in schedules ==> after[id].stamp == if Due(schedules[id], now) then Stamp(now) else schedules[id].stamp)
  {
    var snapshot := Snapshot(order, schedules);
    FireAllMeans(schedules, snapshot, now, id);
    LastSomeIsLast(DueOf(snapshot, now, id));
    assert forall i | 0 <= i < |snapshot| :: snapshot[i].id == order[i];
    if id in schedules && Due(schedules[id], now) {
      var i :| 0 <= i < |order| && order[i] == id;
      assert DueOf(snapshot, now, id)[i] == Some(schedules[id]);
    }
  }

  // ----- The objects. -----

  const MAX_COMMAND_BODY_BYTES := 90

  datatype Refusal = EncodeFailed | BodyTooLong | BadLocalTime(why: Rejection) | SaveFailed

  class ScheduleStore {
    var nextId: int
    var schedules: map<string, Schedule>
    var file: Option<State>         // what schedules.json holds

    function Mem(): State
      reads this
    {
      State(nextId, schedules)
    }

    /** `readable` is false when Load reports an error, which the constructor ignores. */
    constructor (file: Option<State>, readable: bool)
      ensures Mem() == Heal(if readable then Loaded(file) else State(0, map[]))
      ensures this.file == file
    {
      var loaded := if readable then Loaded(file) else State(0, map[]);
      var maxId := 0;
      ghost var seen := {};
      var left := loaded.schedules.Keys;
      while left != {}
        invariant seen + left == loaded.schedules.Keys
        invariant maxId >= 0 && forall k | k in seen :: Below(k, maxId + 1)
        invariant maxId == 0 || exists k :: k in seen && Atoi(k) == Some(maxId)
        decreases left
      {
        var id :| id in left;
        left := left - {id};
        seen := seen + {id};
        var n := Atoi(id);
        if n.Some? && n.value > maxId {
          maxId := n.value;
        }
      }
      assert maxId == MaxId(loaded.schedules.Keys);
      var next := loaded.nextId;
      if next <= maxId {
        next := maxId + 1;
      }
      if next == 0 {
        next := 1;
      }
      nextId := next;
      schedules := loaded.schedules;
      this.file := file;
    }

    method Save(saveOk: bool) returns (ok: bool)
      modifies this`file
      ensures ok == saveOk
      ensures file == if ok then Some(Persisted(Mem())) else old(file)
    {
      if saveOk {
        file := Some(Persisted(Mem()));
      }
      ok := saveOk;
    }

    /** A refused request changes nothing; an accepted one takes the counter's id whether or
        not the save succeeds. encodedSize is the length of the marshalled body, if it marshals. */
    method Create(name: string, address: string, verb: string, body: Option<Object>, encodedSize: Option<nat>,
                  localTime: string, saveOk: bool) returns (r: Result<Schedule, Refusal>)
      modifies this
      ensures r.Err? && !r.error.SaveFailed? ==> Mem() == old(Mem()) && file == old(file)
      ensures r.Err? && !r.error.SaveFailed? <==>
                encodedSize.None? || encodedSize.value > 90 || Validate(localTime).Err?
      ensures r.Ok? || r.error.SaveFailed? ==>
                var s := NewSchedule(Itoa(old(nextId)), name, address, verb, body, localTime);
                && Mem() == AfterCreate(old(Mem()), s)
                && file == (if saveOk then Some(Persisted(Mem())) else old(file))
                && r == if saveOk then Ok(s) else Err(SaveFailed)
    {
      if encodedSize.None? {
        return Err(EncodeFailed);
      }
      if encodedSize.value > MAX_COMMAND_BODY_BYTES {
        return Err(BodyTooLong);
      }
      var valid := Validate(localTime);
      if valid.Err? {
        return Err(BadLocalTime(valid.error));
      }
      var id := Itoa(nextId);
      nextId := nextId + 1;
      var s := Schedule(id, name, address, verb, body, localTime, "enabled", "");
      schedules := schedules[id := s];
      var ok := Save(saveOk);
      r := if ok then Ok(s) else Err(SaveFailed);
    }

    method Get(id: string) returns (r: Option<Schedule>)
      ensures r == if id in schedules then Some(schedules[id]) else None
    {
      r := if id in schedules then Some(schedules[id]) else None;
    }

    method Delete(id: string, saveOk: bool) returns (ok: bool)
      modifies this
      ensures ok == saveOk
      ensures Mem() == AfterDelete(old(Mem()), id)
      ensures nextId == old(nextId) && schedules == old(schedules) - {id}
      ensures file == if ok then Some(Persisted(Mem())) else old(file)
    {
      schedules := schedules - {id};
      ok := Save(saveOk);
    }

    /** The snapshot: every record once, in the order the map yields its keys. */
    method All() returns (records: seq<Schedule>, ghost order: seq<string>)
      ensures Enumerates(order, schedules) && records == Snapshot(order, schedules)
    {
      records, order := [], [];
      var left := schedules.Keys;
      while left != {}
        invariant left <= schedules.Keys
        invariant forall i, j | 0 <= i < j < |order| :: order[i] != order[j]
        invariant forall k :: k in order <==> k in schedules && k !in left
        invariant records == Snapshot(order, schedules)
        decreases left
      {
        var k :| k in left;
        left := left - {k};
        records := records + [schedules[k]];
        order := order + [k];
      }
    }

    /** DELETE answers success for a known id even when the save failed. */
    method HandleDelete(id: string, saveOk: bool) returns (found: bool)
      modifies this
      ensures found <==> id in old(schedules)
      ensures id !in schedules && Mem() == AfterDelete(old(Mem()), id)
      ensures file == if found && saveOk then Some(Persisted(Mem())) else old(file)
    {
      var s := Get(id);
      if s.None? {
        assert schedules - {id} == schedules;
        return false;
      }
      var _ := Delete(id, saveOk);
      found := true;
    }
  }

  class Ticker {
    const store: ScheduleStore
    const be: Cache
    const resolve: int -> Option<string>

    constructor (store: ScheduleStore, be: Cache, resolve: int -> Option<string>)
      ensures this.store == store && this.be == be && this.resolve == resolve
    {
      this.store := store;
      this.be := be;
      this.resolve := resolve;
    }

    /** One undisturbed tick: the store ends as FireAll says over its own snapshot and the
        backend was asked for exactly the calls of the due schedules, in that order; a failed
        call stops nothing. The file is not written. */
    method Tick(now: Instant) returns (ghost order: seq<string>)
      requires be.Valid()
      modifies store`schedules, be, be.inner`states
      ensures be.Valid()
      ensures Enumerates(order, old(store.schedules))
      ensures store.schedules == FireAll(old(store.schedules), Snapshot(order, old(store.schedules)), now)
      ensures var calls := CallsOf(Snapshot(order, old(store.schedules)), now, resolve);
              && be.sent == old(be.sent) + calls
              && be.states == WriteAll(old(be.states), old(be.inner.states).Keys, be.inner.down, calls)
              && be.inner.states == ApplyAll(old(be.inner.states), be.inner.down, be.inner.apply, calls)
    {
      var records;
      records, order := store.All();
      ghost var cached, inner := be.states, be.inner.states;
      ghost var calls := [];
      var i := 0;
      while i < |records|
        invariant 0 <= i <= |records|
        invariant be.Valid()
        invariant calls == CallsOf(records[..i], now, resolve)
        invariant store.schedules == FireAll(old(store.schedules), records[..i], now)
        invariant be.sent == old(be.sent) + calls
        invariant be.states == WriteAll(cached, inner.Keys, be.inner.down, calls)
        invariant be.inner.states == ApplyAll(inner, be.inner.down, be.inner.apply, calls)
      {
        OneMoreRecord(old(store.schedules), records, i, now, resolve);
        TickOne(records[i], now, cached, inner, calls);
        calls := calls + CallOf(records[i], now, resolve);
        i := i + 1;
      }
      assert records[..|records|] == records;
    }

    /** The body of the loop; `calls` are the writes sent before it in this tick. */
    method TickOne(sched: Schedule, now: Instant, ghost cached: map<string, EntityState>,
                   ghost inner: map<string, EntityState>, ghost calls: seq<(string, Desired)>)
      requires be.Valid()
      requires be.states == WriteAll(cached, inner.Keys, be.inner.down, calls)
      requires be.inner.states == ApplyAll(inner, be.inner.down, be.inner.apply, calls)
      modifies store`schedules, be, be.inner`states
      ensures be.Valid()
      ensures store.schedules == WriteBack(old(store.schedules), sched, now)
      ensures be.sent == old(be.sent) + CallOf(sched, now, resolve)
      ensures be.states == WriteAll(cached, inner.Keys, be.inner.down, calls + CallOf(sched, now, resolve))
      ensures be.inner.states == ApplyAll(inner, be.inner.down, be.inner.apply, calls + CallOf(sched, now, resolve))
    {
      assert calls + [] == calls;
      if sched.status != "enabled" {
        return;
      }
      if sched.stamp == Stamp(now) {
        return;
      }
      if !Matches(sched.localTime, now) {
        return;
      }
      var target := ResolveTarget(sched.address, resolve);
      if target.Some? {
        WriteOneMore(cached, inner, be.inner.down, be.inner.apply, calls, target.value, TickDesired(sched.body));
        var _ := be.SetState(target.value, TickDesired(sched.body));
      }
      store.schedules := store.schedules[sched.id := Fired(sched, now)];
    }
  }
}
