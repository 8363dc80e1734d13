/** The schedule store over whole runs: requests, failed saves, restarts, and a ticker whose
    snapshot and write-backs other requests can come between. */
module ScheduleRuns {
  import opened Options
  import opened Decimal
  import opened Clock
  import opened LocalTime
  import opened Json
  import opened Schedules

  /** What a POST asks for. */
  datatype Request = Request(name: string, address: string, verb: string, body: Option<Object>, encodedSize: nat, localTime: string)

  predicate Acceptable(r: Request) {
    r.encodedSize <= MAX_COMMAND_BODY_BYTES && Validate(r.localTime).Ok?
  }

  /** One firing, in the order they happened. */
  datatype Firing = Firing(id: string, localTime: string, at: Instant)

  /** `pending` is the rest of the ticker's snapshot and `clock` the time its latest tick was
      given. `created` and `fired` are history: ids answered by successful creates, firings. */
  datatype World = World(
    mem: State,
    file: Option<State>,
    pending: seq<Schedule>,
    clock: Option<Instant>,
    created: seq<string>,
    fired: seq<Firing>)

  datatype Step =
    | Create(request: Request, saveOk: bool)
    | Delete(id: string, saveOk: bool)
    | Restart                                     // the file loads without error
    | TickStart(now: Instant, order: seq<string>) // the ticker takes its snapshot
    | TickNext                                    // it handles the next record of it

  ghost function Boot(file: Option<State>): World {
    World(Heal(Loaded(file)), file, [], None, [], [])
  }

  function Made(id: string, r: Request): Schedule {
    NewSchedule(id, r.name, r.address, r.verb, r.body, r.localTime)
  }

  /** The step functions are the contracts of ScheduleStore and of Tick's loop body; a step
      that is not enabled changes nothing. */
  ghost function Next(w: World, step: Step): World {
    match step
    case Create(r, saveOk) =>
      if !Acceptable(r) then w
      else
        var id := Itoa(w.mem.nextId);
        var mem := AfterCreate(w.mem, Made(id, r));
        if saveOk then w.(mem := mem, file := Some(Persisted(mem)), created := w.created + [id])
        else w.(mem := mem)
    case Delete(id, saveOk) =>
      var mem := AfterDelete(w.mem, id);
      w.(mem := mem, file := if saveOk then Some(Persisted(mem)) else w.file)
    case Restart => w.(mem := Heal(Loaded(w.file)), pending := [], clock := None)
    case TickStart(now, order) =>
      if w.pending != [] || !Enumerates(order, w.mem.schedules) then w
      else w.(pending := Snapshot(order, w.mem.schedules), clock := Some(now))
    case TickNext =>
      if w.pending == [] || w.clock.None? then w
      else
        var s := w.pending[0];
        var now := w.clock.value;
        w.(mem := State(w.mem.nextId, WriteBack(w.mem.schedules, s, now)),
           pending := w.pending[1..],
           fired := if Due(s, now) then w.fired + [Firing(s.id, s.localTime, now)] else w.fired)
  }

  /** The steps that are not the ticker's are the store's: a call, or a new store over the file. */
  method Perform(store: ScheduleStore, step: Step) returns (after: ScheduleStore, created: Option<string>)
    requires step.Create? || step.Delete? || step.Restart?
    modifies store
    ensures var w := Next(World(old(store.Mem()), old(store.file), [], None, [], []), step);
            && after.Mem() == w.mem && after.file == w.file
            && w.created == if created.Some? then [created.value] else []
  {
    after, created := store, None;
    match step
    case Create(r, saveOk) =>
      var made := store.Create(r.name, r.address, r.verb, r.body, Some(r.encodedSize), r.localTime, saveOk);
      if made.Ok? {
        created := Some(made.value.id);
      }
    case Delete(id, saveOk) =>
      var _ := store.Delete(id, saveOk);
    case Restart =>
      after := new ScheduleStore(store.file, true);
  }

  ghost function Run(w: World, steps: seq<Step>): World
    decreases |steps|
  {
    if steps == [] then w else Run(Next(w, steps[0]), steps[1..])
  }

  lemma RunCons(w: World, step: Step, rest: seq<Step>)
    ensures Run(w, [step] + rest) == Run(Next(w, step), rest)
  {
    assert ([step] + rest)[1..] == rest;
  }

  lemma {:induction false} RunConcat(w: World, a: seq<Step>, b: seq<Step>)
    ensures Run(w, a + b) == Run(Run(w, a), b)
    decreases |a|
  {
    if a == [] {
      assert a + b == b;
    } else {
      assert (a + b)[1..] == a[1..] + b;
      RunConcat(Next(w, a[0]), a[1..], b);
    }
  }

  ghost function TickNexts(n: nat): seq<Step> {
    seq(n, _ => TickNext)
  }

  /** A stored file carries no stamps: lastFiredDay is not written. */
  ghost predicate Unstamped(file: Option<State>) {
    file.Some? ==> forall k | k in file.value.schedules :: file.value.schedules[k].stamp == ""
  }

  /** The ticker would fire it at some time, and then write it back under its own id. */
  ghost predicate Fireable(s: Schedule) {
    s.status == "enabled" && exists now :: Matches(s.localTime, now)
  }

  /** Records that can fire are filed under their own id, as the bridge files all of them. */
  ghost predicate OwnKeys(schedules: map<string, Schedule>) {
    forall k | k in schedules && Fireable(schedules[k]) :: schedules[k].id == k
  }

  ghost predicate Tidy(file: Option<State>) {
    OwnKeys(Loaded(file).schedules)
  }

  // ----- No id is answered twice. -----

  /** The text of a number from 1 on. */
  predicate IsCount(id: string) {
    Atoi(id).Some? && Atoi(id).value >= 1 && Itoa(Atoi(id).value) == id
  }

  /** The disk-versus-memory invariant: every id a create answered is below both counters. */
  ghost predicate AnsweredOnce(w: World) {
    && w.mem.nextId >= 1
    && (forall c | c in w.created :: IsCount(c) && Below(c, w.mem.nextId))
    && (forall c | c in w.created :: w.file.Some? && Below(c, w.file.value.nextId))
    && (forall i, j | 0 <= i < j < |w.created| :: w.created[i] != w.created[j])
  }

  lemma StepKeepsAnsweredOnce(w: World, step: Step)
    requires AnsweredOnce(w)
    ensures AnsweredOnce(Next(w, step))
  {
    AtoiItoa(w.mem.nextId);
    assert Itoa(w.mem.nextId) !in w.created;
    if step == Restart {
      HealedCounterIsFree(Loaded(w.file), Heal(Loaded(w.file)).nextId);
      assert Heal(Loaded(w.file)).nextId >= Loaded(w.file).nextId;
    }
  }

  lemma {:induction false} RunKeepsAnsweredOnce(w: World, steps: seq<Step>)
    requires AnsweredOnce(w)
    ensures AnsweredOnce(Run(w, steps))
    decreases |steps|
  {
    if steps != [] {
      StepKeepsAnsweredOnce(w, steps[0]);
      RunKeepsAnsweredOnce(Next(w, steps[0]), steps[1..]);
    }
  }

  /** Ids are never reissued: from any file whatever (stale or negative next_id, keys like
      "007", records under foreign keys), over any run of creates, deletes, failed saves,
      restarts and ticks interleaved at their locks. */
  lemma IdsAreNeverReissued(file: Option<State>, steps: seq<Step>)
    ensures var created := Run(Boot(file), steps).created;
            forall i, j | 0 <= i < j < |created| :: created[i] != created[j]
  {
    HealedCounterIsFree(Loaded(file), Heal(Loaded(file)).nextId);
    RunKeepsAnsweredOnce(Boot(file), steps);
  }

  /** A restart at which Load reports an error, which the constructor ignores. */
  ghost function UnreadableRestart(w: World): World {
    w.(mem := Heal(State(0, map[])), pending := [], clock := None)
  }

  /** That promise does not cover it: whatever was handed out before, the next create answers
      id 1 (again, if a create ever did), and its save replaces the file by that one record. */
  lemma UnreadableFileStartsOverFromOne(w: World, r: Request)
    requires Acceptable(r)
    ensures var end := Next(UnreadableRestart(w), Create(r, true));
            && end.created == w.created + ["1"]
            && end.file.Some? && end.file.value.schedules.Keys == {"1"}
  {
    assert Digits(1) == "1";
  }

  lemma AnyRequest() returns (r: Request)
    ensures Acceptable(r)
  {
    var t := Instant(0, 1, 1, 0, 0, 0);
    EveryMinuteIsSchedulable(t);
    r := Request("", "", "", None, 0, WEEKLY_TIME_PREFIX + ClockText(t));
  }

  lemma {:induction false} CreatesAdvance(w: World, r: Request, n: nat) returns (steps: seq<Step>)
    requires Acceptable(r)
    ensures var end := Run(w, steps);
            end.mem.nextId == w.mem.nextId + n && w.mem.schedules.Keys <= end.mem.schedules.Keys && end.created == w.created
    decreases n
  {
    if n == 0 {
      steps := [];
    } else {
      var rest := CreatesAdvance(Next(w, Create(r, false)), r, n - 1);
      RunCons(w, Create(r, false), rest);
      steps := [Create(r, false)] + rest;
    }
  }

  /** Nor only id 1: after such a restart every id ever answered can be answered again. */
  lemma UnreadableFileReissuesEveryId(file: Option<State>, steps: seq<Step>, c: string) returns (after: seq<Step>)
    requires c in Run(Boot(file), steps).created
    ensures var w := Run(Boot(file), steps);
            Run(UnreadableRestart(w), after).created == w.created + [c]
  {
    HealedCounterIsFree(Loaded(file), Heal(Loaded(file)).nextId);
    RunKeepsAnsweredOnce(Boot(file), steps);
    var blank := UnreadableRestart(Run(Boot(file), steps));
    assert blank.mem.nextId == 1;
    after := CreatesReach(blank, Atoi(c).value);
  }

  /** Creates whose saves fail count up to any number without answering; the next answers it. */
  lemma CreatesReach(w: World, n: int) returns (steps: seq<Step>)
    requires w.mem.nextId <= n
    ensures Run(w, steps).created == w.created + [Itoa(n)]
  {
    var r := AnyRequest();
    var counted := CreatesAdvance(w, r, n - w.mem.nextId);
    steps := counted + ([Create(r, true)] + []);
    RunConcat(w, counted, [Create(r, true)] + []);
    RunCons(Run(w, counted), Create(r, true), []);
  }

  // ----- The next id is no key. -----

  /** The id is a number the counter has still to reach; with `exact`, in the very text in
      which it would then be handed out. */
  ghost predicate Ahead(id: string, n: int, exact: bool) {
    !Below(id, n) && (exact ==> Itoa(Atoi(id).value) == id)
  }

  /** No record that could ever fire has an own id ahead of the healed counter. */
  ghost predicate Fitting(file: Option<State>, exact: bool) {
    RecordsFit(Heal(Loaded(file)), exact)
  }

  ghost predicate RecordsFit(mem: State, exact: bool) {
    forall k | k in mem.schedules && Fireable(mem.schedules[k]) :: !Ahead(mem.schedules[k].id, mem.nextId, exact)
  }

  ghost predicate CounterLeads(w: World, exact: bool) {
    && w.mem.nextId >= 1
    && (forall k | k in w.mem.schedules :: !Ahead(k, w.mem.nextId, exact))
    && RecordsFit(w.mem, exact)
    && (forall s | s in w.pending && Fireable(s) :: !Ahead(s.id, w.mem.nextId, exact))
    && Fitting(w.file, exact)
  }

  lemma BootLeads(file: Option<State>, exact: bool)
    requires Fitting(file, exact)
    ensures CounterLeads(Boot(file), exact)
  {
    var loaded := Loaded(file);
    HealedCounterIsFree(loaded, Heal(loaded).nextId);
    assert forall k | k in loaded.schedules :: Below(k, MaxId(loaded.schedules.Keys) + 1);
  }

  /** A saved state heals to a counter no lower, with the same records but for the stamps. */
  lemma SavedStateFits(mem: State, exact: bool)
    requires RecordsFit(mem, exact) && mem.nextId >= 1
    ensures Fitting(Some(Persisted(mem)), exact)
  {
    var healed := Heal(Persisted(mem));
    forall k | k in healed.schedules && Fireable(healed.schedules[k])
      ensures !Ahead(healed.schedules[k].id, healed.nextId, exact)
    {
      assert Fireable(mem.schedules[k]);
    }
  }

  lemma CreateKeepsLead(w: World, r: Request, saveOk: bool, exact: bool)
    requires CounterLeads(w, exact) && Acceptable(r)
    ensures CounterLeads(Next(w, Create(r, saveOk)), exact)
  {
    var w' := Next(w, Create(r, saveOk));
    AtoiItoa(w.mem.nextId);
    SavedStateFits(w'.mem, exact);
  }

  lemma FiringKeepsLead(w: World, exact: bool)
    requires CounterLeads(w, exact)
    ensures CounterLeads(Next(w, TickNext), exact)
  {
    var w' := Next(w, TickNext);
    if w.pending != [] && w.clock.Some? && Due(w.pending[0], w.clock.value) {
      var s := w.pending[0];
      assert Fireable(s);
      assert w'.mem.schedules == w.mem.schedules[s.id := Fired(s, w.clock.value)];
    }
  }

  lemma StepKeepsLead(w: World, step: Step, exact: bool)
    requires CounterLeads(w, exact)
    ensures CounterLeads(Next(w, step), exact)
  {
    match step
    case Create(r, saveOk) =>
      if Acceptable(r) {
        CreateKeepsLead(w, r, saveOk, exact);
      }
    case Delete(id, saveOk) => SavedStateFits(AfterDelete(w.mem, id), exact);
    case Restart => BootLeads(w.file, exact);
    case TickStart(now, order) =>
    case TickNext => FiringKeepsLead(w, exact);
  }

  lemma {:induction false} RunKeepsLead(w: World, steps: seq<Step>, exact: bool)
    requires CounterLeads(w, exact)
    ensures CounterLeads(Run(w, steps), exact)
    decreases |steps|
  {
    if steps != [] {
      StepKeepsLead(w, steps[0], exact);
      RunKeepsLead(Next(w, steps[0]), steps[1..], exact);
    }
  }

  /** Working off the snapshot writes back a record that is due at its turn. */
  lemma {:induction false} PendingComesBack(w: World, i: nat)
    requires i < |w.pending| && w.clock.Some? && Due(w.pending[i], w.clock.value)
    ensures var end := Run(w, TickNexts(i + 1));
            w.pending[i].id in end.mem.schedules && end.mem.nextId == w.mem.nextId
    decreases i
  {
    assert TickNexts(i + 1)[1..] == TickNexts(i);
    if i > 0 {
      PendingComesBack(Next(w, TickNext), i - 1);
    }
  }

  lemma {:induction false} SomeOrder(schedules: map<string, Schedule>) returns (order: seq<string>)
    ensures Enumerates(order, schedules)
    decreases |schedules|
  {
    if schedules == map[] {
      order := [];
    } else {
      var k :| k in schedules;
      var rest := SomeOrder(schedules - {k});
      order := rest + [k];
    }
  }

  /** One tick at the right time writes a fireable record of the file under its own id. */
  lemma TickWritesUnderOwnId(file: Option<State>, k: string) returns (steps: seq<Step>)
    requires Unstamped(file) && k in Loaded(file).schedules && Fireable(Loaded(file).schedules[k])
    ensures var end := Run(Boot(file), steps);
            Loaded(file).schedules[k].id in end.mem.schedules && end.mem.nextId == Boot(file).mem.nextId
  {
    var w := Boot(file);
    var s := w.mem.schedules[k];
    var now :| Matches(s.localTime, now);
    var order := SomeOrder(w.mem.schedules);
    var i :| 0 <= i < |order| && order[i] == k;
    UnstampedIsDue(s, now);
    steps := TickReaches(w, now, order, i);
  }

  lemma UnstampedIsDue(s: Schedule, now: Instant)
    requires s.stamp == "" && s.status == "enabled" && Matches(s.localTime, now)
    ensures Due(s, now)
  {
    assert Stamp(now) != "";
  }

  /** A tick up to its i-th record writes that record, if it is due, under its own id. */
  lemma TickReaches(w: World, now: Instant, order: seq<string>, i: nat) returns (steps: seq<Step>)
    requires w.pending == [] && Enumerates(order, w.mem.schedules)
    requires i < |order| && Due(w.mem.schedules[order[i]], now)
    ensures var end := Run(w, steps);
            w.mem.schedules[order[i]].id in end.mem.schedules && end.mem.nextId == w.mem.nextId
  {
    var started := Next(w, TickStart(now, order));
    PendingComesBack(started, i);
    RunCons(w, TickStart(now, order), TickNexts(i + 1));
    steps := [TickStart(now, order)] + TickNexts(i + 1);
  }

  ghost predicate NextIdFree(w: World) {
    Itoa(w.mem.nextId) !in w.mem.schedules
  }

  ghost predicate KeysBelowCounter(w: World) {
    forall k | k in w.mem.schedules :: Below(k, w.mem.nextId)
  }

  /** With no ticks the counter passes every key of every file. */
  lemma CounterPassesKeysWithoutTicks(file: Option<State>, steps: seq<Step>)
    requires forall s | s in steps :: !s.TickStart?
    ensures KeysBelowCounter(Run(Boot(file), steps)) && NextIdFree(Run(Boot(file), steps))
  {
    assert forall k | k in Loaded(file).schedules :: Below(k, MaxId(Loaded(file).schedules.Keys) + 1);
    RunWithoutTicks(Boot(file), steps);
  }

  lemma StepWithoutTicks(w: World, step: Step)
    requires KeysBelowCounter(w) && w.pending == [] && !step.TickStart?
    ensures KeysBelowCounter(Next(w, step)) && Next(w, step).pending == []
  {
    match step
    case Create(r, _) => AtoiItoa(w.mem.nextId);
    case Restart =>
      assert forall k | k in Loaded(w.file).schedules :: Below(k, MaxId(Loaded(w.file).schedules.Keys) + 1);
    case _ =>
  }

  lemma {:induction false} RunWithoutTicks(w: World, steps: seq<Step>)
    requires KeysBelowCounter(w) && w.pending == [] && forall s | s in steps :: !s.TickStart?
    ensures KeysBelowCounter(Run(w, steps)) && NextIdFree(Run(w, steps))
    decreases |steps|
  {
    if steps != [] {
      assert steps[0] in steps;
      StepWithoutTicks(w, steps[0]);
      RunWithoutTicks(Next(w, steps[0]), steps[1..]);
    } else {
      AtoiItoa(w.mem.nextId);
      assert !Below(Itoa(w.mem.nextId), w.mem.nextId);
    }
  }

  /** With the ticker running, the counter stays above every numeric key, in every run, if and
      only if no record of the file that can fire has an own id the counter is yet to reach. */
  lemma CounterPassesKeysIffRecordsFit(file: Option<State>)
    requires Unstamped(file)
    ensures (forall steps :: KeysBelowCounter(Run(Boot(file), steps))) <==> Fitting(file, false)
  {
    if Fitting(file, false) {
      forall steps
        ensures KeysBelowCounter(Run(Boot(file), steps))
      {
        BootLeads(file, false);
        RunKeepsLead(Boot(file), steps, false);
        var end := Run(Boot(file), steps);
        assert forall k | k in end.mem.schedules :: !Ahead(k, end.mem.nextId, false);
      }
    } else {
      var mem := Heal(Loaded(file));
      var k :| k in mem.schedules && Fireable(mem.schedules[k]) && Ahead(mem.schedules[k].id, mem.nextId, false);
      var steps := TickWritesUnderOwnId(file, k);
      assert !KeysBelowCounter(Run(Boot(file), steps));
    }
  }

  /** And the next id is never an existing key, in any run, if and only if no such record has
      as its id the very text of a number yet to come ("007" does no harm, "7" does). */
  lemma NextIdIsNoKeyIffRecordsFit(file: Option<State>)
    requires Unstamped(file)
    ensures (forall steps :: NextIdFree(Run(Boot(file), steps))) <==> Fitting(file, true)
  {
    if Fitting(file, true) {
      forall steps
        ensures NextIdFree(Run(Boot(file), steps))
      {
        BootLeads(file, true);
        RunKeepsLead(Boot(file), steps, true);
        var end := Run(Boot(file), steps);
        AtoiItoa(end.mem.nextId);
        assert Ahead(Itoa(end.mem.nextId), end.mem.nextId, true);
      }
    } else {
      var mem := Heal(Loaded(file));
      var k :| k in mem.schedules && Fireable(mem.schedules[k]) && Ahead(mem.schedules[k].id, mem.nextId, true);
      var steps := ClashIsReached(file, k);
      assert !NextIdFree(Run(Boot(file), steps));
    }
  }

  /** A tick writes the record under its own id, and creates count up to that id. */
  lemma ClashIsReached(file: Option<State>, k: string) returns (steps: seq<Step>)
    requires Unstamped(file) && k in Loaded(file).schedules && Fireable(Loaded(file).schedules[k])
    requires Ahead(Loaded(file).schedules[k].id, Heal(Loaded(file)).nextId, true)
    ensures !NextIdFree(Run(Boot(file), steps))
  {
    var tick := TickWritesUnderOwnId(file, k);
    var r := AnyRequest();
    var id := Loaded(file).schedules[k].id;
    var creates := CreatesAdvance(Run(Boot(file), tick), r, Atoi(id).value - Heal(Loaded(file)).nextId);
    RunConcat(Boot(file), tick, creates);
    steps := tick + creates;
  }

  /** A tidy file fits: the ids of its records that can fire are keys, which the healed counter
      has passed. */
  lemma TidyFits(file: Option<State>)
    requires Tidy(file)
    ensures Fitting(file, false)
  {
    var loaded := Loaded(file);
    assert forall k | k in loaded.schedules :: Below(k, MaxId(loaded.schedules.Keys) + 1);
  }

  // ----- Deletes. -----

  ghost predicate WellFiled(w: World) {
    CounterLeads(w, false) && OwnKeys(w.mem.schedules) && Tidy(w.file)
  }

  lemma SavedStateIsTidy(mem: State)
    requires OwnKeys(mem.schedules)
    ensures Tidy(Some(Persisted(mem)))
  {
    var saved := Persisted(mem).schedules;
    forall k | k in saved && Fireable(saved[k])
      ensures saved[k].id == k
    {
      assert Fireable(mem.schedules[k]);
    }
  }

  lemma NewRecordKeepsKeys(schedules: map<string, Schedule>, id: string, s: Schedule)
    requires OwnKeys(schedules) && s.id == id
    ensures OwnKeys(schedules[id := s])
  {
  }

  lemma CreateKeepsKeys(w: World, r: Request, saveOk: bool)
    requires OwnKeys(w.mem.schedules) && Tidy(w.file) && Acceptable(r)
    ensures OwnKeys(Next(w, Create(r, saveOk)).mem.schedules) && Tidy(Next(w, Create(r, saveOk)).file)
  {
    var made := Made(Itoa(w.mem.nextId), r);
    NewRecordKeepsKeys(w.mem.schedules, made.id, made);
    SavedStateIsTidy(AfterCreate(w.mem, made));
  }

  lemma TickNextKeepsKeys(w: World)
    requires OwnKeys(w.mem.schedules)
    ensures OwnKeys(Next(w, TickNext).mem.schedules) && Next(w, TickNext).file == w.file
  {
    if w.pending != [] && w.clock.Some? {
      var s := w.pending[0];
      NewRecordKeepsKeys(w.mem.schedules, s.id, Fired(s, w.clock.value));
      assert Next(w, TickNext).mem.schedules == WriteBack(w.mem.schedules, s, w.clock.value);
    }
  }

  lemma StepKeepsKeys(w: World, step: Step)
    requires OwnKeys(w.mem.schedules) && Tidy(w.file)
    ensures OwnKeys(Next(w, step).mem.schedules) && Tidy(Next(w, step).file)
  {
    match step
    case Create(r, saveOk) =>
      if Acceptable(r) {
        CreateKeepsKeys(w, r, saveOk);
      }
    case TickNext => TickNextKeepsKeys(w);
    case Delete(id, saveOk) => SavedStateIsTidy(AfterDelete(w.mem, id));
    case _ =>
  }

  lemma StepStaysWellFiled(w: World, step: Step)
    requires WellFiled(w)
    ensures WellFiled(Next(w, step))
  {
    StepKeepsLead(w, step, false);
    StepKeepsKeys(w, step);
  }

  lemma {:induction false} RunStaysWellFiled(w: World, steps: seq<Step>)
    requires WellFiled(w)
    ensures WellFiled(Run(w, steps))
    decreases |steps|
  {
    if steps != [] {
      StepStaysWellFiled(w, steps[0]);
      RunStaysWellFiled(Next(w, steps[0]), steps[1..]);
    }
  }

  lemma BootIsWellFiled(file: Option<State>)
    requires Tidy(file)
    ensures WellFiled(Boot(file))
  {
    TidyFits(file);
    BootLeads(file, false);
  }

  /** A tick has taken its snapshot and has still to write the id's record back. */
  ghost predicate WriteBackAhead(w: World, id: string) {
    w.clock.Some? && exists s :: s in w.pending && s.id == id && Due(s, w.clock.value)
  }

  ghost predicate InFile(w: World, id: string) {
    w.file.Some? && id in w.file.value.schedules
  }

  ghost predicate GoneFromMemory(w: World, id: string) {
    && WellFiled(w)
    && id !in w.mem.schedules && Below(id, w.mem.nextId) && !WriteBackAhead(w, id)
  }

  ghost predicate GoneFromFile(w: World, id: string) {
    w.file.Some? && id !in w.file.value.schedules && Below(id, w.file.value.nextId)
  }

  /** The step writes the file. */
  predicate Saves(step: Step) {
    (step.Create? && Acceptable(step.request) && step.saveOk) || (step.Delete? && step.saveOk)
  }

  /** The rest of a snapshot only shrinks, and a new one holds what memory holds. */
  lemma NoNewWriteBack(w: World, step: Step, id: string)
    requires OwnKeys(w.mem.schedules) && id !in w.mem.schedules && !WriteBackAhead(w, id)
    ensures !WriteBackAhead(Next(w, step), id)
  {
    var w' := Next(w, step);
    if step.TickNext? && w'.pending != w.pending {
      assert forall s | s in w'.pending :: s in w.pending;
    }
  }

  lemma StepKeepsGone(w: World, step: Step, id: string)
    requires GoneFromMemory(w, id) && (step == Restart ==> GoneFromFile(w, id))
    ensures var w' := Next(w, step);
            && GoneFromMemory(w', id)
            && (Saves(step) || GoneFromFile(w, id) ==> GoneFromFile(w', id))
            && (!Saves(step) ==> w'.file == w.file)
  {
    StepStaysWellFiled(w, step);
    NoNewWriteBack(w, step, id);
    AtoiItoa(w.mem.nextId);
    assert id != Itoa(w.mem.nextId);
  }

  lemma {:induction false} GoneStaysGone(w: World, steps: seq<Step>, id: string)
    requires GoneFromMemory(w, id) && GoneFromFile(w, id)
    ensures GoneFromMemory(Run(w, steps), id) && GoneFromFile(Run(w, steps), id)
    decreases |steps|
  {
    if steps != [] {
      StepKeepsGone(w, steps[0], id);
      GoneStaysGone(Next(w, steps[0]), steps[1..], id);
    }
  }

  lemma DeleteLeavesGone(w: World, id: string, saveOk: bool)
    requires WellFiled(w) && id in w.mem.schedules && !WriteBackAhead(w, id)
    ensures GoneFromMemory(Next(w, Delete(id, saveOk)), id)
    ensures saveOk ==> GoneFromFile(Next(w, Delete(id, saveOk)), id)
  {
    StepStaysWellFiled(w, Delete(id, saveOk));
    assert !Ahead(id, w.mem.nextId, false);
  }

  /** Some continuation (creates, deletes, failed saves, restarts, ticks in any order) has it. */
  ghost predicate CanReturn(w: World, id: string) {
    exists after :: id in Run(w, after).mem.schedules
  }

  ghost predicate CanReturnToFile(w: World, id: string) {
    exists after :: InFile(Run(w, after), id)
  }

  lemma GoneCannotReturn(w: World, id: string)
    requires GoneFromMemory(w, id) && GoneFromFile(w, id)
    ensures !CanReturn(w, id) && !CanReturnToFile(w, id)
  {
    forall after
      ensures id !in Run(w, after).mem.schedules && !InFile(Run(w, after), id)
    {
      GoneStaysGone(w, after, id);
    }
  }

  /** The write-back comes, and whatever is saved next makes it permanent. */
  lemma WriteBackUndoesDelete(w: World, id: string)
    requires WriteBackAhead(w, id)
    ensures var w' := Next(w, Delete(id, true)); CanReturn(w', id) && CanReturnToFile(w', id)
  {
    var w' := Next(w, Delete(id, true));
    var i :| 0 <= i < |w.pending| && w.pending[i].id == id && Due(w.pending[i], w.clock.value);
    PendingComesBack(w', i);
    SavedAfter(w', TickNexts(i + 1), id);
  }

  lemma SavedAfter(w: World, steps: seq<Step>, id: string)
    requires id in Run(w, steps).mem.schedules
    ensures CanReturnToFile(w, id)
  {
    var save := Delete(id + "0", true);
    RunConcat(w, steps, [save] + []);
    RunCons(Run(w, steps), save, []);
    assert id != id + "0";
    assert InFile(Run(w, steps + ([save] + [])), id);
  }

  /** A saved delete of an existing schedule can be undone, in memory or in the file, if and
      only if it falls between a tick's snapshot and that tick's write-back of the same, due schedule. */
  lemma DeletedReturnsIffWriteBackAhead(file: Option<State>, before: seq<Step>, id: string)
    requires Tidy(file) && id in Run(Boot(file), before).mem.schedules
    ensures var w := Run(Boot(file), before);
            var w' := Next(w, Delete(id, true));
            && (CanReturn(w', id) <==> WriteBackAhead(w, id))
            && (CanReturnToFile(w', id) <==> WriteBackAhead(w, id))
  {
    BootIsWellFiled(file);
    RunStaysWellFiled(Boot(file), before);
    DeletedReturnsFrom(Run(Boot(file), before), id);
  }

  lemma DeletedReturnsFrom(w: World, id: string)
    requires WellFiled(w) && id in w.mem.schedules
    ensures var w' := Next(w, Delete(id, true));
            && (CanReturn(w', id) <==> WriteBackAhead(w, id))
            && (CanReturnToFile(w', id) <==> WriteBackAhead(w, id))
  {
    if WriteBackAhead(w, id) {
      WriteBackUndoesDelete(w, id);
    } else {
      DeleteLeavesGone(w, id, true);
      GoneCannotReturn(Next(w, Delete(id, true)), id);
    }
  }

  lemma {:induction false} UnsavedRun(w: World, steps: seq<Step>, id: string)
    requires GoneFromMemory(w, id) && forall s | s in steps :: !s.Restart?
    ensures var end := Run(w, steps);
            && GoneFromMemory(end, id)
            && ((exists s :: s in steps && Saves(s)) || GoneFromFile(w, id) ==> GoneFromFile(end, id))
            && ((forall s | s in steps :: !Saves(s)) ==> end.file == w.file)
    decreases |steps|
  {
    if steps != [] {
      assert steps[0] in steps;
      assert forall s | s in steps :: s == steps[0] || s in steps[1..];
      StepKeepsGone(w, steps[0], id);
      UnsavedRun(Next(w, steps[0]), steps[1..], id);
    }
  }

  /** DELETE reports success when only the save failed. The schedule is back after the next
      restart if and only if the file had it and nothing was saved in between; once anything
      was, it is gone for good. (The other way back is a write-back still ahead.) */
  lemma UnsavedDeleteSticksIffSavedInTime(file: Option<State>, before: seq<Step>, id: string, after: seq<Step>)
    requires Tidy(file) && id in Run(Boot(file), before).mem.schedules && !WriteBackAhead(Run(Boot(file), before), id)
    requires forall s | s in after :: !s.Restart?
    ensures var w := Run(Boot(file), before);
            var end := Run(Next(w, Delete(id, false)), after);
            && id !in end.mem.schedules
            && (id in Next(end, Restart).mem.schedules <==> InFile(w, id) && forall s | s in after :: !Saves(s))
            && ((exists s :: s in after && Saves(s)) ==> forall later :: id !in Run(end, later).mem.schedules)
  {
    var w := Run(Boot(file), before);
    BootIsWellFiled(file);
    RunStaysWellFiled(Boot(file), before);
    DeleteLeavesGone(w, id, false);
    UnsavedRun(Next(w, Delete(id, false)), after, id);
    var end := Run(Next(w, Delete(id, false)), after);
    if exists s :: s in after && Saves(s) {
      forall later
        ensures id !in Run(end, later).mem.schedules
      {
        GoneStaysGone(end, later, id);
      }
    }
  }

  /** The write-back ahead is reached by one create and the start of one tick. */
  lemma TickStartPutsWriteBackAhead(r: Request, now: Instant)
    requires Acceptable(r) && Matches(r.localTime, now)
    ensures var w := Run(Boot(None), [Create(r, true), TickStart(now, ["1"])]);
            "1" in w.mem.schedules && WriteBackAhead(w, "1")
  {
    BootsEmpty();
    var s := Made("1", r);
    SnapshotOfOne("1", s);
    RunCons(Boot(None), Create(r, true), [TickStart(now, ["1"])]);
    RunCons(Next(Boot(None), Create(r, true)), TickStart(now, ["1"]), []);
    assert [Create(r, true)] + [TickStart(now, ["1"])] == [Create(r, true), TickStart(now, ["1"])];
    assert [TickStart(now, ["1"])] + [] == [TickStart(now, ["1"])];
    assert Stamp(now) != "" && [s][0] == s;
  }

  lemma BootsEmpty()
    ensures Boot(None).mem == State(1, map[]) && Itoa(1) == "1"
  {
  }

  lemma SnapshotOfOne(id: string, s: Schedule)
    ensures Enumerates([id], map[id := s]) && Snapshot([id], map[id := s]) == [s]
  {
  }
}
