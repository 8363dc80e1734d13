/** When schedules fire, over whole runs of one process: at most once a day, and in the
    minute they name. Ticks may be interleaved at their locks throughout. */
module ScheduleFirings {
  import opened Options
  import opened Decimal
  import opened Clock
  import opened LocalTime
  import opened Schedules
  import opened ScheduleRuns

  ghost predicate Held(w: World, s: Schedule) {
    s in w.mem.schedules.Values || s in w.pending
  }

  /** The latest firing of a schedule. */
  function LastFiring(fired: seq<Firing>, id: string): Option<Firing> {
    if fired == [] then None
    else if fired[|fired| - 1].id == id then Some(fired[|fired| - 1])
    else LastFiring(fired[..|fired| - 1], id)
  }

  lemma {:induction false} LastFiringIsLast(fired: seq<Firing>, id: string, i: nat)
    requires i < |fired| && fired[i].id == id && forall k | i < k < |fired| :: fired[k].id != id
    ensures LastFiring(fired, id) == Some(fired[i])
  {
    if i < |fired| - 1 {
      LastFiringIsLast(fired[..|fired| - 1], id, i);
    }
  }

  lemma {:induction false} LastFiringHappened(fired: seq<Firing>, id: string)
    ensures LastFiring(fired, id).Some? ==> LastFiring(fired, id).value in fired && LastFiring(fired, id).value.id == id
  {
    if fired != [] {
      LastFiringHappened(fired[..|fired| - 1], id);
    }
  }

  /** No firing is on the date of the same schedule's firing before it. */
  ghost predicate DatesChange(fired: seq<Firing>) {
    fired != [] ==>
      var front, last := fired[..|fired| - 1], fired[|fired| - 1];
      && DatesChange(front)
      && (LastFiring(front, last.id).Some? ==> !SameDate(LastFiring(front, last.id).value.at, last.at))
  }

  /** What a schedule's latest firing says about each record of it that is still about. */
  predicate Remembers(s: Schedule, f: Option<Firing>) {
    f.Some? ==> s.localTime == f.value.localTime && s.stamp == Stamp(f.value.at)
  }

  /** Records that can fire carry their own key, once each in a snapshot, below the counter. */
  ghost predicate Numbered(w: World) {
    && OwnKeys(w.mem.schedules)
    && (forall k | k in w.mem.schedules :: Below(k, w.mem.nextId))
    && (forall s | s in w.pending && Fireable(s) :: Below(s.id, w.mem.nextId))
    && (forall f | f in w.fired :: Below(f.id, w.mem.nextId))
    && DistinctIds(w.pending)
  }

  ghost predicate DistinctIds(records: seq<Schedule>) {
    forall i, j | 0 <= i < j < |records| && Fireable(records[i]) && Fireable(records[j]) :: records[i].id != records[j].id
  }

  ghost predicate Remembering(w: World) {
    forall s | Held(w, s) && Fireable(s) :: Remembers(s, LastFiring(w.fired, s.id))
  }

  /** Firings happen in the minute their pattern names, and no two in a row on one date. */
  ghost predicate WellSpaced(fired: seq<Firing>) {
    DatesChange(fired) && forall f | f in fired :: Matches(f.localTime, f.at)
  }

  ghost predicate Disciplined(w: World) {
    Numbered(w) && Remembering(w) && WellSpaced(w.fired)
  }

  lemma OneMoreFiring(fired: seq<Firing>, f: Firing, id: string)
    ensures LastFiring(fired + [f], id) == if f.id == id then Some(f) else LastFiring(fired, id)
    ensures DatesChange(fired + [f]) <==>
              DatesChange(fired)
              && (LastFiring(fired, f.id).Some? ==> !SameDate(LastFiring(fired, f.id).value.at, f.at))
  {
    assert (fired + [f])[..|fired|] == fired;
  }

  /** A due record's schedule has not fired last on this date: the pattern names one minute,
      and a firing in that minute of this date would have left this very stamp. */
  lemma DueDidNotFireLastToday(s: Schedule, f: Firing, now: Instant)
    requires Due(s, now) && Remembers(s, Some(f)) && Matches(f.localTime, f.at)
    ensures !SameDate(f.at, now)
  {
    MatchesOneMinute(s.localTime, now, f.at);
    StampInjective(f.at, now);
  }

  lemma FiringStaysWellSpaced(fired: seq<Firing>, s: Schedule, now: Instant)
    requires WellSpaced(fired) && Due(s, now) && Remembers(s, LastFiring(fired, s.id))
    ensures WellSpaced(fired + [Firing(s.id, s.localTime, now)])
  {
    OneMoreFiring(fired, Firing(s.id, s.localTime, now), s.id);
    LastFiringHappened(fired, s.id);
    if LastFiring(fired, s.id).Some? {
      DueDidNotFireLastToday(s, LastFiring(fired, s.id).value, now);
    }
  }

  /** w' is w after its next record s was fired as f. */
  ghost predicate FiresFirst(w: World, w': World, f: Schedule) {
    && w.pending != [] && Fireable(w.pending[0]) && f.id == w.pending[0].id
    && w'.pending == w.pending[1..] && w'.mem == State(w.mem.nextId, w.mem.schedules[f.id := f])
  }

  lemma FiringStep(w: World)
    requires w.pending != [] && w.clock.Some? && Due(w.pending[0], w.clock.value)
    ensures var s, now, w' := w.pending[0], w.clock.value, Next(w, TickNext);
            FiresFirst(w, w', Fired(s, now)) && w'.fired == w.fired + [Firing(s.id, s.localTime, now)]
  {
  }

  /** After a firing only the stamped record is new, and no other that can fire is of its
      schedule. */
  lemma HeldAfterFiring(w: World, w': World, f: Schedule, r: Schedule)
    requires Numbered(w) && FiresFirst(w, w', f) && Held(w', r) && Fireable(r)
    ensures r == f || (Held(w, r) && r.id != f.id)
  {
    if r in w'.pending {
      var i :| 0 <= i < |w'.pending| && w'.pending[i] == r;
      assert w.pending[i + 1] == r;
    }
  }

  lemma FiringKeepsRemembering(w: World, w': World, f: Schedule, firing: Firing)
    requires Numbered(w) && Remembering(w) && FiresFirst(w, w', f)
    requires w'.fired == w.fired + [firing] && firing.id == f.id && Remembers(f, Some(firing))
    ensures Remembering(w')
  {
    forall r | Held(w', r) && Fireable(r)
      ensures Remembers(r, LastFiring(w'.fired, r.id))
    {
      HeldAfterFiring(w, w', f, r);
      OneMoreFiring(w.fired, firing, r.id);
    }
  }

  lemma FiringKeepsNumbered(w: World, w': World, f: Schedule, firing: Firing)
    requires Numbered(w) && FiresFirst(w, w', f) && w'.fired == w.fired + [firing] && firing.id == f.id
    ensures Numbered(w')
  {
    assert w.pending[0] in w.pending;
    assert forall i | 0 <= i < |w'.pending| :: w'.pending[i] == w.pending[i + 1];
  }

  lemma SkippingKeepsDiscipline(w: World, w': World)
    requires Disciplined(w) && w.pending != [] && w' == w.(pending := w.pending[1..])
    ensures Disciplined(w')
  {
    assert forall i | 0 <= i < |w'.pending| :: w'.pending[i] == w.pending[i + 1];
    assert forall r | Held(w', r) :: Held(w, r);
  }

  lemma FiringKeepsDiscipline(w: World)
    requires Disciplined(w) && w.pending != [] && w.clock.Some? && Due(w.pending[0], w.clock.value)
    ensures Disciplined(Next(w, TickNext))
  {
    var s, now, w' := w.pending[0], w.clock.value, Next(w, TickNext);
    var firing := Firing(s.id, s.localTime, now);
    FiringStep(w);
    FiringKeepsNumbered(w, w', Fired(s, now), firing);
    FiringKeepsRemembering(w, w', Fired(s, now), firing);
    assert Held(w, s);
    FiringStaysWellSpaced(w.fired, s, now);
  }

  lemma SnapshotIsHeld(schedules: map<string, Schedule>, order: seq<string>)
    requires OwnKeys(schedules) && Enumerates(order, schedules)
    ensures var taken := Snapshot(order, schedules);
            DistinctIds(taken) && forall s | s in taken :: s in schedules.Values
  {
  }

  lemma SnapshotKeepsDiscipline(w: World, now: Instant, order: seq<string>)
    requires Disciplined(w)
    ensures Disciplined(Next(w, TickStart(now, order)))
  {
    var w' := Next(w, TickStart(now, order));
    if w.pending == [] && Enumerates(order, w.mem.schedules) {
      SnapshotIsHeld(w.mem.schedules, order);
      assert forall s | Held(w', s) :: Held(w, s);
    }
  }

  /** A schedule created now has no firing: those all have ids below the counter. */
  lemma CreatedHasNotFired(w: World)
    requires Numbered(w)
    ensures LastFiring(w.fired, Itoa(w.mem.nextId)).None?
  {
    LastFiringHappened(w.fired, Itoa(w.mem.nextId));
    AtoiItoa(w.mem.nextId);
  }

  lemma StoreStepKeepsNumbered(w: World, step: Step)
    requires Numbered(w) && (step.Create? || step.Delete?)
    ensures Numbered(Next(w, step)) && Next(w, step).fired == w.fired
  {
    if step.Create? && Acceptable(step.request) {
      AtoiItoa(w.mem.nextId);
      assert Next(w, step).mem == AfterCreate(w.mem, Made(Itoa(w.mem.nextId), step.request));
    }
  }

  lemma StoreStepKeepsRemembering(w: World, step: Step)
    requires Numbered(w) && Remembering(w) && (step.Create? || step.Delete?)
    ensures Remembering(Next(w, step))
  {
    var w' := Next(w, step);
    CreatedHasNotFired(w);
    forall s | Held(w', s)
      ensures Held(w, s) || s.id == Itoa(w.mem.nextId)
    {
    }
  }

  lemma StepKeepsDiscipline(w: World, step: Step)
    requires Disciplined(w) && step != Restart
    ensures Disciplined(Next(w, step))
  {
    match step
    case TickNext =>
      if w.pending != [] && w.clock.Some? {
        if Due(w.pending[0], w.clock.value) {
          FiringKeepsDiscipline(w);
        } else {
          SkippingKeepsDiscipline(w, Next(w, TickNext));
        }
      }
    case TickStart(now, order) => SnapshotKeepsDiscipline(w, now, order);
    case _ =>
      StoreStepKeepsNumbered(w, step);
      StoreStepKeepsRemembering(w, step);
  }

  lemma {:induction false} RunKeepsDiscipline(w: World, steps: seq<Step>)
    requires Disciplined(w) && forall s | s in steps :: !s.Restart?
    ensures Disciplined(Run(w, steps))
    decreases |steps|
  {
    if steps != [] {
      assert steps[0] in steps;
      StepKeepsDiscipline(w, steps[0]);
      RunKeepsDiscipline(Next(w, steps[0]), steps[1..]);
    }
  }

  lemma BootIsDisciplined(file: Option<State>)
    requires Tidy(file)
    ensures Disciplined(Boot(file))
  {
    BootIsWellFiled(file);
    assert forall k | k in Loaded(file).schedules :: Below(k, MaxId(Loaded(file).schedules.Keys) + 1);
  }

  lemma {:induction false} ConsecutiveDatesDiffer(fired: seq<Firing>, i: nat, j: nat)
    requires DatesChange(fired) && i < j < |fired| && fired[i].id == fired[j].id
    requires forall k | i < k < j :: fired[k].id != fired[i].id
    ensures !SameDate(fired[i].at, fired[j].at)
  {
    var front := fired[..|fired| - 1];
    if j < |front| {
      ConsecutiveDatesDiffer(front, i, j);
    } else {
      LastFiringIsLast(front, fired[i].id, i);
    }
  }

  /** Within one process, whatever the clock does and whatever requests come in between: two
      consecutive firings of a schedule are never on the same date. So it fires twice on a date
      only if it fired on another date in between. */
  lemma TwiceOnADateMeansAnotherBetween(file: Option<State>, steps: seq<Step>, i: nat, j: nat)
    requires Tidy(file) && forall s | s in steps :: !s.Restart?
    requires var fired := Run(Boot(file), steps).fired;
             i < j < |fired| && fired[i].id == fired[j].id && SameDate(fired[i].at, fired[j].at)
    ensures var fired := Run(Boot(file), steps).fired;
            exists k | i < k < j :: fired[k].id == fired[i].id && !SameDate(fired[k].at, fired[i].at)
  {
    BootIsDisciplined(file);
    RunKeepsDiscipline(Boot(file), steps);
    AnotherDateBetween(Run(Boot(file), steps).fired, i, j);
  }

  lemma AnotherDateBetween(fired: seq<Firing>, i: nat, j: nat)
    requires DatesChange(fired) && i < j < |fired| && fired[i].id == fired[j].id && SameDate(fired[i].at, fired[j].at)
    ensures exists k | i < k < j :: fired[k].id == fired[i].id && !SameDate(fired[k].at, fired[i].at)
  {
    var k := NextFiring(fired, i, j);
    ConsecutiveDatesDiffer(fired, i, k);
  }

  /** The first firing of the same schedule after firing i. */
  lemma NextFiring(fired: seq<Firing>, i: nat, j: nat) returns (next: nat)
    requires i < j < |fired| && fired[i].id == fired[j].id
    ensures i < next <= j && fired[next].id == fired[i].id && forall k | i < k < next :: fired[k].id != fired[i].id
  {
    next := i + 1;
    while fired[next].id != fired[i].id
      invariant i < next <= j && forall k | i < k < next :: fired[k].id != fired[i].id
      decreases j - next
    {
      next := next + 1;
    }
  }

  /** A run of one process whose ticks never step back to an earlier date; the time of day
      may jump either way. */
  ghost predicate ForwardRun(w: World, steps: seq<Step>)
    decreases |steps|
  {
    steps == [] ||
    (&& steps[0] != Restart
     && (steps[0].TickStart? && w.clock.Some? ==> NoEarlierDate(w.clock.value, steps[0].now))
     && ForwardRun(Next(w, steps[0]), steps[1..]))
  }

  ghost predicate DatesRise(w: World) {
    && (w.fired != [] ==> w.clock.Some? && NoEarlierDate(w.fired[|w.fired| - 1].at, w.clock.value))
    && forall i, j | 0 <= i < j < |w.fired| :: NoEarlierDate(w.fired[i].at, w.fired[j].at)
  }

  lemma FiredAfter(w: World, step: Step)
    requires step != Restart
    ensures var w' := Next(w, step);
            || (w'.fired == w.fired && (w'.clock == w.clock || (step.TickStart? && w'.clock == Some(step.now))))
            || (w.clock.Some? && w'.clock == w.clock
                && exists id, localTime :: w'.fired == w.fired + [Firing(id, localTime, w.clock.value)])
  {
    if step.TickNext? && w.pending != [] && w.clock.Some? && Due(w.pending[0], w.clock.value) {
      FiringStep(w);
    }
  }

  lemma ForwardStepRises(w: World, step: Step)
    requires DatesRise(w) && step != Restart
    requires step.TickStart? && w.clock.Some? ==> NoEarlierDate(w.clock.value, step.now)
    ensures DatesRise(Next(w, step))
  {
    FiredAfter(w, step);
    LaterDatesRise(w, Next(w, step));
  }

  lemma LaterDatesRise(w: World, w': World)
    requires DatesRise(w) && (w.clock.Some? ==> w'.clock.Some? && NoEarlierDate(w.clock.value, w'.clock.value))
    requires || w'.fired == w.fired
             || (w.clock.Some? && w'.clock == w.clock
                 && exists id, localTime :: w'.fired == w.fired + [Firing(id, localTime, w.clock.value)])
    ensures DatesRise(w')
  {
  }

  lemma {:induction false} ForwardRunRises(w: World, steps: seq<Step>)
    requires DatesRise(w) && ForwardRun(w, steps)
    ensures DatesRise(Run(w, steps))
    ensures forall s | s in steps :: !s.Restart?
    decreases |steps|
  {
    if steps != [] {
      ForwardStepRises(w, steps[0]);
      ForwardRunRises(Next(w, steps[0]), steps[1..]);
      assert forall s | s in steps :: s == steps[0] || s in steps[1..];
    }
  }

  /** Hence, while dates never go backwards, no schedule fires twice on a date, even if the
      time of day steps back. */
  lemma AtMostOneFiringPerDate(file: Option<State>, steps: seq<Step>, i: nat, j: nat)
    requires Tidy(file) && ForwardRun(Boot(file), steps)
    requires var fired := Run(Boot(file), steps).fired; i < j < |fired| && fired[i].id == fired[j].id
    ensures var fired := Run(Boot(file), steps).fired; !SameDate(fired[i].at, fired[j].at)
  {
    ForwardRunRises(Boot(file), steps);
    var fired := Run(Boot(file), steps).fired;
    if SameDate(fired[i].at, fired[j].at) {
      TwiceOnADateMeansAnotherBetween(file, steps, i, j);
    }
  }

  // ----- Due schedules do fire. -----

  /** Every stamp in memory was left by a firing; the file brings none. */
  ghost predicate StampsAreFirings(w: World) {
    forall s | Held(w, s) && s.stamp != "" :: exists f :: f in w.fired && f.id == s.id && Stamp(f.at) == s.stamp
  }

  lemma {:induction false} RunKeepsStampsHonest(w: World, steps: seq<Step>)
    requires StampsAreFirings(w) && Unstamped(w.file)
    ensures StampsAreFirings(Run(w, steps)) && Unstamped(Run(w, steps).file)
    decreases |steps|
  {
    if steps != [] {
      StepKeepsStampsHonest(w, steps[0]);
      RunKeepsStampsHonest(Next(w, steps[0]), steps[1..]);
    }
  }

  /** A stamped record was there before the step, unless the step just fired it. */
  lemma StampedWasHeld(w: World, step: Step, s: Schedule)
    requires Unstamped(w.file) && Held(Next(w, step), s) && s.stamp != ""
    ensures || Held(w, s)
            || (&& step.TickNext? && w.pending != [] && w.clock.Some?
                && Due(w.pending[0], w.clock.value) && s == Fired(w.pending[0], w.clock.value))
  {
    var w' := Next(w, step);
    if s in w'.pending {
      var i :| 0 <= i < |w'.pending| && w'.pending[i] == s;
    } else {
      var k :| k in w'.mem.schedules && w'.mem.schedules[k] == s;
    }
  }

  lemma HistoryGrows(w: World, step: Step)
    requires Unstamped(w.file)
    ensures Unstamped(Next(w, step).file)
    ensures forall f | f in w.fired :: f in Next(w, step).fired
  {
  }

  lemma StepKeepsStampsHonest(w: World, step: Step)
    requires StampsAreFirings(w) && Unstamped(w.file)
    ensures StampsAreFirings(Next(w, step)) && Unstamped(Next(w, step).file)
  {
    var w' := Next(w, step);
    HistoryGrows(w, step);
    forall s | Held(w', s) && s.stamp != ""
      ensures exists f :: f in w'.fired && f.id == s.id && Stamp(f.at) == s.stamp
    {
      StampedWasHeld(w, step, s);
      if Held(w, s) {
        var f :| f in w.fired && f.id == s.id && Stamp(f.at) == s.stamp;
        assert f in w'.fired;
      } else {
        var g := Firing(s.id, s.localTime, w.clock.value);
        assert w'.fired == w.fired + [g] && g in w'.fired;
      }
    }
  }

  ghost predicate HasFiredInMinute(fired: seq<Firing>, id: string, now: Instant) {
    exists f :: f in fired && f.id == id && SameDate(f.at, now) && SameMinuteOfDay(f.at, now)
  }

  /** Working off the snapshot fires every record in it that is still due at its turn. */
  lemma {:induction false} PendingGetsFired(w: World, n: nat, s: Schedule)
    requires w.clock.Some? && n == |w.pending|
    requires (s in w.pending && Due(s, w.clock.value)) || HasFiredInMinute(w.fired, s.id, w.clock.value)
    ensures HasFiredInMinute(Run(w, TickNexts(n)).fired, s.id, w.clock.value)
    ensures Run(w, TickNexts(n)).pending == []
    decreases n
  {
    if n > 0 {
      var w' := Next(w, TickNext);
      assert TickNexts(n)[1..] == TickNexts(n - 1);
      if HasFiredInMinute(w.fired, s.id, w.clock.value) {
        var f :| f in w.fired && f.id == s.id && SameDate(f.at, w.clock.value) && SameMinuteOfDay(f.at, w.clock.value);
        assert f in w'.fired;
      } else if s == w.pending[0] {
        assert Firing(s.id, s.localTime, w.clock.value) in w'.fired;
      }
      PendingGetsFired(w', n - 1, s);
    }
  }

  /** After an undisturbed tick at `now`, at any point of any run, restarts included, every
      enabled schedule whose pattern matches has fired in this minute of this date: now, or
      earlier in the same minute. */
  lemma MatchingSchedulesFireInTheirMinute(file: Option<State>, steps: seq<Step>, now: Instant, order: seq<string>, k: string)
    requires Tidy(file) && Unstamped(file)
    requires var w := Run(Boot(file), steps);
             && w.pending == [] && Enumerates(order, w.mem.schedules) && k in w.mem.schedules
             && w.mem.schedules[k].status == "enabled" && Matches(w.mem.schedules[k].localTime, now)
    ensures var w := Run(Boot(file), steps);
            HasFiredInMinute(Run(Next(w, TickStart(now, order)), TickNexts(|order|)).fired, k, now)
  {
    BootIsWellFiled(file);
    RunStaysWellFiled(Boot(file), steps);
    RunKeepsStampsHonest(Boot(file), steps);
    TickFiresMatching(Run(Boot(file), steps), now, order, k);
  }

  lemma TickFiresMatching(w: World, now: Instant, order: seq<string>, k: string)
    requires OwnKeys(w.mem.schedules) && StampsAreFirings(w) && w.pending == []
    requires Enumerates(order, w.mem.schedules) && k in w.mem.schedules
    requires w.mem.schedules[k].status == "enabled" && Matches(w.mem.schedules[k].localTime, now)
    ensures HasFiredInMinute(Run(Next(w, TickStart(now, order)), TickNexts(|order|)).fired, k, now)
  {
    var s := w.mem.schedules[k];
    var w1 := Next(w, TickStart(now, order));
    assert Fireable(s) && Held(w, s);
    var i :| 0 <= i < |order| && order[i] == k;
    assert w1.pending[i] == s && w1.fired == w.fired;
    if !Due(s, now) {
      var f :| f in w.fired && f.id == s.id && Stamp(f.at) == s.stamp;
      StampInjective(f.at, now);
    }
    PendingGetsFired(w1, |order|, s);
  }

  // ----- Whether a tick fires a schedule, from what the process fired before. -----

  predicate NotLastToday(fired: seq<Firing>, id: string, now: Instant) {
    LastFiring(fired, id).Some? ==> !SameDate(LastFiring(fired, id).value.at, now)
  }

  ghost predicate Fires(fired: seq<Firing>, id: string) {
    exists f :: f in fired && f.id == id
  }

  lemma {:induction false} FiredHasLast(fired: seq<Firing>, f: Firing)
    requires f in fired
    ensures LastFiring(fired, f.id).Some?
  {
    if fired[|fired| - 1].id != f.id {
      FiredHasLast(fired[..|fired| - 1], f);
    }
  }

  /** A stamp of this minute means a firing today, which the latest firing then is. */
  lemma DueIffNotLastToday(w: World, k: string, now: Instant)
    requires Disciplined(w) && StampsAreFirings(w) && k in w.mem.schedules
    requires w.mem.schedules[k].status == "enabled" && Matches(w.mem.schedules[k].localTime, now)
    ensures Due(w.mem.schedules[k], now) <==> NotLastToday(w.fired, k, now)
  {
    var s := w.mem.schedules[k];
    assert Fireable(s) && Held(w, s);
    LastFiringHappened(w.fired, k);
    if Due(s, now) {
      if LastFiring(w.fired, k).Some? {
        DueDidNotFireLastToday(s, LastFiring(w.fired, k).value, now);
      }
    } else {
      StampOfToday(w, s, now);
    }
  }

  lemma StampOfToday(w: World, s: Schedule, now: Instant)
    requires Held(w, s) && StampsAreFirings(w) && s.stamp == Stamp(now) && Remembers(s, LastFiring(w.fired, s.id))
    ensures !NotLastToday(w.fired, s.id, now)
  {
    assert s.stamp != "";
    var f :| f in w.fired && f.id == s.id && Stamp(f.at) == s.stamp;
    FiredHasLast(w.fired, f);
    StampInjective(LastFiring(w.fired, s.id).value.at, now);
  }

  lemma {:induction false} TickFiresOnlyTheDue(w: World, n: nat, f: Firing)
    requires w.clock.Some? && n == |w.pending| && f in Run(w, TickNexts(n)).fired
    ensures f in w.fired || exists s :: s in w.pending && s.id == f.id && Due(s, w.clock.value)
    decreases n
  {
    if n > 0 {
      assert TickNexts(n)[1..] == TickNexts(n - 1);
      TickFiresOnlyTheDue(Next(w, TickNext), n - 1, f);
      assert w.pending[0] in w.pending && forall s | s in w.pending[1..] :: s in w.pending;
    }
  }

  lemma TickFiresIffDue(w: World, now: Instant, order: seq<string>, k: string)
    requires OwnKeys(w.mem.schedules) && w.pending == [] && w.fired == []
    requires Enumerates(order, w.mem.schedules) && k in w.mem.schedules && Fireable(w.mem.schedules[k])
    ensures Fires(Run(Next(w, TickStart(now, order)), TickNexts(|order|)).fired, k) <==> Due(w.mem.schedules[k], now)
  {
    var s := w.mem.schedules[k];
    var w1 := Next(w, TickStart(now, order));
    var end := Run(w1, TickNexts(|order|));
    if Due(s, now) {
      var i :| 0 <= i < |order| && order[i] == k;
      assert w1.pending[i] == s;
      PendingGetsFired(w1, |order|, s);
    } else if Fires(end.fired, k) {
      var f :| f in end.fired && f.id == k;
      TickFiresOnlyTheDue(w1, |order|, f);
      var r :| r in w1.pending && r.id == k && Due(r, now);
      DueIsItsOwn(w.mem.schedules, order, r, now);
    }
  }

  lemma DueIsItsOwn(schedules: map<string, Schedule>, order: seq<string>, r: Schedule, now: Instant)
    requires OwnKeys(schedules) && Enumerates(order, schedules) && r in Snapshot(order, schedules) && Due(r, now)
    ensures r.id in schedules && schedules[r.id] == r
  {
    assert Fireable(r);
  }

  function Forget(w: World): World {
    w.(created := [], fired := [])
  }

  /** w is v with more behind it. */
  predicate Continues(w: World, v: World, past: seq<Firing>) {
    Forget(w) == Forget(v) && w.fired == past + v.fired
  }

  lemma StepContinues(w: World, v: World, past: seq<Firing>, step: Step)
    requires Continues(w, v, past)
    ensures Continues(Next(w, step), Next(v, step), past)
  {
  }

  /** What was created and fired before decides nothing. */
  lemma {:induction false} RunContinues(w: World, v: World, past: seq<Firing>, steps: seq<Step>)
    requires Continues(w, v, past)
    ensures Continues(Run(w, steps), Run(v, steps), past)
    decreases |steps|
  {
    if steps != [] {
      StepContinues(w, v, past, steps[0]);
      RunContinues(Next(w, steps[0]), Next(v, steps[0]), past, steps[1..]);
    }
  }

  /** The rule, told before the tick and at any point of any run, whatever the clock does: an
      undisturbed tick fires a schedule whose minute it is if and only if its latest firing
      since the last restart, if any, was on another date. (Before the first restart, take
      `before` to be empty: booting twice is booting once.) */
  lemma TickFiresIffNotLastToday(file: Option<State>, before: seq<Step>, after: seq<Step>,
                                 now: Instant, order: seq<string>, k: string)
    requires Tidy(file) && Unstamped(file) && forall s | s in after :: !s.Restart?
    requires var w := Run(Next(Run(Boot(file), before), Restart), after);
             && w.pending == [] && Enumerates(order, w.mem.schedules) && k in w.mem.schedules
             && w.mem.schedules[k].status == "enabled" && Matches(w.mem.schedules[k].localTime, now)
    ensures var w0 := Run(Boot(file), before);
            var w := Run(Next(w0, Restart), after);
            exists since, next ::
              && w.fired == w0.fired + since
              && Run(Next(w, TickStart(now, order)), TickNexts(|order|)).fired == w.fired + next
              && (Fires(next, k) <==> NotLastToday(since, k, now))
  {
    var w0 := Run(Boot(file), before);
    BootIsWellFiled(file);
    RunStaysWellFiled(Boot(file), before);
    RunKeepsStampsHonest(Boot(file), before);
    RunContinues(Next(w0, Restart), Boot(w0.file), w0.fired, after);
    ProcessTick(w0.file, after, now, order, k);
    var w := Run(Next(w0, Restart), after);
    StepContinues(w, Forget(w), w.fired, TickStart(now, order));
    RunContinues(Next(w, TickStart(now, order)), Next(Forget(w), TickStart(now, order)), w.fired, TickNexts(|order|));
  }

  /** The same within one process, its history apart. */
  lemma ProcessTick(file: Option<State>, steps: seq<Step>, now: Instant, order: seq<string>, k: string)
    requires Tidy(file) && Unstamped(file) && forall s | s in steps :: !s.Restart?
    requires var w := Run(Boot(file), steps);
             && w.pending == [] && Enumerates(order, w.mem.schedules) && k in w.mem.schedules
             && w.mem.schedules[k].status == "enabled" && Matches(w.mem.schedules[k].localTime, now)
    ensures var w := Run(Boot(file), steps);
            Fires(Run(Next(Forget(w), TickStart(now, order)), TickNexts(|order|)).fired, k) <==> NotLastToday(w.fired, k, now)
  {
    var w := Run(Boot(file), steps);
    BootIsDisciplined(file);
    RunKeepsDiscipline(Boot(file), steps);
    RunKeepsStampsHonest(Boot(file), steps);
    DueIffNotLastToday(w, k, now);
    assert Fireable(w.mem.schedules[k]);
    TickFiresIffDue(Forget(w), now, order, k);
  }

  /** The tick machine and Ticker.Tick are one: an undisturbed pass over a snapshot leaves the
      store FireAll describes. */
  lemma {:induction false} UndisturbedTickIsFireAll(w: World, done: seq<Schedule>, base: map<string, Schedule>)
    requires w.clock.Some? && w.mem.schedules == FireAll(base, done, w.clock.value)
    ensures Run(w, TickNexts(|w.pending|)).mem ==
            State(w.mem.nextId, FireAll(base, done + w.pending, w.clock.value))
    decreases |w.pending|
  {
    if w.pending == [] {
      assert done + w.pending == done;
    } else {
      var s := w.pending[0];
      assert (done + [s])[..|done|] == done;
      assert TickNexts(|w.pending|)[1..] == TickNexts(|w.pending| - 1);
      assert done + [s] + w.pending[1..] == done + w.pending;
      UndisturbedTickIsFireAll(Next(w, TickNext), done + [s], base);
    }
  }

  // ----- The guards are needed. -----

  /** Two runs in which the rule lets a schedule fire twice on a date. The stamp is not in the
      file, so a restart within the minute fires again. */
  lemma RestartInTheMinuteFiresAgain(r: Request, now: Instant)
    requires Acceptable(r) && Matches(r.localTime, now)
    ensures var saved := Run(Boot(None), [Create(r, true)]);
            var once := Run(saved, [TickStart(now, ["1"]), TickNext]);
            var twice := Run(Next(once, Restart), [TickStart(now, ["1"]), TickNext]);
            var f := Firing("1", r.localTime, now);
            once.fired == [f] && twice.fired == [f, f]
  {
    var s := Made("1", r);
    SavedOnce(r);
    var saved := Run(Boot(None), [Create(r, true)]);
    FirstTickFires(saved, s, now);
    var again := Next(Run(saved, [TickStart(now, ["1"]), TickNext]), Restart);
    assert again.mem.schedules == map["1" := s];
    FirstTickFires(again, s, now);
  }

  lemma SavedOnce(r: Request)
    requires Acceptable(r)
    ensures var saved := Run(Boot(None), [Create(r, true)]);
            var mem := State(2, map["1" := Made("1", r)]);
            && saved.mem == mem && saved.file == Some(mem) && Heal(mem).schedules == mem.schedules
            && saved.fired == [] && saved.pending == []
  {
    BootsEmpty();
    RunCons(Boot(None), Create(r, true), []);
    assert [Create(r, true)] + [] == [Create(r, true)];
    var mem := State(2, map["1" := Made("1", r)]);
    assert Next(Boot(None), Create(r, true)).mem == mem;
    assert Persisted(mem).schedules == mem.schedules;
  }

  /** A tick comes to the first record of its walk, and fires it if it is due. */
  lemma HeadFires(w: World, order: seq<string>, s: Schedule, now: Instant)
    requires w.pending == [] && order != [] && Enumerates(order, w.mem.schedules)
    requires w.mem.schedules[order[0]] == s && Due(s, now)
    ensures var w' := Run(w, [TickStart(now, order), TickNext]);
            && w'.fired == w.fired + [Firing(s.id, s.localTime, now)] && w'.file == w.file
            && w'.mem == State(w.mem.nextId, w.mem.schedules[s.id := Fired(s, now)])
            && w'.pending == Snapshot(order, w.mem.schedules)[1..]
  {
    RunCons(w, TickStart(now, order), [TickNext]);
    var started := Next(w, TickStart(now, order));
    RunCons(started, TickNext, []);
    assert started.pending[0] == s;
    FiringStep(started);
    assert [TickStart(now, order)] + [TickNext] == [TickStart(now, order), TickNext];
    assert [TickNext] + [] == [TickNext];
  }

  lemma FirstTickFires(w: World, s: Schedule, now: Instant)
    requires w.pending == [] && w.mem.schedules == map[s.id := s] && Due(s, now)
    ensures var w' := Run(w, [TickStart(now, [s.id]), TickNext]);
            && w'.fired == w.fired + [Firing(s.id, s.localTime, now)]
            && w'.pending == [] && w'.file == w.file
            && w'.mem == State(w.mem.nextId, map[s.id := Fired(s, now)])
  {
    SnapshotOfOne(s.id, s);
    HeadFires(w, [s.id], s, now);
  }

  /** Why Tidy is asked: a record under a foreign key is never stamped itself, only its copy
      under its own id is, so it fires at every tick of its minute. */
  lemma ForeignKeyFiresAtEveryTick(k: string, s: Schedule, nextId: int, now: Instant)
    requires s.id != k && Due(s, now)
    ensures var first := Run(Boot(Some(State(nextId, map[k := s]))), [TickStart(now, [k]), TickNext]);
            var second := Run(first, [TickStart(now, [k, s.id]), TickNext]);
            var f := Firing(s.id, s.localTime, now);
            first.pending == [] && second.fired == [f, f]
  {
    var w := Boot(Some(State(nextId, map[k := s])));
    SnapshotOfOne(k, s);
    HeadFires(w, [k], s, now);
    var first := Run(w, [TickStart(now, [k]), TickNext]);
    assert first.mem.schedules == map[k := s, s.id := Fired(s, now)];
    HeadFires(first, [k, s.id], s, now);
  }

  lemma StampOfAnotherDateIsDue(s: Schedule, day: Instant, nextDay: Instant)
    requires Due(s, day) && SameMinuteOfDay(day, nextDay) && !SameDate(day, nextDay)
    ensures Due(Fired(s, day), nextDay) && Due(Fired(s, nextDay), day)
    ensures Fired(Fired(s, day), nextDay) == Fired(s, nextDay)
  {
    MatchesOneMinute(s.localTime, day, nextDay);
    StampInjective(day, nextDay);
  }

  lemma ThreeTicksFire(w: World, s: Schedule, day: Instant, nextDay: Instant)
    requires w.pending == [] && w.mem.schedules == map[s.id := s]
    requires Due(s, day) && SameMinuteOfDay(day, nextDay) && !SameDate(day, nextDay)
    ensures var first := Run(w, [TickStart(day, [s.id]), TickNext]);
            var second := Run(first, [TickStart(nextDay, [s.id]), TickNext]);
            var third := Run(second, [TickStart(day, [s.id]), TickNext]);
            third.fired == w.fired + [Firing(s.id, s.localTime, day), Firing(s.id, s.localTime, nextDay), Firing(s.id, s.localTime, day)]
  {
    StampOfAnotherDateIsDue(s, day, nextDay);
    FirstTickFires(w, s, day);
    var first := Run(w, [TickStart(day, [s.id]), TickNext]);
    FirstTickFires(first, Fired(s, day), nextDay);
    var second := Run(first, [TickStart(nextDay, [s.id]), TickNext]);
    FirstTickFires(second, Fired(s, nextDay), day);
  }

  /** And if the date steps back and forth, the schedule fires twice on the same date. */
  lemma DateSteppingBackFiresAgain(r: Request, day: Instant, nextDay: Instant)
    requires Acceptable(r) && Matches(r.localTime, day) && SameMinuteOfDay(day, nextDay) && !SameDate(day, nextDay)
    ensures var saved := Run(Boot(None), [Create(r, true)]);
            var first := Run(saved, [TickStart(day, ["1"]), TickNext]);
            var second := Run(first, [TickStart(nextDay, ["1"]), TickNext]);
            var third := Run(second, [TickStart(day, ["1"]), TickNext]);
            third.fired == [Firing("1", r.localTime, day), Firing("1", r.localTime, nextDay), Firing("1", r.localTime, day)]
  {
    var s := Made("1", r);
    SavedOnce(r);
    var saved := Run(Boot(None), [Create(r, true)]);
    ThreeTicksFire(saved, s, day, nextDay);
  }
}
