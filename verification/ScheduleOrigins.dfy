/** What a schedule is stays what was asked for, over whole runs of the store and its ticker,
    and so does what a tick sends. */
module ScheduleOrigins {
  import opened Options
  import opened Decimal
  import opened Clock
  import opened LocalTime
  import opened LightState
  import opened Json
  import opened LightCommands
  import opened Schedules
  import opened ScheduleRuns

  /** The record is what this request asked for, enabled; only its stamp is its own. */
  predicate Carries(s: Schedule, id: string, r: Request) {
    && s.id == id && s.name == r.name && s.address == r.address && s.verb == r.verb
    && s.body == r.body && s.localTime == r.localTime && s.status == "enabled"
  }

  /** The i-th step of the run is the accepted create that made the record. */
  ghost predicate AskedAt(file: Option<State>, steps: seq<Step>, i: int, s: Schedule) {
    && 0 <= i < |steps| && steps[i].Create? && Acceptable(steps[i].request)
    && Carries(s, Itoa(Run(Boot(file), steps[..i]).mem.nextId), steps[i].request)
  }

  ghost predicate CameWith(file: Option<State>, s: Schedule) {
    exists k :: k in Loaded(file).schedules && OnlyStamped(Loaded(file).schedules[k], s)
  }

  ghost predicate Genuine(file: Option<State>, steps: seq<Step>, s: Schedule) {
    CameWith(file, s) || exists i :: AskedAt(file, steps, i, s)
  }

  ghost predicate About(w: World, s: Schedule) {
    s in w.mem.schedules.Values || s in w.pending || (w.file.Some? && s in w.file.value.schedules.Values)
  }

  /** A step makes no record but the one it creates, and changes none but its stamp. */
  lemma AboutBefore(w: World, step: Step, s: Schedule)
    requires About(Next(w, step), s)
    ensures || (exists s0 :: About(w, s0) && OnlyStamped(s0, s))
            || (step.Create? && Acceptable(step.request) && Carries(s, Itoa(w.mem.nextId), step.request))
  {
    var w' := Next(w, step);
    if s in w'.pending {
      PendingBefore(w, step, s);
    } else if s in w'.mem.schedules.Values {
      RecordBefore(w, step, s);
    } else {
      FiledBefore(w, step, s);
    }
  }

  lemma PendingBefore(w: World, step: Step, s: Schedule)
    requires s in Next(w, step).pending
    ensures exists s0 :: About(w, s0) && OnlyStamped(s0, s)
  {
    assert About(w, s) && OnlyStamped(s, s);
  }

  lemma RecordBefore(w: World, step: Step, s: Schedule)
    requires s in Next(w, step).mem.schedules.Values
    ensures || (exists s0 :: About(w, s0) && OnlyStamped(s0, s))
            || (step.Create? && Acceptable(step.request) && Carries(s, Itoa(w.mem.nextId), step.request))
  {
    var k :| k in Next(w, step).mem.schedules && Next(w, step).mem.schedules[k] == s;
    if step.TickNext? && w.pending != [] && w.clock.Some? {
      assert About(w, w.pending[0]);
      assert Due(w.pending[0], w.clock.value) && k == w.pending[0].id ==> OnlyStamped(w.pending[0], s);
    }
    assert OnlyStamped(s, s);
  }

  lemma FiledBefore(w: World, step: Step, s: Schedule)
    requires Next(w, step).file.Some? && s in Next(w, step).file.value.schedules.Values
    ensures || (exists s0 :: About(w, s0) && OnlyStamped(s0, s))
            || (step.Create? && Acceptable(step.request) && Carries(s, Itoa(w.mem.nextId), step.request))
  {
    var w' := Next(w, step);
    var k :| k in w'.file.value.schedules && w'.file.value.schedules[k] == s;
    if w'.file == w.file {
      assert About(w, s) && OnlyStamped(s, s);
    } else {
      FileKeepsAllButStamps(w'.mem);
      var kept := w'.mem.schedules[k];
      RecordBefore(w, step, kept);
      if s0 :| About(w, s0) && OnlyStamped(s0, kept) {
        assert OnlyStamped(s0, s);
      }
    }
  }

  lemma GenuineLater(file: Option<State>, steps: seq<Step>, s: Schedule)
    requires steps != [] && Genuine(file, steps[..|steps| - 1], s)
    ensures Genuine(file, steps, s)
  {
    if !CameWith(file, s) {
      var i :| AskedAt(file, steps[..|steps| - 1], i, s);
      assert steps[..|steps| - 1][..i] == steps[..i];
      assert AskedAt(file, steps, i, s);
    }
  }

  lemma GenuineRestamped(file: Option<State>, steps: seq<Step>, s0: Schedule, s: Schedule)
    requires Genuine(file, steps, s0) && OnlyStamped(s0, s)
    ensures Genuine(file, steps, s)
  {
    if CameWith(file, s0) {
      var k :| k in Loaded(file).schedules && OnlyStamped(Loaded(file).schedules[k], s0);
      assert OnlyStamped(Loaded(file).schedules[k], s);
    } else {
      var i :| AskedAt(file, steps, i, s0);
      assert AskedAt(file, steps, i, s);
    }
  }

  /** Over any run, every record in memory, in a tick's snapshot or in the file carries the id,
      name, address, method, body and localtime of the accepted create that made it, enabled,
      or those of the record it came with in the first file. */
  lemma {:induction false} RecordsStayWhatWasAsked(file: Option<State>, steps: seq<Step>, s: Schedule)
    requires About(Run(Boot(file), steps), s)
    ensures Genuine(file, steps, s)
    decreases |steps|
  {
    if steps == [] {
      assert OnlyStamped(s, s);
    } else {
      var front, last := steps[..|steps| - 1], steps[|steps| - 1];
      RunConcat(Boot(file), front, [last] + []);
      RunCons(Run(Boot(file), front), last, []);
      assert steps == front + ([last] + []);
      AboutBefore(Run(Boot(file), front), last, s);
      if s0 :| About(Run(Boot(file), front), s0) && OnlyStamped(s0, s) {
        RecordsStayWhatWasAsked(file, front, s0);
        GenuineLater(file, steps, s0);
        GenuineRestamped(file, steps, s0, s);
      } else {
        assert AskedAt(file, steps, |front|, s);
      }
    }
  }

  /** The request is for this write at this time: to the light its address names, with the on
      and bri that stand in its body and no colour. */
  ghost predicate AsksFor(r: Request, now: Instant, resolve: int -> Option<string>, call: (string, Desired)) {
    && Acceptable(r) && Matches(r.localTime, now) && ResolveTarget(r.address, resolve) == Some(call.0)
    && call.1.xy == None && call.1.ct == None
    && match r.body
       case Some(o) => AsksForOnBri(o, call.1)
       case None => call.1 == NOTHING
  }

  /** So, from an empty store, every write a tick sends is one that some create of the run asks
      for. */
  lemma TicksSendWhatWasAsked(steps: seq<Step>, now: Instant, resolve: int -> Option<string>, call: (string, Desired))
    requires call in CallsOf(Run(Boot(None), steps).pending, now, resolve)
    ensures exists i :: 0 <= i < |steps| && steps[i].Create? && AsksFor(steps[i].request, now, resolve, call)
  {
    var w := Run(Boot(None), steps);
    var s := CallComesFrom(w.pending, now, resolve, call);
    RecordsStayWhatWasAsked(None, steps, s);
    var i :| AskedAt(None, steps, i, s);
    CarriedIsAsked(s, Itoa(Run(Boot(None), steps[..i]).mem.nextId), steps[i].request, now, resolve, call);
  }

  lemma CarriedIsAsked(s: Schedule, id: string, r: Request, now: Instant, resolve: int -> Option<string>, call: (string, Desired))
    requires Carries(s, id, r) && Acceptable(r) && Due(s, now)
    requires ResolveTarget(s.address, resolve) == Some(call.0) && call.1 == TickDesired(s.body)
    ensures AsksFor(r, now, resolve, call)
  {
    if s.body.Some? {
      WritesAskWhatStandsInTheBody(s.body.value);
    }
  }

  lemma {:induction false} CallComesFrom(snapshot: seq<Schedule>, now: Instant, resolve: int -> Option<string>, call: (string, Desired))
    returns (s: Schedule)
    requires call in CallsOf(snapshot, now, resolve)
    ensures s in snapshot && Due(s, now) && ResolveTarget(s.address, resolve) == Some(call.0) && call.1 == TickDesired(s.body)
  {
    s := snapshot[|snapshot| - 1];
    if call !in CallOf(s, now, resolve) {
      s := CallComesFrom(snapshot[..|snapshot| - 1], now, resolve, call);
    }
  }
}
