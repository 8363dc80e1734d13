/** PUT /lights/<id>/state of internal/hue/lights.go, and a fired schedule beside it. */
module Lights {
  import opened Options
  import opened Decimal
  import opened Text
  import opened Clock
  import opened LightState
  import opened Json
  import opened LightCommands
  import opened CacheBackend
  import R = Registry
  import opened Schedules

  /** The write a PUT sends: none for an unknown light or a body that does not decode. */
  function PutCalls(entries: seq<R.Entry>, pathId: string, body: Option<Object>): seq<(string, Desired)> {
    match Atoi(pathId)
    case None => []
    case Some(id) =>
      var entry := R.ByHue(entries, id);
      if entry.Some? && body.Some? then [(entry.value.entityId, PutDesired(body.value))] else []
  }

  /** How the ticker is wired to the registry. */
  function Resolver(entries: seq<R.Entry>): int -> Option<string> {
    (id: int) =>
      var entry := R.ByHue(entries, id);
      if entry.Some? then Some(entry.value.entityId) else None
  }

  datatype PutResult = NotFound | BadJson | InternalError | Done

  /** The handler asks the backend for exactly PutCalls and reports what became of it. */
  method HandlePutLightState(reg: R.Registry, be: Cache, pathId: string, body: Option<Object>) returns (r: PutResult)
    requires be.Valid()
    modifies be, be.inner`states
    ensures be.Valid()
    ensures be.sent == old(be.sent) + PutCalls(reg.entries, pathId, body)
    ensures be.states == WriteAll(old(be.states), old(be.inner.states).Keys, be.inner.down, PutCalls(reg.entries, pathId, body))
    ensures be.inner.states == ApplyAll(old(be.inner.states), be.inner.down, be.inner.apply, PutCalls(reg.entries, pathId, body))
    ensures r == BadJson <==> r != NotFound && body.None?
    ensures r == NotFound <==> Atoi(pathId).None? || R.ByHue(reg.entries, Atoi(pathId).value).None?
    ensures r == Done <==> exists e, d :: PutCalls(reg.entries, pathId, body) == [(e, d)] && e in old(be.inner.states) && e !in be.inner.down
  {
    var id := Atoi(pathId);
    if id.None? {
      return NotFound;
    }
    var entry := reg.ByHueID(id.value);
    if entry.None? {
      return NotFound;
    }
    if body.None? {
      return BadJson;
    }
    var raw := body.value;
    var desired := NOTHING;
    var on := BoolAt(raw, "on");
    if on.Some? {
      desired := desired.(on := on);
    }
    var bri := NumberAt(raw, "bri");
    if bri.Some? {
      desired := desired.(brightness := Some(ToByte(bri.value)));
    }
    if IsPair(raw, "xy") {
      var items := raw["xy"].items;
      desired := desired.(xy := Some(Xy(NumberOrZero(items[0]), NumberOrZero(items[1]))));
    }
    var ct := NumberAt(raw, "ct");
    if ct.Some? {
      desired := desired.(ct := Some(ToWord(ct.value)));
    }
    assert PutCalls(reg.entries, pathId, body) == [(entry.value.entityId, desired)];
    assert [(entry.value.entityId, desired)][..0] == [];
    var ok := be.SetState(entry.value.entityId, desired);
    assert forall e, d :: [(e, d)] == [(entry.value.entityId, desired)] ==> [(e, d)][0] == [(entry.value.entityId, desired)][0];
    r := if ok then Done else InternalError;
  }

  /** A PUT on a light's own number asks that light for what stands in the body. */
  lemma PutAsksForItsBody(entries: seq<R.Entry>, entry: R.Entry, o: Object)
    requires R.ByHue(entries, entry.hueId) == Some(entry)
    ensures exists d ::
              PutCalls(entries, Itoa(entry.hueId), Some(o)) == [(entry.entityId, d)] && AsksForOnBri(o, d) && AsksForColours(o, d)
  {
    AtoiItoa(entry.hueId);
    WritesAskWhatStandsInTheBody(o);
    assert PutCalls(entries, Itoa(entry.hueId), Some(o)) == [(entry.entityId, PutDesired(o))];
  }

  lemma OneDueCall(s: Schedule, now: Instant, resolve: int -> Option<string>)
    requires Due(s, now)
    ensures CallsOf([s], now, resolve) ==
            match ResolveTarget(s.address, resolve)
            case None => []
            case Some(e) => [(e, TickDesired(s.body))]
  {
    assert [s][..0] == [];
  }

  /** A due schedule on a light's recorded address sends what PUT on that light would send
      for the same body, exactly as long as the light is unknown or the body has no colour. */
  lemma ScheduleFiresLikePut(entries: seq<R.Entry>, s: Schedule, now: Instant, prefix: string, id: int, o: Object)
    requires "lights" !in Split(prefix, '/')
    requires s.address == LightAddress(prefix, id) && s.body == Some(o) && Due(s, now)
    ensures CallsOf([s], now, Resolver(entries)) == PutCalls(entries, Itoa(id), Some(o)) <==>
            (R.ByHue(entries, id).None? || (!IsPair(o, "xy") && NumberAt(o, "ct").None?))
    ensures o.Keys <= {"on", "bri"} ==> CallsOf([s], now, Resolver(entries)) == PutCalls(entries, Itoa(id), Some(o))
  {
    OneDueCall(s, now, Resolver(entries));
    AddressResolvesToItsLight(prefix, id, Resolver(entries));
    CallsCompare(entries, id, o);
  }

  /** And a body of a boolean on and a whole bri in 0..255 reaches the light as it stands. */
  lemma OnBriScheduleSendsItsBody(entries: seq<R.Entry>, s: Schedule, now: Instant, prefix: string, entry: R.Entry,
                                  on: bool, bri: Byte)
    requires "lights" !in Split(prefix, '/') && R.ByHue(entries, entry.hueId) == Some(entry)
    requires s.address == LightAddress(prefix, entry.hueId) && Due(s, now)
    requires s.body == Some(map["on" := Bool(on), "bri" := Number(bri as real)])
    ensures CallsOf([s], now, Resolver(entries)) == PutCalls(entries, Itoa(entry.hueId), s.body) ==
            [(entry.entityId, Desired(Some(on), Some(bri), None, None))]
  {
    var o := s.body.value;
    ScheduleFiresLikePut(entries, s, now, prefix, entry.hueId, o);
    OneDueCall(s, now, Resolver(entries));
    AddressResolvesToItsLight(prefix, entry.hueId, Resolver(entries));
    WritesAskWhatStandsInTheBody(o);
    ToByteInRange(bri);
  }

  lemma CallsCompare(entries: seq<R.Entry>, id: int, o: Object)
    ensures var fired := match Resolver(entries)(id) { case None => [] case Some(e) => [(e, TickDesired(Some(o)))] };
            && (fired == PutCalls(entries, Itoa(id), Some(o)) <==>
                  (R.ByHue(entries, id).None? || (!IsPair(o, "xy") && NumberAt(o, "ct").None?)))
            && (o.Keys <= {"on", "bri"} ==> fired == PutCalls(entries, Itoa(id), Some(o)))
  {
    AtoiItoa(id);
    TickWritesWhatPutWritesUnlessColoured(o);
    var entry := R.ByHue(entries, id);
    if entry.Some? {
      var e := entry.value.entityId;
      assert PutCalls(entries, Itoa(id), Some(o)) == [(e, PutDesired(o))];
      assert [(e, TickDesired(Some(o)))][0].1 == TickDesired(Some(o)) && [(e, PutDesired(o))][0].1 == PutDesired(o);
    }
  }
}
