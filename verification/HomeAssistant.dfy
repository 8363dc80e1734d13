/** internal/backend/homeassistant/homeassistant.go: which service a write calls, what the
    bridge reads back, and when the cache's optimistic merge agrees with Home Assistant. */
module HomeAssistant {
  import opened Options
  import opened LightState
  import opened Json

  /** Home Assistant's own record of an entity; None is an absent attribute. */
  datatype HaState = HaState(state: string, brightness: Option<Json>, xyColor: Option<Json>, colorTemp: Option<Json>)

  /** A two-element list of numbers. */
  function XyOf(v: Json): Option<Xy> {
    if v.Array? && |v.items| == 2 && v.items[0].Number? && v.items[1].Number?
    then Some(Xy(v.items[0].n, v.items[1].n)) else None
  }

  function ToEntityState(entityId: string, s: HaState): EntityState {
    EntityState(
      entityId,
      s.state == "on",
      if s.brightness.Some? && s.brightness.value.Number? then Some(ToByte(s.brightness.value.n)) else None,
      if s.xyColor.Some? then XyOf(s.xyColor.value) else None,
      if s.colorTemp.Some? && s.colorTemp.value.Number? && s.colorTemp.value.n > 0.0
      then Some(ToWord(s.colorTemp.value.n)) else None,
      s.state != "unavailable")
  }

  /** What is reported and what that reads as. A brightness is a whole number in 0..255, a colour
      temperature in 1..65535; any other kind of value, or none, reads as none. */
  lemma ReportedReads(entityId: string, s: HaState, bri: Byte, ct: Word, x: real, y: real)
    ensures var e := ToEntityState(entityId, s);
            && e.entityId == entityId
            && (e.on <==> s.state == "on") && (e.reachable <==> s.state != "unavailable")
            && (s.brightness == Some(Number(bri as real)) ==> e.brightness == Some(bri))
            && (s.brightness.None? || !s.brightness.value.Number? ==> e.brightness == None)
            && (s.xyColor == Some(Array([Number(x), Number(y)])) ==> e.xy == Some(Xy(x, y)))
            && (s.xyColor.None? || !s.xyColor.value.Array? || |s.xyColor.value.items| != 2 ==> e.xy == None)
            && (s.colorTemp == Some(Number(ct as real)) ==> e.ct == if ct == 0 then None else Some(ct))
            && (s.colorTemp.None? || !s.colorTemp.value.Number? ==> e.ct == None)
  {
    ToByteInRange(bri);
  }

  datatype Call = NoCall | TurnOff | TurnOn(brightness: Option<Byte>, xy: Option<Xy>, ct: Option<Word>)

  function TurnOnWith(d: Desired): Call {
    TurnOn(d.brightness, d.xy, d.ct)
  }

  /** The service SetState selects; currentOn is what its own GetState reports when On is nil. */
  function Plan(d: Desired, currentOn: bool): Call {
    match d.on
    case Some(false) => TurnOff
    case Some(true) => TurnOnWith(d)
    case None =>
      if !HasAttributes(d) then NoCall
      else if !currentOn then NoCall
      else TurnOnWith(d)
  }

  /** Assumed of Home Assistant: turn_on sets on and the supplied attributes, turn_off sets
      off and nothing else. */
  function Execute(s: HaState, call: Call): HaState {
    match call
    case NoCall => s
    case TurnOff => s.(state := "off")
    case TurnOn(b, xy, ct) =>
      HaState(
        "on",
        if b.Some? then Some(Number(b.value as real)) else s.brightness,
        if xy.Some? then Some(Array([Number(xy.value.x), Number(xy.value.y)])) else s.xyColor,
        if ct.Some? then Some(Number(ct.value as real)) else s.colorTemp)
  }

  /** One sequential SetState against Home Assistant. */
  function Write(entityId: string, s: HaState, d: Desired): HaState {
    Execute(s, Plan(d, ToEntityState(entityId, s).on))
  }

  /** The attributes of d reach Home Assistant. */
  predicate Sent(o: EntityState, d: Desired) {
    d.on == Some(true) || (d.on == None && o.on)
  }

  /** The attributes of d are already what the snapshot says. */
  predicate Redundant(o: EntityState, d: Desired) {
    && (d.brightness.Some? ==> o.brightness == d.brightness)
    && (d.ct.Some? ==> o.ct == d.ct && o.xy == None)
    && (d.ct.None? && d.xy.Some? ==> o.xy == d.xy && o.ct == None)
  }

  /** Writing d leaves no attribute of the other colour mode behind in Home Assistant. */
  predicate LeavesOneColourMode(o: EntityState, d: Desired) {
    && (d.ct.Some? ==> d.ct != Some(0) && d.xy == None && o.xy == None)
    && (d.ct.None? && d.xy.Some? ==> o.ct == None)
  }

  /** Everything here is known from the snapshot and the request before the call. */
  predicate Faithful(o: EntityState, d: Desired) {
    && (d.on.Some? ==> o.reachable)
    && if Sent(o, d) then LeavesOneColourMode(o, d) else Redundant(o, d)
  }

  /** What the entity reads as after a sequential write, in terms of what it read as before. */
  function Observed(o: EntityState, d: Desired): EntityState {
    if Sent(o, d) && (d.on.Some? || HasAttributes(d)) then
      EntityState(o.entityId, true, Or(d.brightness, o.brightness), Or(d.xy, o.xy),
                  if d.ct == Some(0) then None else Or(d.ct, o.ct), true)
    else if d.on == Some(false) then o.(on := false, reachable := true)
    else o
  }

  lemma WriteIsObserved(entityId: string, s: HaState, d: Desired)
    ensures ToEntityState(entityId, Write(entityId, s, d)) == Observed(ToEntityState(entityId, s), d)
  {
    if Plan(d, ToEntityState(entityId, s).on).TurnOn? {
      TurnOnIsObserved(entityId, s, d);
    }
  }

  lemma TurnOnIsObserved(entityId: string, s: HaState, d: Desired)
    ensures var o := ToEntityState(entityId, s);
            ToEntityState(entityId, Execute(s, TurnOnWith(d))) ==
            EntityState(entityId, true, Or(d.brightness, o.brightness), Or(d.xy, o.xy),
                        if d.ct == Some(0) then None else Or(d.ct, o.ct), true)
  {
  }

  /** On is kept when the request leaves it nil and otherwise becomes the request's, in Home
      Assistant and in the merged snapshot alike. */
  lemma OnAlwaysAgrees(entityId: string, s: HaState, d: Desired)
    ensures var before := ToEntityState(entityId, s);
            var after := ToEntityState(entityId, Write(entityId, s, d));
            && after.on == (if d.on.Some? then d.on.value else before.on)
            && Merge(before, d).on == after.on
  {
  }

  /** The merged snapshot equals what Home Assistant reports exactly for faithful writes. */
  lemma MergeAgreesExactlyWhenFaithful(entityId: string, s: HaState, d: Desired)
    ensures var before := ToEntityState(entityId, s);
            Merge(before, d) == ToEntityState(entityId, Write(entityId, s, d)) <==> Faithful(before, d)
  {
    WriteIsObserved(entityId, s, d);
  }

  /** Two whole families the snapshot gets wrong: an attribute sent to a light that is off
      without switching it on, and off together with an attribute. Neither attribute is ever
      sent, and the cache keeps it. */
  lemma CacheStoresAttributesNeverSent(entityId: string, s: HaState, d: Desired)
    requires d.brightness.Some? && ToEntityState(entityId, s).brightness != d.brightness
    requires d.on == Some(false) || (d.on == None && s.state != "on")
    ensures !Plan(d, ToEntityState(entityId, s).on).TurnOn?
    ensures Merge(ToEntityState(entityId, s), d).brightness == d.brightness
    ensures ToEntityState(entityId, Write(entityId, s, d)).brightness != d.brightness
  {
    WriteIsObserved(entityId, s, d);
  }

  /** SetState reads On and calls the service in two steps; read is what the first sees and
      found what the second meets. A request that leaves On nil keeps it, unless it carries
      attributes, was planned for a light that was on, and meets one that is not: that one it
      switches on, though no one asked for that and the same request would now send nothing. */
  lemma AttributeWriteCanUndoAnOff(entityId: string, read: HaState, found: HaState, d: Desired)
    requires d.on == None
    ensures var after := Execute(found, Plan(d, ToEntityState(entityId, read).on));
            var overtaken := HasAttributes(d) && read.state == "on" && found.state != "on";
            && ((after.state == "on") == (found.state == "on") <==> !overtaken)
            && (overtaken ==> after.state == "on" && Write(entityId, found, d) == found)
  {
  }
}
