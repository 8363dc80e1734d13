/** How a request body and an address become a write: PUT /lights/<id>/state in
    internal/hue/lights.go and a fired schedule in internal/hue/schedules.go. */
module LightCommands {
  import opened Options
  import opened Decimal
  import opened Text
  import opened LightState
  import opened Json

  /** What Tick takes from a schedule's body; a body that is no object is an empty one. */
  function TickDesired(body: Option<Object>): Desired {
    match body
    case None => NOTHING
    case Some(o) =>
      var bri := NumberAt(o, "bri");
      Desired(BoolAt(o, "on"), if bri.Some? then Some(ToByte(bri.value)) else None, None, None)
  }

  predicate IsPair(o: Object, key: string) {
    key in o && o[key].Array? && |o[key].items| == 2
  }

  function NumberOrZero(v: Json): real {
    if v.Number? then v.n else 0.0
  }

  /** What PUT on a light takes from its body. */
  function PutDesired(o: Object): Desired {
    var bri := NumberAt(o, "bri");
    var ct := NumberAt(o, "ct");
    Desired(
      BoolAt(o, "on"),
      if bri.Some? then Some(ToByte(bri.value)) else None,
      if IsPair(o, "xy") then Some(Xy(NumberOrZero(o["xy"].items[0]), NumberOrZero(o["xy"].items[1]))) else None,
      if ct.Some? then Some(ToWord(ct.value)) else None)
  }

  /** d asks for the on and the brightness that stand in the body: a boolean, and the whole part of
      a number in 0..255; any other value, or none, asks for nothing. */
  predicate AsksForOnBri(o: Object, d: Desired) {
    && (d.on.Some? <==> "on" in o && o["on"].Bool?)
    && (d.on.Some? ==> o["on"] == Bool(d.on.value))
    && (d.brightness.Some? <==> "bri" in o && o["bri"].Number?)
    && (d.brightness.Some? && 0.0 <= o["bri"].n < 256.0 ==> d.brightness.value == o["bri"].n.Floor)
  }

  /** And for the colours: a pair, whose elements count as 0 unless they are numbers, and the
      whole part of a number in 0..65535. */
  predicate AsksForColours(o: Object, d: Desired) {
    && (d.xy.Some? <==> "xy" in o && o["xy"].Array? && |o["xy"].items| == 2)
    && (d.xy.Some? ==>
          && (o["xy"].items[0].Number? ==> o["xy"].items[0] == Number(d.xy.value.x))
          && (!o["xy"].items[0].Number? ==> d.xy.value.x == 0.0)
          && (o["xy"].items[1].Number? ==> o["xy"].items[1] == Number(d.xy.value.y))
          && (!o["xy"].items[1].Number? ==> d.xy.value.y == 0.0))
    && (d.ct.Some? <==> "ct" in o && o["ct"].Number?)
    && (d.ct.Some? && 0.0 <= o["ct"].n < 65536.0 ==> d.ct.value == o["ct"].n.Floor)
  }

  /** PUT writes what stands in its body, and a schedule the on and bri that stand in its own. */
  lemma WritesAskWhatStandsInTheBody(o: Object)
    ensures AsksForOnBri(o, PutDesired(o)) && AsksForColours(o, PutDesired(o))
    ensures AsksForOnBri(o, TickDesired(Some(o)))
    ensures TickDesired(Some(o)).xy == None && TickDesired(Some(o)).ct == None && TickDesired(None) == NOTHING
  {
  }

  /** Firing a recorded body writes what the same body writes through PUT exactly when it
      carries no colour; with one, the colour is dropped. */
  lemma TickWritesWhatPutWritesUnlessColoured(o: Object)
    ensures TickDesired(Some(o)) == PutDesired(o) <==> !IsPair(o, "xy") && NumberAt(o, "ct").None?
    ensures o.Keys <= {"on", "bri"} ==> TickDesired(Some(o)) == PutDesired(o)
    ensures TickDesired(Some(o)) == PutDesired(o).(xy := None, ct := None)
  {
  }

  // ----- resolveTargetEntity -----

  /** The number after the first "lights" segment that has a segment after it. */
  function LightIdIn(parts: seq<string>): Option<int> {
    if |parts| < 2 then None
    else if parts[0] == "lights" then Atoi(parts[1])
    else LightIdIn(parts[1..])
  }

  function LightId(address: string): Option<int> {
    LightIdIn(Split(Trim(address, '/'), '/'))
  }

  function ResolveTarget(address: string, resolve: int -> Option<string>): Option<string> {
    match LightId(address)
    case None => None
    case Some(id) => resolve(id)
  }

  /** The address an app records for a light under any API prefix. */
  function LightAddress(prefix: string, id: int): string {
    prefix + "/lights/" + Itoa(id) + "/state"
  }

  lemma {:induction false} TrimLeftDropsEmptySegments(s: string)
    ensures LightIdIn(Split(TrimLeft(s, '/'), '/')) == LightIdIn(Split(s, '/'))
    ensures s != [] && s[|s| - 1] != '/' ==> Trim(s, '/') == TrimLeft(s, '/')
    decreases |s|
  {
    if s != [] && s[0] == '/' {
      TrimLeftDropsEmptySegments(s[1..]);
      assert Split(s, '/')[1..] == Split(s[1..], '/');
    }
  }

  lemma ItoaHasNoSlash(n: int)
    ensures '/' !in Itoa(n)
  {
    assert forall c | c in Digits(if n < 0 then -n else n) :: IsDigit(c);
  }

  lemma SplitTail(id: string)
    requires '/' !in id
    ensures Split("lights" + ['/'] + (id + ['/'] + "state"), '/') == ["lights", id, "state"]
  {
    SplitConcat("lights", id + ['/'] + "state", '/');
    SplitConcat(id, "state", '/');
    SplitWithout("lights", '/');
    SplitWithout(id, '/');
    SplitWithout("state", '/');
  }

  lemma AddressSegments(prefix: string, id: int)
    ensures LightId(LightAddress(prefix, id)) == LightIdIn(Split(prefix, '/') + ["lights", Itoa(id), "state"])
  {
    var tail := "lights" + ['/'] + (Itoa(id) + ['/'] + "state");
    var address := prefix + ['/'] + tail;
    assert LightAddress(prefix, id) == address;
    assert address[|address| - 1] == tail[|tail| - 1] == 'e';
    TrimLeftDropsEmptySegments(address);
    SplitConcat(prefix, tail, '/');
    ItoaHasNoSlash(id);
    SplitTail(Itoa(id));
  }

  lemma {:induction false} FirstLightsSegmentWins(a: seq<string>, b: seq<string>)
    requires b != []
    ensures "lights" !in a ==> LightIdIn(a + b) == LightIdIn(b)
    ensures "lights" in a ==> LightIdIn(a + b) == LightIdIn(a + b[..1])
  {
    if a == [] {
      assert a + b == b;
    } else {
      assert (a + b)[1..] == a[1..] + b && (a + b[..1])[1..] == a[1..] + b[..1];
      if a[0] != "lights" {
        FirstLightsSegmentWins(a[1..], b);
      }
    }
  }

  /** The address round trip: the recorded address of light id resolves to id. */
  lemma AddressResolvesToItsLight(prefix: string, id: int, resolve: int -> Option<string>)
    requires "lights" !in Split(prefix, '/')
    ensures LightId(LightAddress(prefix, id)) == Some(id)
    ensures ResolveTarget(LightAddress(prefix, id), resolve) == resolve(id)
  {
    AddressSegments(prefix, id);
    FirstLightsSegmentWins(Split(prefix, '/'), ["lights", Itoa(id), "state"]);
    AtoiItoa(id);
  }

  /** And the condition on the prefix is exact: every light's address under it resolves to
      that light if and only if the prefix has no lights segment of its own. */
  lemma AddressesResolveIffPrefixHasNoLights(prefix: string)
    ensures (forall id :: LightId(LightAddress(prefix, id)) == Some(id)) <==> "lights" !in Split(prefix, '/')
  {
    if "lights" !in Split(prefix, '/') {
      forall id
        ensures LightId(LightAddress(prefix, id)) == Some(id)
      {
        AddressResolvesToItsLight(prefix, id, n => None);
      }
    } else {
      forall id
        ensures LightId(LightAddress(prefix, id)) == LightIdIn(Split(prefix, '/') + ["lights"])
      {
        AddressSegments(prefix, id);
        FirstLightsSegmentWins(Split(prefix, '/'), ["lights", Itoa(id), "state"]);
        assert ["lights", Itoa(id), "state"][..1] == ["lights"];
      }
      assert LightId(LightAddress(prefix, 1)) == LightId(LightAddress(prefix, 2));
    }
  }
}
