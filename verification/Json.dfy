/** Decoded JSON values, as far as the bridge looks into them. */
module Json {
  import opened Options
  import opened LightState

  datatype Json = Bool(b: bool) | Number(n: real) | Array(items: seq<Json>) | Other

  type Object = map<string, Json>

  /** Go's conversions of a float64. For values in range they truncate; out of range Go leaves
      the result to the implementation, and this picks wrap-around. */
  function ToByte(n: real): Byte {
    n.Floor % 256
  }

  function ToWord(n: real): Word {
    n.Floor % 65536
  }

  lemma ToByteInRange(b: Byte)
    ensures ToByte(b as real) == b
  {
  }

  function NumberAt(o: Object, key: string): Option<real> {
    if key in o && o[key].Number? then Some(o[key].n) else None
  }

  function BoolAt(o: Object, key: string): Option<bool> {
    if key in o && o[key].Bool? then Some(o[key].b) else None
  }
}
