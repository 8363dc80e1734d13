/** The bridge's identity, derived from its MAC address in internal/tls/cert.go,
    cmd/huebridge/description.go, internal/discovery/ssdp.go and the config handlers. */
module BridgeIdentity {
  import opened Options

  type Octet = n: nat | n < 256

  // ----- Hexadecimal text. -----

  predicate IsLowerHex(c: char) {
    '0' <= c <= '9' || 'a' <= c <= 'f'
  }

  function HexChar(d: nat): (c: char)
    requires d < 16
    ensures IsLowerHex(c) && HexDigit(c) == Some(d)
  {
    if d < 10 then ('0' as int + d) as char else ('a' as int + d - 10) as char
  }

  function HexDigit(c: char): Option<nat> {
    if '0' <= c <= '9' then Some(c as int - '0' as int)
    else if 'a' <= c <= 'f' then Some(c as int - 'a' as int + 10)
    else if 'A' <= c <= 'F' then Some(c as int - 'A' as int + 10)
    else None
  }

  function HexEncode(octets: seq<Octet>): (s: string)
    ensures |s| == 2 * |octets| && forall i | 0 <= i < |s| :: IsLowerHex(s[i])
  {
    if octets == [] then ""
    else
      var last := octets[|octets| - 1];
      HexEncode(octets[..|octets| - 1]) + [HexChar(last / 16), HexChar(last % 16)]
  }

  function Upper(c: char): char {
    if 'a' <= c <= 'z' then (c as int - 32) as char else c
  }

  function Lower(c: char): char {
    if 'A' <= c <= 'Z' then (c as int + 32) as char else c
  }

  function ToUpper(s: string): string {
    seq(|s|, i requires 0 <= i < |s| => Upper(s[i]))
  }

  function ToLower(s: string): string {
    seq(|s|, i requires 0 <= i < |s| => Lower(s[i]))
  }

  /** The value of a string of hexadecimal digits of either case. */
  function ParseHex(s: string): Option<nat> {
    if s == [] then Some(0)
    else
      var front := ParseHex(s[..|s| - 1]);
      var last := HexDigit(s[|s| - 1]);
      if front.Some? && last.Some? then Some(front.value * 16 + last.value) else None
  }

  function BigEndian(octets: seq<Octet>): nat {
    if octets == [] then 0 else BigEndian(octets[..|octets| - 1]) * 256 + octets[|octets| - 1]
  }

  // ----- The four derivations. -----

  function BridgeID(mac: seq<Octet>): string
    requires |mac| >= 6
  {
    var raw := HexEncode(mac);
    ToUpper(raw[0..6] + "fffe" + raw[6..12])
  }

  function SerialNumber(bridgeID: string): string {
    var id := ToLower(bridgeID);
    if |id| != 16 then id else id[..6] + id[10..]
  }

  const UUID_PREFIX := "uuid:2f402f80-da50-11e1-9b23-"

  function SsdpUSN(bridgeID: string): string
    requires |bridgeID| >= 6
  {
    UUID_PREFIX + ToLower(bridgeID[..6] + bridgeID[|bridgeID| - 6..]) + "::upnp:rootdevice"
  }

  /** The UDN element of the device description. */
  function DescriptionUDN(bridgeID: string): string {
    UUID_PREFIX + SerialNumber(bridgeID)
  }

  /** The mac field of the config: net.HardwareAddr's String. */
  function MacString(mac: seq<Octet>): string {
    if mac == [] then ""
    else
      var front := mac[..|mac| - 1];
      var last := HexEncode([mac[|mac| - 1]]);
      if front == [] then last else MacString(front) + ":" + last
  }

  function Without(s: string, c: char): string {
    if s == [] then ""
    else if s[|s| - 1] == c then Without(s[..|s| - 1], c)
    else Without(s[..|s| - 1], c) + [s[|s| - 1]]
  }

  // ----- They agree. -----

  /** The text before ToUpper, for a MAC of six octets. */
  function LowerID(mac: seq<Octet>): string
    requires |mac| == 6
  {
    HexEncode(mac)[..6] + "fffe" + HexEncode(mac)[6..]
  }

  lemma BridgeIDIsItsUpperCase(mac: seq<Octet>)
    requires |mac| == 6
    ensures BridgeID(mac) == ToUpper(LowerID(mac)) && ToLower(BridgeID(mac)) == LowerID(mac)
    ensures |BridgeID(mac)| == 16
  {
    var raw := HexEncode(mac);
    assert raw[0..6] == raw[..6] && raw[6..12] == raw[6..];
    assert forall i | 0 <= i < 16 :: IsLowerHex(LowerID(mac)[i]);
  }

  /** An id of another length is only lowered. */
  lemma OtherIdsAreLowered(id: string)
    requires |id| != 16
    ensures |SerialNumber(id)| == |id| && forall i | 0 <= i < |id| :: SerialNumber(id)[i] == Lower(id[i])
  {
  }

  lemma LowerOfEnds(id: string)
    requires |id| == 16
    ensures ToLower(id[..6] + id[|id| - 6..]) == ToLower(id)[..6] + ToLower(id)[10..]
  {
  }

  /** serialNumber undoes BridgeID: it is the lower-case hex of the MAC, which is also the
      suffix of the SSDP name, of the device description, and the config's mac without colons. */
  lemma IdentityAgreesEverywhere(mac: seq<Octet>)
    requires |mac| == 6
    ensures SerialNumber(BridgeID(mac)) == HexEncode(mac)
    ensures DescriptionUDN(BridgeID(mac)) == "uuid:2f402f80-da50-11e1-9b23-" + HexEncode(mac)
    ensures SsdpUSN(BridgeID(mac)) == "uuid:2f402f80-da50-11e1-9b23-" + HexEncode(mac) + "::upnp:rootdevice"
    ensures Without(MacString(mac), ':') == HexEncode(mac)
  {
    BridgeIDIsItsUpperCase(mac);
    var id := BridgeID(mac);
    var low := LowerID(mac);
    assert low[..6] + low[10..] == HexEncode(mac);
    LowerOfEnds(id);
    MacStringDigits(mac);
  }

  lemma {:induction false} WithoutConcat(a: string, b: string, c: char)
    ensures Without(a + b, c) == Without(a, c) + Without(b, c)
  {
    if b == [] {
      assert a + b == a;
    } else {
      assert (a + b)[..|a + b| - 1] == a + b[..|b| - 1];
      WithoutConcat(a, b[..|b| - 1], c);
    }
  }

  lemma {:induction false} NothingToRemove(s: string, c: char)
    requires c !in s
    ensures Without(s, c) == s
  {
    if s != [] {
      NothingToRemove(s[..|s| - 1], c);
    }
  }

  lemma MacStringStep(mac: seq<Octet>)
    requires |mac| >= 2
    ensures MacString(mac) == MacString(mac[..|mac| - 1]) + (":" + HexEncode([mac[|mac| - 1]]))
  {
  }

  lemma HexEncodeStep(mac: seq<Octet>)
    requires mac != []
    ensures HexEncode(mac) == HexEncode(mac[..|mac| - 1]) + HexEncode([mac[|mac| - 1]])
  {
    assert [mac[|mac| - 1]][..0] == [];
  }

  lemma ColonRemoved(s: string)
    requires forall c | c in s :: IsLowerHex(c)
    ensures Without(s, ':') == Without(":" + s, ':') == s
  {
    NothingToRemove(s, ':');
    WithoutConcat(":", s, ':');
    assert ":"[..0] == [];
  }

  lemma {:induction false} MacStringDigits(mac: seq<Octet>)
    ensures Without(MacString(mac), ':') == HexEncode(mac)
  {
    if mac != [] {
      var front, last := mac[..|mac| - 1], HexEncode([mac[|mac| - 1]]);
      HexEncodeStep(mac);
      ColonRemoved(last);
      if front != [] {
        MacStringDigits(front);
        MacStringStep(mac);
        WithoutConcat(MacString(front), ":" + last, ':');
      }
    }
  }

  /** x with n hexadecimal zeros behind it. */
  function Shifted(x: nat, n: nat): nat
    decreases n
  {
    if n == 0 then x else 16 * Shifted(x, n - 1)
  }

  /** Two digits for each octet, and a colon between any two. */
  lemma {:induction false} MacStringShape(mac: seq<Octet>, i: nat)
    requires i < |mac|
    ensures var s := MacString(mac);
            && |s| == 3 * |mac| - 1 && s[3 * i..3 * i + 2] == HexEncode([mac[i]])
            && (i + 1 < |mac| ==> s[3 * i + 2] == ':')
  {
    var front, last := mac[..|mac| - 1], HexEncode([mac[|mac| - 1]]);
    if front == [] {
      assert mac == [mac[0]];
    } else {
      var k := if i < |front| then i else 0;
      MacStringShape(front, k);
      var s := MacString(mac);
      assert s == MacString(front) + ":" + last && |last| == 2;
      assert i < |front| ==> s[3 * i..3 * i + 2] == MacString(front)[3 * i..3 * i + 2];
    }
  }

  lemma {:induction false} ParseHexConcat(a: string, b: string)
    requires ParseHex(a).Some? && ParseHex(b).Some?
    ensures ParseHex(a + b) == Some(Shifted(ParseHex(a).value, |b|) + ParseHex(b).value)
  {
    if b == [] {
      assert a + b == a;
    } else {
      assert (a + b)[..|a + b| - 1] == a + b[..|b| - 1];
      ParseHexConcat(a, b[..|b| - 1]);
    }
  }

  lemma {:induction false} ParseHexUpper(s: string)
    requires forall i | 0 <= i < |s| :: IsLowerHex(s[i])
    ensures ParseHex(s).Some? && ParseHex(ToUpper(s)) == ParseHex(s)
  {
    if s != [] {
      ParseHexUpper(s[..|s| - 1]);
      assert ToUpper(s)[..|s| - 1] == ToUpper(s[..|s| - 1]);
    }
  }

  lemma {:induction false} ParseHexEncoded(octets: seq<Octet>)
    ensures ParseHex(HexEncode(octets)) == Some(BigEndian(octets))
  {
    if octets != [] {
      var front := octets[..|octets| - 1];
      var last := octets[|octets| - 1];
      ParseHexEncoded(front);
      var s := HexEncode(octets);
      assert s[..|s| - 1][..|s| - 2] == HexEncode(front);
      assert s[..|s| - 1][|s| - 2] == HexChar(last / 16);
    }
  }

  lemma {:induction false} HexEncodeConcat(a: seq<Octet>, b: seq<Octet>)
    ensures HexEncode(a + b) == HexEncode(a) + HexEncode(b)
  {
    if b == [] {
      assert a + b == a;
    } else {
      assert (a + b)[..|a + b| - 1] == a + b[..|b| - 1];
      HexEncodeConcat(a, b[..|b| - 1]);
    }
  }

  lemma PaddingValue()
    ensures ParseHex("fffe") == Some(0xFFFE)
  {
    assert "fffe"[..3] == "fff" && "fff"[..2] == "ff" && "ff"[..1] == "f" && "f"[..0] == "";
    assert ParseHex("f") == Some(15) && ParseHex("ff") == Some(255) && ParseHex("fff") == Some(4095);
  }

  lemma ShiftedBySixAndTen(x: nat)
    ensures Shifted(x, 6) == x * 0x100_0000 && Shifted(x, 10) == x * 0x100_0000_0000
  {
    assert Shifted(x, 2) == x * 0x100 && Shifted(x, 4) == x * 0x1_0000 && Shifted(x, 6) == x * 0x100_0000;
    assert Shifted(x, 8) == x * 0x1_0000_0000;
  }

  lemma PaddedNicValue(nic: string)
    requires ParseHex(nic).Some? && |nic| == 6
    ensures ParseHex("fffe" + nic) == Some(0xFFFE * 0x100_0000 + ParseHex(nic).value)
  {
    PaddingValue();
    ParseHexConcat("fffe", nic);
    ShiftedBySixAndTen(0xFFFE);
  }

  lemma ParsesLikeItsLowerCase(mac: seq<Octet>)
    requires |mac| == 6
    ensures ParseHex(BridgeID(mac)) == ParseHex(LowerID(mac))
  {
    BridgeIDIsItsUpperCase(mac);
    assert forall i | 0 <= i < 16 :: IsLowerHex(LowerID(mac)[i]);
    ParseHexUpper(LowerID(mac));
  }

  lemma LowerIDValue(mac: seq<Octet>, rest: string)
    requires |mac| == 6 && LowerID(mac) == HexEncode(mac[..3]) + rest && ParseHex(rest).Some?
    ensures ParseHex(BridgeID(mac)) == Some(BigEndian(mac[..3]) * 0x100_0000_0000 + ParseHex(rest).value)
  {
    ParsesLikeItsLowerCase(mac);
    ParseHexEncoded(mac[..3]);
    ParseHexConcat(HexEncode(mac[..3]), rest);
    ShiftedBySixAndTen(BigEndian(mac[..3]));
  }

  /** The certificate serial: the bridge id read as hexadecimal is the vendor octets, FFFE and
      the device octets side by side. */
  lemma SerialValue(mac: seq<Octet>)
    requires |mac| == 6
    ensures ParseHex(BridgeID(mac)) ==
            Some(BigEndian(mac[..3]) * 0x100_0000_0000 + 0xFFFE * 0x100_0000 + BigEndian(mac[3..]))
  {
    HexEncodeConcat(mac[..3], mac[3..]);
    assert mac[..3] + mac[3..] == mac;
    var nic := HexEncode(mac[3..]);
    assert LowerID(mac) == HexEncode(mac[..3]) + ("fffe" + nic);
    ParseHexEncoded(mac[3..]);
    PaddedNicValue(nic);
    LowerIDValue(mac, "fffe" + nic);
  }

  /** Octets of the DER encoding of a positive integer. */
  function DerOctets(n: nat): nat {
    if n < 128 then 1 else 1 + DerOctets(n / 256)
  }

  /** k octets are needed from 128*256^(k-2) on and suffice below 128*256^(k-1): one bit is left
      for the sign. */
  lemma {:induction false} DerOctetsSuffice(n: nat)
    ensures var k := DerOctets(n);
            k >= 1 && n < Shifted(128, 2 * (k - 1)) && (k > 1 ==> n >= Shifted(128, 2 * (k - 2)))
  {
    if n >= 128 {
      DerOctetsSuffice(n / 256);
      var k := DerOctets(n / 256);
      ShiftedByTwo(128, 2 * (k - 1));
      OctetMore(n, Shifted(128, 2 * (k - 1)));
      if k > 1 {
        ShiftedByTwo(128, 2 * (k - 2));
        OctetMore(n, Shifted(128, 2 * (k - 2)));
      }
    }
  }

  lemma ShiftedByTwo(x: nat, n: nat)
    ensures Shifted(x, n + 2) == 256 * Shifted(x, n)
  {
    assert Shifted(x, n + 2) == 16 * Shifted(x, n + 1);
  }

  lemma OctetMore(n: nat, bound: nat)
    ensures n / 256 < bound <==> n < 256 * bound
  {
  }

  lemma {:induction false} BigEndianBound(octets: seq<Octet>)
    ensures BigEndian(octets) < Shifted(1, 2 * |octets|)
  {
    if octets != [] {
      BigEndianBound(octets[..|octets| - 1]);
      var n := 2 * |octets|;
      assert Shifted(1, n) == 16 * Shifted(1, n - 1) && Shifted(1, n - 1) == 16 * Shifted(1, n - 2);
    }
  }

  /** Section 4.1.2.2 of RFC 5280: a positive serial of at most 20 octets. It takes 6 to 9. */
  lemma SerialConforms(mac: seq<Octet>)
    requires |mac| == 6
    ensures ParseHex(BridgeID(mac)).Some? && ParseHex(BridgeID(mac)).value > 0
    ensures 6 <= DerOctets(ParseHex(BridgeID(mac)).value) <= 9 <= 20
  {
    SerialValue(mac);
    BigEndianBound(mac[..3]);
    BigEndianBound(mac[3..]);
    ShiftedBySixAndTen(1);
    DerOctetsOf(ParseHex(BridgeID(mac)).value);
  }

  lemma DerOctetsOf(n: nat)
    requires 0x80_0000_0000 <= n < 0x1_0000_0000_0000_0000
    ensures 6 <= DerOctets(n) <= 9
  {
    var n1 := n / 256;
    var n2 := n1 / 256;
    var n3 := n2 / 256;
    var n4 := n3 / 256;
    var n5 := n4 / 256;
    assert n4 >= 128 && n5 < 0x100_0000;
    assert DerOctets(n) == 1 + DerOctets(n1) && DerOctets(n1) == 1 + DerOctets(n2);
    assert DerOctets(n2) == 1 + DerOctets(n3) && DerOctets(n3) == 1 + DerOctets(n4);
    assert DerOctets(n4) == 1 + DerOctets(n5);
    var n6 := n5 / 256;
    var n7 := n6 / 256;
    assert n7 < 256 && n7 / 256 == 0;
    assert DerOctets(n7) <= 2 && DerOctets(n6) <= 1 + DerOctets(n7) && DerOctets(n5) <= 1 + DerOctets(n6);
  }

  lemma OctetFromHex(x: Octet, y: Octet)
    requires HexChar(x / 16) == HexChar(y / 16) && HexChar(x % 16) == HexChar(y % 16)
    ensures x == y
  {
    assert HexDigit(HexChar(x / 16)) == Some(x / 16) && HexDigit(HexChar(y / 16)) == Some(y / 16);
    assert HexDigit(HexChar(x % 16)) == Some(x % 16) && HexDigit(HexChar(y % 16)) == Some(y % 16);
  }

  lemma LastOctetOfHex(octets: seq<Octet>)
    requires octets != []
    ensures var s, n, last := HexEncode(octets), |HexEncode(octets)|, octets[|octets| - 1];
            && s[..n - 2] == HexEncode(octets[..|octets| - 1])
            && s[n - 2] == HexChar(last / 16) && s[n - 1] == HexChar(last % 16)
  {
  }

  lemma {:induction false} HexEncodeInjective(a: seq<Octet>, b: seq<Octet>)
    requires HexEncode(a) == HexEncode(b)
    ensures a == b
  {
    assert |a| == |b|;
    if a != [] {
      LastOctetOfHex(a);
      LastOctetOfHex(b);
      OctetFromHex(a[|a| - 1], b[|b| - 1]);
      HexEncodeInjective(a[..|a| - 1], b[..|b| - 1]);
      assert a == a[..|a| - 1] + [a[|a| - 1]] && b == b[..|b| - 1] + [b[|b| - 1]];
    }
  }

  /** Two bridges with the same id have the same MAC. */
  lemma BridgeIDInjective(a: seq<Octet>, b: seq<Octet>)
    requires |a| == 6 && |b| == 6 && BridgeID(a) == BridgeID(b)
    ensures a == b
  {
    IdentityAgreesEverywhere(a);
    IdentityAgreesEverywhere(b);
    HexEncodeInjective(a, b);
  }
}
