/** The reported firmware versions: the digits version_updater.go derives them from, and the
    pins and fetches config.go keeps apart. */
module Versions {
  import opened Options
  import opened Decimal

  // ----- legacySwVersion and legacyAPIVersion -----

  function LegacySw(version: nat): string {
    Digits(version)
  }

  /** Digit 0, and digits 2 and 3, of the version padded to at least five digits. */
  function LegacyApi(version: nat): string {
    var padded := Pad(version, 5);
    padded[0..1] + "." + padded[2..4] + ".0"
  }

  function Pow10(n: nat): (p: nat)
    ensures p >= 1
  {
    if n == 0 then 1 else 10 * Pow10(n - 1)
  }

  lemma MulMonotone(d: nat, a: nat, b: nat)
    requires a <= b
    ensures d * a <= d * b
  {
  }

  lemma QuotientIs(v: nat, d: nat, q: nat, r: nat)
    requires d >= 1 && v == d * q + r && r < d
    ensures v / d == q
  {
    var q' := v / d;
    if q' < q {
      MulMonotone(d, q' + 1, q);
    } else if q' > q {
      MulMonotone(d, q + 1, q');
    }
  }

  lemma DivDiv(v: nat, a: nat, b: nat)
    requires a >= 1 && b >= 1
    ensures a * b >= 1 && v / a / b == v / (a * b)
  {
    var w := v / a;
    DivDivOf(v, a, b, w, w / b, w % b, v % a);
  }

  lemma DivDivOf(v: nat, a: nat, b: nat, w: nat, q: nat, r: nat, r0: nat)
    requires v == a * w + r0 && r0 < a && w == b * q + r && r < b
    ensures a * b >= 1 && v / (a * b) == q
  {
    var rest := NestedRemainder(a, b, r, r0);
    Regroup(a, b, q, r);
    QuotientIs(v, a * b, q, rest);
  }

  lemma NestedRemainder(a: nat, b: nat, r: nat, r0: nat) returns (rest: nat)
    requires r < b && r0 < a
    ensures rest == a * r + r0 && rest < a * b
  {
    rest := a * r + r0;
    MulMonotone(a, r + 1, b);
  }

  lemma Regroup(a: nat, b: nat, q: nat, r: nat)
    ensures a * (b * q + r) == (a * b) * q + a * r
  {
  }

  /** Dropping digits from the right divides by a power of ten. */
  lemma {:induction false} PrefixValue(s: string, k: nat)
    requires AllDigits(s) && k <= |s|
    ensures Value(s[..k]) == Value(s) / Pow10(|s| - k)
    decreases |s|
  {
    if k == |s| {
      assert s[..k] == s;
    } else {
      var front := s[..|s| - 1];
      PrefixValue(front, k);
      assert front[..k] == s[..k];
      DivDiv(Value(s), 10, Pow10(|front| - k));
      assert Value(s) / 10 == Value(front);
    }
  }

  /** How many digits the padded version has: at least five, and no more than it needs. */
  lemma PaddedWidth(version: nat)
    ensures var n := |Pad(version, 5)|;
            n >= 5 && version < Pow10(n) && (n > 5 ==> Pow10(n - 1) <= version)
  {
    DigitCount(version);
    assert Pow10(5) == 100000 by {
      assert Pow10(1) == 10 && Pow10(2) == 100 && Pow10(3) == 1000 && Pow10(4) == 10000;
    }
    var n := |Digits(version)|;
    if n < 5 {
      Pow10Grows(n, 5);
    }
  }

  lemma {:induction false} DigitCount(v: nat)
    ensures v < Pow10(|Digits(v)|) && (|Digits(v)| > 1 ==> Pow10(|Digits(v)| - 1) <= v)
  {
    if v >= 10 {
      DigitCount(v / 10);
    } else {
      assert Pow10(1) == 10;
    }
  }

  lemma {:induction false} Pow10Grows(a: nat, b: nat)
    requires a <= b
    ensures Pow10(a) <= Pow10(b)
    decreases b - a
  {
    if a < b {
      Pow10Grows(a + 1, b);
    }
  }

  function Major(version: nat): nat {
    Value(Pad(version, 5)[0..1])
  }

  function Minor(version: nat): nat {
    Value(Pad(version, 5)[2..4])
  }

  /** The slices are never out of bounds, and as numbers they are the version's leading digit
      and its third and fourth. */
  lemma SlicesAreLeadingDigits(version: nat)
    ensures var n := |Pad(version, 5)|;
            && n >= 5
            && Major(version) == version / Pow10(n - 1)
            && Minor(version) == version / Pow10(n - 4) % 100
  {
    var p := Pad(version, 5);
    PrefixValue(p, 1);
    PrefixValue(p, 4);
    TwoDigitTail(p[..4]);
    assert p[0..1] == p[..1] && p[..4][2..] == p[2..4];
  }

  /** The reported api version is that major, and that minor in two digits. */
  lemma ApiIsMajorMinor(version: nat)
    ensures LegacyApi(version) == Digits(Major(version)) + "." + Pad(Minor(version), 2) + ".0"
    ensures LegacySw(version) == Itoa(version)
  {
    var p := Pad(version, 5);
    OneDigitText(p[0..1]);
    TwoDigitText(p[2..4]);
  }

  lemma OneDigitText(s: string)
    requires AllDigits(s) && |s| == 1
    ensures Digits(Value(s)) == s
  {
    assert s[..0] == [];
  }

  lemma TwoDigitText(s: string)
    requires AllDigits(s) && |s| == 2
    ensures Pad(Value(s), 2) == s
  {
    assert s[..1][..0] == [];
    assert Value(s[..1]) == DigitValue(s[0]);
    TwoDigitParse(Value(s));
    SameTwoDigits(s[0], s[1], Pad(Value(s), 2)[0], Pad(Value(s), 2)[1]);
  }

  lemma TwoDigitTail(s: string)
    requires AllDigits(s) && |s| == 4
    ensures Value(s[2..]) == Value(s) % 100
  {
    assert s[..3][..2] == s[..2];
    assert Value(s) == (Value(s[..2]) * 10 + DigitValue(s[2])) * 10 + DigitValue(s[3]);
    var t := s[2..];
    assert t[..1][..0] == [];
    assert Value(t[..1]) == DigitValue(t[0]);
    assert Value(t) == DigitValue(s[2]) * 10 + DigitValue(s[3]);
  }

  /** Among versions of one length that share their first two digits, the minor never falls. */
  lemma MinorIsMonotone(v: nat, w: nat)
    requires v <= w
    requires |Pad(v, 5)| == |Pad(w, 5)|
    requires Pad(v, 5)[..2] == Pad(w, 5)[..2]
    ensures Minor(v) <= Minor(w)
  {
    SlicesAreLeadingDigits(v);
    SlicesAreLeadingDigits(w);
    var n := |Pad(v, 5)|;
    PrefixValue(Pad(v, 5), 2);
    PrefixValue(Pad(w, 5), 2);
    var p := Pow10(n - 4);
    assert Pow10(n - 3) == 10 * p && Pow10(n - 2) == p * 100;
    DivDiv(v, p, 100);
    DivDiv(w, p, 100);
    QuotientMonotone(v, w, p);
  }

  lemma QuotientMonotone(v: nat, w: nat, d: nat)
    requires d >= 1 && v <= w
    ensures v / d <= w / d
  {
    if w / d < v / d {
      MulMonotone(d, w / d + 1, v / d);
    }
  }

  // ----- The version state. -----

  datatype State = State(datastore: string, sw: string, api: string, swPinned: bool, apiPinned: bool)

  const DEFAULT := State("126", "1949203030", "1.49.0", false, false)

  /** An override argument replaces and pins its field unless it is empty. */
  function Overridden(s: State, datastore: string, sw: string, api: string): State {
    State(if datastore != "" then datastore else s.datastore,
          if sw != "" then sw else s.sw,
          if api != "" then api else s.api,
          s.swPinned || sw != "",
          s.apiPinned || api != "")
  }

  function Discovered(s: State, sw: string, api: string): State {
    s.(sw := if s.swPinned then s.sw else sw, api := if s.apiPinned then s.api else api)
  }

  class VersionVars {
    var datastore: string
    var sw: string
    var api: string
    var swPinned: bool
    var apiPinned: bool

    function View(): State
      reads this
    {
      State(datastore, sw, api, swPinned, apiPinned)
    }

    constructor ()
      ensures View() == DEFAULT
    {
      datastore, sw, api := "126", "1949203030", "1.49.0";
      swPinned, apiPinned := false, false;
    }

    method SetVersionOverrides(datastoreVersion: string, swVersion: string, apiVersion: string)
      modifies this
      ensures View() == Overridden(old(View()), datastoreVersion, swVersion, apiVersion)
    {
      if datastoreVersion != "" {
        datastore := datastoreVersion;
      }
      if swVersion != "" {
        sw := swVersion;
        swPinned := true;
      }
      if apiVersion != "" {
        api := apiVersion;
        apiPinned := true;
      }
    }

    method SetDiscoveredVersion(swVersion: string, apiVersion: string)
      modifies this
      ensures View() == Discovered(old(View()), swVersion, apiVersion)
    {
      if !swPinned {
        sw := swVersion;
      }
      if !apiPinned {
        api := apiVersion;
      }
    }
  }

  /** The highest version listed; None is the error for an empty list. */
  method LatestListed(updates: seq<nat>) returns (latest: Option<nat>)
    ensures latest.None? <==> updates == []
    ensures latest.Some? ==> latest.value in updates && forall u | u in updates :: u <= latest.value
  {
    var maxVersion, found := 0, false;
    for i := 0 to |updates|
      invariant found <==> i > 0
      invariant found ==> maxVersion in updates[..i] && forall u | u in updates[..i] :: u <= maxVersion
    {
      assert updates[..i + 1] == updates[..i] + [updates[i]];
      if !found || updates[i] > maxVersion {
        maxVersion, found := updates[i], true;
      }
    }
    assert updates[..|updates|] == updates;
    latest := if found then Some(maxVersion) else None;
  }

  const VERSION_CACHE_TTL := 24 * 60 * 60

  class VersionUpdater {
    const vars: VersionVars
    var lastFetch: Option<int>       // None: never

    constructor (vars: VersionVars)
      ensures this.vars == vars && lastFetch == None
    {
      this.vars := vars;
      lastFetch := None;
    }

    /** response is the decoded update list; None is any error on the way to it. */
    method Refresh(now: int, response: Option<seq<nat>>) returns (ok: bool)
      modifies this, vars
      ensures ok <==> response.Some? && response.value != []
      ensures !ok ==> vars.View() == old(vars.View()) && lastFetch == old(lastFetch)
      ensures ok ==> lastFetch == Some(now) && exists v ::
                && v in response.value && (forall u | u in response.value :: u <= v)
                && vars.View() == Discovered(old(vars.View()), LegacySw(v), LegacyApi(v))
    {
      if response.None? {
        return false;
      }
      var latest := LatestListed(response.value);
      if latest.None? {
        return false;
      }
      lastFetch := Some(now);
      vars.SetDiscoveredVersion(LegacySw(latest.value), LegacyApi(latest.value));
      ok := true;
    }

    /** Nothing happens until a day has passed since the last success. */
    method RefreshIfExpired(now: int, response: Option<seq<nat>>)
      modifies this, vars
      ensures old(lastFetch).Some? && now - old(lastFetch).value <= 86400 ==>
                vars.View() == old(vars.View()) && lastFetch == old(lastFetch)
      ensures response.None? || response.value == [] ==> vars.View() == old(vars.View()) && lastFetch == old(lastFetch)
      ensures (old(lastFetch).None? || now - old(lastFetch).value > 86400) && response.Some? && response.value != [] ==>
                lastFetch == Some(now) && exists v ::
                  && v in response.value && (forall u | u in response.value :: u <= v)
                  && vars.View() == Discovered(old(vars.View()), LegacySw(v), LegacyApi(v))
    {
      if lastFetch.Some? && now - lastFetch.value <= VERSION_CACHE_TTL {
        return;
      }
      var _ := Refresh(now, response);
    }
  }

  // ----- Runs of overrides and fetches, in any order. -----

  datatype Event = Override(datastore: string, sw: string, api: string) | Fetched(version: nat)

  function Next(s: State, e: Event): State {
    match e
    case Override(datastore, sw, api) => Overridden(s, datastore, sw, api)
    case Fetched(v) => Discovered(s, LegacySw(v), LegacyApi(v))
  }

  function Run(events: seq<Event>): State {
    if events == [] then DEFAULT else Next(Run(events[..|events| - 1]), events[|events| - 1])
  }

  /** The last non-empty override of a field, if any. */
  function LastSwOverride(events: seq<Event>): Option<string> {
    if events == [] then None
    else
      var last := events[|events| - 1];
      if last.Override? && last.sw != "" then Some(last.sw) else LastSwOverride(events[..|events| - 1])
  }

  function LastApiOverride(events: seq<Event>): Option<string> {
    if events == [] then None
    else
      var last := events[|events| - 1];
      if last.Override? && last.api != "" then Some(last.api) else LastApiOverride(events[..|events| - 1])
  }

  function LastDatastoreOverride(events: seq<Event>): Option<string> {
    if events == [] then None
    else
      var last := events[|events| - 1];
      if last.Override? && last.datastore != "" then Some(last.datastore) else LastDatastoreOverride(events[..|events| - 1])
  }

  const DEFAULT_VERSION := 1949203030

  function LastFetched(events: seq<Event>): nat {
    if events == [] then DEFAULT_VERSION
    else
      var last := events[|events| - 1];
      if last.Fetched? then last.version else LastFetched(events[..|events| - 1])
  }

  lemma DefaultDigits()
    ensures Digits(DEFAULT_VERSION) == "1949203030"
  {
    DigitsStep(194920303, 0);
    DigitsStep(19492030, 3);
    DigitsStep(1949203, 0);
    DigitsStep(194920, 3);
    DigitsStep(19492, 0);
    DigitsStep(1949, 2);
    DigitsStep(194, 9);
    DigitsStep(19, 4);
    DigitsStep(1, 9);
  }

  lemma DigitsStep(n: nat, d: nat)
    requires n >= 1 && d < 10
    ensures Digits(10 * n + d) == Digits(n) + [DigitChar(d)]
  {
    var m := 10 * n + d;
    QuotientIs(m, 10, n, d);
    assert m % 10 == d && m >= 10;
  }

  /** The compiled-in pair is itself what the digits of 1949203030 give. */
  lemma DefaultPairIsDerived()
    ensures LegacySw(DEFAULT_VERSION) == DEFAULT.sw && LegacyApi(DEFAULT_VERSION) == DEFAULT.api
  {
    DefaultDigits();
    PairOfDigits(DEFAULT_VERSION, "1949203030");
    DefaultSlices();
  }

  lemma DefaultSlices()
    ensures "1949203030"[0..1] + "." + "1949203030"[2..4] + ".0" == "1.49.0"
  {
    assert "1949203030"[0..1] == "1" && "1949203030"[2..4] == "49";
  }

  /** A version of five digits or more is not padded. */
  lemma PairOfDigits(version: nat, digits: string)
    requires Digits(version) == digits && |digits| >= 5
    ensures LegacySw(version) == digits && LegacyApi(version) == digits[0..1] + "." + digits[2..4] + ".0"
  {
    assert ZeroFill(digits, 5) == digits;
  }

  /** What is reported depends on the order of nothing but the overrides among themselves and
      the fetches among themselves: a pinned field shows its last override whatever was
      fetched since, an unpinned one the last fetch or the default. */
  lemma {:induction false} ReportedVersions(events: seq<Event>)
    ensures var s := Run(events);
            && s.sw == (if LastSwOverride(events).Some? then LastSwOverride(events).value else LegacySw(LastFetched(events)))
            && s.api == (if LastApiOverride(events).Some? then LastApiOverride(events).value else LegacyApi(LastFetched(events)))
            && s.datastore == (if LastDatastoreOverride(events).Some? then LastDatastoreOverride(events).value else "126")
            && s.swPinned == LastSwOverride(events).Some? && s.apiPinned == LastApiOverride(events).Some?
  {
    if events == [] {
      DefaultPairIsDerived();
    } else {
      ReportedVersions(events[..|events| - 1]);
    }
  }

  /** While nothing is pinned the pair is one version seen two ways. */
  lemma UnpinnedPairIsConsistent(events: seq<Event>)
    requires !Run(events).swPinned && !Run(events).apiPinned
    ensures Atoi(Run(events).sw).Some? && Atoi(Run(events).sw).value >= 0
    ensures Run(events).api == LegacyApi(Atoi(Run(events).sw).value)
  {
    ReportedVersions(events);
    AtoiItoa(LastFetched(events));
  }
}
