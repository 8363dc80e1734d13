/** The vocabulary of internal/backend/backend.go, the cache's optimistic merge, and what
    any finite sequence of writes folds to. */
module LightState {
  import opened Options

  type Byte = n: int | 0 <= n < 256
  type Word = n: int | 0 <= n < 65536

  /** CIE xy, kept as an opaque pair. */
  datatype Xy = Xy(x: real, y: real)

  datatype EntityState = EntityState(
    entityId: string,
    on: bool,
    brightness: Option<Byte>,
    xy: Option<Xy>,
    ct: Option<Word>,
    reachable: bool)

  /** Only the fields a caller wants to change; None means "leave as is". */
  datatype Desired = Desired(
    on: Option<bool>,
    brightness: Option<Byte>,
    xy: Option<Xy>,
    ct: Option<Word>)

  const NOTHING := Desired(None, None, None, None)

  predicate HasAttributes(d: Desired) {
    d.brightness.Some? || d.xy.Some? || d.ct.Some?
  }

  function Or<T>(late: Option<T>, early: Option<T>): Option<T> {
    if late.Some? then late else early
  }

  /** What CacheBackend.SetState does to a cached entity: xy and ct exclude each other,
      and ct, handled second, wins when one request carries both. */
  function Merge(s: EntityState, d: Desired): EntityState {
    EntityState(
      s.entityId,
      if d.on.Some? then d.on.value else s.on,
      Or(d.brightness, s.brightness),
      if d.ct.Some? then None else Or(d.xy, s.xy),
      if d.ct.Some? then d.ct else if d.xy.Some? then None else s.ct,
      s.reachable)
  }

  function MergeAll(s: EntityState, ds: seq<Desired>): EntityState {
    if ds == [] then s else Merge(MergeAll(s, ds[..|ds| - 1]), ds[|ds| - 1])
  }

  // ----- Reference definition: the last writer of each field, the last colour mode. -----

  datatype Colour = Chroma(xy: Xy) | Mired(ct: Word)

  function ColourOf(d: Desired): Option<Colour> {
    if d.ct.Some? then Some(Mired(d.ct.value))
    else if d.xy.Some? then Some(Chroma(d.xy.value))
    else None
  }

  function WithColour(on: Option<bool>, brightness: Option<Byte>, c: Option<Colour>): Desired {
    match c
    case None => Desired(on, brightness, None, None)
    case Some(Chroma(xy)) => Desired(on, brightness, Some(xy), None)
    case Some(Mired(ct)) => Desired(on, brightness, None, Some(ct))
  }

  function LastSome<T>(xs: seq<Option<T>>): Option<T> {
    if xs == [] then None
    else Or(xs[|xs| - 1], LastSome(xs[..|xs| - 1]))
  }

  /** The last entry that is present, and nothing present after it. */
  lemma {:induction false} LastSomeIsLast<T>(xs: seq<Option<T>>)
    ensures LastSome(xs).None? <==> forall i | 0 <= i < |xs| :: xs[i].None?
    ensures LastSome(xs).Some? ==>
              exists i | 0 <= i < |xs| ::
                xs[i] == LastSome(xs) && forall j | i < j < |xs| :: xs[j].None?
  {
    if xs != [] {
      var front := xs[..|xs| - 1];
      LastSomeIsLast(front);
      assert forall j | 0 <= j < |front| :: xs[j] == front[j];
    }
  }

  function Ons(ds: seq<Desired>): seq<Option<bool>> {
    seq(|ds|, i requires 0 <= i < |ds| => ds[i].on)
  }

  function Brightnesses(ds: seq<Desired>): seq<Option<Byte>> {
    seq(|ds|, i requires 0 <= i < |ds| => ds[i].brightness)
  }

  function Colours(ds: seq<Desired>): seq<Option<Colour>> {
    seq(|ds|, i requires 0 <= i < |ds| => ColourOf(ds[i]))
  }

  /** One request that names the last writer of each field and the last colour mode. */
  function LastWriters(ds: seq<Desired>): Desired {
    WithColour(LastSome(Ons(ds)), LastSome(Brightnesses(ds)), LastSome(Colours(ds)))
  }

  // ----- Requests as a monoid acting on states. -----

  /** Both colour modes in one request mean ct alone. */
  function Normalise(d: Desired): Desired {
    WithColour(d.on, d.brightness, ColourOf(d))
  }

  function Then(first: Desired, second: Desired): Desired {
    WithColour(Or(second.on, first.on), Or(second.brightness, first.brightness), Or(ColourOf(second), ColourOf(first)))
  }

  lemma ColourOfWithColour(on: Option<bool>, brightness: Option<Byte>, c: Option<Colour>)
    ensures ColourOf(WithColour(on, brightness, c)) == c
  {
  }

  /** NOTHING is the unit up to normal form, and composition is associative. */
  lemma RequestsFormAMonoid(a: Desired, b: Desired, c: Desired)
    ensures Then(NOTHING, a) == Normalise(a) == Then(a, NOTHING)
    ensures Then(Then(a, b), c) == Then(a, Then(b, c))
  {
    ColourOfWithColour(Or(b.on, a.on), Or(b.brightness, a.brightness), Or(ColourOf(b), ColourOf(a)));
    ColourOfWithColour(Or(c.on, b.on), Or(c.brightness, b.brightness), Or(ColourOf(c), ColourOf(b)));
  }

  /** Merging one request after another is merging their composition. */
  lemma MergeIsAnAction(s: EntityState, a: Desired, b: Desired)
    ensures Merge(s, NOTHING) == s && Merge(Merge(s, a), b) == Merge(s, Then(a, b))
  {
  }

  lemma LastWritersStep(ds: seq<Desired>)
    requires ds != []
    ensures LastWriters(ds) == Then(LastWriters(ds[..|ds| - 1]), ds[|ds| - 1])
  {
    var front := ds[..|ds| - 1];
    assert Ons(ds)[..|ds| - 1] == Ons(front);
    assert Brightnesses(ds)[..|ds| - 1] == Brightnesses(front);
    assert Colours(ds)[..|ds| - 1] == Colours(front);
    ColourOfWithColour(LastSome(Ons(front)), LastSome(Brightnesses(front)), LastSome(Colours(front)));
  }

  /** Any finite sequence of optimistic writes is a single merge of its last writers. */
  lemma {:induction false} WritesFoldToLastWriters(s: EntityState, ds: seq<Desired>)
    ensures MergeAll(s, ds) == Merge(s, LastWriters(ds))
  {
    if ds != [] {
      var front := ds[..|ds| - 1];
      WritesFoldToLastWriters(s, front);
      LastWritersStep(ds);
      MergeIsAnAction(s, LastWriters(front), ds[|ds| - 1]);
    }
  }

  /** Folding is a monoid homomorphism: sequences compose, the empty one is the unit. */
  lemma {:induction false} LastWritersCompose(a: seq<Desired>, b: seq<Desired>)
    ensures LastWriters(a + b) == Then(LastWriters(a), LastWriters(b))
    ensures LastWriters([]) == NOTHING
  {
    if b == [] {
      assert a + b == a;
      ColourOfWithColour(LastSome(Ons(a)), LastSome(Brightnesses(a)), LastSome(Colours(a)));
    } else {
      var front, last := b[..|b| - 1], b[|b| - 1];
      assert (a + b)[..|a + b| - 1] == a + front;
      LastWritersCompose(a, front);
      LastWritersStep(a + b);
      LastWritersStep(b);
      RequestsFormAMonoid(LastWriters(a), LastWriters(front), last);
    }
  }

  /** The normal form is canonical: two requests act alike on every state exactly when
      their normal forms are the same request. */
  lemma NormalFormIsCanonical(d: Desired, e: Desired)
    ensures (forall s :: Merge(s, d) == Merge(s, e)) <==> Normalise(d) == Normalise(e)
  {
    var dark := EntityState("", false, None, None, None, true);
    var lit := EntityState("", true, Some(1), Some(Xy(0.0, 0.0)), Some(1), true);
    var other := EntityState("", true, Some(2), Some(Xy(1.0, 0.0)), Some(2), true);
    if forall s :: Merge(s, d) == Merge(s, e) {
      assert Merge(dark, d) == Merge(dark, e);
      assert Merge(lit, d) == Merge(lit, e);
      assert Merge(other, d) == Merge(other, e);
    }
  }

  /** Taking each field's right-most value separately is not the composition: it goes wrong
      exactly when a colour temperature is followed by a request with only xy. */
  function FieldWise(first: Desired, second: Desired): Desired {
    Desired(Or(second.on, first.on), Or(second.brightness, first.brightness),
            Or(second.xy, first.xy), Or(second.ct, first.ct))
  }

  lemma FieldWiseFailsOnCtThenXy(s: EntityState, first: Desired, second: Desired)
    ensures Merge(Merge(s, first), second) == Merge(s, FieldWise(first, second)) <==>
            !(first.ct.Some? && second.xy.Some? && second.ct.None?)
    ensures Merge(Merge(s, first), second) == Merge(s, Then(first, second))
  {
  }

  /** Once some request carried a colour, exactly one colour mode is left in the snapshot. */
  lemma OneColourModeAfterAColourWrite(s: EntityState, ds: seq<Desired>, i: nat)
    requires i < |ds| && ColourOf(ds[i]).Some?
    ensures MergeAll(s, ds).xy.Some? <==> MergeAll(s, ds).ct.None?
  {
    WritesFoldToLastWriters(s, ds);
    LastSomeIsLast(Colours(ds));
    assert Colours(ds)[i].Some?;
  }
}
