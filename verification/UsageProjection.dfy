/**
  The usage projection of a replay: ten running totals over all measurements of all observations,
  against their exact sums.  Amounts are added as binary64 numbers and checked after each addition.
 */
module UsageProjection {
  import opened Prelude

  datatype Dimension =
    | ConcurrentInteractions | ElapsedMilliseconds | EmittedArtifactBytes | InputTokens | JobAttempts
    | ModelRequests | OutputTokens | ProviderCostMicrounits | RetrievedBytes | ToolCalls

  const TWO_53 := 0x20_0000_0000_0000
  const MAX_SAFE := TWO_53 - 1

  newtype SafeAmount = n: int | 0 <= n <= MAX_SAFE

  type Label = string

  datatype Usage = Observed(amount: SafeAmount, source: Label) | Unobserved(reason: Label)

  datatype Measurement = Measurement(dimension: Dimension, usage: Usage)

  /** What one dimension has accumulated. */
  datatype Tally = Tally(amount: nat, observed: nat, sources: set<Label>, missing: nat, reasons: set<Label>)

  datatype Value =
    | Available(amount: nat, observedCount: nat, sources: set<Label>)
    | Partial(amount: nat, observedCount: nat, sources: set<Label>, unavailableCount: nat, reasons: set<Label>)
    | Unavailable(unavailableCount: nat, reasons: set<Label>)

  // ---------------------------------------------------------------- what the projection should be

  function Empty(): Tally { Tally(0, 0, {}, 0, {}) }

  function With(t: Tally, usage: Usage): Tally {
    match usage
    case Observed(amount, source) => t.(amount := t.amount + amount as nat, observed := t.observed + 1, sources := t.sources + {source})
    case Unobserved(reason) => t.(missing := t.missing + 1, reasons := t.reasons + {reason})
  }

  /** The exact tally of one dimension over a list of measurements. */
  function TallyOf(ms: seq<Measurement>, d: Dimension): Tally {
    if ms == [] then Empty()
    else
      var rest := TallyOf(ms[..|ms| - 1], d);
      var m := ms[|ms| - 1];
      if m.dimension == d then With(rest, m.usage) else rest
  }

  function Flatten(observations: seq<seq<Measurement>>): seq<Measurement> {
    if observations == [] then [] else Flatten(observations[..|observations| - 1]) + observations[|observations| - 1]
  }

  const SOURCE_UNAVAILABLE: Label := "source_unavailable"
  const MEASURED: Label := "measured"

  function ValueOf(t: Tally): Value {
    if t.observed == 0 then
      Unavailable(if t.missing == 0 then 1 else t.missing, if t.reasons == {} then {SOURCE_UNAVAILABLE} else t.reasons)
    else if t.missing > 0 then Partial(t.amount, t.observed, t.sources, t.missing, t.reasons)
    else Available(t.amount, t.observed, t.sources)
  }

  // ---------------------------------------------------------------- the loop

  /** The binary64 sum of two safe integers: exact up to 2^53, rounded to a multiple of two above, ties to even. */
  function DoublePlus(a: nat, b: nat): nat
    requires a <= MAX_SAFE && b <= MAX_SAFE
  {
    var s := a + b;
    if s <= TWO_53 || s % 2 == 0 then s else if s % 4 == 1 then s - 1 else s + 1
  }

  lemma RoundingIsHarmless(a: nat, b: nat)
    requires a <= MAX_SAFE && b <= MAX_SAFE
    ensures DoublePlus(a, b) <= MAX_SAFE <==> a + b <= MAX_SAFE
    ensures a + b <= 9007199254740992 || (a + b) % 2 == 0 ==> DoublePlus(a, b) == a + b
    ensures a + b > 9007199254740992 && (a + b) % 2 == 1 ==>
              DoublePlus(a, b) % 4 == 0 && (DoublePlus(a, b) == a + b - 1 || DoublePlus(a, b) == a + b + 1)
  {
  }

  type Totals = map<Dimension, Tally>

  predicate Tracks(acc: Totals, done: seq<Measurement>) {
    && (forall d: Dimension :: d in acc)
    && forall d | d != JobAttempts :: acc[d] == TallyOf(done, d) && acc[d].amount <= MAX_SAFE
  }

  function Overflows(ms: seq<Measurement>, d: Dimension): bool { d != JobAttempts && TallyOf(ms, d).amount > MAX_SAFE }

  /** The projection itself: job attempts are counted, everything else is summed. */
  function Projected(ms: seq<Measurement>, attempts: nat): map<Dimension, Value> {
    map d: Dimension | true :: if d == JobAttempts then Available(attempts, 1, {MEASURED}) else ValueOf(TallyOf(ms, d))
  }

  // ---------------------------------------------------------------- the measurements themselves

  /** What was measured of one dimension, in order. */
  function UsagesOf(ms: seq<Measurement>, d: Dimension): seq<Usage> {
    if ms == [] then []
    else if ms[0].dimension == d then [ms[0].usage] + UsagesOf(ms[1..], d) else UsagesOf(ms[1..], d)
  }

  function CountObserved(us: seq<Usage>): nat {
    if us == [] then 0 else (if us[0].Observed? then 1 else 0) + CountObserved(us[1..])
  }

  function SumObserved(us: seq<Usage>): nat {
    if us == [] then 0 else (if us[0].Observed? then us[0].amount as nat else 0) + SumObserved(us[1..])
  }

  function SourcesIn(us: seq<Usage>): set<Label> { set i | 0 <= i < |us| && us[i].Observed? :: us[i].source }

  function ReasonsIn(us: seq<Usage>): set<Label> { set i | 0 <= i < |us| && us[i].Unobserved? :: us[i].reason }

  /** What has to be reported of one dimension, given everything that was measured of it. */
  predicate Reports(us: seq<Usage>, v: Value) {
    var observed := CountObserved(us);
    var missing := |us| - observed;
    && (v.Available? <==> observed > 0 && missing == 0)
    && (v.Partial? <==> observed > 0 && missing > 0)
    && (v.Available? || v.Partial? ==> v.amount == SumObserved(us) && v.observedCount == observed && v.sources == SourcesIn(us))
    && (v.Partial? ==> v.unavailableCount == missing && v.reasons == ReasonsIn(us))
    && (v.Unavailable? && us != [] ==> v.unavailableCount == missing && v.reasons == ReasonsIn(us))
    && (v.Unavailable? && us == [] ==> v.unavailableCount == 1 && v.reasons == {"source_unavailable"})
  }

  lemma UsagesAppend(ms: seq<Measurement>, m: Measurement, d: Dimension)
    ensures UsagesOf(ms + [m], d) == UsagesOf(ms, d) + if m.dimension == d then [m.usage] else []
  {
    if ms == [] {
      assert ms + [m] == [m] && [m][1..] == [];
    } else {
      assert (ms + [m])[0] == ms[0] && (ms + [m])[1..] == ms[1..] + [m];
      UsagesAppend(ms[1..], m, d);
    }
  }

  lemma {:induction false} CountsAppend(us: seq<Usage>, u: Usage)
    ensures CountObserved(us + [u]) == CountObserved(us) + if u.Observed? then 1 else 0
    ensures SumObserved(us + [u]) == SumObserved(us) + if u.Observed? then u.amount as nat else 0
  {
    if us == [] {
      assert us + [u] == [u] && [u][1..] == [];
    } else {
      assert (us + [u])[0] == us[0] && (us + [u])[1..] == us[1..] + [u];
      CountsAppend(us[1..], u);
    }
  }

  lemma LabelsAppend(us: seq<Usage>, u: Usage)
    ensures SourcesIn(us + [u]) == SourcesIn(us) + if u.Observed? then {u.source} else {}
    ensures ReasonsIn(us + [u]) == ReasonsIn(us) + if u.Unobserved? then {u.reason} else {}
  {
    var all := us + [u];
    assert all[|us|] == u && forall i | 0 <= i < |us| :: all[i] == us[i];
  }

  /** The tally is what was measured, counted and added up. */
  lemma {:induction false} TallyIsMeasured(ms: seq<Measurement>, d: Dimension)
    ensures var t, us := TallyOf(ms, d), UsagesOf(ms, d);
            && t.observed == CountObserved(us) && t.observed + t.missing == |us| && t.amount == SumObserved(us)
            && t.sources == SourcesIn(us) && t.reasons == ReasonsIn(us)
  {
    if ms != [] {
      var n := |ms| - 1;
      TallyIsMeasured(ms[..n], d);
      assert ms == ms[..n] + [ms[n]];
      UsagesAppend(ms[..n], ms[n], d);
      CountsAppend(UsagesOf(ms[..n], d), ms[n].usage);
      LabelsAppend(UsagesOf(ms[..n], d), ms[n].usage);
      assert UsagesOf(ms[..n], d) + [] == UsagesOf(ms[..n], d);
    }
  }

  lemma ValueReports(ms: seq<Measurement>, d: Dimension)
    ensures Reports(UsagesOf(ms, d), ValueOf(TallyOf(ms, d)))
  {
    TallyIsMeasured(ms, d);
    TallyConserves(ms, d);
    ObservedWithin(UsagesOf(ms, d));
  }

  lemma {:induction false} ObservedWithin(us: seq<Usage>)
    ensures CountObserved(us) <= |us|
  {
    if us != [] { ObservedWithin(us[1..]); }
  }

  /** What is reported of job attempts, which are counted and not measured. */
  predicate ReportsAttempts(attempts: nat, v: Value) {
    v.Available? && v.amount == attempts && v.observedCount == 1 && v.sources == {"measured"}
  }

  lemma ProjectedReports(ms: seq<Measurement>, attempts: nat)
    ensures forall d: Dimension | d != JobAttempts :: Reports(UsagesOf(ms, d), Projected(ms, attempts)[d])
    ensures ReportsAttempts(attempts, Projected(ms, attempts)[JobAttempts])
  {
    forall d: Dimension | d != JobAttempts ensures Reports(UsagesOf(ms, d), Projected(ms, attempts)[d]) { ValueReports(ms, d); }
  }

  lemma OverflowsExactly(ms: seq<Measurement>, d: Dimension)
    ensures Overflows(ms, d) <==> d != JobAttempts && SumObserved(UsagesOf(ms, d)) > 9007199254740991
  {
    TallyIsMeasured(ms, d);
  }

  /** The loop over all measurements of all observations. */
  method Accumulate(observations: seq<seq<Measurement>>) returns (r: Result<Totals, Dimension>)
    ensures r.Ok? <==> forall d :: !Overflows(Flatten(observations), d)
    ensures r.Ok? ==> Tracks(r.value, Flatten(observations))
    ensures r.Err? ==> Overflows(Flatten(observations), r.error)
  {
    var acc := map d: Dimension | true :: TallyOf([], d);
    for i := 0 to |observations|
      invariant Tracks(acc, Flatten(observations[..i]))
    {
      ghost var done := Flatten(observations[..i]);
      assert done + observations[i][..0] == done;
      for j := 0 to |observations[i]|
        invariant Tracks(acc, done + observations[i][..j])
      {
        assert done + observations[i][..j + 1] == (done + observations[i][..j]) + [observations[i][j]];
        var added := AddMeasurement(acc, done + observations[i][..j], observations[i][j]);
        if added.None? {
          PartOfAll(observations, i, j + 1, observations[i][j].dimension);
          assert Overflows(Flatten(observations), observations[i][j].dimension);
          return Err(observations[i][j].dimension);
        }
        acc := added.value;
      }
      assert observations[i][..|observations[i]|] == observations[i];
      assert observations[..i + 1][..i] == observations[..i];
    }
    assert observations[..|observations|] == observations;
    r := Ok(acc);
  }

  /**
    usageProjection.  It fails exactly when the exact sum of some dimension exceeds 2^53 - 1, and
    then names such a dimension; otherwise every field it reports of a dimension is what the
    measurements of that dimension come to.
   */
  method ProjectUsage(observations: seq<seq<Measurement>>, attempts: nat) returns (r: Result<map<Dimension, Value>,
      Dimension>)
    ensures r.Ok? <==> forall d :: !Overflows(Flatten(observations), d)
    ensures r.Ok? ==> r.value == Projected(Flatten(observations), attempts)
    ensures r.Err? ==> Overflows(Flatten(observations), r.error)
    ensures r.Ok? <==>
            forall d: Dimension | d != JobAttempts :: SumObserved(UsagesOf(Flatten(observations), d)) <= 9007199254740991
    ensures r.Ok? ==> forall d: Dimension | d != JobAttempts ::
              d in r.value && Reports(UsagesOf(Flatten(observations), d), r.value[d])
    ensures r.Ok? ==> JobAttempts in r.value && ReportsAttempts(attempts, r.value[JobAttempts])
  {
    ProjectedReports(Flatten(observations), attempts);
    forall d: Dimension ensures Overflows(Flatten(observations), d) <==>
                     d != JobAttempts && SumObserved(UsagesOf(Flatten(observations), d)) > 9007199254740991 {
      OverflowsExactly(Flatten(observations), d);
    }
    var totals := Accumulate(observations);
    if totals.Err? {
      OverflowsExactly(Flatten(observations), totals.error);
      assert SumObserved(UsagesOf(Flatten(observations), totals.error)) > 9007199254740991;
      return Err(totals.error);
    }
    var acc := totals.value[JobAttempts := Tally(attempts, 1, {MEASURED}, 0, {})];
    r := Ok(map d: Dimension | true :: ValueOf(acc[d]));
  }

  /** One measurement; None is the overflow. */
  method AddMeasurement(acc: Totals, ghost done: seq<Measurement>, m: Measurement) returns (r: Option<Totals>)
    requires Tracks(acc, done)
    ensures r.None? <==> Overflows(done + [m], m.dimension)
    ensures r.Some? ==> Tracks(r.value, done + [m])
  {
    TallyAppend(done, m);
    if m.dimension == JobAttempts { return Some(acc); }
    var t := acc[m.dimension];
    match m.usage {
      case Observed(amount, source) =>
        RoundingIsHarmless(t.amount, amount as nat);
        var next := DoublePlus(t.amount, amount as nat);
        if next > MAX_SAFE { return None; }
        t := t.(amount := next, observed := t.observed + 1, sources := t.sources + {source});
      case Unobserved(reason) =>
        t := t.(missing := t.missing + 1, reasons := t.reasons + {reason});
    }
    r := Some(acc[m.dimension := t]);
  }

  lemma TallyAppend(ms: seq<Measurement>, m: Measurement)
    ensures forall d :: TallyOf(ms + [m], d) == if m.dimension == d then With(TallyOf(ms, d), m.usage) else TallyOf(ms, d)
  {
    assert (ms + [m])[..|ms|] == ms;
  }

  lemma {:induction false} TallyGrows(a: seq<Measurement>, b: seq<Measurement>, d: Dimension)
    ensures TallyOf(a, d).amount <= TallyOf(a + b, d).amount
  {
    if b == [] {
      assert a + b == a;
    } else {
      var n := |b| - 1;
      assert (a + b)[..|a + b| - 1] == a + b[..n];
      TallyGrows(a, b[..n], d);
    }
  }

  lemma {:induction false} FlattenPrefix(observations: seq<seq<Measurement>>, i: nat) returns (rest: seq<Measurement>)
    requires i <= |observations|
    ensures Flatten(observations) == Flatten(observations[..i]) + rest
    decreases |observations|
  {
    if i == |observations| {
      rest := [];
      assert observations[..i] == observations;
    } else {
      var n := |observations| - 1;
      var middle := FlattenPrefix(observations[..n], i);
      assert observations[..n][..i] == observations[..i];
      rest := middle + observations[n];
    }
  }

  /** A running total never exceeds the whole. */
  lemma PartOfAll(observations: seq<seq<Measurement>>, i: nat, j: nat, d: Dimension)
    requires i < |observations| && j <= |observations[i]|
    ensures TallyOf(Flatten(observations[..i]) + observations[i][..j], d).amount <= TallyOf(Flatten(observations), d).amount
  {
    var part := Flatten(observations[..i]) + observations[i][..j];
    assert observations[..i + 1][..i] == observations[..i];
    var rest := FlattenPrefix(observations, i + 1);
    assert Flatten(observations[..i + 1]) == part + observations[i][j..];
    assert Flatten(observations) == part + (observations[i][j..] + rest);
    TallyGrows(part, observations[i][j..] + rest, d);
  }

  // ---------------------------------------------------------------- what the tallies mean

  function CountOf(ms: seq<Measurement>, d: Dimension): nat {
    if ms == [] then 0 else CountOf(ms[..|ms| - 1], d) + if ms[|ms| - 1].dimension == d then 1 else 0
  }

  /** Every measurement of a dimension is counted once, as observed or as unavailable. */
  lemma {:induction false} TallyConserves(ms: seq<Measurement>, d: Dimension)
    ensures TallyOf(ms, d).observed + TallyOf(ms, d).missing == CountOf(ms, d)
    ensures TallyOf(ms, d).observed == 0 ==> TallyOf(ms, d).amount == 0 && TallyOf(ms, d).sources == {}
    ensures TallyOf(ms, d).observed == 0 <==> TallyOf(ms, d).sources == {}
    ensures TallyOf(ms, d).missing == 0 <==> TallyOf(ms, d).reasons == {}
  {
    if ms != [] { TallyConserves(ms[..|ms| - 1], d); }
  }

  function Counts(v: Value): nat {
    match v
    case Available(_, n, _) => n
    case Partial(_, n, _, m, _) => n + m
    case Unavailable(m, _) => m
  }

  /**
    What is reported for a dimension: available, partial or unavailable according to which counts
    are zero, with counts that add up to the measurements made, except that none at all is reported
    as one unavailable.
   */
  lemma StatusMeaning(ms: seq<Measurement>, d: Dimension)
    ensures var t, v := TallyOf(ms, d), ValueOf(TallyOf(ms, d));
            && (v.Available? <==> t.observed > 0 && t.missing == 0)
            && (v.Partial? <==> t.observed > 0 && t.missing > 0)
            && (v.Unavailable? <==> t.observed == 0)
            && Counts(v) == (if CountOf(ms, d) == 0 then 1 else CountOf(ms, d))
            && (v.Unavailable? ==> v.reasons == if CountOf(ms, d) == 0 then {SOURCE_UNAVAILABLE} else t.reasons)
            && (!v.Unavailable? ==> v.amount == t.amount && v.sources == t.sources != {})
  {
    TallyConserves(ms, d);
  }

  lemma LastOut(a: seq<Measurement>, m: Measurement, b: seq<Measurement>)
    requires b != []
    ensures var n := |b| - 1;
            a + [m] + b == (a + [m] + b[..n]) + [b[n]] && a + b == (a + b[..n]) + [b[n]]
  {
    assert b == b[..|b| - 1] + [b[|b| - 1]];
  }

  /** Taking one measurement out of the middle and adding it last changes no tally. */
  lemma {:induction false} TallyMoves(a: seq<Measurement>, m: Measurement, b: seq<Measurement>, d: Dimension)
    ensures TallyOf(a + [m] + b, d) == TallyOf(a + b + [m], d)
  {
    if b == [] {
      assert a + [m] + b == a + b + [m];
    } else {
      var n := |b| - 1;
      var x := b[n];
      LastOut(a, m, b);
      TallyMoves(a, m, b[..n], d);
      TallyAppend(a + [m] + b[..n], x);
      TallyAppend(a + b[..n] + [m], x);
      TallyAppend(a + b[..n], m);
      TallyAppend(a + b[..n], x);
      TallyAppend(a + b, m);
    }
  }

  lemma WithoutOne(a: seq<Measurement>, i: nat)
    requires i < |a|
    ensures multiset(a[..i] + a[i + 1..]) == multiset(a) - multiset{a[i]}
  {
    assert a == a[..i] + [a[i]] + a[i + 1..];
  }

  lemma TallyWithout(b: seq<Measurement>, i: nat, d: Dimension)
    requires i < |b|
    ensures TallyOf(b, d) == if b[i].dimension == d then With(TallyOf(b[..i] + b[i + 1..], d), b[i].usage) else TallyOf(b[..i] + b[i + 1..], d)
  {
    assert b == b[..i] + [b[i]] + b[i + 1..];
    TallyMoves(b[..i], b[i], b[i + 1..], d);
    TallyAppend(b[..i] + b[i + 1..], b[i]);
  }

  /** The order of the measurements, within and across observations, does not matter. */
  lemma {:induction false} TallyOrderIndependent(a: seq<Measurement>, b: seq<Measurement>, d: Dimension)
    requires multiset(a) == multiset(b)
    ensures TallyOf(a, d) == TallyOf(b, d)
    decreases |a|
  {
    if a == [] {
      assert |multiset(b)| == 0;
    } else {
      var n := |a| - 1;
      var m := a[n];
      assert m in multiset(a);
      var i :| 0 <= i < |b| && b[i] == m;
      WithoutOne(b, i);
      WithoutOne(a, n);
      assert a[..n] + a[n + 1..] == a[..n];
      TallyOrderIndependent(a[..n], b[..i] + b[i + 1..], d);
      TallyWithout(b, i, d);
    }
  }

  lemma ProjectionOrderIndependent(a: seq<Measurement>, b: seq<Measurement>, attempts: nat)
    requires multiset(a) == multiset(b)
    ensures Projected(a, attempts) == Projected(b, attempts)
    ensures forall d :: Overflows(a, d) <==> Overflows(b, d)
  {
    forall d ensures TallyOf(a, d) == TallyOf(b, d) { TallyOrderIndependent(a, b, d); }
  }
}
