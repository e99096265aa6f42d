/**
 * The two public price lists: models.dev, where several providers may price a
 * model and one of them is chosen, and OpenRouter. Both are turned into ratios
 * (controller/ratio_sync.go). Prices are real numbers.
 */
module PriceFeeds {
  import opened Basics
  import opened RatioSync

  type Name = string

  // ---- Provider names in order ------------------------------------------------

  predicate Less(a: Name, b: Name) {
    b != [] && (a == [] || a[0] < b[0] || (a[0] == b[0] && Less(a[1..], b[1..])))
  }

  lemma {:induction false} LessAsymmetric(a: Name, b: Name)
    requires Less(a, b)
    ensures a != b && !Less(b, a)
  {
    if a != [] && a[0] == b[0] {
      LessAsymmetric(a[1..], b[1..]);
    }
  }

  lemma {:induction false} LessTransitive(a: Name, b: Name, c: Name)
    requires Less(a, b) && Less(b, c)
    ensures Less(a, c)
  {
    if a != [] && a[0] == b[0] == c[0] {
      LessTransitive(a[1..], b[1..], c[1..]);
    }
  }

  lemma {:induction false} LessTotal(a: Name, b: Name)
    ensures a == b || Less(a, b) || Less(b, a)
  {
    if a != [] && b != [] && a[0] == b[0] {
      LessTotal(a[1..], b[1..]);
      assert a == [a[0]] + a[1..] && b == [b[0]] + b[1..];
    }
  }

  predicate Sorted(names: seq<Name>) {
    forall i, j | 0 <= i < j < |names| :: Less(names[i], names[j])
  }

  /** sort.Strings on the keys of a map. */
  method SortedNames(keys: set<Name>) returns (names: seq<Name>)
    ensures Sorted(names) && forall n :: n in names <==> n in keys
  {
    names := [];
    var rest := keys;
    while rest != {}
      invariant rest <= keys
      invariant Sorted(names)
      invariant forall n :: n in names <==> n in keys && n !in rest
    {
      var x :| x in rest;
      names := Insert(names, x);
      rest := rest - {x};
    }
  }

  method Insert(names: seq<Name>, x: Name) returns (more: seq<Name>)
    requires Sorted(names) && x !in names
    ensures Sorted(more) && forall n :: n in more <==> n in names || n == x
  {
    var i := 0;
    while i < |names| && Less(names[i], x)
      invariant 0 <= i <= |names|
      invariant forall j | 0 <= j < i :: Less(names[j], x)
    {
      i := i + 1;
    }
    forall j | i <= j < |names| ensures Less(x, names[j]) {
      LessTotal(names[i], x);
      if i < j {
        LessTransitive(x, names[i], names[j]);
      }
    }
    more := names[..i] + [x] + names[i..];
    assert names == names[..i] + names[i..];
  }

  // ---- models.dev: one candidate per provider ---------------------------------

  datatype Cost = Cost(input: Option<real>, output: Option<real>, cacheRead: Option<real>)

  datatype Candidate = Candidate(provider: Name, input: real, output: Option<real>, cacheRead: Option<real>)

  type Feed = map<Name, map<Model, Cost>>

  predicate ValidCost(v: real) {
    v >= 0.0
  }

  function BuildCandidate(provider: Name, cost: Cost): Option<Candidate> {
    if cost.input.None? || !ValidCost(cost.input.value) then None
    else if cost.output.Some? && !ValidCost(cost.output.value) then None
    else if cost.input.value == 0.0 && cost.output.Some? && cost.output.value > 0.0 then None
    else Some(Candidate(provider, cost.input.value, cost.output,
                        if cost.cacheRead.Some? && ValidCost(cost.cacheRead.value) then cost.cacheRead else None))
  }

  /** Some output multiplier turns the input price into the output price. */
  ghost predicate Expressible(input: real, output: real) {
    exists ratio: real :: ratio >= 0.0 && ScalesTo(input, ratio, output)
  }

  predicate ScalesTo(input: real, ratio: real, output: real) {
    input * ratio == output
  }

  /** A cost is a candidate exactly when it has an input price and ratios can express its prices. */
  lemma CandidateIff(provider: Name, cost: Cost)
    ensures var c := BuildCandidate(provider, cost);
      && (c.Some? <==>
          && cost.input.Some? && cost.input.value >= 0.0
          && (cost.output.Some? ==> Expressible(cost.input.value, cost.output.value)))
      && (c.Some? ==>
          && c.value.provider == provider && c.value.input == cost.input.value && c.value.output == cost.output
          && (c.value.cacheRead.Some? ==> c.value.cacheRead == cost.cacheRead && c.value.cacheRead.value >= 0.0)
          && (c.value.cacheRead.None? ==> cost.cacheRead.None? || cost.cacheRead.value < 0.0))
  {
    if cost.input.Some? && cost.input.value >= 0.0 && cost.output.Some? {
      ExpressibleIff(cost.input.value, cost.output.value);
    }
  }

  lemma ExpressibleIff(input: real, output: real)
    requires input >= 0.0
    ensures Expressible(input, output) <==> output >= 0.0 && (input > 0.0 || output == 0.0)
  {
    if Expressible(input, output) {
      var ratio :| ratio >= 0.0 && ScalesTo(input, ratio, output);
      NonNegative(input, ratio);
    }
    if output >= 0.0 && input > 0.0 {
      assert ScalesTo(input, output / input, output);
    } else if output == 0.0 && input == 0.0 {
      assert ScalesTo(input, 0.0, output);
    }
  }

  predicate ShouldReplace(current: Candidate, next: Candidate) {
    var currentNonZero, nextNonZero := current.input > 0.0, next.input > 0.0;
    if currentNonZero != nextNonZero then nextNonZero
    else if nextNonZero && !NearlyEqual(next.input, current.input) then next.input < current.input
    else Less(next.provider, current.provider)
  }

  /** The providers' candidates for a model, in the order given. */
  function Candidates(feed: Feed, providers: seq<Name>, m: Model): seq<Candidate> {
    if providers == [] then [] else
      var rest, p := Candidates(feed, providers[..|providers| - 1], m), providers[|providers| - 1];
      if p in feed && m in feed[p] && BuildCandidate(p, feed[p][m]).Some? then rest + [BuildCandidate(p, feed[p][m]).value] else rest
  }

  function Pick(cs: seq<Candidate>): Option<Candidate> {
    if cs == [] then None else
      var current, next := Pick(cs[..|cs| - 1]), cs[|cs| - 1];
      if current.None? || ShouldReplace(current.value, next) then Some(next) else current
  }

  // ---- What is picked ------------------------------------------------------------

  predicate InOrder(cs: seq<Candidate>) {
    && (forall i | 0 <= i < |cs| :: cs[i].input >= 0.0)
    && forall i, j | 0 <= i < j < |cs| :: Less(cs[i].provider, cs[j].provider)
  }

  lemma {:induction false} CandidatesInOrder(feed: Feed, providers: seq<Name>, m: Model)
    requires Sorted(providers)
    ensures InOrder(Candidates(feed, providers, m))
    ensures forall c | c in Candidates(feed, providers, m) :: c.provider in providers
  {
    if providers != [] {
      var init := providers[..|providers| - 1];
      CandidatesInOrder(feed, init, m);
      assert forall n | n in init :: Less(n, providers[|providers| - 1]);
    }
  }

  /** The position of the pick, and when a candidate takes over from it. */
  lemma {:induction false} PickIsOne(cs: seq<Candidate>)
    requires cs != []
    ensures Pick(cs).Some? && Pick(cs).value in cs
  {
    var init := cs[..|cs| - 1];
    if init != [] {
      PickIsOne(init);
    }
  }

  /** In name order a candidate takes over only by being cheaper by 1e-9, or the first non-zero one. */
  predicate TakesOver(current: Candidate, next: Candidate) {
    next.input > 0.0 && (current.input == 0.0 || next.input <= current.input - FLOAT_EPSILON)
  }

  lemma PickStep(cs: seq<Candidate>)
    requires InOrder(cs) && |cs| > 1
    ensures var init, next := cs[..|cs| - 1], cs[|cs| - 1];
      && Pick(init).Some? && Pick(init).value in init
      && Pick(cs) == if TakesOver(Pick(init).value, next) then Some(next) else Pick(init)
  {
    var init, next := cs[..|cs| - 1], cs[|cs| - 1];
    PickIsOne(init);
    var current := Pick(init).value;
    var i :| 0 <= i < |init| && init[i] == current;
    LessAsymmetric(cs[i].provider, next.provider);
  }

  /** The pick is non-zero whenever any candidate is, and within 1e-9 of every non-zero one. */
  lemma {:induction false} PickIsNearlyCheapest(cs: seq<Candidate>, k: nat)
    requires InOrder(cs) && k < |cs| && cs[k].input > 0.0
    ensures Pick(cs).Some? && 0.0 < Pick(cs).value.input < cs[k].input + FLOAT_EPSILON
  {
    if |cs| > 1 {
      PickStep(cs);
      if k < |cs| - 1 {
        PickIsNearlyCheapest(cs[..|cs| - 1], k);
      }
    }
  }

  lemma {:induction false} AllFreePicksFirst(cs: seq<Candidate>)
    requires InOrder(cs) && cs != [] && forall k | 0 <= k < |cs| :: cs[k].input == 0.0
    ensures Pick(cs) == Some(cs[0])
  {
    if |cs| > 1 {
      PickStep(cs);
      AllFreePicksFirst(cs[..|cs| - 1]);
    }
  }

  /** cs[k] is the first of the cheapest non-zero candidates. */
  predicate FirstCheapest(cs: seq<Candidate>, k: nat) {
    && k < |cs| && cs[k].input > 0.0
    && (forall j | 0 <= j < |cs| && cs[j].input > 0.0 :: cs[k].input <= cs[j].input)
    && (forall j | 0 <= j < k :: cs[j].input != cs[k].input)
  }

  lemma {:induction false} FirstCheapestExists(cs: seq<Candidate>, k: nat) returns (first: nat)
    requires k < |cs| && cs[k].input > 0.0
    ensures FirstCheapest(cs, first)
  {
    first := k;
    for i := 0 to |cs|
      invariant first < |cs| && cs[first].input > 0.0
      invariant first == k || first < i
      invariant forall j | 0 <= j < i && cs[j].input > 0.0 :: cs[first].input <= cs[j].input
      invariant forall j | 0 <= j < i && j < first :: cs[j].input != cs[first].input
    {
      if 0.0 < cs[i].input && (cs[i].input < cs[first].input || (cs[i].input == cs[first].input && i < first)) {
        first := i;
      }
    }
  }

  /** Whether the cheapest candidate takes over from what was picked before it. */
  predicate Reached(cs: seq<Candidate>, k: nat)
    requires k < |cs|
  {
    Pick(cs[..k]).None? || TakesOver(Pick(cs[..k]).value, cs[k])
  }

  /** From the cheapest candidate on, the pick no longer changes. */
  lemma {:induction false} PickSettles(cs: seq<Candidate>, k: nat)
    requires InOrder(cs) && FirstCheapest(cs, k)
    ensures Pick(cs) == if Reached(cs, k) then Some(cs[k]) else Pick(cs[..k])
  {
    var init := cs[..|cs| - 1];
    if |cs| > 1 {
      PickStep(cs);
    }
    if k < |cs| - 1 {
      assert init[..k] == cs[..k];
      PickSettles(init, k);
      if !Reached(cs, k) {
        PrefixIsNear(cs, k);
      }
    } else {
      assert cs[..k] == init;
    }
  }

  /** What is picked before the cheapest candidate and keeps it out costs less than 1e-9 more. */
  lemma PrefixIsNear(cs: seq<Candidate>, k: nat)
    requires InOrder(cs) && FirstCheapest(cs, k) && !Reached(cs, k)
    ensures cs[k].input < Pick(cs[..k]).value.input < cs[k].input + FLOAT_EPSILON
  {
    PickIsOne(cs[..k]);
    var j :| 0 <= j < k && cs[j] == Pick(cs[..k]).value;
  }

  /** The cheapest non-zero price is picked exactly when what precedes its first provider is free or 1e-9 dearer. */
  lemma CheapestIff(cs: seq<Candidate>, k: nat)
    requires InOrder(cs) && FirstCheapest(cs, k)
    ensures Pick(cs).Some?
    ensures Pick(cs).value.input == cs[k].input <==> Reached(cs, k)
    ensures Reached(cs, k) ==> Pick(cs).value == cs[k]
  {
    PickSettles(cs, k);
    if !Reached(cs, k) {
      PrefixIsNear(cs, k);
    }
  }

  /** No provider before the cheapest one asks a non-zero price less than 1e-9 above it. */
  predicate ClearBefore(cs: seq<Candidate>, k: nat)
    requires k < |cs|
  {
    forall j | 0 <= j < k && cs[j].input > 0.0 :: cs[j].input >= cs[k].input + FLOAT_EPSILON
  }

  /** Looking at the prices alone is enough when none comes close. */
  lemma ClearBeforeIsReached(cs: seq<Candidate>, k: nat)
    requires InOrder(cs) && FirstCheapest(cs, k) && ClearBefore(cs, k)
    ensures Reached(cs, k) && Pick(cs) == Some(cs[k])
  {
    CheapestIff(cs, k);
    if !Reached(cs, k) {
      PrefixIsNear(cs, k);
      PickIsOne(cs[..k]);
    }
  }

  predicate WellSeparated(cs: seq<Candidate>) {
    forall i, j | 0 <= i < |cs| && 0 <= j < |cs| && cs[i].input > cs[j].input > 0.0 :: cs[i].input - cs[j].input >= FLOAT_EPSILON
  }

  /** Two prices closer than 1e-9: the dearer one is picked, because its provider comes first. */
  lemma DearerIsPicked(x: real)
    requires x > 0.0
    ensures var cs := [Candidate("a", x + FLOAT_EPSILON / 2.0, None, None), Candidate("b", x, None, None)];
      InOrder(cs) && Pick(cs) == Some(cs[0])
  {
    var cs := [Candidate("a", x + FLOAT_EPSILON / 2.0, None, None), Candidate("b", x, None, None)];
    assert cs[..1] == [cs[0]];
    PickStep(cs);
  }

  /** For every feed: the policy "cheapest non-zero", exact when distinct prices are 1e-9 apart. */
  lemma CheapestNonZero(feed: Feed, providers: seq<Name>, m: Model)
    requires Sorted(providers)
    ensures var cs := Candidates(feed, providers, m); var pick := Pick(cs);
      && (pick.None? <==> cs == [])
      && (forall k | 0 <= k < |cs| && cs[k].input > 0.0 :: 0.0 < pick.value.input < cs[k].input + FLOAT_EPSILON)
      && (cs != [] && (forall k | 0 <= k < |cs| :: cs[k].input == 0.0) ==> pick == Some(cs[0]))
      && (WellSeparated(cs) && (exists k | 0 <= k < |cs| :: cs[k].input > 0.0) ==>
          exists k: nat :: FirstCheapest(cs, k) && pick == Some(cs[k]))
  {
    var cs := Candidates(feed, providers, m);
    CandidatesInOrder(feed, providers, m);
    if cs != [] {
      PickIsOne(cs);
    }
    forall k | 0 <= k < |cs| && cs[k].input > 0.0 ensures 0.0 < Pick(cs).value.input < cs[k].input + FLOAT_EPSILON {
      PickIsNearlyCheapest(cs, k);
    }
    if cs != [] && forall k | 0 <= k < |cs| :: cs[k].input == 0.0 {
      AllFreePicksFirst(cs);
    }
    if k :| 0 <= k < |cs| && cs[k].input > 0.0 {
      var first := FirstCheapestExists(cs, k);
      if WellSeparated(cs) {
        ClearBeforeIsReached(cs, first);
      }
    }
  }

  // ---- Ratios -------------------------------------------------------------------

  const USD := 500.0

  /** math.Round: to the nearest integer, halves away from zero. */
  function RoundHalfAway(x: real): (n: int)
    ensures -0.5 <= n as real - x <= 0.5
    ensures x >= 0.0 ==> n as real - x > -0.5
    ensures x < 0.0 ==> n as real - x < 0.5
  {
    if x >= 0.0 then (x + 0.5).Floor else -(0.5 - x).Floor
  }

  /** roundRatioValue: six decimals. */
  function Round6(v: real): (r: real)
    ensures -0.0000005 <= r - v <= 0.0000005
  {
    RoundHalfAway(v * 1000000.0) as real / 1000000.0
  }

  /** The result has six decimals: it is a whole number of millionths, the nearest one, and halves go
      away from zero. */
  lemma SixDecimals(v: real)
    ensures exists n: int :: Millionths(Round6(v), n) && (if v >= 0.0 then -0.5 < n as real - v * 1000000.0 <= 0.5 else -0.5 <= n as real - v * 1000000.0 < 0.5)
  {
    assert Millionths(Round6(v), RoundHalfAway(v * 1000000.0));
  }

  predicate Millionths(r: real, n: int) {
    r * 1000000.0 == n as real
  }

  lemma NonNegative(a: real, b: real)
    requires a >= 0.0 && b >= 0.0
    ensures a * b >= 0.0
  {}

  predicate Tiny(x: real) {
    -0.0000005 <= x <= 0.0000005
  }

  lemma Shrinks(a: real, x: real)
    requires a >= 0.0 && Tiny(x)
    ensures -0.0000005 * a <= a * x <= 0.0000005 * a
  {
    NonNegative(a, 0.0000005 - x);
    NonNegative(a, 0.0000005 + x);
  }

  lemma SmallProduct(x: real, y: real)
    requires Tiny(x) && Tiny(y)
    ensures -0.00000000000025 <= x * y <= 0.00000000000025
  {
    if y >= 0.0 {
      Shrinks(y, x);
      assert x * y == y * x;
    } else {
      Shrinks(-y, x);
      assert x * y == -((-y) * x);
    }
  }

  predicate Within(x: real, y: real, bound: real) {
    -bound <= x - y <= bound
  }

  /** How far a product moves when its two factors are rounded. */
  lemma ProductMoves(a: real, b: real, x: real, y: real)
    requires a >= 0.0 && b >= 0.0 && Tiny(x) && Tiny(y)
    ensures Within((a + x) * (b + y), a * b, 0.0000005 * (a + b) + 0.00000000000025)
  {
    Shrinks(a, y);
    Shrinks(b, x);
    SmallProduct(x, y);
    assert (a + x) * (b + y) == a * b + a * y + b * x + x * y;
    AddUp((a + x) * (b + y), a * b, a * y, b * x, x * y, a, b);
  }

  lemma AddUp(product: real, base: real, u: real, v: real, w: real, a: real, b: real)
    requires product == base + u + v + w
    requires -0.0000005 * a <= u <= 0.0000005 * a && -0.0000005 * b <= v <= 0.0000005 * b
    requires -0.00000000000025 <= w <= 0.00000000000025
    ensures Within(product, base, 0.0000005 * (a + b) + 0.00000000000025)
  {}

  lemma RatioTimesBase(input: real, output: real, unit: real)
    requires input > 0.0
    ensures (input * unit) * (output / input) == output * unit
  {
    var b := output / input;
    assert b * input == output;
    assert (input * unit) * b == (b * input) * unit;
  }

  /** The two ratios stand for an input price and an output price, up to the rounding. */
  predicate Represents(modelRatio: real, completionRatio: real, input: real, output: real, unit: real)
    requires input > 0.0
  {
    && Within(modelRatio, input * unit, 0.0000005)
    && Within(completionRatio, output / input, 0.0000005)
    && Within(modelRatio * completionRatio, output * unit, 0.0000005 * (input * unit + output / input) + 0.00000000000025)
  }

  lemma RoundedRatiosRepresent(modelRatio: real, completionRatio: real, input: real, output: real, unit: real)
    requires input > 0.0 && output >= 0.0 && unit >= 0.0
    requires modelRatio == Round6(input * unit) && completionRatio == Round6(output / input)
    ensures Represents(modelRatio, completionRatio, input, output, unit)
  {
    var a, b := input * unit, output / input;
    NonNegative(input, unit);
    RoundedProduct(a, b);
    RatioTimesBase(input, output, unit);
  }

  lemma RoundedProduct(a: real, b: real)
    requires a >= 0.0 && b >= 0.0
    ensures Within(Round6(a) * Round6(b), a * b, 0.0000005 * (a + b) + 0.00000000000025)
  {
    var x, y := Round6(a) - a, Round6(b) - b;
    ProductMoves(a, b, x, y);
    assert a + x == Round6(a) && b + y == Round6(b);
  }

  datatype Ratios = Ratios(modelRatio: map<Model, real>, completionRatio: map<Model, real>, cacheRatio: map<Model, real>)

  // ---- models.dev ---------------------------------------------------------------

  /** A model_ratio of 1 is 2 USD per million tokens. */
  const MODELS_DEV_UNIT := USD / 1000.0

  function WithCandidate(r: Ratios, m: Model, c: Candidate): Ratios
    requires c.input >= 0.0
  {
    if c.input == 0.0 then r.(modelRatio := r.modelRatio[m := 0.0])
    else Ratios(
      r.modelRatio[m := Round6(c.input * USD / 1000.0)],
      if c.output.Some? then r.completionRatio[m := Round6(c.output.value / c.input)] else r.completionRatio,
      if c.cacheRead.Some? then r.cacheRatio[m := Round6(c.cacheRead.value / c.input)] else r.cacheRatio)
  }

  /** The ratios of a model are those of the candidate. */
  predicate Prices(r: Ratios, m: Model, c: Candidate) {
    && m in r.modelRatio
    && (m in r.completionRatio <==> c.input > 0.0 && c.output.Some?)
    && (m in r.cacheRatio <==> c.input > 0.0 && c.cacheRead.Some?)
    && (c.input == 0.0 ==> r.modelRatio[m] == 0.0)
    && (c.input > 0.0 ==> r.modelRatio[m] == Round6(c.input * USD / 1000.0))
    && (m in r.completionRatio ==> r.completionRatio[m] == Round6(c.output.value / c.input))
    && (m in r.cacheRatio ==> r.cacheRatio[m] == Round6(c.cacheRead.value / c.input))
  }

  predicate Wellformed(c: Candidate) {
    && c.input >= 0.0
    && (c.output.Some? ==> c.output.value >= 0.0)
    && (c.cacheRead.Some? ==> c.cacheRead.value >= 0.0)
  }

  lemma ModelsDevRatios(modelRatio: real, ratio: real, input: real, other: real)
    requires input > 0.0 && other >= 0.0
    requires modelRatio == Round6(input * USD / 1000.0) && ratio == Round6(other / input)
    ensures Represents(modelRatio, ratio, input, other, MODELS_DEV_UNIT)
  {
    assert input * USD / 1000.0 == input * MODELS_DEV_UNIT;
    RoundedRatiosRepresent(modelRatio, ratio, input, other, MODELS_DEV_UNIT);
  }

  /** The published ratios give the candidate's output and cache prices back, up to the rounding. */
  lemma PricesComeBack(r: Ratios, m: Model, c: Candidate)
    requires Wellformed(c) && Prices(r, m, c)
    ensures m in r.completionRatio ==> Represents(r.modelRatio[m], r.completionRatio[m], c.input, c.output.value, MODELS_DEV_UNIT)
    ensures m in r.cacheRatio ==> Represents(r.modelRatio[m], r.cacheRatio[m], c.input, c.cacheRead.value, MODELS_DEV_UNIT)
  {
    if m in r.completionRatio {
      ModelsDevRatios(r.modelRatio[m], r.completionRatio[m], c.input, c.output.value);
    }
    if m in r.cacheRatio {
      ModelsDevRatios(r.modelRatio[m], r.cacheRatio[m], c.input, c.cacheRead.value);
    }
  }

  /** selectedCandidates holds the pick of every priced model, over the providers given. */
  ghost predicate Selected(selected: map<Model, Candidate>, feed: Feed, providers: seq<Name>) {
    forall m :: SelectedAt(selected, feed, providers, m)
  }

  predicate SelectedAt(selected: map<Model, Candidate>, feed: Feed, providers: seq<Name>, m: Model) {
    Pick(Candidates(feed, providers, m)) == if m in selected then Some(selected[m]) else None
  }

  /** What the loop does with one candidate. */
  function Offer(selected: map<Model, Candidate>, m: Model, candidate: Option<Candidate>): map<Model, Candidate> {
    if candidate.Some? && (m !in selected || ShouldReplace(selected[m], candidate.value)) then selected[m := candidate.value] else selected
  }

  function Priced(feed: Feed, p: Name, m: Model): Option<Candidate>
    requires p in feed
  {
    if m in feed[p] then BuildCandidate(p, feed[p][m]) else None
  }

  lemma CandidatesOfMore(feed: Feed, providers: seq<Name>, p: Name, m: Model)
    requires p in feed
    ensures var candidate := Priced(feed, p, m);
      Candidates(feed, providers + [p], m) == Candidates(feed, providers, m) + if candidate.Some? then [candidate.value] else []
  {
    assert (providers + [p])[..|providers|] == providers;
  }

  lemma PickOfMore(cs: seq<Candidate>, next: Candidate)
    ensures Pick(cs + [next]) == if Pick(cs).None? || ShouldReplace(Pick(cs).value, next) then Some(next) else Pick(cs)
  {
    assert (cs + [next])[..|cs|] == cs;
  }

  lemma OfferSelects(selected: map<Model, Candidate>, feed: Feed, providers: seq<Name>, p: Name, m: Model)
    requires p in feed && SelectedAt(selected, feed, providers, m)
    ensures SelectedAt(Offer(selected, m, Priced(feed, p, m)), feed, providers + [p], m)
  {
    var cs, candidate := Candidates(feed, providers, m), Priced(feed, p, m);
    CandidatesOfMore(feed, providers, p, m);
    if candidate.Some? {
      PickOfMore(cs, candidate.value);
    } else {
      assert cs + [] == cs;
    }
  }

  /** The models done are selected over one more provider, the others not yet. */
  ghost predicate HalfSelected(selected: map<Model, Candidate>, feed: Feed, providers: seq<Name>, p: Name, done: set<Model>) {
    forall m :: if m in done then SelectedAt(selected, feed, providers + [p], m) else SelectedAt(selected, feed, providers, m)
  }

  lemma HalfSelectedMore(selected: map<Model, Candidate>, feed: Feed, providers: seq<Name>, p: Name, done: set<Model>, m: Model)
    requires p in feed && HalfSelected(selected, feed, providers, p, done) && m !in done
    ensures HalfSelected(Offer(selected, m, Priced(feed, p, m)), feed, providers, p, done + {m})
  {
    OfferSelects(selected, feed, providers, p, m);
    var next := Offer(selected, m, Priced(feed, p, m));
    forall n | n != m
      ensures if n in done then SelectedAt(next, feed, providers + [p], n) else SelectedAt(next, feed, providers, n)
    {
      assert if n in done then SelectedAt(selected, feed, providers + [p], n) else SelectedAt(selected, feed, providers, n);
    }
  }

  lemma AllSelected(selected: map<Model, Candidate>, feed: Feed, providers: seq<Name>, p: Name)
    requires p in feed && HalfSelected(selected, feed, providers, p, feed[p].Keys)
    ensures Selected(selected, feed, providers + [p])
  {
    forall m ensures SelectedAt(selected, feed, providers + [p], m) {
      if m !in feed[p] {
        OfferSelects(selected, feed, providers, p, m);
      }
    }
  }

  method AddProvider(feed: Feed, ghost providers: seq<Name>, p: Name, before: map<Model, Candidate>) returns (selected: map<Model, Candidate>)
    requires p in feed && Selected(before, feed, providers)
    ensures Selected(selected, feed, providers + [p])
  {
    selected := before;
    var names := SortedNames(feed[p].Keys);
    ghost var done: set<Model> := {};
    for i := 0 to |names|
      invariant forall m :: m in done <==> m in names[..i]
      invariant HalfSelected(selected, feed, providers, p, done)
    {
      var m := names[i];
      NotEarlier(names, i);
      HalfSelectedMore(selected, feed, providers, p, done, m);
      selected := Offer(selected, m, BuildCandidate(p, feed[p][m]));
      done := done + {m};
    }
    assert done == feed[p].Keys;
    AllSelected(selected, feed, providers, p);
  }

  lemma NotEarlier(names: seq<Name>, i: nat)
    requires Sorted(names) && i < |names|
    ensures names[i] !in names[..i]
  {
    forall j | 0 <= j < i ensures names[j] != names[i] {
      LessAsymmetric(names[j], names[i]);
    }
  }

  datatype ModelsDevResult = Empty | NoValidEntries | Converted(ratios: Ratios)

  lemma {:induction false} CandidatesWellformed(feed: Feed, providers: seq<Name>, m: Model)
    ensures forall c | c in Candidates(feed, providers, m) :: Wellformed(c)
  {
    if providers != [] {
      CandidatesWellformed(feed, providers[..|providers| - 1], m);
    }
  }

  lemma SelectedIsWellformed(selected: map<Model, Candidate>, feed: Feed, providers: seq<Name>, m: Model)
    requires Selected(selected, feed, providers) && m in selected
    ensures Wellformed(selected[m])
  {
    assert SelectedAt(selected, feed, providers, m);
    CandidatesWellformed(feed, providers, m);
    PickIsOne(Candidates(feed, providers, m));
  }

  /** The ratios hold the selected models, each priced as its candidate, and no other model. */
  ghost predicate PricesAll(r: Ratios, selected: map<Model, Candidate>, rest: set<Model>) {
    && (forall m | m in selected && m !in rest :: Prices(r, m, selected[m]))
    && (forall m | m !in selected || m in rest :: Unpriced(r, m))
  }

  predicate Unpriced(r: Ratios, m: Model) {
    m !in r.modelRatio && m !in r.completionRatio && m !in r.cacheRatio
  }

  lemma WithCandidatePrices(r: Ratios, m: Model, c: Candidate)
    requires Wellformed(c) && Unpriced(r, m)
    ensures Prices(WithCandidate(r, m, c), m, c)
  {}

  lemma WithCandidateKeeps(r: Ratios, m: Model, c: Candidate, other: Model)
    requires c.input >= 0.0 && other != m
    ensures Unpriced(WithCandidate(r, m, c), other) <==> Unpriced(r, other)
    ensures forall d | Prices(r, other, d) :: Prices(WithCandidate(r, m, c), other, d)
  {}

  lemma PricesMore(r: Ratios, selected: map<Model, Candidate>, rest: set<Model>, m: Model)
    requires PricesAll(r, selected, rest) && m in rest && m in selected && Wellformed(selected[m])
    ensures PricesAll(WithCandidate(r, m, selected[m]), selected, rest - {m})
  {
    WithCandidatePrices(r, m, selected[m]);
    forall other | other != m {
      WithCandidateKeeps(r, m, selected[m], other);
    }
  }

  method ConvertSelected(selected: map<Model, Candidate>) returns (r: Ratios)
    requires forall m | m in selected :: Wellformed(selected[m])
    ensures PricesAll(r, selected, {})
  {
    r := Ratios(map[], map[], map[]);
    var rest := selected.Keys;
    while rest != {}
      invariant rest <= selected.Keys
      invariant PricesAll(r, selected, rest)
    {
      var m :| m in rest;
      PricesMore(r, selected, rest, m);
      r := WithCandidate(r, m, selected[m]);
      rest := rest - {m};
    }
  }

  method ConvertModelsDevToRatioData(feed: Feed) returns (result: ModelsDevResult, ghost providers: seq<Name>)
    ensures Sorted(providers) && forall p :: p in providers <==> p in feed
    ensures result.Empty? <==> feed == map[]
    ensures result.NoValidEntries? <==> feed != map[] && forall m :: Candidates(feed, providers, m) == []
    ensures result.Converted? ==> forall m :: ConvertedAt(result.ratios, feed, providers, m)
  {
    var names := SortedNames(feed.Keys);
    providers := names;
    if feed == map[] {
      return Empty, providers;
    }
    var selected: map<Model, Candidate> := map[];
    for i := 0 to |names|
      invariant Selected(selected, feed, names[..i])
    {
      assert names[..i + 1] == names[..i] + [names[i]];
      selected := AddProvider(feed, names[..i], names[i], selected);
    }
    assert names[..|names|] == names;
    forall m | m in selected ensures Wellformed(selected[m]) {
      SelectedIsWellformed(selected, feed, names, m);
    }
    forall m ensures Candidates(feed, names, m) == [] <==> m !in selected {
      assert SelectedAt(selected, feed, names, m);
      if Candidates(feed, names, m) != [] {
        PickIsOne(Candidates(feed, names, m));
      }
    }
    if selected == map[] {
      return NoValidEntries, providers;
    }
    assert exists m :: Candidates(feed, names, m) != [] by {
      var m :| m in selected;
      assert Candidates(feed, names, m) != [];
    }
    var r := ConvertSelected(selected);
    forall m ensures ConvertedAt(r, feed, names, m) {
      assert SelectedAt(selected, feed, names, m);
    }
    result := Converted(r);
  }

  /** A model without candidates has no ratios; any other is priced as its pick. */
  predicate ConvertedAt(r: Ratios, feed: Feed, providers: seq<Name>, m: Model) {
    var pick := Pick(Candidates(feed, providers, m));
    if pick.None? then Unpriced(r, m)
    else Prices(r, m, pick.value)
  }

  /** For every feed and model: the ratios published give the output and cache prices of the pick
      back, up to the rounding. */
  lemma FeedPricesComeBack(r: Ratios, feed: Feed, providers: seq<Name>, m: Model)
    requires ConvertedAt(r, feed, providers, m) && Pick(Candidates(feed, providers, m)).Some?
    ensures var c := Pick(Candidates(feed, providers, m)).value;
      && m in r.modelRatio && Within(r.modelRatio[m], c.input * 0.5, 0.0000005)
      && (c.input == 0.0 ==> r.modelRatio[m] == 0.0)
      && (m in r.completionRatio <==> c.input > 0.0 && c.output.Some?)
      && (m in r.cacheRatio <==> c.input > 0.0 && c.cacheRead.Some?)
      && (m in r.completionRatio ==> Represents(r.modelRatio[m], r.completionRatio[m], c.input, c.output.value, MODELS_DEV_UNIT))
      && (m in r.cacheRatio ==> Represents(r.modelRatio[m], r.cacheRatio[m], c.input, c.cacheRead.value, MODELS_DEV_UNIT))
  {
    CandidatesWellformed(feed, providers, m);
    PickIsOne(Candidates(feed, providers, m));
    var c := Pick(Candidates(feed, providers, m)).value;
    PricesComeBack(r, m, c);
    assert c.input * USD / 1000.0 == c.input * 0.5;
  }

  // ---- OpenRouter -----------------------------------------------------------------

  /** One listed model: its prices per token, None where the text is not a number. */
  datatype Listing = Listing(id: Model, prompt: Option<real>, completion: Option<real>, cacheRead: Option<real>)

  datatype Quote = Unusable | Free | Paid(prompt: real, completion: real)

  const OPEN_ROUTER_UNIT := 1000.0 * USD

  function Amount(price: Option<real>): real {
    if price.Some? then price.value else 0.0
  }

  /** What a listing quotes: the branches that skip it, keep it as free, or price it. */
  function QuoteOf(item: Listing): (q: Quote)
    ensures q.Paid? ==> q.prompt > 0.0 && q.completion >= 0.0
  {
    var prompt, completion := Amount(item.prompt), Amount(item.completion);
    if item.prompt.None? && item.completion.None? then Unusable
    else if prompt < 0.0 || completion < 0.0 then Unusable
    else if prompt == 0.0 && completion == 0.0 then Free
    else if prompt <= 0.0 then Unusable
    else Paid(prompt, completion)
  }

  /** The quote that decides a model: that of its last usable listing. */
  function Decides(items: seq<Listing>, id: Model): Quote {
    if items == [] then Unusable else
      var item := items[|items| - 1];
      if item.id == id && !QuoteOf(item).Unusable? then QuoteOf(item) else Decides(items[..|items| - 1], id)
  }

  /** The last paid listing of a model that carries a cache price, as (cache price, prompt price). */
  function DecidesCache(items: seq<Listing>, id: Model): Option<(real, real)> {
    if items == [] then None else
      var item := items[|items| - 1];
      if item.id == id && QuotesCache(item) then Some((item.cacheRead.value, QuoteOf(item).prompt))
      else DecidesCache(items[..|items| - 1], id)
  }

  predicate QuotesCache(item: Listing) {
    QuoteOf(item).Paid? && item.cacheRead.Some? && item.cacheRead.value >= 0.0
  }

  predicate ListedAsPaid(r: Ratios, id: Model, prompt: real, completion: real) {
    && prompt > 0.0 && completion >= 0.0
    && id in r.modelRatio && r.modelRatio[id] == Round6(prompt * 1000.0 * USD)
    && id in r.completionRatio && r.completionRatio[id] == Round6(completion / prompt)
  }

  /** The ratios of a model after some listings. */
  predicate Listed(r: Ratios, items: seq<Listing>, id: Model) {
    var q, cache := Decides(items, id), DecidesCache(items, id);
    && (id in r.modelRatio <==> !q.Unusable?)
    && (q.Free? ==> r.modelRatio[id] == 0.0)
    && (q.Paid? ==> ListedAsPaid(r, id, q.prompt, q.completion))
    && (q.Unusable? ==> id !in r.completionRatio)
    && (id in r.cacheRatio <==> cache.Some?)
    && (cache.Some? ==> cache.value.1 > 0.0 && r.cacheRatio[id] == Round6(cache.value.0 / cache.value.1))
  }

  method ConvertListing(r: Ratios, ghost items: seq<Listing>, item: Listing) returns (more: Ratios)
    requires forall id :: Listed(r, items, id)
    ensures forall id :: Listed(more, items + [item], id)
  {
    more := r;
    if item.prompt.Some? || item.completion.Some? {
      var prompt, completion := Amount(item.prompt), Amount(item.completion);
      if prompt < 0.0 || completion < 0.0 {
      } else if prompt == 0.0 && completion == 0.0 {
        more := more.(modelRatio := more.modelRatio[item.id := 0.0]);
      } else if prompt > 0.0 {
        more := more.(modelRatio := more.modelRatio[item.id := Round6(prompt * 1000.0 * USD)],
                      completionRatio := more.completionRatio[item.id := Round6(completion / prompt)]);
        if item.cacheRead.Some? && item.cacheRead.value >= 0.0 {
          more := more.(cacheRatio := more.cacheRatio[item.id := Round6(item.cacheRead.value / prompt)]);
        }
      }
    }
    assert (items + [item])[..|items|] == items;
    forall id ensures Listed(more, items + [item], id) {
      assert Listed(r, items, id);
    }
  }

  method ConvertOpenRouterToRatioData(items: seq<Listing>) returns (r: Ratios)
    ensures forall id :: Listed(r, items, id)
  {
    r := Ratios(map[], map[], map[]);
    for i := 0 to |items|
      invariant forall id :: Listed(r, items[..i], id)
    {
      r := ConvertListing(r, items[..i], items[i]);
      assert items[..i + 1] == items[..i] + [items[i]];
    }
    assert items[..|items|] == items;
  }

  lemma OpenRouterRatios(modelRatio: real, ratio: real, prompt: real, other: real)
    requires prompt > 0.0 && other >= 0.0
    requires modelRatio == Round6(prompt * 1000.0 * USD) && ratio == Round6(other / prompt)
    ensures Represents(modelRatio, ratio, prompt, other, OPEN_ROUTER_UNIT)
  {
    assert prompt * 1000.0 * USD == prompt * OPEN_ROUTER_UNIT;
    RoundedRatiosRepresent(modelRatio, ratio, prompt, other, OPEN_ROUTER_UNIT);
  }

  /**
   * Whatever was listed before, the two ratios give the deciding quote's
   * completion price back; a free quote gives zero, also next to a
   * completion ratio left over from an earlier listing.
   */
  lemma QuoteComesBack(r: Ratios, items: seq<Listing>, id: Model)
    requires Listed(r, items, id)
    ensures var q := Decides(items, id);
      && (q.Paid? ==> Represents(r.modelRatio[id], r.completionRatio[id], q.prompt, q.completion, OPEN_ROUTER_UNIT))
      && (q.Free? && id in r.completionRatio ==> r.modelRatio[id] * r.completionRatio[id] == 0.0)
  {
    var q := Decides(items, id);
    if q.Paid? {
      OpenRouterRatios(r.modelRatio[id], r.completionRatio[id], q.prompt, q.completion);
    }
  }

  /** Whether the listing that decides a model carries a cache price itself. */
  predicate CacheIsCurrent(items: seq<Listing>, id: Model) {
    items != [] &&
    var item := items[|items| - 1];
    if item.id == id && !QuoteOf(item).Unusable? then QuotesCache(item) else CacheIsCurrent(items[..|items| - 1], id)
  }

  lemma {:induction false} CurrentCacheDecides(items: seq<Listing>, id: Model)
    requires CacheIsCurrent(items, id)
    ensures Decides(items, id).Paid? && DecidesCache(items, id).Some?
    ensures DecidesCache(items, id).value.1 == Decides(items, id).prompt > 0.0
    ensures DecidesCache(items, id).value.0 >= 0.0
  {
    var item := items[|items| - 1];
    if item.id != id || QuoteOf(item).Unusable? {
      CurrentCacheDecides(items[..|items| - 1], id);
    }
  }

  /** The cache price of a deciding listing that carries one comes back too. */
  lemma CacheComesBack(r: Ratios, items: seq<Listing>, id: Model)
    requires Listed(r, items, id) && CacheIsCurrent(items, id)
    ensures Decides(items, id).Paid? && Decides(items, id).prompt > 0.0 && DecidesCache(items, id).Some?
    ensures Represents(r.modelRatio[id], r.cacheRatio[id], Decides(items, id).prompt, DecidesCache(items, id).value.0, OPEN_ROUTER_UNIT)
  {
    CurrentCacheDecides(items, id);
    OpenRouterRatios(r.modelRatio[id], r.cacheRatio[id], Decides(items, id).prompt, DecidesCache(items, id).value.0);
  }

  /** The k-th listing decides the model: it is the last usable one. */
  predicate DecidedBy(items: seq<Listing>, id: Model, k: nat) {
    && k < |items| && Usable(items[k], id)
    && forall j | k < j < |items| :: !Usable(items[j], id)
  }

  predicate Usable(item: Listing, id: Model) {
    item.id == id && !QuoteOf(item).Unusable?
  }

  lemma LastUnusable(items: seq<Listing>, id: Model, k: nat)
    requires items != [] && !Usable(items[|items| - 1], id)
    ensures DecidedBy(items[..|items| - 1], id, k) <==> DecidedBy(items, id, k)
  {
    var init := items[..|items| - 1];
    assert forall j | 0 <= j < |init| :: init[j] == items[j];
    if DecidedBy(items, id, k) {
      assert forall j | k < j < |init| :: !Usable(items[j], id);
    }
  }

  lemma {:induction false} CurrentIff(items: seq<Listing>, id: Model)
    ensures CacheIsCurrent(items, id) <==> exists k: nat :: DecidedBy(items, id, k) && QuotesCache(items[k])
  {
    if items != [] {
      var init, n := items[..|items| - 1], |items| - 1;
      if Usable(items[n], id) {
        assert DecidedBy(items, id, n);
      } else {
        CurrentIff(init, id);
        forall k: nat ensures DecidedBy(init, id, k) <==> DecidedBy(items, id, k) {
          LastUnusable(items, id, k);
        }
      }
    }
  }

  lemma {:induction false} SomeListingQuotesCacheIff(items: seq<Listing>, id: Model)
    ensures DecidesCache(items, id).Some? <==> exists j | 0 <= j < |items| :: items[j].id == id && QuotesCache(items[j])
  {
    if items != [] {
      var init, n := items[..|items| - 1], |items| - 1;
      SomeListingQuotesCacheIff(init, id);
      assert forall j | 0 <= j < n :: init[j] == items[j];
      if j :| 0 <= j < |items| && items[j].id == id && QuotesCache(items[j]) {
        assert j < n ==> init[j].id == id && QuotesCache(init[j]);
      }
    }
  }

  lemma {:induction false} DeciderExists(items: seq<Listing>, id: Model, j: nat) returns (k: nat)
    requires j < |items| && Usable(items[j], id)
    ensures DecidedBy(items, id, k) && j <= k
    decreases |items| - j
  {
    if DecidedBy(items, id, j) {
      return j;
    }
    var i :| j < i < |items| && Usable(items[i], id);
    k := DeciderExists(items, id, i);
  }

  /** The cache ratio published for a model is out of date exactly when a listing with a cache
      price is followed by a deciding listing without one. */
  lemma StaleCacheIff(r: Ratios, items: seq<Listing>, id: Model)
    requires Listed(r, items, id)
    ensures id in r.cacheRatio && !CacheIsCurrent(items, id) <==>
      exists j: nat, k: nat :: j < k && DecidedBy(items, id, k) && !QuotesCache(items[k]) && items[j].id == id && QuotesCache(items[j])
  {
    CurrentIff(items, id);
    SomeListingQuotesCacheIff(items, id);
    if id in r.cacheRatio && !CacheIsCurrent(items, id) {
      var j: nat :| j < |items| && items[j].id == id && QuotesCache(items[j]);
      var k := DeciderExists(items, id, j);
      assert !QuotesCache(items[k]) && j < k;
    }
    if j: nat, k: nat :| j < k && DecidedBy(items, id, k) && !QuotesCache(items[k]) && items[j].id == id && QuotesCache(items[j]) {
      if i: nat :| DecidedBy(items, id, i) && QuotesCache(items[i]) {
        assert false;
      }
    }
  }

  // ---- From the deciding listing itself --------------------------------------------

  /** What a listing is, by its own prices: priced with a prompt price above zero and a completion
      price of at least zero, free when both are zero, and otherwise of no use. An unparseable price
      counts as zero unless both are. */
  lemma QuoteIff(item: Listing)
    ensures var p, q := if item.prompt.Some? then item.prompt.value else 0.0, if item.completion.Some? then item.completion.value else 0.0;
      && (QuoteOf(item).Paid? <==> p > 0.0 && q >= 0.0)
      && (QuoteOf(item).Paid? ==> QuoteOf(item).prompt == p && QuoteOf(item).completion == q)
      && (QuoteOf(item).Free? <==> p == 0.0 && q == 0.0 && (item.prompt.Some? || item.completion.Some?))
  {
  }

  lemma {:induction false} DeciderDecides(items: seq<Listing>, id: Model, k: nat)
    requires DecidedBy(items, id, k)
    ensures Decides(items, id) == QuoteOf(items[k])
    ensures QuotesCache(items[k]) ==> DecidesCache(items, id) == Some((items[k].cacheRead.value, QuoteOf(items[k]).prompt))
  {
    if k < |items| - 1 {
      assert !Usable(items[|items| - 1], id);
      LastUnusable(items, id, k);
      DeciderDecides(items[..|items| - 1], id, k);
    }
  }

  /**
   * For every list and model, from the prices of the last usable listing: a priced one gives its
   * completion price and, if it has one, its cache price back, a ratio of 1 being 1/500000 USD per
   * token, up to the rounding; a free one gives zero; and a model without a usable listing has no ratios.
   */
  lemma ListingComesBack(r: Ratios, items: seq<Listing>, id: Model, k: nat, p: real, q: real)
    requires Listed(r, items, id) && DecidedBy(items, id, k)
    requires p == (if items[k].prompt.Some? then items[k].prompt.value else 0.0)
    requires q == (if items[k].completion.Some? then items[k].completion.value else 0.0)
    ensures id in r.modelRatio
    ensures p > 0.0 ==> id in r.completionRatio && Represents(r.modelRatio[id], r.completionRatio[id], p, q, 500000.0)
    ensures p > 0.0 && items[k].cacheRead.Some? && items[k].cacheRead.value >= 0.0 ==>
      id in r.cacheRatio && Represents(r.modelRatio[id], r.cacheRatio[id], p, items[k].cacheRead.value, 500000.0)
    ensures p <= 0.0 ==> p == 0.0 && q == 0.0 && r.modelRatio[id] == 0.0
  {
    QuoteIff(items[k]);
    DeciderDecides(items, id, k);
    QuoteComesBack(r, items, id);
    assert OPEN_ROUTER_UNIT == 500000.0;
    if p > 0.0 && items[k].cacheRead.Some? && items[k].cacheRead.value >= 0.0 {
      assert QuotesCache(items[k]);
      CurrentIff(items, id);
      CacheComesBack(r, items, id);
    }
  }

  lemma UnlistedHasNoRatios(r: Ratios, items: seq<Listing>, id: Model)
    requires Listed(r, items, id) && forall k | 0 <= k < |items| :: !Usable(items[k], id)
    ensures Unpriced(r, id)
  {
    NothingDecides(items, id);
  }

  lemma {:induction false} NothingDecides(items: seq<Listing>, id: Model)
    requires forall k | 0 <= k < |items| :: !Usable(items[k], id)
    ensures Decides(items, id).Unusable? && DecidesCache(items, id).None?
  {
    if items != [] {
      assert !Usable(items[|items| - 1], id);
      NothingDecides(items[..|items| - 1], id);
    }
  }

  /** A later listing without a cache price leaves the ratio of an earlier one standing. */
  lemma CacheRatioOutlivesItsListing(r: Ratios, id: Model, prompt: real, cache: real, later: real)
    requires prompt > 0.0 && cache >= 0.0 && later > 0.0
    requires var items := [Listing(id, Some(prompt), Some(0.0), Some(cache)), Listing(id, Some(later), Some(0.0), None)];
      Listed(r, items, id)
    ensures r.modelRatio[id] == Round6(later * 1000.0 * USD) && id in r.cacheRatio && r.cacheRatio[id] == Round6(cache / prompt)
  {
    var items := [Listing(id, Some(prompt), Some(0.0), Some(cache)), Listing(id, Some(later), Some(0.0), None)];
    assert items[..1] == [items[0]];
    assert DecidesCache(items[..1], id) == Some((cache, prompt));
  }
}
