/** The weighted market-entry decision: five pillars, each the mean of the
    components that are present, a weighted score over the pillars that are
    present, and the verdict rules.

    Numbers are exact reals and `round` is Rounding.Round. `math.log10` is a
    parameter of which only monotonicity on positive numbers is ever used. */
module Decision {
  import opened Rounding
  import opened Wrappers

  // ---------------------------------------------------------------- inputs

  datatype MarketInputs = MarketInputs(
    tamUsd: Option<real>, importCagrPct: Option<real>, gdpPerCapitaUsd: Option<real>,
    saudiSharePct: Option<real>, activityIndex: Option<real>)

  datatype CompetitionInputs = CompetitionInputs(
    hhi: Option<real>, topSupplierSharePct: Option<real>, namedCompanies: Option<real>)

  datatype RegulatoryInputs = RegulatoryInputs(
    tariffPct: Option<real>, requirements: Option<real>, gateOpen: bool)

  datatype ProfitInputs = ProfitInputs(
    marginPct: Option<real>, unitValue: Option<real>, saudiUnitValue: Option<real>)

  datatype RiskInputs = RiskInputs(
    stability: Option<real>, quality: Option<real>, logistics: Option<real>,
    fxVolatilityPct: Option<real>, critical: bool)

  datatype Bundle = Bundle(
    market: MarketInputs, competition: CompetitionInputs, regulatory: RegulatoryInputs,
    profit: ProfitInputs, risk: RiskInputs, coverage: real)

  type Log = real -> real

  ghost predicate Increasing(log10: Log) {
    forall x, y | 0.0 < x <= y :: log10(x) <= log10(y)
  }

  // --------------------------------------------------------------- pillars

  function Clip(x: real): real {
    if x < 0.0 then 0.0 else if x > 1.0 then 1.0 else x
  }

  function Part(x: Option<real>, scale: real -> real): Option<real> {
    if x.Some? then Some(Clip(scale(x.value))) else None
  }

  /** A number that is present and not zero: Python's truth test on it. */
  predicate Truthy(x: Option<real>) {
    x.Some? && x.value != 0.0
  }

  predicate HasTam(m: MarketInputs) {
    m.tamUsd.Some? && m.tamUsd.value > 0.0
  }

  function MarketParts(m: MarketInputs, log10: Log): seq<Option<real>> {
    [ if HasTam(m) then Some(Clip(log10(m.tamUsd.value) / 9.0)) else Part(m.activityIndex, x => x),
      Part(m.importCagrPct, x => (x + 10.0) / 40.0),
      if Truthy(m.gdpPerCapitaUsd) then Some(Clip(m.gdpPerCapitaUsd.value / 50000.0)) else None,
      Part(m.saudiSharePct, x => x / 20.0) ]
  }

  function CompetitionParts(c: CompetitionInputs): seq<Option<real>> {
    [ Part(c.hhi, x => x / 0.5), Part(c.topSupplierSharePct, x => x / 100.0),
      Part(c.namedCompanies, x => x / 10.0) ]
  }

  function RegulatoryParts(r: RegulatoryInputs): seq<Option<real>> {
    [ Part(r.tariffPct, x => 1.0 - x / 30.0), Part(r.requirements, x => x / 8.0) ]
  }

  predicate HasRatio(p: ProfitInputs) {
    Truthy(p.unitValue) && Truthy(p.saudiUnitValue)
  }

  function ProfitParts(p: ProfitInputs): seq<Option<real>> {
    [ Part(p.marginPct, x => x / 40.0),
      if HasRatio(p) then Some(Clip(1.5 - p.saudiUnitValue.value / p.unitValue.value)) else None ]
  }

  function RiskParts(r: RiskInputs): seq<Option<real>> {
    [ Part(r.stability, x => (x + 2.5) / 5.0), Part(r.quality, x => (x + 2.5) / 5.0),
      Part(r.logistics, x => (x - 1.0) / 4.0), Part(r.fxVolatilityPct, x => 1.0 - x / 20.0) ]
  }

  function Count(parts: seq<Option<real>>): nat {
    if parts == [] then 0 else (if parts[0].Some? then 1 else 0) + Count(parts[1..])
  }

  function Sum(parts: seq<Option<real>>): real {
    if parts == [] then 0.0 else (if parts[0].Some? then parts[0].value else 0.0) + Sum(parts[1..])
  }

  /** The mean before rounding. */
  function Mean(parts: seq<Option<real>>): real
    requires Count(parts) > 0
  {
    Sum(parts) / Count(parts) as real
  }

  function MeanAvailable(parts: seq<Option<real>>): Option<real> {
    if Count(parts) == 0 then None else Some(Round(Mean(parts), Three))
  }

  /** An open eligibility gate caps the pillar at 0.3. */
  function Gated(v: Option<real>, gateOpen: bool): Option<real> {
    if gateOpen && v.Some? then Some(Round(if v.value <= 0.3 then v.value else 0.3, Three)) else v
  }

  /** Competition counts for the score as one minus its intensity. */
  function Inverted(v: Option<real>): Option<real> {
    if v.Some? then Some(1.0 - v.value) else None
  }

  function MarketPillar(m: MarketInputs, log10: Log): Option<real> {
    MeanAvailable(MarketParts(m, log10))
  }

  function CompetitionPillar(c: CompetitionInputs): Option<real> {
    Inverted(MeanAvailable(CompetitionParts(c)))
  }

  function RegulatoryPillar(r: RegulatoryInputs): Option<real> {
    Gated(MeanAvailable(RegulatoryParts(r)), r.gateOpen)
  }

  function ProfitPillar(p: ProfitInputs): Option<real> {
    MeanAvailable(ProfitParts(p))
  }

  function RiskPillar(r: RiskInputs): Option<real> {
    MeanAvailable(RiskParts(r))
  }

  /** What each pillar contributes: market, competition, regulatory, profit, risk. */
  function Effective(b: Bundle, log10: Log): seq<Option<real>> {
    [MarketPillar(b.market, log10), CompetitionPillar(b.competition), RegulatoryPillar(b.regulatory),
     ProfitPillar(b.profit), RiskPillar(b.risk)]
  }

  // ------------------------------------------------------ score and verdict

  datatype WeightOption = A | B

  function Weights(option: WeightOption): seq<real> {
    match option
    case A => [0.25, 0.20, 0.15, 0.25, 0.15]
    case B => [0.20, 0.15, 0.30, 0.20, 0.15]
  }

  predicate Positive(weights: seq<real>) {
    forall i | 0 <= i < |weights| :: weights[i] > 0.0
  }

  function Term(weight: real, value: Option<real>): real {
    if value.Some? then weight * value.value else 0.0
  }

  function Contribution(weights: seq<real>, values: seq<Option<real>>): real
    requires |weights| == |values|
  {
    if values == [] then 0.0 else Term(weights[0], values[0]) + Contribution(weights[1..], values[1..])
  }

  function WeightSum(weights: seq<real>, values: seq<Option<real>>): real
    requires |weights| == |values|
  {
    if values == [] then 0.0
    else (if values[0].Some? then weights[0] else 0.0) + WeightSum(weights[1..], values[1..])
  }

  function Score(weights: seq<real>, values: seq<Option<real>>): Option<real>
    requires |weights| == |values|
  {
    var total := WeightSum(weights, values);
    if total == 0.0 then None else Some(Round(Contribution(weights, values) / total, Three))
  }

  /** The share of the five pillars that could be computed. */
  function PillarShare(computed: nat): real {
    computed as real / 5.0
  }

  function Times(x: real, y: real): real {
    x * y
  }

  function ConfidenceFrom(coverage: real, computed: nat): real {
    Round(Times(coverage, PillarShare(computed)), Two)
  }

  function Confidence(coverage: real, values: seq<Option<real>>): real {
    ConfidenceFrom(coverage, Count(values))
  }

  datatype Condition = GateOpen | Missing(pillar: nat) | Weak(pillar: nat)

  datatype Verdict = NoGo | ConditionalGo | Go

  predicate Strong(values: seq<Option<real>>) {
    forall i | 0 <= i < |values| :: values[i].Some? && values[i].value >= 0.5
  }

  function VerdictOf(score: Option<real>, critical: bool, confidence: real, open: bool): Verdict {
    if score == None || critical then NoGo
    else if score.value >= 0.65 && confidence >= 0.60 && !open then Go
    else if score.value < 0.45 then NoGo
    else ConditionalGo
  }

  /** The decision in one expression, with "no condition is open" spelled out. */
  function Decided(b: Bundle, log10: Log, option: WeightOption): Verdict {
    var values := Effective(b, log10);
    VerdictOf(Score(Weights(option), values), b.risk.critical, Confidence(b.coverage, values),
              b.regulatory.gateOpen || !Strong(values))
  }

  // ------------------------------------------------- the documented scales

  /** From 0 at `zero` to 1 at `one` along a straight line, flat beyond; a scale
      may also fall. */
  ghost predicate Interpolates(part: Option<real>, x: Option<real>, zero: real, one: real)
    requires zero != one
  {
    && part.Some? == x.Some?
    && (x.Some? ==>
          && 0.0 <= part.value <= 1.0
          && (part.value == 0.0 <==> if zero < one then x.value <= zero else x.value >= zero)
          && (part.value == 1.0 <==> if zero < one then x.value >= one else x.value <= one)
          && (0.0 < part.value < 1.0 ==> zero + part.value * (one - zero) == x.value))
  }

  lemma {:induction false} MarketInterpolates(m: MarketInputs, log10: Log)
    ensures |MarketParts(m, log10)| == 4
    ensures if m.tamUsd.Some? && m.tamUsd.value > 0.0 then
              Interpolates(MarketParts(m, log10)[0], Some(log10(m.tamUsd.value)), 0.0, 9.0)
            else Interpolates(MarketParts(m, log10)[0], m.activityIndex, 0.0, 1.0)
    ensures Interpolates(MarketParts(m, log10)[1], m.importCagrPct, -10.0, 30.0)
    ensures Interpolates(MarketParts(m, log10)[2], if m.gdpPerCapitaUsd == Some(0.0) then None else m.gdpPerCapitaUsd,
                         0.0, 50000.0)
    ensures Interpolates(MarketParts(m, log10)[3], m.saudiSharePct, 0.0, 20.0)
  {}

  lemma {:induction false} CompetitionInterpolates(c: CompetitionInputs)
    ensures |CompetitionParts(c)| == 3
    ensures Interpolates(CompetitionParts(c)[0], c.hhi, 0.0, 0.5)
    ensures Interpolates(CompetitionParts(c)[1], c.topSupplierSharePct, 0.0, 100.0)
    ensures Interpolates(CompetitionParts(c)[2], c.namedCompanies, 0.0, 10.0)
  {}

  lemma {:induction false} RegulatoryInterpolates(r: RegulatoryInputs)
    ensures |RegulatoryParts(r)| == 2
    ensures Interpolates(RegulatoryParts(r)[0], r.tariffPct, 30.0, 0.0)
    ensures Interpolates(RegulatoryParts(r)[1], r.requirements, 0.0, 8.0)
  {}

  lemma {:induction false} ProfitInterpolates(p: ProfitInputs)
    ensures |ProfitParts(p)| == 2
    ensures Interpolates(ProfitParts(p)[0], p.marginPct, 0.0, 40.0)
    ensures Interpolates(ProfitParts(p)[1],
                         if p.unitValue.Some? && p.unitValue.value != 0.0
                            && p.saudiUnitValue.Some? && p.saudiUnitValue.value != 0.0
                         then Some(p.saudiUnitValue.value / p.unitValue.value) else None, 1.5, 0.5)
  {}

  lemma {:induction false} RiskInterpolates(r: RiskInputs)
    ensures |RiskParts(r)| == 4
    ensures Interpolates(RiskParts(r)[0], r.stability, -2.5, 2.5)
    ensures Interpolates(RiskParts(r)[1], r.quality, -2.5, 2.5)
    ensures Interpolates(RiskParts(r)[2], r.logistics, 1.0, 5.0)
    ensures Interpolates(RiskParts(r)[3], r.fxVolatilityPct, 20.0, 0.0)
  {}

  /** The two weighted sums of the documentation. */
  function Documented(option: WeightOption, m: real, c: real, r: real, p: real, k: real): real {
    match option
    case A => 0.25 * m + 0.20 * c + 0.15 * r + 0.25 * p + 0.15 * k
    case B => 0.20 * m + 0.15 * c + 0.30 * r + 0.20 * p + 0.15 * k
  }

  /** With every pillar present the score is the documented weighted sum. */
  lemma {:induction false} FullScore(option: WeightOption, m: real, c: real, r: real, p: real, k: real)
    ensures Score(Weights(option), [Some(m), Some(c), Some(r), Some(p), Some(k)])
         == Some(Round(Documented(option, m, c, r, p, k), Three))
  {
    match option
    case A => FullScoreOf(0.25, 0.20, 0.15, 0.25, 0.15, m, c, r, p, k, Documented(A, m, c, r, p, k));
    case B => FullScoreOf(0.20, 0.15, 0.30, 0.20, 0.15, m, c, r, p, k, Documented(B, m, c, r, p, k));
  }

  lemma {:induction false} FullScoreOf(u: real, v: real, w: real, x: real, y: real,
                                       m: real, c: real, r: real, p: real, k: real, sum: real)
    requires u + v + w + x + y == 1.0 && sum == u * m + v * c + w * r + x * p + y * k
    ensures Score([u, v, w, x, y], [Some(m), Some(c), Some(r), Some(p), Some(k)]) == Some(Round(sum, Three))
  {
    var ws, vs := [u, v, w, x, y], [Some(m), Some(c), Some(r), Some(p), Some(k)];
    assert ws == [] + [u] + [v] + [w] + [x] + [y];
    assert vs == [] + [Some(m)] + [Some(c)] + [Some(r)] + [Some(p)] + [Some(k)];
    ScoreSnoc([], [], u, Some(m));
    ScoreSnoc([] + [u], [] + [Some(m)], v, Some(c));
    ScoreSnoc([] + [u] + [v], [] + [Some(m)] + [Some(c)], w, Some(r));
    ScoreSnoc([] + [u] + [v] + [w], [] + [Some(m)] + [Some(c)] + [Some(r)], x, Some(p));
    ScoreSnoc([] + [u] + [v] + [w] + [x], [] + [Some(m)] + [Some(c)] + [Some(r)] + [Some(p)], y, Some(k));
    assert WeightSum(ws, vs) == 1.0;
    assert Contribution(ws, vs) == sum;
    assert sum / 1.0 == sum;
  }

  // --------------------------------------- splitting off the last element

  lemma {:induction false} CountSnoc(values: seq<Option<real>>, v: Option<real>)
    ensures Count(values + [v]) == Count(values) + (if v.Some? then 1 else 0)
    ensures Sum(values + [v]) == Sum(values) + (if v.Some? then v.value else 0.0)
  {
    if values == [] {
      assert values + [v] == [v];
    } else {
      CountSnoc(values[1..], v);
      assert (values + [v])[1..] == values[1..] + [v];
    }
  }

  lemma {:induction false} ScoreSnoc(weights: seq<real>, values: seq<Option<real>>, w: real, v: Option<real>)
    requires |weights| == |values|
    ensures Contribution(weights + [w], values + [v]) == Contribution(weights, values) + Term(w, v)
    ensures WeightSum(weights + [w], values + [v])
            == WeightSum(weights, values) + (if v.Some? then w else 0.0)
  {
    if values == [] {
      assert weights + [w] == [w] && values + [v] == [v];
    } else {
      ScoreSnoc(weights[1..], values[1..], w, v);
      assert (weights + [w])[1..] == weights[1..] + [w];
      assert (values + [v])[1..] == values[1..] + [v];
    }
  }

  // ------------------------------------------------------------ the methods

  /** The weighted sum over the pillars that are present, renormalised. */
  method ScorePillars(weights: seq<real>, values: seq<Option<real>>)
    returns (score: Option<real>, missing: seq<nat>)
    requires |weights| == |values|
    ensures score == Score(weights, values)
    ensures forall i :: i in missing <==> 0 <= i < |values| && values[i] == None
    ensures |missing| + Count(values) == |values|
  {
    var contrib, total := 0.0, 0.0;
    missing := [];
    for i := 0 to |values|
      invariant contrib == Contribution(weights[..i], values[..i])
      invariant total == WeightSum(weights[..i], values[..i])
      invariant forall k :: k in missing <==> 0 <= k < i && values[k] == None
      invariant |missing| + Count(values[..i]) == i
    {
      ScoreSnoc(weights[..i], values[..i], weights[i], values[i]);
      CountSnoc(values[..i], values[i]);
      assert weights[..i + 1] == weights[..i] + [weights[i]];
      assert values[..i + 1] == values[..i] + [values[i]];
      if values[i] == None {
        missing := missing + [i];
      } else {
        contrib := contrib + weights[i] * values[i].value;
        total := total + weights[i];
      }
    }
    assert weights[..|values|] == weights && values[..|values|] == values;
    if total == 0.0 {
      return None, missing;
    }
    score := Some(Round(contrib / total, Three));
  }

  /** The open conditions: the gate first, then what is missing, then what is weak. */
  method OpenConditions(values: seq<Option<real>>, missing: seq<nat>, gateOpen: bool)
    returns (conditions: seq<Condition>)
    requires forall i :: i in missing <==> 0 <= i < |values| && values[i] == None
    ensures GateOpen in conditions <==> gateOpen
    ensures gateOpen ==> conditions[0] == GateOpen
    ensures forall i: nat :: Missing(i) in conditions <==> i < |values| && values[i] == None
    ensures forall i: nat :: Weak(i) in conditions
                             <==> i < |values| && values[i].Some? && values[i].value < 0.5
    ensures conditions == [] <==> !gateOpen && Strong(values)
  {
    conditions := [];
    for k := 0 to |missing|
      invariant forall c :: c in conditions <==> c.Missing? && c.pillar in missing[..k]
      invariant |conditions| == k
    {
      assert missing[..k + 1] == missing[..k] + [missing[k]];
      conditions := conditions + [Missing(missing[k])];
    }
    assert missing[..|missing|] == missing;
    ghost var first := conditions;
    for i := 0 to |values|
      invariant forall c :: c in conditions
                            <==> c in first
                                 || (c.Weak? && c.pillar < i && values[c.pillar].Some? && values[c.pillar].value < 0.5)
    {
      if values[i].Some? && values[i].value < 0.5 {
        conditions := conditions + [Weak(i)];
      }
    }
    ghost var listed := conditions;
    if gateOpen {
      conditions := [GateOpen] + conditions;
    }
    assert forall c :: c in conditions <==> c in listed || (gateOpen && c == GateOpen);
    assert conditions != [] ==> conditions[0] in conditions;
    if !gateOpen && !Strong(values) {
      var i :| 0 <= i < |values| && !(values[i].Some? && values[i].value >= 0.5);
      assert Missing(i) in conditions || Weak(i) in conditions;
    }
  }

  /** The tail of `decide`, once the pillars have been computed. */
  method Judge(values: seq<Option<real>>, weights: seq<real>, coverage: real, gateOpen: bool, critical: bool)
    returns (verdict: Verdict, score: Option<real>, confidence: real, conditions: seq<Condition>)
    requires |values| == |weights| == 5
    ensures score == Score(weights, values)
    ensures confidence == Confidence(coverage, values)
    ensures conditions == [] <==> !gateOpen && Strong(values)
    ensures verdict == VerdictOf(score, critical, confidence, gateOpen || !Strong(values))
  {
    var missing;
    score, missing := ScorePillars(weights, values);
    confidence := ConfidenceFrom(coverage, 5 - |missing|);
    conditions := OpenConditions(values, missing, gateOpen);
    if score == None {
      verdict := NoGo;
    } else if critical {
      verdict := NoGo;
    } else if score.value >= 0.65 && confidence >= 0.60 && conditions == [] {
      verdict := Go;
    } else if score.value < 0.45 {
      verdict := NoGo;
    } else {
      verdict := ConditionalGo;
    }
  }

  method Decide(b: Bundle, log10: Log, option: WeightOption)
    returns (verdict: Verdict, score: Option<real>, confidence: real, conditions: seq<Condition>)
    ensures verdict == Decided(b, log10, option)
    ensures score == Score(Weights(option), Effective(b, log10))
    ensures confidence == Confidence(b.coverage, Effective(b, log10))
    ensures conditions == [] <==> !b.regulatory.gateOpen && Strong(Effective(b, log10))
  {
    verdict, score, confidence, conditions :=
      Judge(Effective(b, log10), Weights(option), b.coverage, b.regulatory.gateOpen, b.risk.critical);
  }

  // --------------------------------------------------------- monotonicity

  predicate Up(x: Option<real>, y: Option<real>) {
    x.Some? == y.Some? && (x.Some? ==> x.value <= y.value)
  }

  predicate AllUp(xs: seq<Option<real>>, ys: seq<Option<real>>) {
    |xs| == |ys| && forall i | 0 <= i < |xs| :: Up(xs[i], ys[i])
  }

  /** The Saudi border price relative to the market's, which the pillar wants low. */
  predicate NoDearer(p: ProfitInputs, q: ProfitInputs) {
    HasRatio(p) && HasRatio(q) ==>
      q.saudiUnitValue.value / q.unitValue.value <= p.saudiUnitValue.value / p.unitValue.value
  }

  /** Every raw input of `c` is present where that of `b` is, and at least as good. */
  ghost predicate Better(b: Bundle, c: Bundle) {
    && HasTam(b.market) == HasTam(c.market)
    && (if HasTam(b.market) then b.market.tamUsd.value <= c.market.tamUsd.value
        else Up(b.market.activityIndex, c.market.activityIndex))
    && Up(b.market.importCagrPct, c.market.importCagrPct)
    && Truthy(b.market.gdpPerCapitaUsd) == Truthy(c.market.gdpPerCapitaUsd)
    && (Truthy(b.market.gdpPerCapitaUsd) ==> b.market.gdpPerCapitaUsd.value <= c.market.gdpPerCapitaUsd.value)
    && Up(b.market.saudiSharePct, c.market.saudiSharePct)
    && Up(c.competition.hhi, b.competition.hhi)
    && Up(c.competition.topSupplierSharePct, b.competition.topSupplierSharePct)
    && Up(c.competition.namedCompanies, b.competition.namedCompanies)
    && Up(c.regulatory.tariffPct, b.regulatory.tariffPct)
    && Up(b.regulatory.requirements, c.regulatory.requirements)
    && (c.regulatory.gateOpen ==> b.regulatory.gateOpen)
    && Up(b.profit.marginPct, c.profit.marginPct)
    && HasRatio(b.profit) == HasRatio(c.profit) && NoDearer(b.profit, c.profit)
    && Up(b.risk.stability, c.risk.stability) && Up(b.risk.quality, c.risk.quality)
    && Up(b.risk.logistics, c.risk.logistics)
    && Up(c.risk.fxVolatilityPct, b.risk.fxVolatilityPct)
    && (c.risk.critical ==> b.risk.critical)
    && b.coverage <= c.coverage
  }

  lemma {:induction false} QuotientUp(x: real, y: real, d: real)
    requires x <= y && d > 0.0
    ensures x / d <= y / d
  {
    var q := x / d;
    assert q * d == x;
    if q > y / d {
      assert (y / d) * d == y;
      assert q * d > (y / d) * d;
    }
  }

  /** A lower Saudi price, or a higher market price, is no dearer. */
  lemma {:induction false} CheaperIsNoDearer(p: ProfitInputs, q: ProfitInputs)
    requires HasRatio(p) && HasRatio(q)
    requires 0.0 < q.saudiUnitValue.value <= p.saudiUnitValue.value
    requires 0.0 < p.unitValue.value <= q.unitValue.value
    ensures NoDearer(p, q)
  {
    var ratio := p.saudiUnitValue.value / p.unitValue.value;
    assert ratio * p.unitValue.value == p.saudiUnitValue.value;
    assert ratio > 0.0;
    assert ratio * p.unitValue.value <= ratio * q.unitValue.value;
    QuotientUp(q.saudiUnitValue.value, ratio * q.unitValue.value, q.unitValue.value);
    assert (ratio * q.unitValue.value) / q.unitValue.value == ratio;
  }

  lemma {:induction false} SumUp(xs: seq<Option<real>>, ys: seq<Option<real>>)
    requires AllUp(xs, ys)
    ensures Count(xs) == Count(ys) && Sum(xs) <= Sum(ys)
  {
    if xs != [] {
      assert Up(xs[0], ys[0]);
      assert AllUp(xs[1..], ys[1..]) by {
        forall i | 0 <= i < |xs[1..]| ensures Up(xs[1..][i], ys[1..][i]) { assert Up(xs[i + 1], ys[i + 1]); }
      }
      SumUp(xs[1..], ys[1..]);
    }
  }

  lemma {:induction false} MeanUp(xs: seq<Option<real>>, ys: seq<Option<real>>)
    requires AllUp(xs, ys)
    ensures Up(MeanAvailable(xs), MeanAvailable(ys))
  {
    SumUp(xs, ys);
    if Count(xs) > 0 {
      QuotientUp(Sum(xs), Sum(ys), Count(xs) as real);
      RoundMonotone(Mean(xs), Mean(ys), Three);
    }
  }

  lemma {:induction false} MarketUp(b: Bundle, c: Bundle, log10: Log)
    requires Increasing(log10) && Better(b, c)
    ensures Up(MarketPillar(b.market, log10), MarketPillar(c.market, log10))
  {
    if HasTam(b.market) {
      assert log10(b.market.tamUsd.value) <= log10(c.market.tamUsd.value);
    }
    MeanUp(MarketParts(b.market, log10), MarketParts(c.market, log10));
  }

  lemma {:induction false} CompetitionUp(b: Bundle, c: Bundle)
    requires Better(b, c)
    ensures Up(CompetitionPillar(b.competition), CompetitionPillar(c.competition))
  {
    MeanUp(CompetitionParts(c.competition), CompetitionParts(b.competition));
  }

  lemma {:induction false} RegulatoryUp(b: Bundle, c: Bundle)
    requires Better(b, c)
    ensures Up(RegulatoryPillar(b.regulatory), RegulatoryPillar(c.regulatory))
  {
    MeanUp(RegulatoryParts(b.regulatory), RegulatoryParts(c.regulatory));
    MeanOnGrid(RegulatoryParts(c.regulatory));
    GatedUp(MeanAvailable(RegulatoryParts(b.regulatory)), MeanAvailable(RegulatoryParts(c.regulatory)),
            b.regulatory.gateOpen, c.regulatory.gateOpen);
  }

  lemma {:induction false} ProfitUp(b: Bundle, c: Bundle)
    requires Better(b, c)
    ensures Up(ProfitPillar(b.profit), ProfitPillar(c.profit))
  {
    MeanUp(ProfitParts(b.profit), ProfitParts(c.profit));
  }

  lemma {:induction false} RiskUp(b: Bundle, c: Bundle)
    requires Better(b, c)
    ensures Up(RiskPillar(b.risk), RiskPillar(c.risk))
  {
    MeanUp(RiskParts(b.risk), RiskParts(c.risk));
  }

  lemma {:induction false} GatedUp(v: Option<real>, w: Option<real>, before: bool, after: bool)
    requires Up(v, w) && (after ==> before)
    requires w.Some? ==> OnGrid(w.value, Three)
    ensures Up(Gated(v, before), Gated(w, after))
  {
    if v.Some? {
      RoundIsOnGrid(w.value, Three);
      var x, y := if v.value <= 0.3 then v.value else 0.3, if w.value <= 0.3 then w.value else 0.3;
      RoundMonotone(x, y, Three);
      RoundMonotone(x, w.value, Three);
    }
  }

  lemma {:induction false} EffectiveUp(b: Bundle, c: Bundle, log10: Log)
    requires Increasing(log10) && Better(b, c)
    ensures AllUp(Effective(b, log10), Effective(c, log10))
  {
    MarketUp(b, c, log10);
    CompetitionUp(b, c);
    RegulatoryUp(b, c);
    ProfitUp(b, c);
    RiskUp(b, c);
    FiveUp(MarketPillar(b.market, log10), CompetitionPillar(b.competition), RegulatoryPillar(b.regulatory),
           ProfitPillar(b.profit), RiskPillar(b.risk),
           MarketPillar(c.market, log10), CompetitionPillar(c.competition), RegulatoryPillar(c.regulatory),
           ProfitPillar(c.profit), RiskPillar(c.risk));
  }

  lemma {:induction false} FiveUp(
      m: Option<real>, c: Option<real>, r: Option<real>, p: Option<real>, k: Option<real>,
      m': Option<real>, c': Option<real>, r': Option<real>, p': Option<real>, k': Option<real>)
    requires Up(m, m') && Up(c, c') && Up(r, r') && Up(p, p') && Up(k, k')
    ensures AllUp([m, c, r, p, k], [m', c', r', p', k'])
  {}

  lemma {:induction false} MeanOnGrid(parts: seq<Option<real>>)
    ensures MeanAvailable(parts).Some? ==> OnGrid(MeanAvailable(parts).value, Three)
  {
    if Count(parts) > 0 { RoundIsOnGrid(Mean(parts), Three); }
  }

  lemma {:induction false} TermUp(weight: real, x: Option<real>, y: Option<real>)
    requires weight > 0.0 && Up(x, y)
    ensures Term(weight, x) <= Term(weight, y)
  {
    if x.Some? { ProductUp(x.value, y.value, weight); }
  }

  lemma {:induction false} ContributionUp(weights: seq<real>, xs: seq<Option<real>>, ys: seq<Option<real>>)
    requires |weights| == |xs| && Positive(weights) && AllUp(xs, ys)
    ensures WeightSum(weights, xs) == WeightSum(weights, ys)
    ensures Contribution(weights, xs) <= Contribution(weights, ys)
  {
    if xs != [] {
      assert Up(xs[0], ys[0]) && weights[0] > 0.0;
      TermUp(weights[0], xs[0], ys[0]);
      assert AllUp(xs[1..], ys[1..]) by {
        forall i | 0 <= i < |xs[1..]| ensures Up(xs[1..][i], ys[1..][i]) { assert Up(xs[i + 1], ys[i + 1]); }
      }
      ContributionUp(weights[1..], xs[1..], ys[1..]);
    }
  }

  lemma {:induction false} WeightSumPositive(weights: seq<real>, values: seq<Option<real>>)
    requires |weights| == |values| && Positive(weights)
    ensures WeightSum(weights, values) >= 0.0
    ensures WeightSum(weights, values) == 0.0 <==> forall i | 0 <= i < |values| :: values[i] == None
  {
    if values != [] {
      WeightSumPositive(weights[1..], values[1..]);
      assert weights[0] > 0.0;
      assert values == [values[0]] + values[1..];
    }
  }

  lemma {:induction false} ScoreUp(weights: seq<real>, xs: seq<Option<real>>, ys: seq<Option<real>>)
    requires |weights| == |xs| && Positive(weights) && AllUp(xs, ys)
    ensures Up(Score(weights, xs), Score(weights, ys))
  {
    ContributionUp(weights, xs, ys);
    WeightSumPositive(weights, xs);
    var total := WeightSum(weights, xs);
    if total != 0.0 {
      QuotientUp(Contribution(weights, xs), Contribution(weights, ys), total);
      RoundMonotone(Contribution(weights, xs) / total, Contribution(weights, ys) / total, Three);
    }
  }

  lemma {:induction false} CountBounds(values: seq<Option<real>>)
    ensures Count(values) <= |values|
    ensures Count(values) == |values| <==> forall i | 0 <= i < |values| :: values[i].Some?
  {
    if values != [] {
      CountBounds(values[1..]);
      assert values == [values[0]] + values[1..];
    }
  }

  lemma {:induction false} ConfidenceUp(before: real, after: real, xs: seq<Option<real>>, ys: seq<Option<real>>)
    requires before <= after && AllUp(xs, ys)
    ensures Confidence(before, xs) <= Confidence(after, ys)
  {
    SumUp(xs, ys);
    TimesUp(before, after, PillarShare(Count(xs)));
    RoundMonotone(Times(before, PillarShare(Count(xs))), Times(after, PillarShare(Count(xs))), Two);
  }

  lemma {:induction false} TimesUp(x: real, y: real, k: real)
    requires x <= y && k >= 0.0
    ensures Times(x, k) <= Times(y, k)
  {
    ProductUp(x, y, k);
  }

  lemma {:induction false} ProductUp(x: real, y: real, k: real)
    requires x <= y && k >= 0.0
    ensures x * k <= y * k
  {
    assert (y - x) * k >= 0.0;
    assert (y - x) * k == y * k - x * k;
  }

  lemma {:induction false} VerdictUp(s: Option<real>, t: Option<real>, before: bool, after: bool,
                                     c: real, d: real, open: bool, stillOpen: bool)
    requires Up(s, t) && (after ==> before) && c <= d && (stillOpen ==> open)
    ensures VerdictOf(s, before, c, open) == Go ==> VerdictOf(t, after, d, stillOpen) == Go
    ensures VerdictOf(s, before, c, open) == ConditionalGo ==> VerdictOf(t, after, d, stillOpen) != NoGo
  {}

  lemma {:induction false} StrongUp(xs: seq<Option<real>>, ys: seq<Option<real>>)
    requires AllUp(xs, ys) && Strong(xs)
    ensures Strong(ys)
  {
    forall i | 0 <= i < |ys| ensures ys[i].Some? && ys[i].value >= 0.5 { assert Up(xs[i], ys[i]); }
  }

  lemma {:induction false} WeightsPositive(option: WeightOption)
    ensures |Weights(option)| == 5 && Positive(Weights(option))
  {}

  /** Improving any inputs, without making one appear or disappear, never lowers
      the score and never moves the verdict down, under either set of weights. */
  lemma {:induction false} DecisionMonotone(b: Bundle, c: Bundle, log10: Log, option: WeightOption)
    requires Increasing(log10) && Better(b, c)
    ensures Up(Score(Weights(option), Effective(b, log10)), Score(Weights(option), Effective(c, log10)))
    ensures Decided(b, log10, option) == Go ==> Decided(c, log10, option) == Go
    ensures Decided(b, log10, option) == ConditionalGo ==> Decided(c, log10, option) != NoGo
  {
    var xs, ys := Effective(b, log10), Effective(c, log10);
    EffectiveUp(b, c, log10);
    WeightsPositive(option);
    ScoreUp(Weights(option), xs, ys);
    ConfidenceUp(b.coverage, c.coverage, xs, ys);
    if Strong(xs) { StrongUp(xs, ys); }
    VerdictUp(Score(Weights(option), xs), Score(Weights(option), ys), b.risk.critical, c.risk.critical,
              Confidence(b.coverage, xs), Confidence(c.coverage, ys),
              b.regulatory.gateOpen || !Strong(xs), c.regulatory.gateOpen || !Strong(ys));
  }

  // ------------------------------------------------------- score bounds

  predicate Between(lo: real, total: real, sum: real, hi: real) {
    lo * total <= sum <= hi * total
  }

  lemma {:induction false} AddTerm(total: real, sum: real, w: real, v: real, lo: real, hi: real)
    requires w > 0.0 && lo <= v <= hi && Between(lo, total, sum, hi)
    ensures Between(lo, w + total, w * v + sum, hi)
  {
    ProductUp(lo, v, w);
    ProductUp(v, hi, w);
    assert lo * (w + total) == lo * w + lo * total;
    assert hi * (w + total) == hi * w + hi * total;
  }

  lemma {:induction false} ContributionBounds(weights: seq<real>, values: seq<Option<real>>, lo: real, hi: real)
    requires |weights| == |values| && Positive(weights)
    requires forall i | 0 <= i < |values| && values[i].Some? :: lo <= values[i].value <= hi
    ensures Between(lo, WeightSum(weights, values), Contribution(weights, values), hi)
    decreases |values|
  {
    if values != [] {
      RestWithin(values, lo, hi);
      assert Positive(weights[1..]);
      ContributionBounds(weights[1..], values[1..], lo, hi);
      if values[0].Some? {
        AddTerm(WeightSum(weights[1..], values[1..]), Contribution(weights[1..], values[1..]),
                weights[0], values[0].value, lo, hi);
      }
    }
  }

  lemma {:induction false} RestWithin(values: seq<Option<real>>, lo: real, hi: real)
    requires values != []
    requires forall i | 0 <= i < |values| && values[i].Some? :: lo <= values[i].value <= hi
    ensures forall i | 0 <= i < |values[1..]| && values[1..][i].Some? :: lo <= values[1..][i].value <= hi
  {
    forall i | 0 <= i < |values[1..]| && values[1..][i].Some?
      ensures lo <= values[1..][i].value <= hi
    {
      assert values[1..][i] == values[i + 1];
    }
  }

  lemma {:induction false} QuotientBetween(x: real, d: real, lo: real, hi: real)
    requires d > 0.0 && lo * d <= x <= hi * d
    ensures lo <= x / d <= hi
  {
    QuotientUp(lo * d, x, d);
    QuotientUp(x, hi * d, d);
    assert (lo * d) / d == lo && (hi * d) / d == hi;
  }

  predicate Extremes(values: seq<Option<real>>, least: nat, most: nat) {
    && least < |values| && most < |values| && values[least].Some? && values[most].Some?
    && forall i | 0 <= i < |values| && values[i].Some? ::
         values[least].value <= values[i].value <= values[most].value
  }

  lemma {:induction false} FindExtremes(values: seq<Option<real>>) returns (least: nat, most: nat)
    requires exists i :: 0 <= i < |values| && values[i].Some?
    ensures Extremes(values, least, most)
  {
    var k := |values| - 1;
    var rest := values[..k];
    assert forall i | 0 <= i < k :: rest[i] == values[i];
    if exists i :: 0 <= i < |rest| && rest[i].Some? {
      least, most := FindExtremes(rest);
      if values[k].Some? {
        if values[k].value < rest[least].value { least := k; }
        if values[k].value > rest[most].value { most := k; }
      }
    } else {
      least, most := k, k;
    }
  }

  /** Bounds that lie on the rounding grid survive the rounding. */
  lemma {:induction false} ScoreWithin(weights: seq<real>, values: seq<Option<real>>, lo: real, hi: real)
    requires |weights| == |values| && Positive(weights) && OnGrid(lo, Three) && OnGrid(hi, Three)
    requires forall i | 0 <= i < |values| && values[i].Some? :: lo <= values[i].value <= hi
    ensures Score(weights, values).Some? ==> lo <= Score(weights, values).value <= hi
  {
    var total := WeightSum(weights, values);
    if total != 0.0 {
      WeightSumPositive(weights, values);
      ContributionBounds(weights, values, lo, hi);
      QuotientBetween(Contribution(weights, values), total, lo, hi);
      RoundMonotone(lo, Contribution(weights, values) / total, Three);
      RoundMonotone(Contribution(weights, values) / total, hi, Three);
      RoundIsOnGrid(lo, Three);
      RoundIsOnGrid(hi, Three);
    }
  }

  predicate Unit(v: Option<real>) {
    v.Some? ==> 0.0 <= v.value <= 1.0
  }

  predicate AllUnit(parts: seq<Option<real>>) {
    forall i | 0 <= i < |parts| :: Unit(parts[i])
  }

  lemma {:induction false} SumWithin(parts: seq<Option<real>>)
    requires AllUnit(parts)
    ensures 0.0 <= Sum(parts) <= Count(parts) as real
  {
    if parts != [] {
      assert Unit(parts[0]);
      SumWithin(parts[1..]);
    }
  }

  lemma {:induction false} MeanInUnit(parts: seq<Option<real>>)
    requires AllUnit(parts)
    ensures Unit(MeanAvailable(parts))
  {
    if Count(parts) > 0 {
      SumWithin(parts);
      QuotientBetween(Sum(parts), Count(parts) as real, 0.0, 1.0);
      RoundMonotone(0.0, Mean(parts), Three);
      RoundMonotone(Mean(parts), 1.0, Three);
      assert 0.0 == GridPoint(0, Three) && 1.0 == GridPoint(1000, Three);
      RoundIsOnGrid(0.0, Three);
      RoundIsOnGrid(1.0, Three);
    }
  }

  ghost predicate Graded(v: Option<real>) {
    Unit(v) && (v.Some? ==> OnGrid(v.value, Three))
  }

  lemma {:induction false} MeanGraded(parts: seq<Option<real>>)
    requires AllUnit(parts)
    ensures Graded(MeanAvailable(parts))
  {
    MeanInUnit(parts);
    MeanOnGrid(parts);
  }

  lemma {:induction false} InvertedGraded(v: Option<real>)
    requires Graded(v)
    ensures Graded(Inverted(v))
  {
    if v.Some? {
      var n: int :| v.value == GridPoint(n, Three);
      assert 1.0 - v.value == GridPoint(1000 - n, Three);
    }
  }

  lemma {:induction false} GatedGraded(v: Option<real>, gateOpen: bool)
    requires Graded(v)
    ensures Graded(Gated(v, gateOpen))
    ensures v.Some? ==>
              Gated(v, gateOpen) == Some(if gateOpen && v.value > 0.3 then 0.3 else v.value)
  {
    if gateOpen && v.Some? {
      var x := if v.value <= 0.3 then v.value else 0.3;
      assert 0.3 == GridPoint(300, Three);
      RoundIsOnGrid(0.3, Three);
      RoundIsOnGrid(v.value, Three);
    }
  }

  lemma {:induction false} MarketGraded(m: MarketInputs, log10: Log)
    ensures Graded(MarketPillar(m, log10))
  {
    MeanGraded(MarketParts(m, log10));
  }

  lemma {:induction false} CompetitionGraded(c: CompetitionInputs)
    ensures Graded(CompetitionPillar(c))
  {
    MeanGraded(CompetitionParts(c));
    InvertedGraded(MeanAvailable(CompetitionParts(c)));
  }

  lemma {:induction false} RegulatoryGraded(r: RegulatoryInputs)
    ensures Graded(RegulatoryPillar(r))
  {
    MeanGraded(RegulatoryParts(r));
    GatedGraded(MeanAvailable(RegulatoryParts(r)), r.gateOpen);
  }

  lemma {:induction false} ProfitGraded(p: ProfitInputs)
    ensures Graded(ProfitPillar(p))
  {
    MeanGraded(ProfitParts(p));
  }

  lemma {:induction false} RiskGraded(r: RiskInputs)
    ensures Graded(RiskPillar(r))
  {
    MeanGraded(RiskParts(r));
  }

  /** Every pillar that counts is a multiple of 0.001 between 0 and 1. */
  lemma {:induction false} PillarsGraded(b: Bundle, log10: Log, i: nat)
    requires i < 5
    ensures Graded(Effective(b, log10)[i])
  {
    match i
    case 0 => MarketGraded(b.market, log10);
    case 1 => CompetitionGraded(b.competition);
    case 2 => RegulatoryGraded(b.regulatory);
    case 3 => ProfitGraded(b.profit);
    case 4 => RiskGraded(b.risk);
  }

  // ------------------------------------------------- what a pillar is made of

  /** The sum of those of the first `n` components that are present. */
  function Total(parts: seq<Option<real>>, n: nat): real
    requires n <= |parts|
  {
    if n == 0 then 0.0 else Total(parts, n - 1) + if parts[n - 1] == None then 0.0 else parts[n - 1].value
  }

  /** `score` is `sum` over `total`, to the nearest thousandth. */
  ghost predicate IsQuotient(score: real, sum: real, total: real) {
    && OnGrid(score, Three)
    && Times(score - 0.0005, total) <= sum <= Times(score + 0.0005, total)
  }

  lemma {:induction false} RoundedQuotient(sum: real, total: real)
    requires total > 0.0
    ensures IsQuotient(Round(sum / total, Three), sum, total)
  {
    var score := Round(sum / total, Three);
    RoundIsOnGrid(sum / total, Three);
    RoundIsNearest(sum / total, Three);
    assert Times(sum / total, total) == sum;
    TimesUp(score - 0.0005, sum / total, total);
    TimesUp(sum / total, score + 0.0005, total);
  }

  /** The mean of the components that are present, to the nearest thousandth; none
      where none is. */
  ghost predicate IsMean(v: Option<real>, parts: seq<Option<real>>) {
    var n := |set i: nat | i < |parts| && parts[i].Some?| as real;
    && (v == None <==> forall i | 0 <= i < |parts| :: parts[i] == None)
    && (v.Some? ==> IsQuotient(v.value, Total(parts, |parts|), n))
  }

  lemma {:induction false} TotalIsSum(parts: seq<Option<real>>, n: nat)
    requires n <= |parts|
    ensures Total(parts, n) == Sum(parts[..n])
  {
    if n > 0 {
      TotalIsSum(parts, n - 1);
      CountSnoc(parts[..n - 1], parts[n - 1]);
      assert parts[..n] == parts[..n - 1] + [parts[n - 1]];
    }
  }

  lemma {:induction false} CountNone(parts: seq<Option<real>>)
    ensures Count(parts) == 0 <==> forall i | 0 <= i < |parts| :: parts[i] == None
  {
    if parts != [] {
      CountNone(parts[1..]);
      assert parts == [parts[0]] + parts[1..];
    }
  }

  lemma {:induction false} MeanIs(parts: seq<Option<real>>)
    ensures IsMean(MeanAvailable(parts), parts)
  {
    var n := |parts|;
    CountIsPresent(parts, n);
    TotalIsSum(parts, n);
    CountNone(parts);
    assert parts[..n] == parts;
    if Count(parts) > 0 { RoundedQuotient(Sum(parts), Count(parts) as real); }
  }

  /** One minus a mean: what competition counts for. */
  ghost predicate IsInverseMean(v: Option<real>, parts: seq<Option<real>>) {
    exists intensity :: IsMean(intensity, parts) && v == if intensity == None then None else Some(1.0 - intensity.value)
  }

  /** A mean that an open gate cuts at 0.3. */
  ghost predicate IsGatedMean(v: Option<real>, parts: seq<Option<real>>, gateOpen: bool) {
    exists fit :: IsMean(fit, parts) && v == if fit.Some? && fit.value > 0.3 && gateOpen then Some(0.3) else fit
  }

  lemma {:induction false} CompetitionIs(c: CompetitionInputs)
    ensures IsInverseMean(CompetitionPillar(c), CompetitionParts(c))
  {
    MeanIs(CompetitionParts(c));
  }

  lemma {:induction false} RegulatoryIs(r: RegulatoryInputs)
    ensures IsGatedMean(RegulatoryPillar(r), RegulatoryParts(r), r.gateOpen)
  {
    MeanIs(RegulatoryParts(r));
    MeanGraded(RegulatoryParts(r));
    GatedGraded(MeanAvailable(RegulatoryParts(r)), r.gateOpen);
  }

  /** Every pillar is the mean of its components that are present, the competition one
      taken from 1 and the regulatory one cut at 0.3 by an open gate. */
  lemma {:induction false} PillarsAreMeans(b: Bundle, log10: Log)
    ensures IsMean(Effective(b, log10)[0], MarketParts(b.market, log10))
    ensures IsInverseMean(Effective(b, log10)[1], CompetitionParts(b.competition))
    ensures IsGatedMean(Effective(b, log10)[2], RegulatoryParts(b.regulatory), b.regulatory.gateOpen)
    ensures IsMean(Effective(b, log10)[3], ProfitParts(b.profit))
    ensures IsMean(Effective(b, log10)[4], RiskParts(b.risk))
  {
    MeanIs(MarketParts(b.market, log10));
    CompetitionIs(b.competition);
    RegulatoryIs(b.regulatory);
    MeanIs(ProfitParts(b.profit));
    MeanIs(RiskParts(b.risk));
  }

  /** The score exists when a pillar does, and never leaves the range of the
      pillars that count: rounding included, under either set of weights. */
  lemma {:induction false} ScoreBetweenPillars(b: Bundle, log10: Log, option: WeightOption)
    ensures Score(Weights(option), Effective(b, log10)).Some?
            <==> exists i: nat :: i < 5 && Effective(b, log10)[i].Some?
    ensures Score(Weights(option), Effective(b, log10)).Some? ==>
              exists least: nat, most: nat :: Extremes(Effective(b, log10), least, most)
                && Effective(b, log10)[least].value <= Score(Weights(option), Effective(b, log10)).value
                   <= Effective(b, log10)[most].value
  {
    var values := Effective(b, log10);
    WeightsPositive(option);
    WeightSumPositive(Weights(option), values);
    if exists i :: 0 <= i < |values| && values[i].Some? {
      var least, most := FindExtremes(values);
      PillarsGraded(b, log10, least);
      PillarsGraded(b, log10, most);
      ScoreWithin(Weights(option), values, values[least].value, values[most].value);
    }
  }

  // --------------------------------------------------------------- verdicts

  lemma {:induction false} FullConfidence(coverage: real, values: seq<Option<real>>)
    requires |values| == 5 && Strong(values)
    ensures Count(values) == 5
    ensures Confidence(coverage, values) >= 0.60 <==> coverage >= 0.595
  {
    CountBounds(values);
    assert Times(coverage, PillarShare(5)) == coverage;
    RoundTo60(coverage);
  }

  lemma {:induction false} RoundTo60(x: real)
    ensures Round(x, Two) >= 0.60 <==> x >= 0.595
  {
    assert RoundInt(59.5) == 60;
    if x >= 0.595 {
      RoundIntMonotone(59.5, Scaled(x, Two));
    } else {
      assert RoundInt(Scaled(x, Two)) <= 59;
    }
  }

  /** GO exactly when all five pillars are present and at least 0.5, no gate is
      open, the risk is not critical, the score reaches 0.65, and coverage
      reaches 0.595: the confidence is compared after rounding to two places. */
  lemma {:induction false} GoExactly(b: Bundle, log10: Log, option: WeightOption)
    ensures Decided(b, log10, option) == Go
            <==> && (forall i | 0 <= i < 5 :: Effective(b, log10)[i].Some? && Effective(b, log10)[i].value >= 0.5)
                 && !b.regulatory.gateOpen && !b.risk.critical && b.coverage >= 0.595
                 && Score(Weights(option), Effective(b, log10)).Some?
                 && Score(Weights(option), Effective(b, log10)).value >= 0.65
  {
    if Strong(Effective(b, log10)) { FullConfidence(b.coverage, Effective(b, log10)); }
  }

  /** NO-GO exactly when no pillar could be computed, the risk is critical, or the
      score is below 0.45. */
  lemma {:induction false} NoGoExactly(b: Bundle, log10: Log, option: WeightOption)
    ensures Decided(b, log10, option) == NoGo
            <==> || (forall i | 0 <= i < 5 :: Effective(b, log10)[i] == None)
                 || b.risk.critical
                 || (var score := Score(Weights(option), Effective(b, log10)); score.Some? && score.value < 0.45)
  {
    WeightsPositive(option);
    WeightSumPositive(Weights(option), Effective(b, log10));
  }

  /** Five pillars of at least 0.65 settle the score whatever the weights. */
  lemma {:induction false} StrongPillarsGo(b: Bundle, log10: Log, option: WeightOption)
    requires forall i | 0 <= i < 5 ::
               Effective(b, log10)[i].Some? && Effective(b, log10)[i].value >= 0.65
    requires !b.regulatory.gateOpen && !b.risk.critical && b.coverage >= 0.595
    ensures Decided(b, log10, option) == Go
  {
    ScoreAtLeast(b, log10, option, 650);
    GoExactly(b, log10, option);
  }

  lemma {:induction false} ScoreAtLeast(b: Bundle, log10: Log, option: WeightOption, lo: int)
    requires forall i | 0 <= i < 5 ::
               Effective(b, log10)[i].Some? && Effective(b, log10)[i].value >= GridPoint(lo, Three)
    ensures Score(Weights(option), Effective(b, log10)).Some?
    ensures Score(Weights(option), Effective(b, log10)).value >= GridPoint(lo, Three)
  {
    var values := Effective(b, log10);
    WeightsPositive(option);
    WeightSumPositive(Weights(option), values);
    assert values[0].Some?;
    forall i | 0 <= i < |values| && values[i].Some?
      ensures GridPoint(lo, Three) <= values[i].value <= GridPoint(1000, Three)
    {
      PillarsGraded(b, log10, i);
    }
    assert OnGrid(GridPoint(lo, Three), Three) && OnGrid(GridPoint(1000, Three), Three);
    ScoreWithin(Weights(option), values, GridPoint(lo, Three), GridPoint(1000, Three));
  }

  /** Choosing the other weights can never turn a GO into a NO-GO. */
  lemma {:induction false} WeightsNeverReverse(b: Bundle, log10: Log, option: WeightOption, other: WeightOption)
    requires Decided(b, log10, option) == Go
    ensures Decided(b, log10, other) != NoGo
    ensures Score(Weights(other), Effective(b, log10)).Some?
            && Score(Weights(other), Effective(b, log10)).value >= 0.5
  {
    GoExactly(b, log10, option);
    ScoreAtLeast(b, log10, other, 500);
  }

  /** Whatever is missing, the confidence is the coverage in proportion to the pillars that
      could be computed, to the nearest hundredth. */
  lemma {:induction false} ConfidenceIsShare(coverage: real, values: seq<Option<real>>)
    requires |values| == 5
    ensures var computed := set i: nat | i < 5 && values[i].Some?;
            coverage * |computed| as real - 0.025 <= 5.0 * Confidence(coverage, values)
                                                  <= coverage * |computed| as real + 0.025
  {
    CountIsPresent(values, 5);
    assert values[..5] == values;
    FifthOf(coverage, Count(values));
    RoundIsNearest(Times(coverage, PillarShare(Count(values))), Two);
  }

  lemma {:induction false} FifthOf(coverage: real, n: nat)
    ensures 5.0 * Times(coverage, PillarShare(n)) == coverage * n as real
  {
    assert 5.0 * PillarShare(n) == n as real;
  }

  lemma {:induction false} CountIsPresent(values: seq<Option<real>>, n: nat)
    requires n <= |values|
    ensures Count(values[..n]) == |set i: nat | i < n && values[i].Some?|
  {
    var present := set i: nat | i < n && values[i].Some?;
    if n == 0 {
      assert present == {};
    } else {
      CountIsPresent(values, n - 1);
      CountSnoc(values[..n - 1], values[n - 1]);
      assert values[..n] == values[..n - 1] + [values[n - 1]];
      var before := set i: nat | i < n - 1 && values[i].Some?;
      assert present == if values[n - 1].Some? then before + {n - 1} else before;
    }
  }

  /** The documented sum of what the pillars that are present contribute, and of their
      weights alone. */
  function Contributed(option: WeightOption, m: Option<real>, c: Option<real>, r: Option<real>,
                       p: Option<real>, k: Option<real>): real {
    Documented(option, if m == None then 0.0 else m.value, if c == None then 0.0 else c.value,
               if r == None then 0.0 else r.value, if p == None then 0.0 else p.value,
               if k == None then 0.0 else k.value)
  }

  function Weighed(option: WeightOption, m: Option<real>, c: Option<real>, r: Option<real>,
                   p: Option<real>, k: Option<real>): real {
    Documented(option, if m == None then 0.0 else 1.0, if c == None then 0.0 else 1.0,
               if r == None then 0.0 else 1.0, if p == None then 0.0 else 1.0, if k == None then 0.0 else 1.0)
  }

  lemma {:induction false} SumsOf(u: real, v: real, w: real, x: real, y: real,
                                  m: Option<real>, c: Option<real>, r: Option<real>, p: Option<real>, k: Option<real>)
    ensures Contribution([u, v, w, x, y], [m, c, r, p, k])
         == Term(u, m) + Term(v, c) + Term(w, r) + Term(x, p) + Term(y, k)
    ensures WeightSum([u, v, w, x, y], [m, c, r, p, k])
         == (if m.Some? then u else 0.0) + (if c.Some? then v else 0.0) + (if r.Some? then w else 0.0)
            + (if p.Some? then x else 0.0) + (if k.Some? then y else 0.0)
  {
    assert [u, v, w, x, y] == [] + [u] + [v] + [w] + [x] + [y];
    assert [m, c, r, p, k] == [] + [m] + [c] + [r] + [p] + [k];
    ScoreSnoc([], [], u, m);
    ScoreSnoc([] + [u], [] + [m], v, c);
    ScoreSnoc([] + [u] + [v], [] + [m] + [c], w, r);
    ScoreSnoc([] + [u] + [v] + [w], [] + [m] + [c] + [r], x, p);
    ScoreSnoc([] + [u] + [v] + [w] + [x], [] + [m] + [c] + [r] + [p], y, k);
  }

  lemma {:induction false} SumsAreDocumented(option: WeightOption, m: Option<real>, c: Option<real>, r: Option<real>,
                                             p: Option<real>, k: Option<real>)
    ensures Contribution(Weights(option), [m, c, r, p, k]) == Contributed(option, m, c, r, p, k)
    ensures WeightSum(Weights(option), [m, c, r, p, k]) == Weighed(option, m, c, r, p, k)
  {
    match option
    case A => SumsOf(0.25, 0.20, 0.15, 0.25, 0.15, m, c, r, p, k);
    case B => SumsOf(0.20, 0.15, 0.30, 0.20, 0.15, m, c, r, p, k);
  }

  lemma {:induction false} WeighedNothing(option: WeightOption, m: Option<real>, c: Option<real>, r: Option<real>,
                                          p: Option<real>, k: Option<real>)
    ensures Weighed(option, m, c, r, p, k) >= 0.0
    ensures Weighed(option, m, c, r, p, k) == 0.0
            <==> m == None && c == None && r == None && p == None && k == None
  {}

  /** Whatever is missing, the score is what the present pillars contribute by the
      documented weights, in proportion to those weights, to the nearest thousandth. */
  lemma {:induction false} ScoreRenormalises(option: WeightOption, m: Option<real>, c: Option<real>, r: Option<real>,
                                             p: Option<real>, k: Option<real>)
    ensures var score := Score(Weights(option), [m, c, r, p, k]);
            && (score == None <==> m == None && c == None && r == None && p == None && k == None)
            && (score.Some? ==>
                  IsQuotient(score.value, Contributed(option, m, c, r, p, k), Weighed(option, m, c, r, p, k)))
  {
    SumsAreDocumented(option, m, c, r, p, k);
    WeighedNothing(option, m, c, r, p, k);
    var total, sum := Weighed(option, m, c, r, p, k), Contributed(option, m, c, r, p, k);
    if total != 0.0 { RoundedQuotient(sum, total); }
  }

  // -------------------------------------- an input that was absent before

  lemma {:induction false} CountFilled(parts: seq<Option<real>>, i: nat, v: real)
    requires i < |parts| && parts[i] == None
    ensures Count(parts[i := Some(v)]) == Count(parts) + 1
    ensures Sum(parts[i := Some(v)]) == Sum(parts) + v
  {
    var filled := parts[i := Some(v)];
    if i == 0 {
      assert filled[1..] == parts[1..];
    } else {
      CountFilled(parts[1..], i - 1, v);
      assert filled[1..] == parts[1..][i - 1 := Some(v)];
    }
  }

  /** A component that appears lowers the mean of its pillar, before rounding,
      exactly when it lies below it: presence is not an improvement. */
  lemma {:induction false} NewComponentExactly(parts: seq<Option<real>>, i: nat, v: real)
    requires i < |parts| && parts[i] == None && Count(parts) > 0
    ensures Count(parts[i := Some(v)]) > 0
    ensures Mean(parts[i := Some(v)]) < Mean(parts) <==> v < Mean(parts)
  {
    CountFilled(parts, i, v);
    MeanShift(Sum(parts), Count(parts) as real, v);
  }

  /** Halfway between `k` thousandths and the thousandth below. */
  function Halfway(k: int): real {
    (k as real - 0.5) / 1000.0
  }

  lemma {:induction false} RoundFalls(mean: real, k: int)
    ensures Round(mean, Three) < GridPoint(k, Three)
            <==> mean < Halfway(k) || (mean == Halfway(k) && k % 2 == 1)
  {
    RoundsBelow(Scaled(mean, Three), k);
  }

  /** The component with which the mean of a pillar of rounded value `k` thousandths
      lies halfway to the thousandth below. */
  function Tipping(parts: seq<Option<real>>, k: int): real {
    Times(Halfway(k), (Count(parts) + 1) as real) - Sum(parts)
  }

  lemma {:induction false} MeanAgainst(sum: real, v: real, n: real, half: real)
    requires n > 0.0
    ensures (sum + v) / n < half <==> v < Times(half, n) - sum
    ensures (sum + v) / n == half <==> v == Times(half, n) - sum
  {
    QuotientAgainst(sum + v, n, half);
  }

  lemma {:induction false} FilledMean(parts: seq<Option<real>>, i: nat, v: real)
    requires i < |parts| && parts[i] == None && Count(parts) > 0
    ensures MeanAvailable(parts[i := Some(v)])
         == Some(Round((Sum(parts) + v) / (Count(parts) + 1) as real, Three))
  {
    CountFilled(parts, i, v);
  }

  /** The pillar itself, which is rounded, falls when a component appears exactly
      when the component is below the tipping point, or on it and `k` is odd:
      halves are rounded to the even thousandth. */
  lemma {:induction false} NewComponentLowersPillarExactly(parts: seq<Option<real>>, i: nat, v: real)
    requires i < |parts| && parts[i] == None && Count(parts) > 0
    ensures var k := RoundInt(Scaled(Mean(parts), Three));
            var before, after := MeanAvailable(parts), MeanAvailable(parts[i := Some(v)]);
            && before == Some(GridPoint(k, Three)) && after.Some?
            && (after.value < before.value
                <==> v < Tipping(parts, k) || (v == Tipping(parts, k) && k % 2 == 1))
  {
    var k, n := RoundInt(Scaled(Mean(parts), Three)), (Count(parts) + 1) as real;
    FilledMean(parts, i, v);
    RoundFalls((Sum(parts) + v) / n, k);
    MeanAgainst(Sum(parts), v, n, Halfway(k));
  }

  lemma {:induction false} RoundsBelow(x: real, k: int)
    ensures RoundInt(x) < k <==> x < k as real - 0.5 || (x == k as real - 0.5 && k % 2 == 1)
  {}

  lemma {:induction false} QuotientAgainst(x: real, d: real, q: real)
    requires d > 0.0
    ensures x / d < q <==> x < q * d
    ensures x / d == q <==> x == q * d
  {
    var p := x / d;
    assert p * d == x;
    assert p < q ==> (q - p) * d > 0.0;
    assert p > q ==> (p - q) * d > 0.0;
  }

  lemma {:induction false} MeanShift(sum: real, n: real, v: real)
    requires n > 0.0
    ensures (sum + v) / (n + 1.0) < sum / n <==> v < sum / n
  {
    var mean, shifted := sum / n, (sum + v) / (n + 1.0);
    assert mean * n == sum && shifted * (n + 1.0) == sum + v;
    assert (shifted - mean) * (n + 1.0) == v - mean;
    assert shifted < mean ==> (shifted - mean) * (n + 1.0) < 0.0;
    assert shifted >= mean ==> (shifted - mean) * (n + 1.0) >= 0.0;
  }

  /** Growth of 26%, no competition, no tariff, a 40% margin, full stability. */
  function Excellent(gdp: Option<real>): Bundle {
    Bundle(MarketInputs(None, Some(26.0), gdp, None, None),
           CompetitionInputs(Some(0.0), None, None),
           RegulatoryInputs(Some(0.0), None, false),
           ProfitInputs(Some(40.0), None, None),
           RiskInputs(Some(2.5), None, None, None, false), 1.0)
  }

  lemma {:induction false} NonePresent(parts: seq<Option<real>>)
    requires forall i | 0 <= i < |parts| :: parts[i] == None
    ensures Count(parts) == 0 && Sum(parts) == 0.0
  {
    if parts != [] { NonePresent(parts[1..]); }
  }

  lemma {:induction false} OnePresent(parts: seq<Option<real>>, k: nat)
    requires k < |parts| && parts[k].Some?
    requires forall i | 0 <= i < |parts| && i != k :: parts[i] == None
    ensures Count(parts) == 1 && Sum(parts) == parts[k].value
  {
    if k == 0 { NonePresent(parts[1..]); } else { OnePresent(parts[1..], k - 1); }
  }

  lemma {:induction false} LoneMean(parts: seq<Option<real>>, k: nat)
    requires k < |parts| && parts[k].Some?
    requires forall i | 0 <= i < |parts| && i != k :: parts[i] == None
    ensures MeanAvailable(parts) == Some(Round(parts[k].value, Three))
  {
    OnePresent(parts, k);
    assert Mean(parts) == parts[k].value;
  }

  lemma {:induction false} ExcellentRest(gdp: Option<real>, log10: Log)
    ensures forall i | 1 <= i < 5 :: Effective(Excellent(gdp), log10)[i] == Some(1.0)
  {
    var b := Excellent(gdp);
    LoneMean(CompetitionParts(b.competition), 0);
    LoneMean(RegulatoryParts(b.regulatory), 0);
    LoneMean(ProfitParts(b.profit), 0);
    LoneMean(RiskParts(b.risk), 0);
    assert 0.0 == GridPoint(0, Three) && 1.0 == GridPoint(1000, Three);
    RoundIsOnGrid(0.0, Three);
    RoundIsOnGrid(1.0, Three);
  }

  lemma {:induction false} MarketWithoutIncome(gdp: Option<real>, log10: Log)
    requires !Truthy(gdp)
    ensures Effective(Excellent(gdp), log10)[0] == Some(0.9)
  {
    LoneMean(MarketParts(Excellent(gdp).market, log10), 1);
    assert 0.9 == GridPoint(900, Three);
    RoundIsOnGrid(0.9, Three);
  }

  const GROWTH_ONLY: seq<Option<real>> := [None, Some(0.9), None, None]

  lemma {:induction false} IncomePart(gdp: real, log10: Log)
    requires 0.0 < gdp <= 4000.0
    ensures MarketParts(Excellent(Some(gdp)).market, log10) == GROWTH_ONLY[2 := Some(gdp / 50000.0)]
  {}

  lemma {:induction false} RoundedBetween(mean: real)
    requires 0.45 <= mean <= 0.49
    ensures 0.45 <= Round(mean, Three) <= 0.49
  {
    RoundMonotone(0.45, mean, Three);
    RoundMonotone(mean, 0.49, Three);
    assert 0.45 == GridPoint(450, Three) && 0.49 == GridPoint(490, Three);
    RoundIsOnGrid(0.45, Three);
    RoundIsOnGrid(0.49, Three);
  }

  lemma {:induction false} MarketWithIncome(gdp: real, log10: Log)
    requires 0.0 < gdp <= 4000.0
    ensures MarketPillar(Excellent(Some(gdp)).market, log10).Some?
    ensures 0.45 <= MarketPillar(Excellent(Some(gdp)).market, log10).value <= 0.49
  {
    IncomePart(gdp, log10);
    GrowthAndIncome(gdp / 50000.0);
  }

  lemma {:induction false} GrowthAndIncome(v: real)
    requires 0.0 < v <= 0.08
    ensures MeanAvailable(GROWTH_ONLY[2 := Some(v)]).Some?
    ensures 0.45 <= MeanAvailable(GROWTH_ONLY[2 := Some(v)]).value <= 0.49
  {
    GrowthPresent();
    FilledMean(GROWTH_ONLY, 2, v);
    QuotientBetween(Sum(GROWTH_ONLY) + v, (Count(GROWTH_ONLY) + 1) as real, 0.45, 0.49);
    RoundedBetween((Sum(GROWTH_ONLY) + v) / (Count(GROWTH_ONLY) + 1) as real);
  }

  lemma {:induction false} GrowthPresent()
    ensures Count(GROWTH_ONLY) == 1 && Sum(GROWTH_ONLY) == 0.9
  {
    OnePresent(GROWTH_ONLY, 1);
  }

  /** A market falls from GO to CONDITIONAL-GO when its income per head becomes
      known to be anything up to 4000 dollars; zero counts as unknown. */
  lemma {:induction false} KnownIncomeLosesGo(gdp: real, log10: Log, option: WeightOption)
    requires 0.0 < gdp <= 4000.0
    ensures Decided(Excellent(None), log10, option) == Go
    ensures Decided(Excellent(Some(0.0)), log10, option) == Go
    ensures Decided(Excellent(Some(gdp)), log10, option) == ConditionalGo
  {
    MarketWithoutIncome(None, log10);
    MarketWithoutIncome(Some(0.0), log10);
    ExcellentRest(None, log10);
    ExcellentRest(Some(0.0), log10);
    StrongPillarsGo(Excellent(None), log10, option);
    StrongPillarsGo(Excellent(Some(0.0)), log10, option);
    PoorerConditional(gdp, log10, option);
  }

  lemma {:induction false} PoorerConditional(gdp: real, log10: Log, option: WeightOption)
    requires 0.0 < gdp <= 4000.0
    ensures Decided(Excellent(Some(gdp)), log10, option) == ConditionalGo
  {
    MarketWithIncome(gdp, log10);
    ExcellentRest(Some(gdp), log10);
    assert GridPoint(450, Three) == 0.45;
    ScoreAtLeast(Excellent(Some(gdp)), log10, option, 450);
    GoExactly(Excellent(Some(gdp)), log10, option);
    NoGoExactly(Excellent(Some(gdp)), log10, option);
  }
}
